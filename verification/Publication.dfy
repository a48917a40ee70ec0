/** The published view under concurrent commits and restarts (crates/daemon/src/chain.rs,
    crates/daemon/src/run.rs, crates/store/src/lib.rs). Each `committed` call
    persists its state, stores its block and then publishes; calls from the
    consensus driver and the sync path interleave step by step. Queries are
    answered from the published view alone, and a process starts from whatever
    the previous one left on disk. */
module Publication {
  import opened Base

  type Root = Hash32

  /** A state, of which only its root matters here. */
  type State = nat

  datatype Header = Header(height: nat, appHash: Root)

  datatype Stage = Entered | StatePersisted | Stored | Finished | Failed

  /** One `committed` call and how far it got. */
  datatype Call = Call(header: Header, state: State, stage: Stage)

  /** The chain this node follows: one block for each height, the root of each
      state, and the state genesis builds. */
  datatype Chain = Chain(block: nat -> Header, root: State -> Root, genesis: State) {
    ghost predicate Valid() { root(genesis) == block(0).appHash }
  }

  /** What survives the process: blocks, persisted states and the recorded height (zero when none is). */
  datatype Disk = Disk(blocks: map<nat, Header>, states: set<State>, tip: nat)

  const EMPTY: Disk := Disk(map[], {}, 0)

  datatype System = System(disk: Disk, at: nat, published: State, calls: map<nat, Call>)

  datatype Step =
    | Enter(ticket: nat, header: Header, state: State)
    | PersistState(ticket: nat, ok: bool)
    | PutBlock(ticket: nat, ok: bool)
    | Publish(ticket: nat)

  /** A call enters with a block of the chain and the state that block's header commits to. */
  predicate Enabled(ch: Chain, s: System, step: Step) {
    match step
    case Enter(t, header, state) =>
      t !in s.calls && header == ch.block(header.height) && ch.root(state) == header.appHash
    case PersistState(t, _) => t in s.calls && s.calls[t].stage == Entered
    case PutBlock(t, _) => t in s.calls && s.calls[t].stage == StatePersisted
    case Publish(t) => t in s.calls && s.calls[t].stage == Stored
  }

  function Moved(s: System, t: nat, stage: Stage): System
    requires t in s.calls
  {
    s.(calls := s.calls[t := s.calls[t].(stage := stage)])
  }

  /** The view moves forward or stays. */
  function Advanced(at: nat, published: State, height: nat, state: State): (nat, State) {
    if height < at then (at, published) else (height, state)
  }

  /** `put_block`: the recorded height follows the newest block and never rewinds. */
  function Put(d: Disk, header: Header): Disk {
    d.(blocks := d.blocks[header.height := header], tip := if header.height >= d.tip then header.height else d.tip)
  }

  function Apply(ch: Chain, s: System, step: Step): System
    requires Enabled(ch, s, step)
  {
    match step
    case Enter(t, header, state) => s.(calls := s.calls[t := Call(header, state, Entered)])
    case PersistState(t, ok) =>
      if ok then Moved(s, t, StatePersisted).(disk := s.disk.(states := s.disk.states + {s.calls[t].state}))
      else Moved(s, t, Failed)
    case PutBlock(t, ok) =>
      if ok then Moved(s, t, Stored).(disk := Put(s.disk, s.calls[t].header)) else Moved(s, t, Failed)
    case Publish(t) =>
      var c := s.calls[t];
      var (at, published) := Advanced(s.at, s.published, c.header.height, c.state);
      Moved(s, t, Finished).(at := at, published := published)
  }

  predicate Legal(ch: Chain, s: System, steps: seq<Step>)
    decreases |steps|
  {
    steps == [] || (Enabled(ch, s, steps[0]) && Legal(ch, Apply(ch, s, steps[0]), steps[1..]))
  }

  function Run(ch: Chain, s: System, steps: seq<Step>): System
    requires Legal(ch, s, steps)
    decreases |steps|
  {
    if steps == [] then s else Run(ch, Apply(ch, s, steps[0]), steps[1..])
  }

  // -- starting -------------------------------------------------------------

  predicate Loads(ch: Chain, d: Disk, state: State) {
    d.tip in d.blocks && state in d.states && ch.root(state) == d.blocks[d.tip].appHash
  }

  predicate Replays(ch: Chain, d: Disk, state: State) {
    (forall h :: 1 <= h <= d.tip ==> h in d.blocks) && d.tip in d.blocks && ch.root(state) == d.blocks[d.tip].appHash
  }

  /** `open_state`: genesis when no block is recorded, else the tip's state, loaded or replayed. */
  predicate Opens(ch: Chain, d: Disk, state: State) {
    if d.tip == 0 then state == ch.genesis else Loads(ch, d, state) || Replays(ch, d, state)
  }

  /** A process starts publishing the opened state at the recorded height. */
  function Start(d: Disk, state: State): System { System(d, d.tip, state, map[]) }

  // -- the invariant --------------------------------------------------------

  /** Some persisted state has the root this header names. */
  ghost predicate Held(ch: Chain, d: Disk, header: Header) {
    exists state :: state in d.states && ch.root(state) == header.appHash
  }

  /** What is durable is the chain, up to the recorded height, each block after its state. */
  ghost predicate DiskInv(ch: Chain, d: Disk) {
    && (forall h :: h in d.blocks ==> d.blocks[h] == ch.block(h) && h <= d.tip && Held(ch, d, d.blocks[h]))
    && (d.tip != 0 ==> d.tip in d.blocks)
  }

  /** What is published is a state of the chain, and its block is durable past genesis. */
  ghost predicate Inv(ch: Chain, s: System) {
    && DiskInv(ch, s.disk)
    && ch.root(s.published) == ch.block(s.at).appHash && (s.at != 0 ==> s.at in s.disk.blocks)
    && (forall t :: t in s.calls ==> CallInv(ch, s.disk, s.calls[t]))
  }

  ghost predicate CallInv(ch: Chain, d: Disk, c: Call) {
    && c.header == ch.block(c.header.height) && ch.root(c.state) == c.header.appHash
    && (c.stage == StatePersisted || c.stage == Stored || c.stage == Finished ==> c.state in d.states)
    && (c.stage == Stored || c.stage == Finished ==> c.header.height in d.blocks)
  }

  /** Nothing durable is lost or changed. */
  ghost predicate Keeps(a: Disk, b: Disk) {
    && (forall h :: h in a.blocks ==> h in b.blocks && b.blocks[h] == a.blocks[h])
    && a.states <= b.states && a.tip <= b.tip
  }

  /** Every way a process can start establishes the invariant: on an empty store,
      from a loaded state, and by replay. */
  lemma StartMeetsInv(ch: Chain, d: Disk, state: State)
    requires ch.Valid() && DiskInv(ch, d) && Opens(ch, d, state)
    ensures Inv(ch, Start(d, state))
  {
  }

  /** Storing one block of the chain whose state is already persisted. */
  lemma PutKeepsDiskInv(ch: Chain, d: Disk, header: Header, state: State)
    requires DiskInv(ch, d) && header == ch.block(header.height)
    requires state in d.states && ch.root(state) == header.appHash
    ensures DiskInv(ch, Put(d, header)) && Keeps(d, Put(d, header))
  {
    var put := Put(d, header);
    forall h | h in put.blocks
      ensures put.blocks[h] == ch.block(h) && h <= put.tip && Held(ch, put, put.blocks[h])
    {
      assert h in d.blocks ==> Held(ch, d, d.blocks[h]);
    }
  }

  lemma PersistKeepsDiskInv(ch: Chain, d: Disk, state: State)
    requires DiskInv(ch, d)
    ensures var grown := d.(states := d.states + {state}); DiskInv(ch, grown) && Keeps(d, grown)
  {
    var grown := d.(states := d.states + {state});
    forall h | h in grown.blocks ensures Held(ch, grown, grown.blocks[h]) {
      assert Held(ch, d, d.blocks[h]);
    }
  }

  lemma StepKeepsInv(ch: Chain, s: System, step: Step)
    requires Inv(ch, s) && Enabled(ch, s, step)
    ensures var next := Apply(ch, s, step);
      Inv(ch, next) && next.at >= s.at && Keeps(s.disk, next.disk)
  {
    var next := Apply(ch, s, step);
    assert step.Enter? || CallInv(ch, s.disk, s.calls[step.ticket]);
    if step.PersistState? {
      PersistKeepsDiskInv(ch, s.disk, s.calls[step.ticket].state);
    } else if step.PutBlock? {
      PutKeepsDiskInv(ch, s.disk, s.calls[step.ticket].header, s.calls[step.ticket].state);
    }
    forall t | t in next.calls ensures CallInv(ch, next.disk, next.calls[t]) {
      assert t in s.calls ==> CallInv(ch, s.disk, s.calls[t]);
    }
  }

  /** For every interleaving: the published height never decreases and nothing durable changes. */
  lemma {:induction false} ViewNeverGoesBack(ch: Chain, s: System, steps: seq<Step>)
    requires Inv(ch, s) && Legal(ch, s, steps)
    ensures var last := Run(ch, s, steps);
      Inv(ch, last) && last.at >= s.at && Keeps(s.disk, last.disk)
    decreases |steps|
  {
    if steps != [] {
      StepKeepsInv(ch, s, steps[0]);
      ViewNeverGoesBack(ch, Apply(ch, s, steps[0]), steps[1..]);
    }
  }

  // -- what is published ----------------------------------------------------

  ghost predicate IsPublished(s: System, c: Call) {
    c.stage == Finished && c.header.height == s.at && c.state == s.published
  }

  /** The view is at the highest call that finished, or where the process started if none got past it. */
  ghost predicate AtHighest(s: System, at: nat, state: State) {
    && at <= s.at && (forall t :: t in s.calls && s.calls[t].stage == Finished ==> s.calls[t].header.height <= s.at)
    && ((s.at == at && s.published == state) || exists t :: t in s.calls && IsPublished(s, s.calls[t]))
  }

  lemma StepKeepsAtHighest(ch: Chain, s: System, step: Step, at: nat, state: State)
    requires AtHighest(s, at, state) && Enabled(ch, s, step)
    ensures AtHighest(Apply(ch, s, step), at, state)
  {
    var next := Apply(ch, s, step);
    if step.Publish? && s.calls[step.ticket].header.height >= s.at {
      assert IsPublished(next, next.calls[step.ticket]);
    } else if t :| t in s.calls && IsPublished(s, s.calls[t]) {
      assert IsPublished(next, next.calls[t]);
    }
  }

  /** In every interleaving the view is neither behind a finished call nor ahead of all of them. */
  lemma {:induction false} PublishesTheHighest(ch: Chain, s: System, steps: seq<Step>, at: nat, state: State)
    requires AtHighest(s, at, state) && Legal(ch, s, steps)
    ensures AtHighest(Run(ch, s, steps), at, state)
    decreases |steps|
  {
    if steps != [] {
      StepKeepsAtHighest(ch, s, steps[0], at, state);
      PublishesTheHighest(ch, Apply(ch, s, steps[0]), steps[1..], at, state);
    }
  }

  /** A write that fails ends its call, and nothing durable and nothing published differs. */
  lemma FailureChangesNothing(ch: Chain, s: System, step: Step)
    requires Enabled(ch, s, step) && (step.PersistState? || step.PutBlock?) && !step.ok
    ensures var next := Apply(ch, s, step);
      && next.disk == s.disk && next.at == s.at && next.published == s.published
      && next.calls[step.ticket].stage == Failed
  {
  }

  /** And its call never takes another step. */
  lemma {:induction false} FailedStaysFailed(ch: Chain, s: System, steps: seq<Step>, t: nat)
    requires Legal(ch, s, steps) && t in s.calls && s.calls[t].stage == Failed
    ensures t in Run(ch, s, steps).calls && Run(ch, s, steps).calls[t] == s.calls[t]
    decreases |steps|
  {
    if steps != [] {
      FailedStaysFailed(ch, Apply(ch, s, steps[0]), steps[1..], t);
    }
  }

  // -- lives ----------------------------------------------------------------

  /** One process: the state it opened and the steps it took before it stopped, wherever that was. */
  datatype Life = Life(start: State, steps: seq<Step>)

  predicate Lived(ch: Chain, d: Disk, life: Life) {
    Opens(ch, d, life.start) && Legal(ch, Start(d, life.start), life.steps)
  }

  function Ends(ch: Chain, d: Disk, life: Life): System
    requires Lived(ch, d, life)
  {
    Run(ch, Start(d, life.start), life.steps)
  }

  /** Each process starts from what the one before it left on disk. */
  predicate History(ch: Chain, d: Disk, lives: seq<Life>)
    decreases |lives|
  {
    lives == [] || (Lived(ch, d, lives[0]) && History(ch, Ends(ch, d, lives[0]).disk, lives[1..]))
  }

  function Latest(ch: Chain, d: Disk, lives: seq<Life>): System
    requires lives != [] && History(ch, d, lives)
    decreases |lives|
  {
    var ended := Ends(ch, d, lives[0]);
    if |lives| == 1 then ended else Latest(ch, ended.disk, lives[1..])
  }

  lemma LifeKeepsDisk(ch: Chain, d: Disk, life: Life)
    requires ch.Valid() && DiskInv(ch, d) && Lived(ch, d, life)
    ensures var last := Ends(ch, d, life);
      && Inv(ch, last) && last.at >= d.tip && last.at <= last.disk.tip && Keeps(d, last.disk)
      && AtHighest(last, d.tip, life.start)
  {
    StartMeetsInv(ch, d, life.start);
    PublishesTheHighest(ch, Start(d, life.start), life.steps, d.tip, life.start);
    ViewNeverGoesBack(ch, Start(d, life.start), life.steps);
  }

  /** Over any number of crashes and restarts. */
  lemma {:induction false} RestartsKeepInv(ch: Chain, d: Disk, lives: seq<Life>)
    requires ch.Valid() && DiskInv(ch, d) && lives != [] && History(ch, d, lives)
    ensures var last := Latest(ch, d, lives);
      Inv(ch, last) && last.at >= d.tip && Keeps(d, last.disk)
    decreases |lives|
  {
    LifeKeepsDisk(ch, d, lives[0]);
    if |lives| > 1 {
      RestartsKeepInv(ch, Ends(ch, d, lives[0]).disk, lives[1..]);
    }
  }

  /** A restarted process never answers at a lower height than the one before it did. */
  lemma RestartNeverGoesBack(ch: Chain, d: Disk, life: Life, lives: seq<Life>)
    requires ch.Valid() && DiskInv(ch, d) && Lived(ch, d, life)
    requires lives != [] && History(ch, Ends(ch, d, life).disk, lives)
    ensures Latest(ch, Ends(ch, d, life).disk, lives).at >= Ends(ch, d, life).at
  {
    LifeKeepsDisk(ch, d, life);
    RestartsKeepInv(ch, Ends(ch, d, life).disk, lives);
  }

  /** In every process of every history, a call that finished is never ahead of
      the view of its own process or of any later one. */
  lemma {:induction false} FinishedIsPublished(ch: Chain, d: Disk, life: Life, lives: seq<Life>, t: nat)
    requires ch.Valid() && DiskInv(ch, d) && Lived(ch, d, life)
    requires lives != [] && History(ch, Ends(ch, d, life).disk, lives)
    requires t in Ends(ch, d, life).calls && Ends(ch, d, life).calls[t].stage == Finished
    ensures var height := Ends(ch, d, life).calls[t].header.height;
      height <= Ends(ch, d, life).at && height <= Latest(ch, Ends(ch, d, life).disk, lives).at
  {
    LifeKeepsDisk(ch, d, life);
    RestartNeverGoesBack(ch, d, life, lives);
  }

  /** Because the state is written before the block, a start past genesis always
      finds the tip's state on disk, wherever the process before it stopped. */
  lemma RestartLoads(ch: Chain, lives: seq<Life>) returns (state: State)
    requires ch.Valid() && lives != [] && History(ch, EMPTY, lives)
    ensures var d := Latest(ch, EMPTY, lives).disk;
      Opens(ch, d, state) && (d.tip != 0 ==> Loads(ch, d, state))
  {
    RestartsKeepInv(ch, EMPTY, lives);
    var d := Latest(ch, EMPTY, lives).disk;
    state := ch.genesis;
    if d.tip != 0 {
      assert Held(ch, d, d.blocks[d.tip]);
      state :| state in d.states && ch.root(state) == d.blocks[d.tip].appHash;
    }
  }

  // -- answers --------------------------------------------------------------

  /** `prove`: the label and the state the proof is built from, out of one lock. */
  function Prove(s: System): (nat, State) { (s.at, s.published) }

  /** The answer's height has a stored header, and that header commits to the answer's state. */
  predicate ChecksOut(ch: Chain, s: System) {
    var (height, state) := Prove(s);
    height in s.disk.blocks && s.disk.blocks[height].appHash == ch.root(state)
  }

  /** In every interleaving of every process, an answer can be checked against a
      stored header exactly when it is about a height past genesis, or block
      zero is stored. */
  lemma {:induction false} AnswersCheckOut(ch: Chain, lives: seq<Life>)
    requires ch.Valid() && lives != [] && History(ch, EMPTY, lives)
    ensures var last := Latest(ch, EMPTY, lives);
      ChecksOut(ch, last) <==> (last.at > 0 || 0 in last.disk.blocks)
  {
    RestartsKeepInv(ch, EMPTY, lives);
  }

  /** No call carries the genesis block, as no decided or synced height is zero. */
  predicate PastGenesis(steps: seq<Step>) {
    forall i :: 0 <= i < |steps| ==> steps[i].Enter? ==> steps[i].header.height > 0
  }

  ghost predicate NothingAtZero(s: System) {
    0 !in s.disk.blocks && forall t :: t in s.calls ==> s.calls[t].header.height > 0
  }

  lemma {:induction false} BlockZeroStaysOut(ch: Chain, s: System, steps: seq<Step>)
    requires Legal(ch, s, steps) && NothingAtZero(s) && PastGenesis(steps)
    ensures NothingAtZero(Run(ch, s, steps))
    decreases |steps|
  {
    if steps != [] {
      var next := Apply(ch, s, steps[0]);
      assert steps[0].Enter? || s.calls[steps[0].ticket].header.height > 0;
      assert NothingAtZero(next);
      assert PastGenesis(steps[1..]) by {
        assert forall i :: 0 <= i < |steps| - 1 ==> steps[1..][i] == steps[i + 1];
      }
      BlockZeroStaysOut(ch, next, steps[1..]);
    }
  }

  /** On a fresh chain the answers before the first publication are the ones no
      stored header backs: block zero is never stored. */
  lemma {:induction false} FreshChainAnswers(ch: Chain, steps: seq<Step>)
    requires ch.Valid() && Legal(ch, Start(EMPTY, ch.genesis), steps) && PastGenesis(steps)
    ensures var last := Run(ch, Start(EMPTY, ch.genesis), steps);
      ChecksOut(ch, last) <==> last.at > 0
    ensures !ChecksOut(ch, Start(EMPTY, ch.genesis)) && Prove(Start(EMPTY, ch.genesis)) == (0, ch.genesis)
  {
    var life := Life(ch.genesis, steps);
    assert Lived(ch, EMPTY, life) && History(ch, EMPTY, [life]) by {
      assert [life][1..] == [];
    }
    AnswersCheckOut(ch, [life]);
    BlockZeroStaysOut(ch, Start(EMPTY, ch.genesis), steps);
  }

  lemma {:induction false} StepFirst(ch: Chain, s: System, step: Step, rest: seq<Step>)
    requires Enabled(ch, s, step) && Legal(ch, Apply(ch, s, step), rest)
    ensures Legal(ch, s, [step] + rest) && Run(ch, s, [step] + rest) == Run(ch, Apply(ch, s, step), rest)
  {
    assert ([step] + rest)[0] == step && ([step] + rest)[1..] == rest;
  }

  /** Labelling an answer with the newest stored height instead is wrong between
      storing a block and publishing it, whenever the two states differ in root. */
  lemma TipLabelMisleads(ch: Chain, s: System, t: nat, state: State)
    requires Inv(ch, s) && t !in s.calls && ch.block(s.disk.tip + 1).height == s.disk.tip + 1
    requires ch.root(state) == ch.block(s.disk.tip + 1).appHash != ch.root(s.published)
    ensures var steps := [Enter(t, ch.block(s.disk.tip + 1), state), PersistState(t, true), PutBlock(t, true)];
      && Legal(ch, s, steps)
      && var last := Run(ch, s, steps);
         && last.disk.tip == s.disk.tip + 1 && last.disk.tip in last.disk.blocks
         && last.disk.blocks[last.disk.tip].appHash != ch.root(Prove(last).1)
  {
    var e, p, b := Enter(t, ch.block(s.disk.tip + 1), state), PersistState(t, true), PutBlock(t, true);
    var s1 := Apply(ch, s, e);
    var s2 := Apply(ch, s1, p);
    var s3 := Apply(ch, s2, b);
    StepFirst(ch, s2, b, []);
    StepFirst(ch, s1, p, [b] + []);
    StepFirst(ch, s, e, [p] + ([b] + []));
    assert [e, p, b] == [e] + ([p] + ([b] + []));
    assert Run(ch, s, [e, p, b]) == s3;
  }

  // -- the guarded value ----------------------------------------------------

  class Published {
    var at: nat
    var state: State

    constructor (at: nat, state: State)
      ensures this.at == at && this.state == state
    {
      this.at := at;
      this.state := state;
    }

    method Advance(height: nat, newer: State) returns (moved: bool)
      modifies this
      ensures (at, state) == Advanced(old(at), old(state), height, newer)
      ensures moved <==> height >= old(at)
      ensures at >= old(at)
    {
      if height < at {
        return false;
      }
      state := newer;
      at := height;
      return true;
    }
  }
}
