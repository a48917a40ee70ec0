/** The forking run itself, phase by phase, and the exact condition. */
module ForkRun {
  import opened Base
  import opened Validators
  import opened Votes
  import opened Rounds
  import opened Signing
  import opened Nodes
  import opened ExactAgreement
  import opened Forks

  type Minds = map<Address, Option<Hash32>>

  // -- one node gathers the votes of a smallest quorum ----------------------

  lemma {:induction false} Ordered(g: set<Address>) returns (from: seq<Address>)
    ensures Elems(from) == g
    decreases |g|
  {
    if g == {} {
      from := [];
    } else {
      var a :| a in g;
      var rest := Ordered(g - {a});
      from := [a] + rest;
      assert Elems(from) == {a} + Elems(rest);
    }
  }

  /** The node once it holds the whole ballot of its group. */
  ghost function Full(cfg: Setup, n: Node, r: nat, kind: VoteType, val: Minds, g: set<Address>): Node
    requires g <= val.Keys
  {
    Holding(n, Ballot(cfg, r, kind, val, g))
  }

  /** What counting the whole ballot does. */
  ghost function Counted(cfg: Setup, w: Address, n: Node, kind: VoteType): (Node, set<SignedVote>, set<Proposal>) {
    if kind == Prevote then (CountPrevotes(cfg, w, n).0, CountPrevotes(cfg, w, n).1, {})
    else (CountPrecommits(cfg, n), {}, {})
  }

  lemma FullHolds(cfg: Setup, w: Address, n: Node, r: nat, kind: VoteType, val: Minds, g: set<Address>)
    requires w in g && g <= val.Keys && AtStage(cfg, w, n, Cast(r, kind, val[w]))
    ensures Held(Full(cfg, n, r, kind, val, g).inbox, r, kind) == Ballot(cfg, r, kind, val, g)
    ensures forall s :: s in Full(cfg, n, r, kind, val, g).inbox ==> VoteStamp(s.vote) <= Stamp(r, StepOf(kind))
  {
    assert Ballot(cfg, r, kind, val, {w}) == {SignedBy(cfg, r, kind, val[w], w)};
    HeldWith(cfg, n, r, kind, val, {w}, g);
    assert {w} + g == g;
  }

  lemma Gather(cfg: Setup, pool: set<SignedVote>, offers: set<Proposal>, w: Address, n: Node, r: nat, kind: VoteType,
               val: Minds, g: set<Address>) returns (events: seq<Event>)
    requires Smallest(cfg.vs, g) && w in g && g != {w} && g <= val.Keys && Ballot(cfg, r, kind, val, g) <= pool
    requires AtStage(cfg, w, n, Cast(r, kind, val[w]))
    ensures Feasible(Rules(cfg, w), Chances(cfg, pool, offers), n, events)
    ensures Local(Rules(cfg, w), n, events) == Counted(cfg, w, Full(cfg, n, r, kind, val, g), kind)
  {
    var z :| z in g && z != w;
    var m := Holding(n, Ballot(cfg, r, kind, val, g - {w} - {z}));
    var s := SignedBy(cfg, r, kind, val[z], z);
    var quiet := AllButOne(cfg, pool, offers, w, n, r, kind, val, g, z);
    LastVote(cfg, w, n, m, r, kind, val, g, z);
    assert s in Ballot(cfg, r, kind, val, g);
    Happening(cfg, pool, offers, w, m, Delivered(s));
    events := quiet + [Delivered(s)];
    ThenOne(Rules(cfg, w), Chances(cfg, pool, offers), n, quiet, m, Delivered(s));
  }

  lemma AllButOne(cfg: Setup, pool: set<SignedVote>, offers: set<Proposal>, w: Address, n: Node, r: nat, kind: VoteType,
                  val: Minds, g: set<Address>, z: Address) returns (events: seq<Event>)
    requires Smallest(cfg.vs, g) && w in g && z in g && z != w && g <= val.Keys && Ballot(cfg, r, kind, val, g) <= pool
    requires AtStage(cfg, w, n, Cast(r, kind, val[w]))
    ensures Feasible(Rules(cfg, w), Chances(cfg, pool, offers), n, events)
    ensures Local(Rules(cfg, w), n, events) == (Holding(n, Ballot(cfg, r, kind, val, g - {w} - {z})), {}, {})
  {
    var from := Ordered(g - {w} - {z});
    assert Ballot(cfg, r, kind, val, {w}) == {SignedBy(cfg, r, kind, val[w], w)};
    assert {w} + (g - {w} - {z}) == g - {z};
    QuietVotes(cfg, pool, offers, w, n, r, kind, val, g, {w}, from);
    events := Deliveries(Listed(cfg, r, kind, val, from));
  }

  /** Quiet deliveries, then one event. */
  lemma {:induction false} ThenOne(react: Reaction, can: (Node, Event) -> bool, n: Node, quiet: seq<Event>, m: Node,
                                   e: Event)
    requires Feasible(react, can, n, quiet) && Local(react, n, quiet) == (m, {}, {}) && can(m, e)
    ensures Feasible(react, can, n, quiet + [e]) && Local(react, n, quiet + [e]) == react(m, e)
  {
    LocalOne(react, can, m, e);
    LocalConcat(react, can, n, quiet, [e]);
    var (n1, votes, offers) := react(m, e);
    assert {} + votes == votes && {} + offers == offers;
  }

  lemma LastVote(cfg: Setup, w: Address, n: Node, m: Node, r: nat, kind: VoteType, val: Minds, g: set<Address>,
                 z: Address)
    requires w in g && z in g && z != w && g <= val.Keys && AtStage(cfg, w, n, Cast(r, kind, val[w]))
    requires m == Holding(n, Ballot(cfg, r, kind, val, g - {w} - {z}))
    ensures React(cfg, w, m, Delivered(SignedBy(cfg, r, kind, val[z], z)))
      == Counted(cfg, w, Full(cfg, n, r, kind, val, g), kind)
  {
    var s := SignedBy(cfg, r, kind, val[z], z);
    var own := SignedBy(cfg, r, kind, val[w], w);
    assert own in Held(n.inbox, r, kind);
    assert Ballot(cfg, r, kind, val, g) == Ballot(cfg, r, kind, val, g - {w} - {z}) + {s} + {own};
    assert m.inbox + {s} == n.inbox + Ballot(cfg, r, kind, val, g);
    assert Holding(m, {s}) == Full(cfg, n, r, kind, val, g);
  }

  // -- what a node reaches --------------------------------------------------

  /** A group of more than one whose parts settle nothing. */
  ghost predicate Group(cfg: Setup, g: set<Address>, w: Address) {
    cfg.vs.Valid() && Smallest(cfg.vs, g) && w in g && g != {w}
  }

  /** A vote cast alone settles nothing. */
  lemma AloneSettlesNothing(cfg: Setup, r: nat, kind: VoteType, v: Option<Hash32>, g: set<Address>, w: Address)
    requires Group(cfg, g, w)
    ensures QuorumIn(cfg.vs, {SignedBy(cfg, r, kind, v, w)}).None? && !AnyQuorum(cfg.vs, {SignedBy(cfg, r, kind, v, w)})
  {
    var val: Minds := map a | a in g :: v;
    assert Ballot(cfg, r, kind, val, {w}) == {SignedBy(cfg, r, kind, v, w)};
    PartSettlesNothing(cfg, r, kind, val, g, {w});
  }

  /** Casting a precommit where none is held yet. */
  lemma PrecommitCast(cfg: Setup, g: set<Address>, w: Address, n: Node, r: nat, v: Option<Hash32>)
    requires Group(cfg, g, w) && n.rs.round == r && n.rs.step == Precommitting && n.decided.None?
    requires n.lastStamp == Stamp(r, Prevoting)
      && (forall s :: s in n.inbox ==> VoteStamp(s.vote) <= Stamp(r, Prevoting))
    requires (n.begun.Some? ==> n.begun.value <= r) && (forall k :: k in n.proposals ==> k <= r)
    requires WaitsBefore(n, Stamp(r, Precommitting))
    ensures var (next, votes) := EmitPrecommit(cfg, w, n, v);
      && votes == {SignedBy(cfg, r, Precommit, v, w)} && AtStage(cfg, w, next, Cast(r, Precommit, v))
      && next.rs == n.rs && next.proposals == n.proposals
  {
    var own := SignedBy(cfg, r, Precommit, v, w);
    AloneSettlesNothing(cfg, r, Precommit, v, g, w);
    assert Held(n.inbox + {own}, r, Precommit) == {own};
  }

  /** A ballot of one mind: the prevotes carry, and the node precommits the same. */
  lemma PrevotesCarry(cfg: Setup, pool: set<SignedVote>, offers: set<Proposal>, w: Address, n: Node, r: nat, val: Minds,
                      g: set<Address>, v: Option<Hash32>, aim: Aim)
    requires Group(cfg, g, w) && g <= val.Keys && Ballot(cfg, r, Prevote, val, g) <= pool
      && (forall a :: a in g ==> val[a] == v)
    requires aim.stage == Cast(r, Prevote, v) && Meets(cfg, w, n, aim)
    ensures CanReach(cfg, pool, offers, w, n, Aim(Cast(r, Precommit, v), v.None?, v.None? && aim.blank, aim.holds))
  {
    var events := Gather(cfg, pool, offers, w, n, r, Prevote, val, g);
    var full := Full(cfg, n, r, Prevote, val, g);
    FullHolds(cfg, w, n, r, Prevote, val, g);
    WholeSettles(cfg, r, Prevote, val, g, v);
    var (rs, d) := AfterPrevotes(full.rs, Some(v));
    PrecommitCast(cfg, g, w, full.(rs := rs), r, v);
    assert CountPrevotes(cfg, w, full) == EmitPrecommit(cfg, w, full.(rs := rs), v);
    var next := EmitPrecommit(cfg, w, full.(rs := rs), v).0;
    assert forall b :: b in aim.holds ==> Knows(next, b) by { KnowsSame(n, next, aim.holds); }
  }

  lemma KnowsSame(n: Node, next: Node, holds: set<Hash32>)
    requires next.proposals == n.proposals && forall b :: b in holds ==> Knows(n, b)
    ensures forall b :: b in holds ==> Knows(next, b)
  {
    forall b | b in holds ensures Knows(next, b) {
      assert Knows(n, b);
    }
  }

  /** A smallest quorum of two minds: the node asks for the timer of its step. */
  lemma Arms(cfg: Setup, pool: set<SignedVote>, offers: set<Proposal>, w: Address, n: Node, r: nat, kind: VoteType,
             val: Minds, g: set<Address>, x: Address, y: Address) returns (events: seq<Event>, armed: Node)
    requires Group(cfg, g, w) && g <= val.Keys && Ballot(cfg, r, kind, val, g) <= pool
    requires x in g && y in g && val[x] != val[y] && AtStage(cfg, w, n, Cast(r, kind, val[w]))
    ensures Feasible(Rules(cfg, w), Chances(cfg, pool, offers), n, events)
    ensures Local(Rules(cfg, w), n, events) == (armed, {}, {})
    ensures armed == n.(inbox := armed.inbox, waits := n.waits + {(r, StepOf(kind))},
                        timers := n.timers + {(r, StepOf(kind))})
    ensures forall s :: s in armed.inbox ==> VoteStamp(s.vote) <= Stamp(r, StepOf(kind))
  {
    events := Gather(cfg, pool, offers, w, n, r, kind, val, g);
    var full := Full(cfg, n, r, kind, val, g);
    FullHolds(cfg, w, n, r, kind, val, g);
    MixedSettlesNothing(cfg, r, kind, val, g, x, y);
    assert (r, StepOf(kind)) !in n.waits by {
      assert !(Stamp(r, StepOf(kind)) < Stamp(r, StepOf(kind)));
    }
    armed := Arm(full, StepOf(kind));
    assert Counted(cfg, w, full, kind) == (armed, {}, {});
  }

  /** And the timer can fire. */
  lemma Fires(cfg: Setup, pool: set<SignedVote>, offers: set<Proposal>, w: Address, n: Node, quiet: seq<Event>,
              armed: Node, step: Step) returns (events: seq<Event>)
    requires Feasible(Rules(cfg, w), Chances(cfg, pool, offers), n, quiet)
    requires Local(Rules(cfg, w), n, quiet) == (armed, {}, {})
    requires armed.decided.None? && (armed.rs.round, step) in armed.timers
    ensures Feasible(Rules(cfg, w), Chances(cfg, pool, offers), n, events)
    ensures Local(Rules(cfg, w), n, events) == React(cfg, w, armed, TimedOut(armed.rs.round, step))
  {
    var fired := TimedOut(armed.rs.round, step);
    Happening(cfg, pool, offers, w, armed, fired);
    ThenOne(Rules(cfg, w), Chances(cfg, pool, offers), n, quiet, armed, fired);
    events := quiet + [fired];
  }

  /** A ballot of two minds: the node asks for the timer, and when it fires precommits nil. */
  lemma PrevotesTear(cfg: Setup, pool: set<SignedVote>, offers: set<Proposal>, w: Address, n: Node, r: nat, val: Minds,
                     g: set<Address>, x: Address, y: Address, aim: Aim)
    requires Group(cfg, g, w) && g <= val.Keys && Ballot(cfg, r, Prevote, val, g) <= pool
    requires x in g && y in g && val[x] != val[y]
    requires aim.stage == Cast(r, Prevote, val[w]) && Meets(cfg, w, n, aim)
    ensures CanReach(cfg, pool, offers, w, n, aim.(stage := Cast(r, Precommit, None)))
  {
    var quiet, armed := Arms(cfg, pool, offers, w, n, r, Prevote, val, g, x, y);
    var events := Fires(cfg, pool, offers, w, n, quiet, armed, Prevoting);
    PrevoteTimerFires(cfg, g, w, n, armed, r, val[w], aim);
  }

  lemma PrevoteTimerFires(cfg: Setup, g: set<Address>, w: Address, n: Node, armed: Node, r: nat, v: Option<Hash32>,
                          aim: Aim)
    requires Group(cfg, g, w) && aim.stage == Cast(r, Prevote, v) && Meets(cfg, w, n, aim)
    requires armed == n.(inbox := armed.inbox, waits := n.waits + {(r, Prevoting)},
                         timers := n.timers + {(r, Prevoting)})
    requires forall s :: s in armed.inbox ==> VoteStamp(s.vote) <= Stamp(r, Prevoting)
    ensures var (next, votes, offers) := React(cfg, w, armed, TimedOut(r, Prevoting));
      Meets(cfg, w, next, aim.(stage := Cast(r, Precommit, None))) && votes == {SignedBy(cfg, r, Precommit, None, w)}
  {
    var waiting := armed.(timers := armed.timers - {(r, Prevoting)}, rs := armed.rs.(step := Precommitting));
    PrecommitCast(cfg, g, w, waiting, r, None);
    KnowsSame(n, EmitPrecommit(cfg, w, waiting, None).0, aim.holds);
  }

  /** Precommits of one mind for a block the node holds: it commits. */
  lemma PrecommitsCommit(cfg: Setup, pool: set<SignedVote>, offers: set<Proposal>, w: Address, n: Node, r: nat,
                         val: Minds, g: set<Address>, b: Hash32, aim: Aim)
    requires Group(cfg, g, w) && g <= val.Keys && Ballot(cfg, r, Precommit, val, g) <= pool
    requires (forall a :: a in g ==> val[a] == Some(b)) && b in aim.holds
    requires aim.stage == Cast(r, Precommit, Some(b)) && Meets(cfg, w, n, aim)
    ensures CanReach(cfg, pool, offers, w, n, Aim(Committed(b), false, false, {}))
  {
    var events := Gather(cfg, pool, offers, w, n, r, Precommit, val, g);
    var full := Full(cfg, n, r, Precommit, val, g);
    FullHolds(cfg, w, n, r, Precommit, val, g);
    WholeSettles(cfg, r, Precommit, val, g, Some(b));
    KnowsSame(n, full, aim.holds);
    assert CountPrecommits(cfg, full) == full.(decided := Some(b), certified := r);
  }

  /** An aim that asks no more of locks, memory and blocks. */
  ghost predicate Milder(to: Aim, aim: Aim) {
    (to.unlocked ==> aim.unlocked) && (to.blank ==> aim.blank) && to.holds <= aim.holds
  }

  lemma NextRound(cfg: Setup, w: Address, n: Node, next: Node, r: nat, v: Option<Hash32>, aim: Aim, to: Aim)
    requires aim.stage == Cast(r, Precommit, v) && Meets(cfg, w, n, aim)
    requires next == n.(rs := AdvancedTo(n.rs, r + 1), inbox := next.inbox, waits := next.waits, timers := next.timers)
    requires WaitsBefore(next, Stamp(r + 1, Propose))
    requires forall s :: s in next.inbox ==> VoteStamp(s.vote) <= Stamp(r, Precommitting)
    requires to.stage == Starting(r + 1) && Milder(to, aim)
    ensures Meets(cfg, w, next, to)
  {
    KnowsSame(n, next, aim.holds);
  }

  /** Precommits of nil throughout: the next round. */
  lemma PrecommitsMoveOn(cfg: Setup, pool: set<SignedVote>, offers: set<Proposal>, w: Address, n: Node, r: nat,
                         val: Minds, g: set<Address>, aim: Aim, to: Aim)
    requires Group(cfg, g, w) && g <= val.Keys && Ballot(cfg, r, Precommit, val, g) <= pool
      && (forall a :: a in g ==> val[a] == None)
    requires aim.stage == Cast(r, Precommit, None) && Meets(cfg, w, n, aim)
    requires to.stage == Starting(r + 1) && Milder(to, aim)
    ensures CanReach(cfg, pool, offers, w, n, to)
  {
    var events := Gather(cfg, pool, offers, w, n, r, Precommit, val, g);
    var full := Full(cfg, n, r, Precommit, val, g);
    FullHolds(cfg, w, n, r, Precommit, val, g);
    WholeSettles(cfg, r, Precommit, val, g, None);
    var next := full.(rs := AdvancedTo(full.rs, r + 1));
    assert CountPrecommits(cfg, full) == next;
    NextRound(cfg, w, n, next, r, None, aim, to);
  }

  /** Precommits of two minds: the node asks for the timer, and when it fires moves to the next round. */
  lemma PrecommitsTear(cfg: Setup, pool: set<SignedVote>, offers: set<Proposal>, w: Address, n: Node, r: nat,
                       val: Minds, g: set<Address>, x: Address, y: Address, aim: Aim, to: Aim)
    requires Group(cfg, g, w) && g <= val.Keys && Ballot(cfg, r, Precommit, val, g) <= pool
    requires x in g && y in g && val[x] != val[y]
    requires aim.stage == Cast(r, Precommit, val[w]) && Meets(cfg, w, n, aim)
    requires to.stage == Starting(r + 1) && Milder(to, aim)
    ensures CanReach(cfg, pool, offers, w, n, to)
  {
    var quiet, armed := Arms(cfg, pool, offers, w, n, r, Precommit, val, g, x, y);
    var events := Fires(cfg, pool, offers, w, n, quiet, armed, Precommitting);
    PrecommitTimerFires(cfg, w, n, armed, r, val[w], aim, to);
  }

  lemma PrecommitTimerFires(cfg: Setup, w: Address, n: Node, armed: Node, r: nat, v: Option<Hash32>, aim: Aim, to: Aim)
    requires aim.stage == Cast(r, Precommit, v) && Meets(cfg, w, n, aim)
    requires armed == n.(inbox := armed.inbox, waits := n.waits + {(r, Precommitting)},
                         timers := n.timers + {(r, Precommitting)})
    requires forall s :: s in armed.inbox ==> VoteStamp(s.vote) <= Stamp(r, Precommitting)
    requires to.stage == Starting(r + 1) && Milder(to, aim)
    ensures Meets(cfg, w, React(cfg, w, armed, TimedOut(r, Precommitting)).0, to)
  {
    var next := armed.(timers := armed.timers - {(r, Precommitting)}, rs := AdvancedTo(armed.rs, r + 1));
    NextRound(cfg, w, n, next, r, v, aim, to);
  }

  // -- the start of a round -------------------------------------------------

  /** Casting a prevote where none is held yet. */
  lemma PrevoteCast(cfg: Setup, g: set<Address>, w: Address, n: Node, r: nat, v: Option<Hash32>)
    requires Group(cfg, g, w) && n.rs.round == r && n.rs.step == Prevoting && n.decided.None?
      && n.lastStamp <= Stamp(r, Propose)
    requires forall s :: s in n.inbox ==> VoteStamp(s.vote) < Stamp(r, Propose)
    requires (n.begun.Some? ==> n.begun.value <= r) && (forall k :: k in n.proposals ==> k <= r)
    requires WaitsBefore(n, Stamp(r, Prevoting))
    ensures var (next, votes) := EmitPrevote(cfg, w, n, v);
      && votes == {SignedBy(cfg, r, Prevote, v, w)} && AtStage(cfg, w, next, Cast(r, Prevote, v))
      && next.rs == n.rs && next.proposals == n.proposals
  {
    var own := SignedBy(cfg, r, Prevote, v, w);
    AloneSettlesNothing(cfg, r, Prevote, v, g, w);
    assert Held(n.inbox + {own}, r, Prevote) == {own};
  }

  /** Hearing a proposal that executes, unlocked: the node prevotes it and holds it. */
  lemma Hears(cfg: Setup, g: set<Address>, w: Address, n: Node, r: nat, p: Proposal, holds: set<Hash32>)
    requires Group(cfg, g, w) && n.rs.round == r && n.decided.None? && n.lastStamp <= Stamp(r, Propose)
      && n.rs.lockedValue.None?
    requires forall s :: s in n.inbox ==> VoteStamp(s.vote) < Stamp(r, Propose)
    requires (n.begun.Some? ==> n.begun.value <= r) && (forall k :: k in n.proposals ==> k < r)
    requires WaitsBefore(n, Stamp(r, Propose))
    requires p.round == r && p.proposer == cfg.proposer(r) && cfg.executes(p.block)
    requires forall b :: b in holds ==> Knows(n, b)
    ensures var (next, votes) := Hear(cfg, w, n, p);
      && votes == {SignedBy(cfg, r, Prevote, Some(p.block), w)}
      && AtStage(cfg, w, next, Cast(r, Prevote, Some(p.block)))
      && next.rs.lockedValue.None? && next.rs.validValue == n.rs.validValue
      && (forall b :: b in holds + {p.block} ==> Knows(next, b))
  {
    var heard := n.(proposals := n.proposals[r := p], rs := n.rs.(step := Prevoting));
    PrevoteCast(cfg, g, w, heard, r, Some(p.block));
    var next := Hear(cfg, w, n, p).0;
    forall b | b in holds + {p.block} ensures Knows(next, b) {
      if b == p.block {
        assert next.proposals[r].block == b;
      } else {
        var k :| k in n.proposals && n.proposals[k].block == b;
        assert next.proposals[k].block == b;
      }
    }
  }

  lemma HearsOffer(cfg: Setup, pool: set<SignedVote>, offers: set<Proposal>, g: set<Address>, w: Address, n: Node,
                   r: nat, p: Proposal, aim: Aim)
    requires Group(cfg, g, w) && aim.stage == Starting(r) && aim.unlocked && Meets(cfg, w, n, aim)
    requires p in offers && p.round == r && p.proposer == cfg.proposer(r) && cfg.executes(p.block)
    ensures CanReach(cfg, pool, offers, w, n,
      aim.(stage := Cast(r, Prevote, Some(p.block)), holds := aim.holds + {p.block}))
  {
    Hears(cfg, g, w, n, r, p, aim.holds);
    Happening(cfg, pool, offers, w, n, Offered(p));
    LocalOne(Rules(cfg, w), Chances(cfg, pool, offers), n, Offered(p));
  }

  /** Waiting for a proposal that does not come: the node prevotes nil. */
  lemma WaitsInVain(cfg: Setup, pool: set<SignedVote>, offers: set<Proposal>, g: set<Address>, w: Address, n: Node,
                    r: nat, built: Hash32, aim: Aim)
    requires Group(cfg, g, w) && aim.stage == Starting(r) && Meets(cfg, w, n, aim) && cfg.proposer(r) != w
      && cfg.executes(built)
    ensures CanReach(cfg, pool, offers, w, n, aim.(stage := Cast(r, Prevote, None)))
  {
    var begun := Ask(n.(begun := Some(r)), Propose);
    var waiting := begun.(timers := begun.timers - {(r, Propose)}, rs := begun.rs.(step := Prevoting));
    Happening(cfg, pool, offers, w, n, Start(built));
    LocalOne(Rules(cfg, w), Chances(cfg, pool, offers), n, Start(built));
    assert Local(Rules(cfg, w), n, [Start(built)]) == (begun, {}, {});
    Happening(cfg, pool, offers, w, begun, TimedOut(r, Propose));
    PrevoteCast(cfg, g, w, waiting, r, None);
    ThenOne(Rules(cfg, w), Chances(cfg, pool, offers), n, [Start(built)], begun, TimedOut(r, Propose));
    KnowsSame(n, EmitPrevote(cfg, w, waiting, None).0, aim.holds);
  }

  // -- phases ---------------------------------------------------------------

  type Aims = map<Address, Aim>

  /** Every node named stands where its aim says, and its vote is out. */
  ghost predicate Stand(cfg: Setup, net: Network, aims: Aims) {
    forall w :: w in aims
      ==> w in net.nodes && Meets(cfg, w, net.nodes[w], aims[w]) && Shown(cfg, w, aims[w].stage) <= net.pool
  }

  /** `net'` comes after `net`, and only the nodes named have moved. */
  ghost predicate Later(cfg: Setup, net: Network, net': Network, moved: set<Address>) {
    && Reaches(cfg, net, net') && net.pool <= net'.pool && net.offers <= net'.offers
      && net'.nodes.Keys == net.nodes.Keys
    && forall a :: a in net.nodes && a !in moved ==> net'.nodes[a] == net.nodes[a]
  }

  lemma LaterOn(cfg: Setup, a: Network, b: Network, c: Network, m: set<Address>, k: set<Address>, both: set<Address>)
    requires Later(cfg, a, b, m) && Later(cfg, b, c, k) && m <= both && k <= both
    ensures Later(cfg, a, c, both)
  {
    ReachesOn(cfg, a, b, c);
  }

  lemma CanReachMore(cfg: Setup, pool: set<SignedVote>, offers: set<Proposal>, pool': set<SignedVote>,
                     offers': set<Proposal>, w: Address, n: Node, aim: Aim)
    requires CanReach(cfg, pool, offers, w, n, aim) && pool <= pool' && offers <= offers'
    ensures CanReach(cfg, pool', offers', w, n, aim)
  {
    var events :|
      && Feasible(Rules(cfg, w), Chances(cfg, pool, offers), n, events)
      && Meets(cfg, w, Local(Rules(cfg, w), n, events).0, aim)
      && Shown(cfg, w, aim.stage) <= Local(Rules(cfg, w), n, events).1;
    ChancesGrow(cfg, pool, offers, pool', offers');
    FeasibleMore(Rules(cfg, w), Chances(cfg, pool, offers), Chances(cfg, pool', offers'), n, events);
  }

  lemma OneReaches(cfg: Setup, net: Network, w: Address, aim: Aim) returns (net': Network)
    requires w in net.nodes && CanReach(cfg, net.pool, net.offers, w, net.nodes[w], aim)
    ensures Later(cfg, net, net', {w}) && Meets(cfg, w, net'.nodes[w], aim) && Shown(cfg, w, aim.stage) <= net'.pool
  {
    var events :|
      && Feasible(Rules(cfg, w), Chances(cfg, net.pool, net.offers), net.nodes[w], events)
      && Meets(cfg, w, Local(Rules(cfg, w), net.nodes[w], events).0, aim)
      && Shown(cfg, w, aim.stage) <= Local(Rules(cfg, w), net.nodes[w], events).1;
    OneNodeRuns(cfg, net, w, events);
    var (n, votes, offers) := Local(Rules(cfg, w), net.nodes[w], events);
    net' := Network(net.nodes[w := n], net.pool + votes, net.offers + offers);
  }

  /** Nodes that can each reach their aim reach it together. */
  lemma {:induction false} Phase(cfg: Setup, net: Network, aims: Aims) returns (net': Network)
    requires aims.Keys <= net.nodes.Keys
    requires forall w :: w in aims ==> CanReach(cfg, net.pool, net.offers, w, net.nodes[w], aims[w])
    ensures Later(cfg, net, net', aims.Keys) && Stand(cfg, net', aims)
    decreases |aims|
  {
    if aims == map[] {
      net' := net;
      ReachesSelf(cfg, net);
    } else {
      var w :| w in aims;
      var mid := OneReaches(cfg, net, w, aims[w]);
      OthersStillCan(cfg, net, mid, aims, w);
      net' := Phase(cfg, mid, aims - {w});
      PhasesJoin(cfg, net, mid, net', aims, w);
    }
  }

  lemma PhasesJoin(cfg: Setup, net: Network, mid: Network, net': Network, aims: Aims, w: Address)
    requires w in aims && w in mid.nodes && Later(cfg, net, mid, {w}) && Later(cfg, mid, net', (aims - {w}).Keys)
    requires Meets(cfg, w, mid.nodes[w], aims[w]) && Shown(cfg, w, aims[w].stage) <= mid.pool
    requires Stand(cfg, net', aims - {w})
    ensures Later(cfg, net, net', aims.Keys) && Stand(cfg, net', aims)
  {
    LaterOn(cfg, net, mid, net', {w}, (aims - {w}).Keys, aims.Keys);
    assert net'.nodes[w] == mid.nodes[w];
    StandOneMore(cfg, net', aims, w);
  }

  lemma OthersStillCan(cfg: Setup, net: Network, mid: Network, aims: Aims, w: Address)
    requires aims.Keys <= net.nodes.Keys && w in aims && Later(cfg, net, mid, {w})
    requires forall v :: v in aims ==> CanReach(cfg, net.pool, net.offers, v, net.nodes[v], aims[v])
    ensures forall v :: v in aims - {w} ==> CanReach(cfg, mid.pool, mid.offers, v, mid.nodes[v], (aims - {w})[v])
  {
    forall v | v in aims - {w} ensures CanReach(cfg, mid.pool, mid.offers, v, mid.nodes[v], (aims - {w})[v]) {
      CanReachMore(cfg, net.pool, net.offers, mid.pool, mid.offers, v, net.nodes[v], aims[v]);
    }
  }

  /** A blank, unlocked proposer offers a block of its own making and prevotes it. */
  lemma ProposerStarts(cfg: Setup, net: Network, g: set<Address>, w: Address, r: nat, b: Hash32, holds: set<Hash32>)
    returns (net': Network)
    requires Group(cfg, g, w) && cfg.proposer(r) == w && cfg.executes(b) && w in net.nodes
    requires Meets(cfg, w, net.nodes[w], Aim(Starting(r), true, true, holds))
    ensures Later(cfg, net, net', {w}) && Proposal(r, b, None, w) in net'.offers
    ensures Meets(cfg, w, net'.nodes[w], Aim(Cast(r, Prevote, Some(b)), true, true, holds + {b}))
    ensures SignedBy(cfg, r, Prevote, Some(b), w) in net'.pool
  {
    var n := net.nodes[w];
    var begun := n.(begun := Some(r), lastStamp := Stamp(r, Propose));
    Hears(cfg, g, w, begun, r, Proposal(r, b, None, w), holds);
    assert Offer(n, w, b) == Proposal(r, b, None, w);
    Happening(cfg, net.pool, net.offers, w, n, Start(b));
    LocalOne(Rules(cfg, w), Chances(cfg, net.pool, net.offers), n, Start(b));
    OneNodeRuns(cfg, net, w, [Start(b)]);
    var (next, votes, offers) := Begin(cfg, w, n, b);
    net' := Network(net.nodes[w := next], net.pool + votes, net.offers + offers);
  }

  // -- the run --------------------------------------------------------------

  /** Two smallest quorums `r` and `q` with a validator each that the other does
      without: `u` proposes `x` and then is done; `s` never hears of `x`, and
      proposes `y` when its turn comes. Nobody is faulty. */
  datatype Plot = Plot(cfg: Setup, r: set<Address>, q: set<Address>, s: Address, u: Address, x: Hash32, y: Hash32) {
    ghost predicate Valid() {
      && cfg.vs.Valid() && cfg.faulty == {} && Smallest(cfg.vs, r) && Smallest(cfg.vs, q)
      && s in r && s !in q && u in q && u !in r && r * q != {}
      && cfg.proposer(0) == u && cfg.proposer(1) == u && cfg.proposer(2) == s
      && cfg.executes(x) && cfg.executes(y) && x != y
    }
  }

  lemma Groups(p: Plot, w: Address)
    requires p.Valid()
    ensures w in p.q ==> Group(p.cfg, p.q, w)
    ensures w in p.r ==> Group(p.cfg, p.r, w)
  {
    var c :| c in p.r * p.q;
    assert p.q != {w} || (c == w && p.u == w);
    assert p.r != {w} || (c == w && p.s == w);
  }

  /** What each of `q` and `r` votes in the first round. */
  ghost function FirstMinds(p: Plot): Minds { map a | a in p.q + p.r :: if a in p.q then Some(p.x) else None }

  ghost function Prevoted(p: Plot): Aims {
    map a | a in p.q + p.r :: if a in p.q then Aim(Cast(0, Prevote, Some(p.x)), true, true, {p.x})
                              else Aim(Cast(0, Prevote, None), true, true, {})
  }

  ghost function Precommitted(p: Plot): Aims {
    map a | a in p.q + p.r :: if a in p.q then Aim(Cast(0, Precommit, Some(p.x)), false, false, {p.x})
                              else Aim(Cast(0, Precommit, None), true, true, {})
  }

  /** The second quorum at one stage, those that never heard of `x` still blank. */
  ghost function Together(p: Plot, stage: Stage, unlocked: bool): Aims {
    map a | a in p.r :: Aim(stage, unlocked || a !in p.q, a !in p.q, {})
  }

  lemma BallotIsOut(cfg: Setup, net: Network, aims: Aims, rd: nat, kind: VoteType, val: Minds, g: set<Address>)
    requires Stand(cfg, net, aims) && g <= val.Keys && g <= aims.Keys
    requires forall a :: a in g ==> aims[a].stage == Cast(rd, kind, val[a])
    ensures Ballot(cfg, rd, kind, val, g) <= net.pool
  {
    forall a | a in g ensures SignedBy(cfg, rd, kind, val[a], a) in net.pool {
      assert Shown(cfg, a, aims[a].stage) <= net.pool;
    }
  }

  lemma OpeningOne(p: Plot, net: Network, w: Address)
    requires p.Valid() && w in p.q + p.r && w != p.u && w in net.nodes && net.nodes[w] == NewNode(p.cfg.height)
    requires Proposal(0, p.x, None, p.u) in net.offers
    ensures CanReach(p.cfg, net.pool, net.offers, w, net.nodes[w], Prevoted(p)[w])
  {
    Groups(p, w);
    var aim := Aim(Starting(0), true, true, {});
    assert Meets(p.cfg, w, net.nodes[w], aim);
    if w in p.q {
      HearsOffer(p.cfg, net.pool, net.offers, p.q, w, net.nodes[w], 0, Proposal(0, p.x, None, p.u), aim);
      assert {} + {p.x} == {p.x};
    } else {
      WaitsInVain(p.cfg, net.pool, net.offers, p.r, w, net.nodes[w], 0, p.x, aim);
    }
  }

  /** Round 0 opens: `u` proposes `x`, the first quorum hears it, the rest of the second do not. */
  lemma Opening(p: Plot) returns (net: Network)
    requires p.Valid()
    ensures Reaches(p.cfg, Init(p.cfg), net) && net.nodes.Keys == Members(p.cfg.vs.validators)
      && Stand(p.cfg, net, Prevoted(p))
  {
    var offered := UProposes(p);
    var others := Prevoted(p) - {p.u};
    forall w | w in others ensures CanReach(p.cfg, offered.pool, offered.offers, w, offered.nodes[w], others[w]) {
      OpeningOne(p, offered, w);
    }
    net := Phase(p.cfg, offered, others);
    ReachesOn(p.cfg, Init(p.cfg), offered, net);
    StandOneMore(p.cfg, net, Prevoted(p), p.u);
  }

  lemma UProposes(p: Plot) returns (net: Network)
    requires p.Valid()
    ensures Reaches(p.cfg, Init(p.cfg), net) && net.nodes.Keys == Members(p.cfg.vs.validators)
    ensures Proposal(0, p.x, None, p.u) in net.offers
    ensures forall w :: w in net.nodes && w != p.u ==> net.nodes[w] == NewNode(p.cfg.height)
    ensures Meets(p.cfg, p.u, net.nodes[p.u], Prevoted(p)[p.u]) && Shown(p.cfg, p.u, Prevoted(p)[p.u].stage) <= net.pool
  {
    Groups(p, p.u);
    net := ProposerStarts(p.cfg, Init(p.cfg), p.q, p.u, 0, p.x, {});
    assert {} + {p.x} == {p.x};
  }

  lemma StandOneMore(cfg: Setup, net: Network, aims: Aims, w: Address)
    requires w in aims && Stand(cfg, net, aims - {w}) && w in net.nodes
    requires Meets(cfg, w, net.nodes[w], aims[w]) && Shown(cfg, w, aims[w].stage) <= net.pool
    ensures Stand(cfg, net, aims)
  {
    forall v | v in aims
      ensures v in net.nodes && Meets(cfg, v, net.nodes[v], aims[v]) && Shown(cfg, v, aims[v].stage) <= net.pool
    {
      if v != w {
        assert v in aims - {w} && (aims - {w})[v] == aims[v];
      }
    }
  }

  /** The first quorum precommits `x`; the others see the prevotes torn and precommit nil. */
  lemma FirstPrecommits(p: Plot, net: Network) returns (net': Network)
    requires p.Valid() && Stand(p.cfg, net, Prevoted(p))
    ensures Later(p.cfg, net, net', p.q + p.r) && Stand(p.cfg, net', Precommitted(p))
  {
    var cfg, val, aims := p.cfg, FirstMinds(p), Prevoted(p);
    BallotIsOut(cfg, net, aims, 0, Prevote, val, p.q);
    BallotIsOut(cfg, net, aims, 0, Prevote, val, p.r);
    var c :| c in p.r * p.q;
    forall w | w in Precommitted(p) ensures CanReach(cfg, net.pool, net.offers, w, net.nodes[w], Precommitted(p)[w]) {
      Groups(p, w);
      assert Meets(cfg, w, net.nodes[w], aims[w]);
      if w in p.q {
        PrevotesCarry(cfg, net.pool, net.offers, w, net.nodes[w], 0, val, p.q, Some(p.x), aims[w]);
      } else {
        PrevotesTear(cfg, net.pool, net.offers, w, net.nodes[w], 0, val, p.r, c, p.s, aims[w]);
      }
    }
    net' := Phase(cfg, net, Precommitted(p));
  }

  ghost function AfterFirst(p: Plot): Aims {
    map a | a in {p.u} + p.r ::
      if a == p.u then Aim(Committed(p.x), false, false, {}) else Precommitted(p)[a].(stage := Starting(1))
  }

  lemma StandAt(cfg: Setup, net: Network, aims: Aims, w: Address)
    requires Stand(cfg, net, aims) && w in aims
    ensures w in net.nodes && Meets(cfg, w, net.nodes[w], aims[w])
  {
  }

  lemma StandIs(cfg: Setup, net: Network, aims: Aims, w: Address, aim: Aim)
    requires Stand(cfg, net, aims) && w in aims && aim == aims[w]
    ensures w in net.nodes && Meets(cfg, w, net.nodes[w], aim)
  {
  }

  lemma UCommits(p: Plot, net: Network)
    requires p.Valid() && Stand(p.cfg, net, Precommitted(p))
    ensures p.u in net.nodes
      && CanReach(p.cfg, net.pool, net.offers, p.u, net.nodes[p.u], Aim(Committed(p.x), false, false, {}))
  {
    Groups(p, p.u);
    StandAt(p.cfg, net, Precommitted(p), p.u);
    BallotIsOut(p.cfg, net, Precommitted(p), 0, Precommit, FirstMinds(p), p.q);
    PrecommitsCommit(p.cfg, net.pool, net.offers, p.u, net.nodes[p.u], 0, FirstMinds(p), p.q, p.x,
      Precommitted(p)[p.u]);
  }

  lemma OthersMoveOn(p: Plot, net: Network, w: Address, val: Minds, c: Address, aim: Aim, to: Aim)
    requires p.Valid() && Stand(p.cfg, net, Precommitted(p)) && w in p.r && w in net.nodes
    requires p.r <= val.Keys && Ballot(p.cfg, 0, Precommit, val, p.r) <= net.pool && c in p.r && val[c] != val[p.s]
    requires aim.stage == Cast(0, Precommit, val[w]) && Meets(p.cfg, w, net.nodes[w], aim)
    requires to.stage == Starting(1) && Milder(to, aim)
    ensures CanReach(p.cfg, net.pool, net.offers, w, net.nodes[w], to)
  {
    Groups(p, w);
    PrecommitsTear(p.cfg, net.pool, net.offers, w, net.nodes[w], 0, val, p.r, c, p.s, aim, to);
  }

  /** The second quorum is of two minds about `x`. */
  lemma TornBallot(p: Plot, w: Address) returns (c: Address)
    requires p.Valid() && w in p.r
    ensures c in p.r && p.r <= FirstMinds(p).Keys && FirstMinds(p)[c] != FirstMinds(p)[p.s]
    ensures Precommitted(p)[w].stage == Cast(0, Precommit, FirstMinds(p)[w])
    ensures Prevoted(p)[w].stage == Cast(0, Prevote, FirstMinds(p)[w])
  {
    c :| c in p.r * p.q;
  }

  /** What a member of the second quorum has voted, and where it goes next. */
  lemma AimsOf(p: Plot, w: Address) returns (aim: Aim, to: Aim)
    requires p.Valid() && w in p.r
    ensures aim == Precommitted(p)[w] && to == AfterFirst(p)[w]
    ensures aim.stage == Cast(0, Precommit, FirstMinds(p)[w]) && to.stage == Starting(1) && Milder(to, aim)
  {
    aim, to := Precommitted(p)[w], AfterFirst(p)[w];
  }

  lemma AfterFirstCan(p: Plot, net: Network, w: Address)
    requires p.Valid() && Stand(p.cfg, net, Precommitted(p)) && w in p.r
    ensures w in net.nodes && CanReach(p.cfg, net.pool, net.offers, w, net.nodes[w], AfterFirst(p)[w])
  {
    var c := TornBallot(p, w);
    var aim, to := AimsOf(p, w);
    StandIs(p.cfg, net, Precommitted(p), w, aim);
    SecondBallotIsOut(p, net);
    OthersMoveOn(p, net, w, FirstMinds(p), c, aim, to);
  }

  lemma SecondBallotIsOut(p: Plot, net: Network)
    requires p.Valid() && Stand(p.cfg, net, Precommitted(p))
    ensures p.r <= FirstMinds(p).Keys && Ballot(p.cfg, 0, Precommit, FirstMinds(p), p.r) <= net.pool
  {
    BallotIsOut(p.cfg, net, Precommitted(p), 0, Precommit, FirstMinds(p), p.r);
  }

  lemma FirstRoundCanEnd(p: Plot, net: Network)
    requires p.Valid() && Stand(p.cfg, net, Precommitted(p))
    ensures forall w :: w in AfterFirst(p) ==>
      w in net.nodes && CanReach(p.cfg, net.pool, net.offers, w, net.nodes[w], AfterFirst(p)[w])
  {
    forall w | w in AfterFirst(p)
      ensures w in net.nodes && CanReach(p.cfg, net.pool, net.offers, w, net.nodes[w], AfterFirst(p)[w])
    {
      if w == p.u {
        UCommits(p, net);
      } else {
        AfterFirstCan(p, net, w);
      }
    }
  }

  /** `u` sees the whole first quorum and commits; the second quorum sees itself torn and moves on. */
  lemma FirstCommit(p: Plot, net: Network) returns (net': Network)
    requires p.Valid() && Stand(p.cfg, net, Precommitted(p))
    ensures Later(p.cfg, net, net', {p.u} + p.r) && p.u in net'.nodes && net'.nodes[p.u].decided == Some(p.x)
    ensures Stand(p.cfg, net', Together(p, Starting(1), false))
  {
    FirstRoundCanEnd(p, net);
    net' := Phase(p.cfg, net, AfterFirst(p));
    StandAt(p.cfg, net', AfterFirst(p), p.u);
    FirstRoundOver(p, net');
  }

  lemma FirstRoundOver(p: Plot, net: Network)
    requires p.Valid() && Stand(p.cfg, net, AfterFirst(p))
    ensures Stand(p.cfg, net, Together(p, Starting(1), false))
  {
    var next := Together(p, Starting(1), false);
    forall w | w in next
      ensures w in net.nodes && Meets(p.cfg, w, net.nodes[w], next[w]) && Shown(p.cfg, w, next[w].stage) <= net.pool
    {
      StandAt(p.cfg, net, AfterFirst(p), w);
    }
  }

  /** `u` does not come to propose in round 1; the second quorum prevotes nil throughout, which unlocks it. */
  lemma NilPrevotes(p: Plot, net: Network) returns (net': Network)
    requires p.Valid() && Stand(p.cfg, net, Together(p, Starting(1), false))
    ensures Later(p.cfg, net, net', p.r) && Stand(p.cfg, net', Together(p, Cast(1, Prevote, None), false))
  {
    var cfg, aims, next := p.cfg, Together(p, Starting(1), false), Together(p, Cast(1, Prevote, None), false);
    forall w | w in next ensures CanReach(cfg, net.pool, net.offers, w, net.nodes[w], next[w]) {
      Groups(p, w);
      assert Meets(cfg, w, net.nodes[w], aims[w]);
      WaitsInVain(cfg, net.pool, net.offers, p.r, w, net.nodes[w], 1, p.x, aims[w]);
    }
    net' := Phase(cfg, net, next);
  }

  ghost function AllFor(p: Plot, v: Option<Hash32>): Minds { map a | a in p.r :: v }

  lemma NilPrecommits(p: Plot, net: Network) returns (net': Network)
    requires p.Valid() && Stand(p.cfg, net, Together(p, Cast(1, Prevote, None), false))
    ensures Later(p.cfg, net, net', p.r) && Stand(p.cfg, net', Together(p, Cast(1, Precommit, None), true))
  {
    var cfg, aims := p.cfg, Together(p, Cast(1, Prevote, None), false);
    var next, val := Together(p, Cast(1, Precommit, None), true), AllFor(p, None);
    BallotIsOut(cfg, net, aims, 1, Prevote, val, p.r);
    forall w | w in next ensures CanReach(cfg, net.pool, net.offers, w, net.nodes[w], next[w]) {
      Groups(p, w);
      assert Meets(cfg, w, net.nodes[w], aims[w]);
      PrevotesCarry(cfg, net.pool, net.offers, w, net.nodes[w], 1, val, p.r, None, aims[w]);
    }
    net' := Phase(cfg, net, next);
  }

  lemma NilRoundEnds(p: Plot, net: Network) returns (net': Network)
    requires p.Valid() && Stand(p.cfg, net, Together(p, Cast(1, Precommit, None), true))
    ensures Later(p.cfg, net, net', p.r) && Stand(p.cfg, net', Together(p, Starting(2), true))
  {
    var cfg, aims := p.cfg, Together(p, Cast(1, Precommit, None), true);
    var next, val := Together(p, Starting(2), true), AllFor(p, None);
    BallotIsOut(cfg, net, aims, 1, Precommit, val, p.r);
    forall w | w in next ensures CanReach(cfg, net.pool, net.offers, w, net.nodes[w], next[w]) {
      Groups(p, w);
      assert Meets(cfg, w, net.nodes[w], aims[w]);
      PrecommitsMoveOn(cfg, net.pool, net.offers, w, net.nodes[w], 1, val, p.r, aims[w], next[w]);
    }
    net' := Phase(cfg, net, next);
  }

  /** The second quorum at a stage of round 2, holding `y`. */
  ghost function Agreed(p: Plot, stage: Stage): Aims { map a | a in p.r :: Aim(stage, false, false, {p.y}) }

  lemma SecondProposalOne(p: Plot, net: Network, w: Address)
    requires p.Valid() && w in p.r && w != p.s && w in net.nodes && Proposal(2, p.y, None, p.s) in net.offers
    requires Meets(p.cfg, w, net.nodes[w], Together(p, Starting(2), true)[w])
    ensures CanReach(p.cfg, net.pool, net.offers, w, net.nodes[w], Agreed(p, Cast(2, Prevote, Some(p.y)))[w])
  {
    Groups(p, w);
    var aim := Together(p, Starting(2), true)[w];
    HearsOffer(p.cfg, net.pool, net.offers, p.r, w, net.nodes[w], 2, Proposal(2, p.y, None, p.s), aim);
    assert {} + {p.y} == {p.y};
    CanReachLess(p.cfg, net.pool, net.offers, w, net.nodes[w],
      aim.(stage := Cast(2, Prevote, Some(p.y)), holds := {p.y}));
  }

  lemma CanReachLess(cfg: Setup, pool: set<SignedVote>, offers: set<Proposal>, w: Address, n: Node, aim: Aim)
    requires CanReach(cfg, pool, offers, w, n, aim)
    ensures CanReach(cfg, pool, offers, w, n, aim.(unlocked := false, blank := false))
  {
    var events :|
      && Feasible(Rules(cfg, w), Chances(cfg, pool, offers), n, events)
      && Meets(cfg, w, Local(Rules(cfg, w), n, events).0, aim)
      && Shown(cfg, w, aim.stage) <= Local(Rules(cfg, w), n, events).1;
    assert Meets(cfg, w, Local(Rules(cfg, w), n, events).0, aim.(unlocked := false, blank := false));
  }

  /** Round 2: `s`, still blank, proposes `y`, and everyone unlocked prevotes it. */
  lemma SecondProposal(p: Plot, net: Network) returns (net': Network)
    requires p.Valid() && Stand(p.cfg, net, Together(p, Starting(2), true))
    ensures Later(p.cfg, net, net', p.r) && Stand(p.cfg, net', Agreed(p, Cast(2, Prevote, Some(p.y))))
  {
    var offered := SIsHeard(p, net);
    net' := OthersPrevote(p, offered);
    LaterOn(p.cfg, net, offered, net', p.r, p.r, p.r);
  }

  lemma OthersPrevote(p: Plot, offered: Network) returns (net': Network)
    requires p.Valid() && HasProposed(p, offered) && CanHear(p, offered)
    ensures Later(p.cfg, offered, net', p.r) && Stand(p.cfg, net', Agreed(p, Cast(2, Prevote, Some(p.y))))
  {
    var others := Agreed(p, Cast(2, Prevote, Some(p.y))) - {p.s};
    net' := Phase(p.cfg, offered, others);
    SStillStands(p, offered, net', others);
  }

  /** Everyone else can come to prevote `y`. */
  ghost predicate CanHear(p: Plot, net: Network) {
    var others := Agreed(p, Cast(2, Prevote, Some(p.y))) - {p.s};
    forall w :: w in others ==> w in net.nodes && CanReach(p.cfg, net.pool, net.offers, w, net.nodes[w], others[w])
  }

  ghost predicate HasProposed(p: Plot, net: Network)
    requires p.Valid()
  {
    var aim := Aim(Cast(2, Prevote, Some(p.y)), false, false, {p.y});
    p.s in net.nodes && Meets(p.cfg, p.s, net.nodes[p.s], aim) && Shown(p.cfg, p.s, aim.stage) <= net.pool
  }

  lemma SStillStands(p: Plot, offered: Network, net: Network, others: Aims)
    requires p.Valid() && HasProposed(p, offered) && others == Agreed(p, Cast(2, Prevote, Some(p.y))) - {p.s}
    requires Later(p.cfg, offered, net, others.Keys) && Stand(p.cfg, net, others)
    ensures Stand(p.cfg, net, Agreed(p, Cast(2, Prevote, Some(p.y))))
  {
    var next := Agreed(p, Cast(2, Prevote, Some(p.y)));
    assert p.s !in others && net.nodes[p.s] == offered.nodes[p.s];
    assert next[p.s] == Aim(Cast(2, Prevote, Some(p.y)), false, false, {p.y});
    StandOneMore(p.cfg, net, next, p.s);
  }

  lemma OthersHear(p: Plot, net: Network, offered: Network)
    requires p.Valid() && Stand(p.cfg, net, Together(p, Starting(2), true))
    requires Later(p.cfg, net, offered, {p.s}) && Proposal(2, p.y, None, p.s) in offered.offers
    ensures CanHear(p, offered)
  {
    var others := Agreed(p, Cast(2, Prevote, Some(p.y))) - {p.s};
    forall w | w in others
      ensures w in offered.nodes && CanReach(p.cfg, offered.pool, offered.offers, w, offered.nodes[w], others[w])
    {
      StandAt(p.cfg, net, Together(p, Starting(2), true), w);
      SecondProposalOne(p, offered, w);
    }
  }

  lemma SProposes(p: Plot, net: Network) returns (net': Network)
    requires p.Valid() && Stand(p.cfg, net, Together(p, Starting(2), true))
    ensures Later(p.cfg, net, net', {p.s}) && Proposal(2, p.y, None, p.s) in net'.offers && HasProposed(p, net')
  {
    Groups(p, p.s);
    assert Meets(p.cfg, p.s, net.nodes[p.s], Together(p, Starting(2), true)[p.s]);
    net' := ProposerStarts(p.cfg, net, p.r, p.s, 2, p.y, {});
    assert {} + {p.y} == {p.y};
  }

  lemma SIsHeard(p: Plot, net: Network) returns (net': Network)
    requires p.Valid() && Stand(p.cfg, net, Together(p, Starting(2), true))
    ensures Later(p.cfg, net, net', p.r) && HasProposed(p, net') && CanHear(p, net')
  {
    net' := SProposes(p, net);
    OthersHear(p, net, net');
  }

  lemma SecondPrecommits(p: Plot, net: Network) returns (net': Network)
    requires p.Valid() && Stand(p.cfg, net, Agreed(p, Cast(2, Prevote, Some(p.y))))
    ensures Later(p.cfg, net, net', p.r) && Stand(p.cfg, net', Agreed(p, Cast(2, Precommit, Some(p.y))))
  {
    var cfg, aims := p.cfg, Agreed(p, Cast(2, Prevote, Some(p.y)));
    var next, val := Agreed(p, Cast(2, Precommit, Some(p.y))), AllFor(p, Some(p.y));
    BallotIsOut(cfg, net, aims, 2, Prevote, val, p.r);
    forall w | w in next ensures CanReach(cfg, net.pool, net.offers, w, net.nodes[w], next[w]) {
      Groups(p, w);
      assert Meets(cfg, w, net.nodes[w], aims[w]);
      PrevotesCarry(cfg, net.pool, net.offers, w, net.nodes[w], 2, val, p.r, Some(p.y), aims[w]);
    }
    net' := Phase(cfg, net, next);
  }

  lemma SCanCommit(p: Plot, net: Network)
    requires p.Valid() && Stand(p.cfg, net, Agreed(p, Cast(2, Precommit, Some(p.y))))
    ensures p.s in net.nodes
    ensures CanReach(p.cfg, net.pool, net.offers, p.s, net.nodes[p.s], Aim(Committed(p.y), false, false, {}))
  {
    var cfg, aims, val := p.cfg, Agreed(p, Cast(2, Precommit, Some(p.y))), AllFor(p, Some(p.y));
    BallotIsOut(cfg, net, aims, 2, Precommit, val, p.r);
    Groups(p, p.s);
    StandAt(cfg, net, aims, p.s);
    PrecommitsCommit(cfg, net.pool, net.offers, p.s, net.nodes[p.s], 2, val, p.r, p.y, aims[p.s]);
  }

  lemma SecondCommit(p: Plot, net: Network) returns (net': Network)
    requires p.Valid() && Stand(p.cfg, net, Agreed(p, Cast(2, Precommit, Some(p.y))))
    ensures Later(p.cfg, net, net', p.r) && p.s in net'.nodes && net'.nodes[p.s].decided == Some(p.y)
  {
    SCanCommit(p, net);
    net' := OneReaches(p.cfg, net, p.s, Aim(Committed(p.y), false, false, {}));
  }

  lemma UStaysDone(p: Plot, net: Network, net': Network)
    requires p.Valid() && Later(p.cfg, net, net', p.r) && p.u in net.nodes
    ensures p.u in net'.nodes && net'.nodes[p.u] == net.nodes[p.u]
  {
  }

  /** A round that nil wins. */
  lemma NilRound(p: Plot, net: Network) returns (last: Network)
    requires p.Valid() && Stand(p.cfg, net, Together(p, Starting(1), false))
    ensures Later(p.cfg, net, last, p.r) && Stand(p.cfg, last, Together(p, Starting(2), true))
  {
    var n1 := NilPrevotes(p, net);
    var n2 := NilPrecommits(p, n1);
    LaterOn(p.cfg, net, n1, n2, p.r, p.r, p.r);
    last := NilRoundEnds(p, n2);
    LaterOn(p.cfg, net, n2, last, p.r, p.r, p.r);
  }

  /** A round that `y` wins. */
  lemma SecondRound(p: Plot, net: Network) returns (last: Network)
    requires p.Valid() && Stand(p.cfg, net, Together(p, Starting(2), true))
    ensures Later(p.cfg, net, last, p.r) && p.s in last.nodes && last.nodes[p.s].decided == Some(p.y)
  {
    var n4 := SecondProposal(p, net);
    var n5 := SecondPrecommits(p, n4);
    LaterOn(p.cfg, net, n4, n5, p.r, p.r, p.r);
    last := SecondCommit(p, n5);
    LaterOn(p.cfg, net, n5, last, p.r, p.r, p.r);
  }

  /** From the first commit to the second. */
  lemma SecondAct(p: Plot, net: Network) returns (last: Network)
    requires p.Valid() && Stand(p.cfg, net, Together(p, Starting(1), false))
    ensures Later(p.cfg, net, last, p.r) && p.s in last.nodes && last.nodes[p.s].decided == Some(p.y)
  {
    var mid := NilRound(p, net);
    last := SecondRound(p, mid);
    LaterOn(p.cfg, net, mid, last, p.r, p.r, p.r);
  }

  lemma PlotForks(p: Plot) returns (acts: seq<Act>)
    requires p.Valid()
    ensures Legal(p.cfg, Init(p.cfg), acts) && !Agreement(RunFrom(p.cfg, Init(p.cfg), acts))
  {
    var n1 := Opening(p);
    var n2 := FirstPrecommits(p, n1);
    ReachesOn(p.cfg, Init(p.cfg), n1, n2);
    var n3 := FirstCommit(p, n2);
    ReachesOn(p.cfg, Init(p.cfg), n2, n3);
    var last := SecondAct(p, n3);
    ReachesOn(p.cfg, Init(p.cfg), n3, last);
    UStaysDone(p, n3, last);
    acts :| Legal(p.cfg, Init(p.cfg), acts) && RunFrom(p.cfg, Init(p.cfg), acts) == last;
    assert last.nodes[p.u].decided == Some(p.x) && last.nodes[p.s].decided == Some(p.y);
  }

  // -- the exact condition --------------------------------------------------

  /** Agreement in every run: whoever is faulty within the ceiling, whoever is
      drawn to propose, whatever is delivered. */
  ghost predicate AlwaysAgrees(vs: ValidatorSet, chain: ChainId, height: nat, sign: Vote -> Signature,
                               executes: Hash32 -> bool, punctual: bool) {
    forall faulty, proposer, acts ::
      var cfg := Setup(vs, faulty, chain, height, sign, proposer, executes, punctual);
      cfg.Valid() && Legal(cfg, Init(cfg), acts) ==> Agreement(RunFrom(cfg, Init(cfg), acts))
  }

  /** For every set whose indispensable validators are no quorum, a draw of
      proposers and a run without any faulty validator in which two commit
      different blocks; it needs no late timer. */
  lemma TwoQuorumsFork(vs: ValidatorSet, chain: ChainId, height: nat, sign: Vote -> Signature, executes: Hash32 -> bool,
                       punctual: bool, x: Hash32, y: Hash32) returns (cfg: Setup, acts: seq<Act>)
    requires vs.Valid() && !OneQuorumRules(vs) && executes(x) && executes(y) && x != y
    ensures cfg == Setup(vs, {}, chain, height, sign, cfg.proposer, executes, punctual) && cfg.Valid()
    ensures Legal(cfg, Init(cfg), acts) && !Agreement(RunFrom(cfg, Init(cfg), acts))
  {
    var r, q, s, u := TwoSmallest(vs);
    cfg := Setup(vs, {}, chain, height, sign, (k: nat) => if k == 2 then s else u, executes, punctual);
    PowerOfNone(vs.validators, {});
    QuorumsIntersect(vs, r, q);
    assert r * q != {};
    acts := PlotForks(Plot(cfg, r, q, s, u, x, y));
  }

  lemma ForksSometimes(vs: ValidatorSet, chain: ChainId, height: nat, sign: Vote -> Signature,
                       executes: Hash32 -> bool, punctual: bool, x: Hash32, y: Hash32)
    requires vs.Valid() && executes(x) && executes(y) && x != y && !OneQuorumRules(vs)
    ensures !AlwaysAgrees(vs, chain, height, sign, executes, punctual)
  {
    var cfg, acts := TwoQuorumsFork(vs, chain, height, sign, executes, punctual, x, y);
    assert !Agreement(RunFrom(Setup(vs, cfg.faulty, chain, height, sign, cfg.proposer, executes, punctual), Init(cfg),
      acts));
  }

  /** The exact condition, for punctual and for late timers alike: every run
      agrees if and only if the validators no quorum can do without are a quorum. */
  lemma AgreesExactlyWhen(vs: ValidatorSet, chain: ChainId, height: nat, sign: Vote -> Signature,
                          executes: Hash32 -> bool, punctual: bool, x: Hash32, y: Hash32)
    requires vs.Valid() && executes(x) && executes(y) && x != y
    ensures AlwaysAgrees(vs, chain, height, sign, executes, punctual) <==> OneQuorumRules(vs)
  {
    if OneQuorumRules(vs) {
      forall faulty, proposer, acts
        | (var cfg := Setup(vs, faulty, chain, height, sign, proposer, executes, punctual);
           cfg.Valid() && Legal(cfg, Init(cfg), acts))
        ensures (var cfg := Setup(vs, faulty, chain, height, sign, proposer, executes, punctual);
                 Agreement(RunFrom(cfg, Init(cfg), acts)))
      {
        AgreesWhenOneQuorumRules(Setup(vs, faulty, chain, height, sign, proposer, executes, punctual), acts);
      }
    } else {
      ForksSometimes(vs, chain, height, sign, executes, punctual, x, y);
    }
  }

  /** In other words: there is one smallest quorum only. */
  lemma OneSmallestQuorum(vs: ValidatorSet)
    requires vs.Valid()
    ensures OneQuorumRules(vs) <==> forall g, h :: Smallest(vs, g) && Smallest(vs, h) ==> g == h
  {
    if OneQuorumRules(vs) {
      forall g | Smallest(vs, g) ensures g == Indispensable(vs) {
        QuorumHasIndispensable(vs, g);
        if g != Indispensable(vs) {
          PartIsNoQuorum(vs, g, Indispensable(vs));
        }
      }
    } else {
      var r, q, s, u := TwoSmallest(vs);
      assert r != q;
    }
  }
}
