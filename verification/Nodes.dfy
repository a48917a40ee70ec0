/** One validator's node and a network of them at one height, event by event
    (crates/node/src/lib.rs): who proposes what, which votes a node holds, when
    it may let a timer end a step, and when it can commit, by its own count or on
    a certificate. Nothing is left to choice but what the network delivers, when
    timers that were asked for fire, what faulty validators sign, and what anyone
    offers in anyone's name. */
module Nodes {
  import opened Base
  import opened Validators
  import opened Votes
  import opened Rounds
  import opened Signing

  /** One height: the validators, the proposer drawn for each round, which
      blocks execute to the state they claim, how a key signs a vote, and whether
      timers are punctual: end no step but one of the round they were asked in. */
  datatype Setup = Setup(vs: ValidatorSet, faulty: set<Address>, chain: ChainId, height: nat, sign: Vote -> Signature,
                         proposer: nat -> Address, executes: Hash32 -> bool, punctual: bool) {
    ghost function Core(): Config { Config(vs, faulty, chain, height, sign) }

    ghost predicate Valid() { Core().Valid() }

    ghost function Honest(): set<Address> { Core().Honest() }
  }

  datatype Proposal = Proposal(round: nat, block: Hash32, validRound: Option<nat>, proposer: Address)

  /** A node: its round state, the last point it signed at, the round it has
      begun, the proposals and votes it holds, the step timers it has ever asked
      for and those still to fire, and the block it committed with the round of
      its certificate. */
  datatype Node = Node(rs: RoundView, lastStamp: int, begun: Option<nat>, proposals: map<nat, Proposal>,
                       inbox: set<SignedVote>, waits: set<(nat, Step)>, timers: set<(nat, Step)>,
                       decided: Option<Hash32>, certified: nat)

  /** `quorum_value`. */
  ghost function QuorumIn(vs: ValidatorSet, votes: set<SignedVote>): (r: Option<Option<Hash32>>)
    ensures r.Some? ==> vs.HasQuorum(Tally(vs, votes, r.value))
    ensures r.None? ==> forall v :: !vs.HasQuorum(Tally(vs, votes, v))
  {
    if exists v :: vs.HasQuorum(Tally(vs, votes, v)) then
      var v :| vs.HasQuorum(Tally(vs, votes, v));
      Some(v)
    else None
  }

  /** `has_quorum_any`. */
  ghost predicate AnyQuorum(vs: ValidatorSet, votes: set<SignedVote>) {
    vs.HasQuorum(vs.Power(Consistent(votes)))
  }

  // -- what a node does -----------------------------------------------------

  ghost predicate Knows(n: Node, block: Hash32) { exists r :: r in n.proposals && n.proposals[r].block == block }

  function Ask(n: Node, step: Step): Node { n.(timers := n.timers + {(n.rs.round, step)}) }

  /** `arm`: ask for a step timer once in a round. */
  function Arm(n: Node, step: Step): Node {
    if (n.rs.round, step) in n.waits then n else Ask(n.(waits := n.waits + {(n.rs.round, step)}), step)
  }

  /** `check_precommit_quorum`: commit a known block, move on from nil, or ask
      for a timer when a quorum has voted and no value carried it. */
  ghost function CountPrecommits(cfg: Setup, n: Node): Node {
    var votes := Held(n.inbox, n.rs.round, Precommit);
    match QuorumIn(cfg.vs, votes)
    case None => if AnyQuorum(cfg.vs, votes) then Arm(n, Precommitting) else n
    case Some(v) =>
      var (rs, d) := AfterPrecommits(n.rs, Some(v));
      if !d.CommitBlock? then n.(rs := rs)
      else if Knows(n, d.block) then n.(decided := Some(d.block), certified := n.rs.round)
      else n
  }

  /** Claim, sign and count a vote; `None` when the signing record refuses. */
  ghost function Sign(cfg: Setup, who: Address, n: Node, kind: VoteType, v: Option<Hash32>)
    : Option<(Node, SignedVote)>
  {
    var stamp := Stamp(n.rs.round, StepOf(kind));
    if stamp <= n.lastStamp then None
    else
      var vote := Vote(cfg.chain, cfg.height, n.rs.round, kind, v, who);
      var signed := SignedVote(vote, cfg.sign(vote));
      Some((n.(lastStamp := stamp, inbox := n.inbox + {signed}), signed))
  }

  ghost function EmitPrecommit(cfg: Setup, who: Address, n: Node, v: Option<Hash32>): (Node, set<SignedVote>) {
    match Sign(cfg, who, n, Precommit, v)
    case None => (n, {})
    case Some((signed, vote)) => (CountPrecommits(cfg, signed), {vote})
  }

  /** `check_prevote_quorum`. */
  ghost function CountPrevotes(cfg: Setup, who: Address, n: Node): (Node, set<SignedVote>) {
    var votes := Held(n.inbox, n.rs.round, Prevote);
    if n.rs.step == Precommitting then (n, {})
    else
      match QuorumIn(cfg.vs, votes)
      case None => (if AnyQuorum(cfg.vs, votes) then Arm(n, Prevoting) else n, {})
      case Some(v) =>
        var (rs, d) := AfterPrevotes(n.rs, Some(v));
        EmitPrecommit(cfg, who, n.(rs := rs), d.value)
  }

  ghost function EmitPrevote(cfg: Setup, who: Address, n: Node, v: Option<Hash32>): (Node, set<SignedVote>) {
    match Sign(cfg, who, n, Prevote, v)
    case None => (n, {})
    case Some((signed, vote)) =>
      var (next, more) := CountPrevotes(cfg, who, signed);
      (next, {vote} + more)
  }

  /** `on_proposal`. */
  ghost function Hear(cfg: Setup, who: Address, n: Node, p: Proposal): (Node, set<SignedVote>) {
    if p.round != n.rs.round || cfg.proposer(p.round) != p.proposer then (n, {})
    else
      var d := DecidePrevote(n.rs, Some(p.block), p.validRound, cfg.executes(p.block));
      EmitPrevote(cfg, who, n.(proposals := n.proposals[p.round := p], rs := n.rs.(step := Prevoting)), d.value)
  }

  /** The proposal of the highest round held. */
  ghost predicate IsLatest(proposals: map<nat, Proposal>, r: nat) {
    r in proposals && forall r' :: r' in proposals ==> r' <= r
  }

  /** What an honest proposer offers: the latest proposal it holds, with the
      round of its valid value, or a fresh block if it has no valid value or
      holds no proposal. */
  ghost function Offer(n: Node, who: Address, built: Hash32): Proposal {
    if n.rs.validValue.Some? && exists r :: IsLatest(n.proposals, r) then
      var r :| IsLatest(n.proposals, r);
      Proposal(n.rs.round, n.proposals[r].block, n.rs.validRound, who)
    else Proposal(n.rs.round, built, None, who)
  }

  lemma OneLatest(n: Node, r: nat)
    requires IsLatest(n.proposals, r)
    ensures forall k :: IsLatest(n.proposals, k) ==> k == r
  {
    forall k | IsLatest(n.proposals, k) ensures k == r {
      assert k in n.proposals && r in n.proposals;
    }
  }

  lemma {:induction false} HasHighest(rounds: set<nat>)
    requires rounds != {}
    ensures exists r :: r in rounds && forall k :: k in rounds ==> k <= r
    decreases |rounds|
  {
    var x :| x in rounds;
    var rest := rounds - {x};
    if rest == {} {
      assert rounds == {x};
    } else {
      HasHighest(rest);
      var r :| r in rest && forall k :: k in rest ==> k <= r;
      var highest := if x <= r then r else x;
      assert highest in rounds && forall k :: k in rounds ==> k in rest || k == x;
    }
  }

  /** A proposer that remembers a valid value and holds any proposal offers the
      block of the highest round it holds, with the round of that value; any
      other offers the block it built, with no claim. */
  lemma OffersExactly(n: Node, who: Address, built: Hash32)
    ensures Offer(n, who, built).round == n.rs.round && Offer(n, who, built).proposer == who
    ensures n.rs.validValue.None? || n.proposals == map[] ==>
      Offer(n, who, built).block == built && Offer(n, who, built).validRound.None?
    ensures n.rs.validValue.Some? && n.proposals != map[] ==>
      && Offer(n, who, built).validRound == n.rs.validRound
      && exists r :: r in n.proposals && Offer(n, who, built).block == n.proposals[r].block
           && forall k :: k in n.proposals ==> k <= r
  {
    if n.rs.validValue.Some? && n.proposals != map[] {
      HasHighest(n.proposals.Keys);
      var r :| r in n.proposals.Keys && forall k :: k in n.proposals.Keys ==> k <= r;
      assert IsLatest(n.proposals, r);
      OneLatest(n, r);
      assert Offer(n, who, built).block == n.proposals[r].block;
    }
  }

  /** The claim an honest proposer makes is about the block it offers exactly
      when the latest proposal it holds is its valid value; the node does not
      look for the proposal that is. */
  lemma OfferBackedExactlyWhen(n: Node, who: Address, built: Hash32, r: nat)
    requires n.rs.validValue.Some? && IsLatest(n.proposals, r)
    ensures var p := Offer(n, who, built);
      && p.validRound == n.rs.validRound
      && (p.block == n.rs.validValue.value <==> n.proposals[r].block == n.rs.validValue.value)
  {
    OneLatest(n, r);
  }

  /** `start_round`: propose, or ask for the proposal timer; once a round. */
  ghost function Begin(cfg: Setup, who: Address, n: Node, built: Hash32): (Node, set<SignedVote>, set<Proposal>) {
    var n1 := n.(begun := Some(n.rs.round));
    var stamp := Stamp(n.rs.round, Propose);
    if n.begun == Some(n.rs.round) then (n, {}, {})
    else if cfg.proposer(n.rs.round) != who || stamp <= n.lastStamp then (Ask(n1, Propose), {}, {})
    else
      var p := Offer(n, who, built);
      var (next, votes) := Hear(cfg, who, n1.(lastStamp := stamp), p);
      (next, votes, {p})
  }

  /** `on_vote`: only votes of the current round drive the node. */
  ghost function Receive(cfg: Setup, who: Address, n: Node, s: SignedVote): (Node, set<SignedVote>) {
    var n1 := n.(inbox := n.inbox + {s});
    if s.vote.round != n.rs.round then (n1, {})
    else if s.vote.kind == Prevote then CountPrevotes(cfg, who, n1)
    else (CountPrecommits(cfg, n1), {})
  }

  /** `on_timeout`: the timer asked for at round `asked` is spent, whether or not it ends a step. */
  ghost function Timeout(cfg: Setup, who: Address, n: Node, asked: nat, step: Step): (Node, set<SignedVote>) {
    var n1 := n.(timers := n.timers - {(asked, step)});
    if n.rs.step != step then (n1, {})
    else
      match step
      case Propose => EmitPrevote(cfg, who, n1.(rs := n1.rs.(step := Prevoting)), None)
      case Prevoting => EmitPrecommit(cfg, who, n1.(rs := n1.rs.(step := Precommitting)), None)
      case Precommitting => (n1.(rs := AdvancedTo(n1.rs, n1.rs.round + 1)), {})
  }

  // -- the network ----------------------------------------------------------

  datatype Event =
    | Start(built: Hash32)
    | Offered(offer: Proposal)
    | Delivered(vote: SignedVote)
    | TimedOut(asked: nat, step: Step)
    | Synced(round: nat, block: Hash32)

  datatype Act =
    | Happens(who: Address, event: Event)
    | FaultyVote(vote: SignedVote)
    | ForgedOffer(offer: Proposal)

  /** The honest nodes, every vote signed and every proposal made. Anything sent
      may reach any node at any time, in any order, or never. */
  datatype Network = Network(nodes: map<Address, Node>, pool: set<SignedVote>, offers: set<Proposal>)

  /** An honest proposer's own block executes; what is delivered was sent; a timer
      fires at most once, in the round it was asked for if timers are punctual and
      in any later one if not; a synced block executes and comes with a certificate. */
  ghost predicate CanHappen(cfg: Setup, pool: set<SignedVote>, offers: set<Proposal>, n: Node, event: Event) {
    match event
    case Start(built) => cfg.executes(built)
    case Offered(p) => p in offers
    case Delivered(s) => s in pool
    case TimedOut(asked, step) => (asked, step) in n.timers && (cfg.punctual ==> asked == n.rs.round)
    case Synced(round, block) => cfg.executes(block) && QuorumSigned(cfg.Core(), pool, round, Precommit, Some(block))
  }

  /** Nobody checks who signed a proposal, so an offer may come in anyone's name. */
  ghost predicate Enabled(cfg: Setup, net: Network, act: Act) {
    match act
    case Happens(who, event) =>
      who in net.nodes && net.nodes[who].decided.None? && CanHappen(cfg, net.pool, net.offers, net.nodes[who], event)
    case FaultyVote(s) => s.vote.validator in cfg.faulty && s.vote.chain == cfg.chain && s.vote.height == cfg.height
    case ForgedOffer(p) => true
  }

  ghost function React(cfg: Setup, who: Address, n: Node, event: Event): (Node, set<SignedVote>, set<Proposal>) {
    match event
    case Start(built) => Begin(cfg, who, n, built)
    case Offered(p) => var (next, votes) := Hear(cfg, who, n, p); (next, votes, {})
    case Delivered(s) => var (next, votes) := Receive(cfg, who, n, s); (next, votes, {})
    case TimedOut(asked, step) => var (next, votes) := Timeout(cfg, who, n, asked, step); (next, votes, {})
    case Synced(round, block) => (n.(decided := Some(block), certified := round), {}, {})
  }

  ghost function Apply(cfg: Setup, net: Network, act: Act): Network
    requires Enabled(cfg, net, act)
  {
    match act
    case Happens(who, event) =>
      var (next, votes, offers) := React(cfg, who, net.nodes[who], event);
      Network(net.nodes[who := next], net.pool + votes, net.offers + offers)
    case FaultyVote(s) => net.(pool := net.pool + {s})
    case ForgedOffer(p) => net.(offers := net.offers + {p})
  }

  /** Whatever is sent, by a node, by a faulty validator or in somebody's name, is
      there for every node to hear from then on; an event concerns one node. */
  lemma ActSends(cfg: Setup, net: Network, act: Act)
    requires Enabled(cfg, net, act)
    ensures var next := Apply(cfg, net, act);
      && net.pool <= next.pool && net.offers <= next.offers && next.nodes.Keys == net.nodes.Keys
      && (act.FaultyVote? ==> act.vote in next.pool && next.nodes == net.nodes && next.offers == net.offers)
      && (act.ForgedOffer? ==> act.offer in next.offers && next.nodes == net.nodes && next.pool == net.pool)
      && (act.Happens? ==> forall a :: a in net.nodes && a != act.who ==> next.nodes[a] == net.nodes[a])
  {
  }

  ghost function NewNode(height: nat): Node { Node(Fresh(height), -1, None, map[], {}, {}, {}, None, 0) }

  ghost function Init(cfg: Setup): Network {
    Network(map a | a in cfg.Honest() :: NewNode(cfg.height), {}, {})
  }

  ghost predicate Legal(cfg: Setup, net: Network, acts: seq<Act>)
    decreases |acts|
  {
    acts != [] ==> Enabled(cfg, net, acts[0]) && Legal(cfg, Apply(cfg, net, acts[0]), acts[1..])
  }

  ghost function RunFrom(cfg: Setup, net: Network, acts: seq<Act>): Network
    requires Legal(cfg, net, acts)
    decreases |acts|
  {
    if acts == [] then net else RunFrom(cfg, Apply(cfg, net, acts[0]), acts[1..])
  }

  ghost predicate Agreement(net: Network) {
    forall a, b :: a in net.nodes && b in net.nodes && net.nodes[a].decided.Some? && net.nodes[b].decided.Some?
      ==> net.nodes[a].decided == net.nodes[b].decided
  }
}
