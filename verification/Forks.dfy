/** The fork: for every validator set with two smallest quorums, a run of honest
    nodes alone, each event one the node's own rules produce, in which two of
    them commit different blocks. */
module Forks {
  import opened Base
  import opened Validators
  import opened Votes
  import opened Rounds
  import opened Signing
  import opened Nodes
  import opened ExactAgreement

  // -- smallest quorums -----------------------------------------------------

  /** A quorum that is none without any one of its members. */
  ghost predicate Smallest(vs: ValidatorSet, g: set<Address>) {
    && g <= Members(vs.validators) && vs.HasQuorum(vs.Power(g))
    && forall a :: a in g ==> !vs.HasQuorum(vs.Power(g - {a}))
  }

  lemma PartIsNoQuorum(vs: ValidatorSet, g: set<Address>, h: set<Address>)
    requires Smallest(vs, g) && h < g
    ensures !vs.HasQuorum(vs.Power(h))
  {
    var a :| a in g && a !in h;
    PowerOfMonotone(vs.validators, h, g - {a});
  }

  lemma {:induction false} Shrink(vs: ValidatorSet, g: set<Address>) returns (m: set<Address>)
    requires g <= Members(vs.validators) && vs.HasQuorum(vs.Power(g))
    ensures m <= g && Smallest(vs, m)
    decreases |g|
  {
    if a :| a in g && vs.HasQuorum(vs.Power(g - {a})) {
      m := Shrink(vs, g - {a});
    } else {
      m := g;
    }
  }

  /** Unless the indispensable validators are a quorum, there are two smallest quorums. */
  lemma TwoSmallest(vs: ValidatorSet) returns (r: set<Address>, q: set<Address>, s: Address, u: Address)
    requires vs.Valid() && !OneQuorumRules(vs)
    ensures Smallest(vs, r) && Smallest(vs, q) && s in r && s !in q && u in q && u !in r
  {
    var all := Members(vs.validators);
    QuorumSplitsTotal(vs);
    PowerOfUpTo(vs.validators, all);
    r := Shrink(vs, all);
    QuorumHasIndispensable(vs, r);
    assert r != Indispensable(vs);
    s :| s in r && s !in Indispensable(vs);
    var v :| v in vs.validators && v.address == s;
    UniqueMember(vs, v);
    PowerWithOne(vs, all, s);
    q := Shrink(vs, all - {s});
    if q <= r {
      PartIsNoQuorum(vs, r, q);
    }
    u :| u in q && u !in r;
  }

  // -- ballots --------------------------------------------------------------

  function SignedBy(cfg: Setup, r: nat, kind: VoteType, v: Option<Hash32>, a: Address): SignedVote {
    var vote := Vote(cfg.chain, cfg.height, r, kind, v, a);
    SignedVote(vote, cfg.sign(vote))
  }

  /** One vote from each of a group. */
  ghost function Ballot(cfg: Setup, r: nat, kind: VoteType, val: map<Address, Option<Hash32>>,
                        g: set<Address>): set<SignedVote>
    requires g <= val.Keys
  {
    set a | a in g :: SignedBy(cfg, r, kind, val[a], a)
  }

  lemma BallotFacts(cfg: Setup, r: nat, kind: VoteType, val: map<Address, Option<Hash32>>, g: set<Address>)
    requires g <= val.Keys
    ensures var b := Ballot(cfg, r, kind, val, g);
      && Consistent(b) == g
      && (forall v :: Backers(b, v) == set a | a in g && val[a] == v)
  {
    var b := Ballot(cfg, r, kind, val, g);
    forall a ensures ValuesOf(b, a) == if a in g then {val[a]} else {} {
      if a in g {
        assert SignedBy(cfg, r, kind, val[a], a) in b;
      }
    }
    forall a ensures a in Voters(b) <==> a in g {
      Voted(b, a);
    }
    forall a | a in g ensures |ValuesOf(b, a)| == 1 {}
    forall v ensures Backers(b, v) == set a | a in g && val[a] == v {
      assert forall a :: a in g && {val[a]} == {v} ==> val[a] in {v};
    }
  }

  /** Less than a smallest quorum settles nothing. */
  lemma PartSettlesNothing(cfg: Setup, r: nat, kind: VoteType, val: map<Address, Option<Hash32>>, g: set<Address>,
                           h: set<Address>)
    requires Smallest(cfg.vs, g) && h < g <= val.Keys
    ensures var b := Ballot(cfg, r, kind, val, h);
      QuorumIn(cfg.vs, b).None? && !AnyQuorum(cfg.vs, b)
  {
    var b := Ballot(cfg, r, kind, val, h);
    BallotFacts(cfg, r, kind, val, h);
    PartIsNoQuorum(cfg.vs, g, h);
    forall v ensures !cfg.vs.HasQuorum(Tally(cfg.vs, b, v)) {
      PowerOfMonotone(cfg.vs.validators, Backers(b, v), h);
    }
  }

  /** A smallest quorum of one mind settles its value. */
  lemma WholeSettles(cfg: Setup, r: nat, kind: VoteType, val: map<Address, Option<Hash32>>, g: set<Address>,
                     v: Option<Hash32>)
    requires cfg.vs.Valid() && Smallest(cfg.vs, g) && g <= val.Keys && forall a :: a in g ==> val[a] == v
    ensures QuorumIn(cfg.vs, Ballot(cfg, r, kind, val, g)) == Some(v)
  {
    var b := Ballot(cfg, r, kind, val, g);
    BallotFacts(cfg, r, kind, val, g);
    assert Backers(b, v) == g;
    assert cfg.vs.HasQuorum(Tally(cfg.vs, b, v));
    AtMostOneQuorum(cfg.vs, b, v, QuorumIn(cfg.vs, b).value);
  }

  /** A smallest quorum of two minds is a quorum that settles nothing. */
  lemma MixedSettlesNothing(cfg: Setup, r: nat, kind: VoteType, val: map<Address, Option<Hash32>>, g: set<Address>,
                            x: Address, y: Address)
    requires Smallest(cfg.vs, g) && g <= val.Keys && x in g && y in g && val[x] != val[y]
    ensures var b := Ballot(cfg, r, kind, val, g);
      QuorumIn(cfg.vs, b).None? && AnyQuorum(cfg.vs, b)
  {
    var b := Ballot(cfg, r, kind, val, g);
    BallotFacts(cfg, r, kind, val, g);
    forall v ensures !cfg.vs.HasQuorum(Tally(cfg.vs, b, v)) {
      assert x !in Backers(b, v) || y !in Backers(b, v);
      PartIsNoQuorum(cfg.vs, g, Backers(b, v));
    }
  }

  // -- one node, several events ---------------------------------------------

  type Reaction = (Node, Event) -> (Node, set<SignedVote>, set<Proposal>)

  ghost function Rules(cfg: Setup, who: Address): Reaction { (n, e) => React(cfg, who, n, e) }

  ghost function Chances(cfg: Setup, pool: set<SignedVote>, offers: set<Proposal>): (Node, Event) -> bool {
    (n: Node, e) => n.decided.None? && CanHappen(cfg, pool, offers, n, e)
  }

  ghost function Local(react: Reaction, n: Node, events: seq<Event>): (Node, set<SignedVote>, set<Proposal>)
    decreases |events|
  {
    if events == [] then (n, {}, {})
    else
      var (n1, votes, offers) := react(n, events[0]);
      var (last, more, others) := Local(react, n1, events[1..]);
      (last, votes + more, offers + others)
  }

  ghost predicate Feasible(react: Reaction, can: (Node, Event) -> bool, n: Node, events: seq<Event>)
    decreases |events|
  {
    events != [] ==> can(n, events[0]) && Feasible(react, can, react(n, events[0]).0, events[1..])
  }

  lemma {:induction false} FeasibleMore(react: Reaction, can: (Node, Event) -> bool, could: (Node, Event) -> bool,
                                        n: Node, events: seq<Event>)
    requires Feasible(react, can, n, events) && forall m, e :: can(m, e) ==> could(m, e)
    ensures Feasible(react, could, n, events)
    decreases |events|
  {
    if events != [] {
      FeasibleMore(react, can, could, react(n, events[0]).0, events[1..]);
    }
  }

  /** What can happen to a node can still happen when more has been sent. */
  lemma ChancesGrow(cfg: Setup, pool: set<SignedVote>, offers: set<Proposal>, pool': set<SignedVote>,
                    offers': set<Proposal>)
    requires pool <= pool' && offers <= offers'
    ensures forall m, e :: Chances(cfg, pool, offers)(m, e) ==> Chances(cfg, pool', offers')(m, e)
  {
    forall m: Node, e | m.decided.None? && CanHappen(cfg, pool, offers, m, e)
      ensures CanHappen(cfg, pool', offers', m, e)
    {
      if e.Synced? {
        SignedStays(cfg.Core(), pool, pool', e.round, Precommit, Some(e.block));
      }
    }
  }

  lemma {:induction false} LocalConcat(react: Reaction, can: (Node, Event) -> bool, n: Node, xs: seq<Event>,
                                       ys: seq<Event>)
    requires Feasible(react, can, n, xs) && Feasible(react, can, Local(react, n, xs).0, ys)
    ensures Feasible(react, can, n, xs + ys)
    ensures var a, b := Local(react, n, xs), Local(react, Local(react, n, xs).0, ys);
      Local(react, n, xs + ys) == (b.0, a.1 + b.1, a.2 + b.2)
    decreases |xs|
  {
    var b := Local(react, Local(react, n, xs).0, ys);
    if xs == [] {
      assert xs + ys == ys;
      assert {} + b.1 == b.1 && {} + b.2 == b.2;
    } else {
      assert (xs + ys)[1..] == xs[1..] + ys;
      var (n1, votes, offers) := react(n, xs[0]);
      LocalConcat(react, can, n1, xs[1..], ys);
      var (last, more, others) := Local(react, n1, xs[1..]);
      assert votes + (more + b.1) == votes + more + b.1 && offers + (others + b.2) == offers + others + b.2;
    }
  }

  lemma {:induction false} LocalOne(react: Reaction, can: (Node, Event) -> bool, n: Node, e: Event)
    ensures Feasible(react, can, n, [e]) <==> can(n, e)
    ensures Local(react, n, [e]) == react(n, e)
  {
    assert [e][1..] == [];
    var (n1, votes, offers) := react(n, e);
    assert votes + {} == votes && offers + {} == offers;
  }

  // -- runs -----------------------------------------------------------------

  ghost predicate Reaches(cfg: Setup, net: Network, net': Network) {
    exists acts :: Legal(cfg, net, acts) && RunFrom(cfg, net, acts) == net'
  }

  lemma {:induction false} RunsCompose(cfg: Setup, net: Network, xs: seq<Act>, ys: seq<Act>)
    requires Legal(cfg, net, xs) && Legal(cfg, RunFrom(cfg, net, xs), ys)
    ensures Legal(cfg, net, xs + ys) && RunFrom(cfg, net, xs + ys) == RunFrom(cfg, RunFrom(cfg, net, xs), ys)
    decreases |xs|
  {
    if xs == [] {
      assert xs + ys == ys;
    } else {
      assert (xs + ys)[1..] == xs[1..] + ys;
      RunsCompose(cfg, Apply(cfg, net, xs[0]), xs[1..], ys);
    }
  }

  lemma ReachesOn(cfg: Setup, a: Network, b: Network, c: Network)
    requires Reaches(cfg, a, b) && Reaches(cfg, b, c)
    ensures Reaches(cfg, a, c)
  {
    var xs :| Legal(cfg, a, xs) && RunFrom(cfg, a, xs) == b;
    var ys :| Legal(cfg, b, ys) && RunFrom(cfg, b, ys) == c;
    RunsCompose(cfg, a, xs, ys);
  }

  lemma {:induction false} ReachesSelf(cfg: Setup, a: Network)
    ensures Reaches(cfg, a, a)
  {
    assert Legal(cfg, a, []) && RunFrom(cfg, a, []) == a;
  }

  lemma {:induction false} OneNodeRuns(cfg: Setup, net: Network, who: Address, events: seq<Event>)
    requires who in net.nodes && Feasible(Rules(cfg, who), Chances(cfg, net.pool, net.offers), net.nodes[who], events)
    ensures var (n, votes, offers) := Local(Rules(cfg, who), net.nodes[who], events);
      Reaches(cfg, net, Network(net.nodes[who := n], net.pool + votes, net.offers + offers))
    decreases |events|
  {
    var n := net.nodes[who];
    if events == [] {
      ReachesSelf(cfg, net);
      assert Network(net.nodes[who := n], net.pool + {}, net.offers + {}) == net;
    } else {
      var (n1, votes, offers) := React(cfg, who, n, events[0]);
      var next := Apply(cfg, net, Happens(who, events[0]));
      ChancesGrow(cfg, net.pool, net.offers, next.pool, next.offers);
      FeasibleMore(Rules(cfg, who), Chances(cfg, net.pool, net.offers), Chances(cfg, next.pool, next.offers), n1,
        events[1..]);
      OneNodeRuns(cfg, next, who, events[1..]);
      var (last, more, others) := Local(Rules(cfg, who), n1, events[1..]);
      OneAct(cfg, net, Happens(who, events[0]));
      ReachesOn(cfg, net, next, Network(next.nodes[who := last], next.pool + more, next.offers + others));
      assert next.nodes[who := last] == net.nodes[who := last];
      assert next.pool + more == net.pool + (votes + more);
      assert next.offers + others == net.offers + (offers + others);
    }
  }

  lemma {:induction false} OneAct(cfg: Setup, net: Network, act: Act)
    requires Enabled(cfg, net, act)
    ensures Reaches(cfg, net, Apply(cfg, net, act))
  {
    var next := Apply(cfg, net, act);
    assert [act][1..] == [];
    assert Legal(cfg, next, []);
    assert Legal(cfg, net, [act]) && RunFrom(cfg, net, [act]) == next;
  }

  // -- stages of a node -----------------------------------------------------

  /** Where a node stands: at the start of a round, having just cast a vote that
      is the only one of its phase it holds, or done. */
  datatype Stage =
    | Starting(round: nat)
    | Cast(round: nat, kind: VoteType, value: Option<Hash32>)
    | Committed(block: Hash32)

  /** A stage, with what the node must not be locked on, must not have seen, and must hold. */
  datatype Aim = Aim(stage: Stage, unlocked: bool, blank: bool, holds: set<Hash32>)

  /** Step timers were asked for earlier only. */
  ghost predicate WaitsBefore(n: Node, stamp: int) {
    forall r, step :: (r, step) in n.waits ==> Stamp(r, step) < stamp
  }

  ghost predicate AtStage(cfg: Setup, w: Address, n: Node, stage: Stage) {
    match stage
    case Starting(r) =>
      && n.rs.round == r && n.rs.step == Propose && n.lastStamp < Stamp(r, Propose) && n.decided.None?
      && (n.begun.Some? ==> n.begun.value < r) && (forall k :: k in n.proposals ==> k < r)
      && (forall s :: s in n.inbox ==> VoteStamp(s.vote) < Stamp(r, Propose)) && WaitsBefore(n, Stamp(r, Propose))
    case Cast(r, kind, v) =>
      && n.rs.round == r && n.rs.step == StepOf(kind) && n.lastStamp == Stamp(r, StepOf(kind)) && n.decided.None?
      && (n.begun.Some? ==> n.begun.value <= r) && (forall k :: k in n.proposals ==> k <= r)
      && Held(n.inbox, r, kind) == {SignedBy(cfg, r, kind, v, w)}
      && (forall s :: s in n.inbox ==> VoteStamp(s.vote) <= Stamp(r, StepOf(kind)))
      && WaitsBefore(n, Stamp(r, StepOf(kind)))
    case Committed(b) => n.decided == Some(b)
  }

  ghost predicate Meets(cfg: Setup, w: Address, n: Node, aim: Aim) {
    && AtStage(cfg, w, n, aim.stage)
    && (aim.unlocked ==> n.rs.lockedValue.None?)
    && (aim.blank ==> n.rs.validValue.None?)
    && (forall b :: b in aim.holds ==> Knows(n, b))
  }

  /** What the others can see of it. */
  ghost function Shown(cfg: Setup, w: Address, stage: Stage): set<SignedVote> {
    if stage.Cast? then {SignedBy(cfg, stage.round, stage.kind, stage.value, w)} else {}
  }

  /** Events the network can cause take a node to its aim. */
  ghost predicate CanReach(cfg: Setup, pool: set<SignedVote>, offers: set<Proposal>, w: Address, n: Node, aim: Aim) {
    exists events ::
      && Feasible(Rules(cfg, w), Chances(cfg, pool, offers), n, events)
      && Meets(cfg, w, Local(Rules(cfg, w), n, events).0, aim)
      && Shown(cfg, w, aim.stage) <= Local(Rules(cfg, w), n, events).1
  }

  // -- gathering votes ------------------------------------------------------

  ghost function Deliveries(votes: seq<SignedVote>): (events: seq<Event>)
    ensures |events| == |votes| && forall i :: 0 <= i < |votes| ==> events[i] == Delivered(votes[i])
  {
    seq(|votes|, i requires 0 <= i < |votes| => Delivered(votes[i]))
  }

  /** The node with more votes in hand. */
  ghost function Holding(n: Node, votes: set<SignedVote>): Node { n.(inbox := n.inbox + votes) }

  lemma HeldWith(cfg: Setup, n: Node, r: nat, kind: VoteType, val: map<Address, Option<Hash32>>, got: set<Address>,
                 more: set<Address>)
    requires got <= val.Keys && more <= val.Keys && Held(n.inbox, r, kind) == Ballot(cfg, r, kind, val, got)
    ensures Held(Holding(n, Ballot(cfg, r, kind, val, more)).inbox, r, kind) == Ballot(cfg, r, kind, val, got + more)
  {
    var b := Ballot(cfg, r, kind, val, more);
    assert Held(b, r, kind) == b;
    assert Held(n.inbox + b, r, kind) == Held(n.inbox, r, kind) + Held(b, r, kind);
    assert Ballot(cfg, r, kind, val, got + more) == Ballot(cfg, r, kind, val, got) + b;
  }

  /** The rules and chances of a network, applied. */
  lemma Happening(cfg: Setup, pool: set<SignedVote>, offers: set<Proposal>, w: Address, n: Node, e: Event)
    ensures Rules(cfg, w)(n, e) == React(cfg, w, n, e)
    ensures Chances(cfg, pool, offers)(n, e) <==> n.decided.None? && CanHappen(cfg, pool, offers, n, e)
  {
  }

  /** A vote that is only kept. */
  ghost predicate Quiet(react: Reaction, can: (Node, Event) -> bool, n: Node, s: SignedVote) {
    can(n, Delivered(s)) && react(n, Delivered(s)) == (Holding(n, {s}), {}, {})
  }

  ghost function AsSet(votes: seq<SignedVote>): set<SignedVote> { set s | s in votes }

  ghost predicate AllQuiet(react: Reaction, can: (Node, Event) -> bool, n: Node, votes: seq<SignedVote>) {
    forall k :: 0 <= k < |votes| ==> Quiet(react, can, Holding(n, AsSet(votes[..k])), votes[k])
  }

  lemma AllQuietFront(react: Reaction, can: (Node, Event) -> bool, n: Node, votes: seq<SignedVote>, k: nat)
    requires AllQuiet(react, can, n, votes) && k + 1 == |votes|
    ensures AllQuiet(react, can, n, votes[..k]) && Quiet(react, can, Holding(n, AsSet(votes[..k])), votes[k])
  {
    assert forall i :: 0 <= i < k ==> votes[..k][..i] == votes[..i];
  }

  lemma QuietLast(react: Reaction, can: (Node, Event) -> bool, n: Node, events: seq<Event>, m: Node, s: SignedVote)
    requires Feasible(react, can, n, events) && Local(react, n, events) == (m, {}, {}) && Quiet(react, can, m, s)
    ensures Feasible(react, can, n, events + [Delivered(s)])
    ensures Local(react, n, events + [Delivered(s)]) == (Holding(m, {s}), {}, {})
  {
    LocalOne(react, can, m, Delivered(s));
    LocalConcat(react, can, n, events, [Delivered(s)]);
    var none: set<SignedVote>, nothing: set<Proposal> := {}, {};
    assert none + none == none && nothing + nothing == nothing;
  }

  lemma HoldingSnoc(n: Node, votes: seq<SignedVote>, k: nat)
    requires k + 1 == |votes|
    ensures Deliveries(votes) == Deliveries(votes[..k]) + [Delivered(votes[k])]
    ensures Holding(Holding(n, AsSet(votes[..k])), {votes[k]}) == Holding(n, AsSet(votes))
  {
    assert AsSet(votes) == AsSet(votes[..k]) + {votes[k]};
  }

  lemma {:induction false} NothingDelivered(react: Reaction, can: (Node, Event) -> bool, n: Node)
    ensures Feasible(react, can, n, Deliveries([]))
      && Local(react, n, Deliveries([])) == (Holding(n, AsSet([])), {}, {})
  {
    assert Deliveries([]) == [];
    assert n.inbox + AsSet([]) == n.inbox;
  }

  lemma {:induction false} QuietDeliveries(react: Reaction, can: (Node, Event) -> bool, n: Node, votes: seq<SignedVote>)
    requires AllQuiet(react, can, n, votes)
    ensures Feasible(react, can, n, Deliveries(votes))
    ensures Local(react, n, Deliveries(votes)) == (Holding(n, AsSet(votes)), {}, {})
    decreases |votes|
  {
    if votes == [] {
      NothingDelivered(react, can, n);
    } else {
      var k := |votes| - 1;
      AllQuietFront(react, can, n, votes, k);
      QuietDeliveries(react, can, n, votes[..k]);
      QuietLast(react, can, n, Deliveries(votes[..k]), Holding(n, AsSet(votes[..k])), votes[k]);
      HoldingSnoc(n, votes, k);
    }
  }

  /** A vote that leaves the voters short of a smallest quorum is only kept. */
  lemma QuietVote(cfg: Setup, w: Address, n: Node, r: nat, kind: VoteType, val: map<Address, Option<Hash32>>,
                  g: set<Address>, got: set<Address>, a: Address)
    requires Smallest(cfg.vs, g) && g <= val.Keys && got + {a} < g && n.rs.round == r
    requires Held(n.inbox, r, kind) == Ballot(cfg, r, kind, val, got)
    ensures Receive(cfg, w, n, SignedBy(cfg, r, kind, val[a], a)) == (Holding(n, Ballot(cfg, r, kind, val, {a})), {})
  {
    var s := SignedBy(cfg, r, kind, val[a], a);
    assert Ballot(cfg, r, kind, val, {a}) == {s};
    assert Holding(n, Ballot(cfg, r, kind, val, {a})) == n.(inbox := n.inbox + {s});
    HeldWith(cfg, n, r, kind, val, got, {a});
    PartSettlesNothing(cfg, r, kind, val, g, got + {a});
    assert s.vote.round == r && s.vote.kind == kind;
    if kind == Prevote {
      assert CountPrevotes(cfg, w, Holding(n, {s})) == (Holding(n, {s}), {});
    } else {
      assert CountPrecommits(cfg, Holding(n, {s})) == Holding(n, {s});
    }
  }

  ghost function Elems(from: seq<Address>): set<Address> { set a | a in from }

  ghost function Listed(cfg: Setup, r: nat, kind: VoteType, val: map<Address, Option<Hash32>>,
                        from: seq<Address>): (votes: seq<SignedVote>)
    requires forall a :: a in from ==> a in val
    ensures |votes| == |from|
    ensures forall i :: 0 <= i < |from| ==> votes[i] == SignedBy(cfg, r, kind, val[from[i]], from[i])
  {
    seq(|from|, i requires 0 <= i < |from| => SignedBy(cfg, r, kind, val[from[i]], from[i]))
  }

  lemma ListedIsBallot(cfg: Setup, r: nat, kind: VoteType, val: map<Address, Option<Hash32>>, from: seq<Address>,
                       k: nat)
    requires (forall a :: a in from ==> a in val) && k <= |from|
    ensures AsSet(Listed(cfg, r, kind, val, from)[..k]) == Ballot(cfg, r, kind, val, Elems(from[..k]))
  {
    var votes := Listed(cfg, r, kind, val, from);
    forall s ensures s in votes[..k] <==> s in Ballot(cfg, r, kind, val, Elems(from[..k])) {
      if s in votes[..k] {
        var i :| 0 <= i < k && votes[i] == s;
        assert from[..k][i] == from[i];
      }
      if s in Ballot(cfg, r, kind, val, Elems(from[..k])) {
        var a :| a in from[..k] && s == SignedBy(cfg, r, kind, val[a], a);
        var i :| 0 <= i < k && from[..k][i] == a;
        assert votes[..k][i] == s;
      }
    }
  }

  /** Votes that together stay short of a smallest quorum are only kept. */
  lemma QuietVotes(cfg: Setup, pool: set<SignedVote>, offers: set<Proposal>, w: Address, n: Node, r: nat,
                   kind: VoteType,
                   val: map<Address, Option<Hash32>>, g: set<Address>, got: set<Address>, from: seq<Address>)
    requires Smallest(cfg.vs, g) && g <= val.Keys && n.rs.round == r && n.decided.None?
    requires got + Elems(from) < g && Ballot(cfg, r, kind, val, g) <= pool
    requires Held(n.inbox, r, kind) == Ballot(cfg, r, kind, val, got)
    ensures var events := Deliveries(Listed(cfg, r, kind, val, from));
      && Feasible(Rules(cfg, w), Chances(cfg, pool, offers), n, events)
      && Local(Rules(cfg, w), n, events) == (Holding(n, Ballot(cfg, r, kind, val, Elems(from))), {}, {})
  {
    var votes := Listed(cfg, r, kind, val, from);
    forall k | 0 <= k < |votes|
      ensures Quiet(Rules(cfg, w), Chances(cfg, pool, offers), Holding(n, AsSet(votes[..k])), votes[k])
    {
      QuietAt(cfg, pool, offers, w, n, r, kind, val, g, got, from, k);
    }
    QuietDeliveries(Rules(cfg, w), Chances(cfg, pool, offers), n, votes);
    ListedIsBallot(cfg, r, kind, val, from, |from|);
    assert votes[..|from|] == votes && from[..|from|] == from;
  }

  lemma QuietAt(cfg: Setup, pool: set<SignedVote>, offers: set<Proposal>, w: Address, n: Node, r: nat, kind: VoteType,
                val: map<Address, Option<Hash32>>, g: set<Address>, got: set<Address>, from: seq<Address>, k: nat)
    requires Smallest(cfg.vs, g) && g <= val.Keys && n.rs.round == r && n.decided.None?
    requires got + Elems(from) < g && Ballot(cfg, r, kind, val, g) <= pool && k < |from|
    requires Held(n.inbox, r, kind) == Ballot(cfg, r, kind, val, got)
    ensures var votes := Listed(cfg, r, kind, val, from);
      Quiet(Rules(cfg, w), Chances(cfg, pool, offers), Holding(n, AsSet(votes[..k])), votes[k])
  {
    var before := Elems(from[..k]);
    var a := from[k];
    var m := Holding(n, Ballot(cfg, r, kind, val, before));
    ListedIsBallot(cfg, r, kind, val, from, k);
    HeldWith(cfg, n, r, kind, val, got, before);
    assert got + before + {a} <= got + Elems(from);
    QuietVote(cfg, w, m, r, kind, val, g, got + before, a);
    assert Ballot(cfg, r, kind, val, {a}) == {SignedBy(cfg, r, kind, val[a], a)};
    assert SignedBy(cfg, r, kind, val[a], a) in Ballot(cfg, r, kind, val, g);
    Happening(cfg, pool, offers, w, m, Delivered(SignedBy(cfg, r, kind, val[a], a)));
  }
}
