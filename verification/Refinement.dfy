/** Every run of the nodes in which claims are backed is a run of the protocol:
    each event at a node is a few of its steps. So what is proved of the protocol
    holds of the nodes. */
module Refinement {
  import opened Base
  import opened Validators
  import opened Votes
  import opened Rounds
  import opened Signing
  import opened Nodes
  import P = Protocol
  import ExactAgreement

  // -- the protocol's view of the nodes -------------------------------------

  function Seen(n: Node): P.Node { P.Node(n.rs, n.lastStamp, n.decided, n.certified) }

  ghost function View(net: Network): P.State { P.State(map a | a in net.nodes :: Seen(net.nodes[a]), net.pool) }

  /** The view after one node has moved and signed. */
  ghost function Moved(s: P.State, who: Address, n: Node, votes: set<SignedVote>): P.State {
    P.State(s.nodes[who := Seen(n)], s.pool + votes)
  }

  ghost predicate Reaches(cfg: Config, s: P.State, t: P.State) {
    exists acts :: P.Legal(cfg, s, acts) && P.RunFrom(cfg, s, acts) == t
  }

  lemma {:induction false} ReachesSelf(cfg: Config, s: P.State)
    ensures Reaches(cfg, s, s)
  {
    assert P.Legal(cfg, s, []) && P.RunFrom(cfg, s, []) == s;
  }

  lemma {:induction false} OneStep(cfg: Config, s: P.State, act: P.Action)
    requires P.Enabled(cfg, s, act)
    ensures Reaches(cfg, s, P.Apply(cfg, s, act))
  {
    var next := P.Apply(cfg, s, act);
    assert [act][1..] == [];
    assert P.Legal(cfg, next, []);
    assert P.Legal(cfg, s, [act]) && P.RunFrom(cfg, s, [act]) == next;
  }

  lemma {:induction false} RunsCompose(cfg: Config, s: P.State, xs: seq<P.Action>, ys: seq<P.Action>)
    requires P.Legal(cfg, s, xs) && P.Legal(cfg, P.RunFrom(cfg, s, xs), ys)
    ensures P.Legal(cfg, s, xs + ys) && P.RunFrom(cfg, s, xs + ys) == P.RunFrom(cfg, P.RunFrom(cfg, s, xs), ys)
    decreases |xs|
  {
    if xs == [] {
      assert xs + ys == ys;
    } else {
      assert (xs + ys)[1..] == xs[1..] + ys;
      RunsCompose(cfg, P.Apply(cfg, s, xs[0]), xs[1..], ys);
    }
  }

  lemma ReachesOn(cfg: Config, a: P.State, b: P.State, c: P.State)
    requires Reaches(cfg, a, b) && Reaches(cfg, b, c)
    ensures Reaches(cfg, a, c)
  {
    var xs :| P.Legal(cfg, a, xs) && P.RunFrom(cfg, a, xs) == b;
    var ys :| P.Legal(cfg, b, ys) && P.RunFrom(cfg, b, ys) == c;
    RunsCompose(cfg, a, xs, ys);
  }

  // -- a node's counting is the protocol's ----------------------------------

  /** The node stands in the view as it is, undecided, and holds only votes that were signed. */
  ghost predicate Stands(s: P.State, who: Address, n: Node) {
    who in s.nodes && s.nodes[who] == Seen(n) && n.inbox <= s.pool && n.decided.None?
  }

  lemma Unmoved(cfg: Config, s: P.State, who: Address, n: Node, next: Node)
    requires Stands(s, who, n) && Seen(next) == Seen(n)
    ensures Moved(s, who, next, {}) == s && Reaches(cfg, s, Moved(s, who, next, {}))
  {
    assert s.nodes[who := Seen(n)] == s.nodes && s.pool + {} == s.pool;
    ReachesSelf(cfg, s);
  }

  lemma CountedIsSeen(cfg: Setup, s: P.State, who: Address, n: Node, kind: VoteType, v: Option<Hash32>)
    requires Stands(s, who, n) && QuorumIn(cfg.vs, Held(n.inbox, n.rs.round, kind)) == Some(v)
    ensures P.QuorumSeen(cfg.Core(), s.pool, n.rs.round, kind, v)
  {
    var received := Held(n.inbox, n.rs.round, kind);
    assert received <= Held(s.pool, n.rs.round, kind) && cfg.vs.HasQuorum(Tally(cfg.vs, received, v));
  }

  lemma PrecommitsCounted(cfg: Setup, s: P.State, who: Address, n: Node)
    requires Stands(s, who, n)
    ensures Reaches(cfg.Core(), s, Moved(s, who, CountPrecommits(cfg, n), {}))
  {
    var quorum, next := QuorumIn(cfg.vs, Held(n.inbox, n.rs.round, Precommit)), CountPrecommits(cfg, n);
    if quorum.None? || (quorum.value.Some? && !Knows(n, quorum.value.value)) {
      Unmoved(cfg.Core(), s, who, n, next);
    } else {
      CountedIsSeen(cfg, s, who, n, Precommit, quorum.value);
      var act := P.SeePrecommitQuorum(who, quorum.value);
      OneStep(cfg.Core(), s, act);
      assert s.pool + {} == s.pool;
      assert P.Apply(cfg.Core(), s, act) == Moved(s, who, next, {});
    }
  }

  /** What signing leaves, with or without the signing record's consent. */
  ghost function Signed(cfg: Setup, who: Address, n: Node, kind: VoteType, v: Option<Hash32>): (Node, set<SignedVote>) {
    match Sign(cfg, who, n, kind, v)
    case None => (n, {})
    case Some((signed, vote)) => (signed, {vote})
  }

  lemma SigningIsEmitting(cfg: Setup, s: P.State, who: Address, n: Node, kind: VoteType, v: Option<Hash32>)
    ensures var (next, votes) := Signed(cfg, who, n, kind, v);
      P.Emit(cfg.Core(), s, who, Seen(n), kind, v) == Moved(s, who, next, votes)
  {
    assert s.pool + {} == s.pool;
  }

  lemma MovedTwice(s: P.State, who: Address, n: Node, votes: set<SignedVote>, next: Node, more: set<SignedVote>)
    ensures Moved(Moved(s, who, n, votes), who, next, more) == Moved(s, who, next, votes + more)
  {
    assert s.pool + votes + more == s.pool + (votes + more);
  }

  /** A step of the protocol that signs a precommit, and the count that follows. */
  lemma PrecommitSteps(cfg: Setup, s: P.State, who: Address, n: Node, v: Option<Hash32>, act: P.Action)
    requires n.inbox <= s.pool && n.decided.None? && P.Enabled(cfg.Core(), s, act)
    requires P.Apply(cfg.Core(), s, act) == P.Emit(cfg.Core(), s, who, Seen(n), Precommit, v)
    ensures var (next, votes) := EmitPrecommit(cfg, who, n, v); Reaches(cfg.Core(), s, Moved(s, who, next, votes))
  {
    var (signed, votes) := Signed(cfg, who, n, Precommit, v);
    var mid := Moved(s, who, signed, votes);
    SigningIsEmitting(cfg, s, who, n, Precommit, v);
    OneStep(cfg.Core(), s, act);
    if votes != {} {
      PrecommitsCounted(cfg, mid, who, signed);
      ReachesOn(cfg.Core(), s, mid, Moved(mid, who, CountPrecommits(cfg, signed), {}));
      MovedTwice(s, who, signed, votes, CountPrecommits(cfg, signed), {});
      assert votes + {} == votes;
    }
  }

  lemma PrevotesCounted(cfg: Setup, s: P.State, who: Address, n: Node)
    requires Stands(s, who, n)
    ensures var (next, votes) := CountPrevotes(cfg, who, n); Reaches(cfg.Core(), s, Moved(s, who, next, votes))
  {
    var quorum := QuorumIn(cfg.vs, Held(n.inbox, n.rs.round, Prevote));
    if n.rs.step == Precommitting || quorum.None? {
      Unmoved(cfg.Core(), s, who, n, CountPrevotes(cfg, who, n).0);
    } else {
      var (rs, d) := AfterPrevotes(n.rs, quorum);
      CountedIsSeen(cfg, s, who, n, Prevote, quorum.value);
      PrecommitSteps(cfg, s, who, n.(rs := rs), d.value, P.SeePrevoteQuorum(who, quorum.value));
    }
  }

  /** A step of the protocol that signs a prevote, and the counts that follow. */
  lemma PrevoteSteps(cfg: Setup, s: P.State, who: Address, n: Node, v: Option<Hash32>, act: P.Action)
    requires n.inbox <= s.pool && n.decided.None? && P.Enabled(cfg.Core(), s, act)
    requires P.Apply(cfg.Core(), s, act) == P.Emit(cfg.Core(), s, who, Seen(n), Prevote, v)
    ensures var (next, votes) := EmitPrevote(cfg, who, n, v); Reaches(cfg.Core(), s, Moved(s, who, next, votes))
  {
    var (signed, votes) := Signed(cfg, who, n, Prevote, v);
    var mid := Moved(s, who, signed, votes);
    SigningIsEmitting(cfg, s, who, n, Prevote, v);
    OneStep(cfg.Core(), s, act);
    if votes != {} {
      PrevotesCounted(cfg, mid, who, signed);
      var (next, more) := CountPrevotes(cfg, who, signed);
      ReachesOn(cfg.Core(), s, mid, Moved(mid, who, next, more));
      MovedTwice(s, who, signed, votes, next, more);
    }
  }

  // -- every event is a few steps -------------------------------------------

  /** A claim that a block already had a prevote quorum is true. */
  ghost predicate Backed(cfg: Setup, pool: set<SignedVote>, p: Proposal) {
    p.validRound.Some? ==>
      p.validRound.value < p.round && QuorumSigned(cfg.Core(), pool, p.validRound.value, Prevote, Some(p.block))
  }

  lemma BackedStays(cfg: Setup, pool: set<SignedVote>, more: set<SignedVote>, p: Proposal)
    requires pool <= more && Backed(cfg, pool, p)
    ensures Backed(cfg, more, p)
  {
    if p.validRound.Some? {
      SignedStays(cfg.Core(), pool, more, p.validRound.value, Prevote, Some(p.block));
    }
  }

  lemma HearSteps(cfg: Setup, s: P.State, who: Address, n: Node, p: Proposal)
    requires Stands(s, who, n) && Backed(cfg, s.pool, p)
    ensures var (next, votes) := Hear(cfg, who, n, p); Reaches(cfg.Core(), s, Moved(s, who, next, votes))
  {
    if p.round != n.rs.round || cfg.proposer(p.round) != p.proposer {
      Unmoved(cfg.Core(), s, who, n, n);
    } else {
      var heard := n.(proposals := n.proposals[p.round := p], rs := n.rs.(step := Prevoting));
      var d := DecidePrevote(n.rs, Some(p.block), p.validRound, cfg.executes(p.block));
      PrevoteSteps(cfg, s, who, heard, d.value, P.ReceiveProposal(who, p.block, p.validRound, cfg.executes(p.block)));
    }
  }

  lemma BeginSteps(cfg: Setup, s: P.State, who: Address, n: Node, built: Hash32)
    requires Stands(s, who, n)
    requires forall p :: p in Begin(cfg, who, n, built).2 ==> Backed(cfg, s.pool, p)
    ensures var (next, votes, offers) := Begin(cfg, who, n, built); Reaches(cfg.Core(), s, Moved(s, who, next, votes))
  {
    var (next, votes, offers) := Begin(cfg, who, n, built);
    if offers == {} {
      Unmoved(cfg.Core(), s, who, n, next);
    } else {
      var p := Offer(n, who, built);
      var claimed := n.(begun := Some(n.rs.round), lastStamp := Stamp(n.rs.round, Propose));
      var mid := Moved(s, who, claimed, {});
      assert s.pool + {} == s.pool;
      OneStep(cfg.Core(), s, P.ClaimProposal(who));
      HearSteps(cfg, mid, who, claimed, p);
      ReachesOn(cfg.Core(), s, mid, Moved(mid, who, next, votes));
      MovedTwice(s, who, claimed, {}, next, votes);
      assert {} + votes == votes;
    }
  }

  lemma ReceiveSteps(cfg: Setup, s: P.State, who: Address, n: Node, vote: SignedVote)
    requires Stands(s, who, n) && vote in s.pool
    ensures var (next, votes) := Receive(cfg, who, n, vote); Reaches(cfg.Core(), s, Moved(s, who, next, votes))
  {
    var n1 := n.(inbox := n.inbox + {vote});
    if vote.vote.round != n.rs.round {
      Unmoved(cfg.Core(), s, who, n, n1);
    } else if vote.vote.kind == Prevote {
      PrevotesCounted(cfg, s, who, n1);
    } else {
      PrecommitsCounted(cfg, s, who, n1);
    }
  }

  lemma TimeoutSteps(cfg: Setup, s: P.State, who: Address, n: Node, asked: nat, step: Step)
    requires Stands(s, who, n)
    ensures var (next, votes) := Timeout(cfg, who, n, asked, step); Reaches(cfg.Core(), s, Moved(s, who, next, votes))
  {
    var n1 := n.(timers := n.timers - {(asked, step)});
    if n.rs.step != step {
      Unmoved(cfg.Core(), s, who, n, n1);
    } else {
      match step
      case Propose => PrevoteSteps(cfg, s, who, n1.(rs := n1.rs.(step := Prevoting)), None, P.ProposeTimeout(who));
      case Prevoting =>
        PrecommitSteps(cfg, s, who, n1.(rs := n1.rs.(step := Precommitting)), None, P.PrevoteTimeout(who));
      case Precommitting =>
        OneStep(cfg.Core(), s, P.PrecommitTimeout(who));
        assert s.pool + {} == s.pool;
    }
  }

  lemma EventSteps(cfg: Setup, s: P.State, offers: set<Proposal>, who: Address, n: Node, event: Event)
    requires Stands(s, who, n) && CanHappen(cfg, s.pool, offers, n, event)
    requires forall p :: p in offers + React(cfg, who, n, event).2 ==> Backed(cfg, s.pool, p)
    ensures var (next, votes, _) := React(cfg, who, n, event); Reaches(cfg.Core(), s, Moved(s, who, next, votes))
  {
    match event
    case Start(built) => BeginSteps(cfg, s, who, n, built);
    case Offered(p) => HearSteps(cfg, s, who, n, p);
    case Delivered(vote) => ReceiveSteps(cfg, s, who, n, vote);
    case TimedOut(asked, step) => TimeoutSteps(cfg, s, who, n, asked, step);
    case Synced(round, block) =>
      OneStep(cfg.Core(), s, P.AdoptCertified(who, round, block));
      assert s.pool + {} == s.pool;
  }

  // -- every run is a run ---------------------------------------------------

  ghost predicate AllBacked(cfg: Setup, net: Network) { forall p :: p in net.offers ==> Backed(cfg, net.pool, p) }

  /** The proposals an act adds. */
  ghost function NewOffers(cfg: Setup, net: Network, act: Act): set<Proposal>
    requires Enabled(cfg, net, act)
  {
    match act
    case Happens(who, event) => React(cfg, who, net.nodes[who], event).2
    case FaultyVote(_) => {}
    case ForgedOffer(p) => {p}
  }

  /** Every proposal is backed when it is made. */
  ghost predicate BackedRun(cfg: Setup, net: Network, acts: seq<Act>)
    requires Legal(cfg, net, acts)
    decreases |acts|
  {
    acts != [] ==>
      && (forall p :: p in NewOffers(cfg, net, acts[0]) ==> Backed(cfg, net.pool, p))
      && BackedRun(cfg, Apply(cfg, net, acts[0]), acts[1..])
  }

  lemma ActSteps(cfg: Setup, net: Network, act: Act)
    requires ExactAgreement.Inv(cfg, net) && AllBacked(cfg, net) && Enabled(cfg, net, act)
    requires forall p :: p in NewOffers(cfg, net, act) ==> Backed(cfg, net.pool, p)
    ensures Reaches(cfg.Core(), View(net), View(Apply(cfg, net, act))) && AllBacked(cfg, Apply(cfg, net, act))
  {
    var next := Apply(cfg, net, act);
    forall p | p in next.offers ensures Backed(cfg, next.pool, p) {
      BackedStays(cfg, net.pool, next.pool, p);
    }
    match act
    case Happens(who, event) =>
      var n := net.nodes[who];
      assert ExactAgreement.NodeInv(cfg, net.pool, who, n);
      EventSteps(cfg, View(net), net.offers, who, n, event);
      var (n', votes, _) := React(cfg, who, n, event);
      assert View(next) == Moved(View(net), who, n', votes);
    case FaultyVote(vote) =>
      OneStep(cfg.Core(), View(net), P.Misbehave(vote));
    case ForgedOffer(_) =>
      assert View(next) == View(net);
      ReachesSelf(cfg.Core(), View(net));
  }

  lemma {:induction false} RunSteps(cfg: Setup, net: Network, acts: seq<Act>)
    requires ExactAgreement.Inv(cfg, net) && AllBacked(cfg, net) && Legal(cfg, net, acts) && BackedRun(cfg, net, acts)
    ensures Reaches(cfg.Core(), View(net), View(RunFrom(cfg, net, acts)))
    decreases |acts|
  {
    if acts == [] {
      ReachesSelf(cfg.Core(), View(net));
    } else {
      var next := Apply(cfg, net, acts[0]);
      ActSteps(cfg, net, acts[0]);
      ExactAgreement.ActKeepsInv(cfg, net, acts[0]);
      RunSteps(cfg, next, acts[1..]);
      ReachesOn(cfg.Core(), View(net), View(next), View(RunFrom(cfg, next, acts[1..])));
    }
  }

  /** Every run of the nodes from the start in which claims are backed is a run
      of the protocol from its start. */
  lemma RunRefines(cfg: Setup, acts: seq<Act>) returns (steps: seq<P.Action>)
    requires Legal(cfg, Init(cfg), acts) && BackedRun(cfg, Init(cfg), acts)
    ensures P.Legal(cfg.Core(), P.Init(cfg.Core()), steps)
    ensures P.RunFrom(cfg.Core(), P.Init(cfg.Core()), steps) == View(RunFrom(cfg, Init(cfg), acts))
  {
    ExactAgreement.InitInv(cfg);
    RunSteps(cfg, Init(cfg), acts);
    assert View(Init(cfg)) == P.Init(cfg.Core());
    steps :| P.Legal(cfg.Core(), View(Init(cfg)), steps)
          && P.RunFrom(cfg.Core(), View(Init(cfg)), steps) == View(RunFrom(cfg, Init(cfg), acts));
  }

  /** So nodes agree in every run, of any validator set, in which claims are
      backed and nil wins no prevotes after the round of a commit. */
  lemma BackedRunsAgree(cfg: Setup, acts: seq<Act>)
    requires cfg.Valid() && Legal(cfg, Init(cfg), acts) && BackedRun(cfg, Init(cfg), acts)
    requires P.NoNilAfterCommit(cfg.Core(), View(RunFrom(cfg, Init(cfg), acts)))
    ensures Agreement(RunFrom(cfg, Init(cfg), acts))
  {
    var net := RunFrom(cfg, Init(cfg), acts);
    var steps := RunRefines(cfg, acts);
    P.HonestCommitsAgree(cfg.Core(), steps);
    forall a, b | a in net.nodes && b in net.nodes && net.nodes[a].decided.Some? && net.nodes[b].decided.Some?
      ensures net.nodes[a].decided == net.nodes[b].decided
    {
      assert View(net).nodes[a].decided == net.nodes[a].decided && View(net).nodes[b].decided == net.nodes[b].decided;
    }
  }

  // -- when an honest proposer's claim is backed ----------------------------

  /** The latest proposal a node holds is not the value it remembers a quorum for. */
  ghost predicate HoldsAnother(n: Node) {
    n.rs.validValue.Some? && exists r :: IsLatest(n.proposals, r) && n.proposals[r].block != n.rs.validValue.value
  }

  /** In every state of a run in which claims were backed so far, what an honest
      proposer offers next is backed exactly when the latest proposal it holds is
      the value it remembers. */
  lemma HonestOfferBackedExactlyWhen(cfg: Setup, acts: seq<Act>, who: Address, built: Hash32)
    requires cfg.Valid() && Legal(cfg, Init(cfg), acts) && BackedRun(cfg, Init(cfg), acts)
    requires who in RunFrom(cfg, Init(cfg), acts).nodes
    ensures var net := RunFrom(cfg, Init(cfg), acts);
      var n := net.nodes[who];
      forall p :: p in Begin(cfg, who, n, built).2 ==> (Backed(cfg, net.pool, p) <==> !HoldsAnother(n))
  {
    var net := RunFrom(cfg, Init(cfg), acts);
    var n := net.nodes[who];
    var steps := RunRefines(cfg, acts);
    P.RunKeepsInv(cfg.Core(), P.Init(cfg.Core()), steps);
    assert P.NodeInv(cfg.Core(), net.pool, who, View(net).nodes[who]);
    if Begin(cfg, who, n, built).2 != {} && n.rs.validValue.Some? {
      OfferClaims(cfg, net.pool, who, n, built);
    }
  }

  lemma OfferClaims(cfg: Setup, pool: set<SignedVote>, who: Address, n: Node, built: Hash32)
    requires cfg.Valid() && P.OneVoteEach(cfg.Core(), pool) && P.LockInv(cfg.Core(), pool, Seen(n))
    requires n.rs.validValue.Some? && n.lastStamp < Stamp(n.rs.round, Propose)
    ensures Backed(cfg, pool, Offer(n, who, built)) <==> !HoldsAnother(n)
  {
    if r :| IsLatest(n.proposals, r) {
      OfferBackedExactlyWhen(n, who, built, r);
      OneLatest(n, r);
      var p := Offer(n, who, built);
      if QuorumSigned(cfg.Core(), pool, p.validRound.value, Prevote, Some(p.block)) {
        P.OneQuorumPerRound(cfg.Core(), pool, p.validRound.value, Prevote, Some(p.block), n.rs.validValue);
      }
    }
  }
}
