/** Which validator sets agree in every run of the nodes, whatever is claimed in
    proposals, however many rounds nil wins and however late timers fire: those
    whose indispensable validators are a quorum by themselves. */
module ExactAgreement {
  import opened Base
  import opened Validators
  import opened Votes
  import opened Rounds
  import opened Signing
  import opened Nodes
  import Commits

  // -- what holds in every run ----------------------------------------------

  /** Some node saw a quorum vote in the precommit phase of `r` and no value carry it. */
  ghost predicate Torn(cfg: Setup, pool: set<SignedVote>, r: nat) {
    exists seen :: seen <= Held(pool, r, Precommit) && AnyQuorum(cfg.vs, seen) && QuorumIn(cfg.vs, seen).None?
  }

  /** Some node saw a quorum precommit `v` at `r`. */
  ghost predicate Carried(cfg: Setup, pool: set<SignedVote>, r: nat, v: Option<Hash32>) {
    exists seen :: seen <= Held(pool, r, Precommit) && cfg.vs.HasQuorum(Tally(cfg.vs, seen, v))
  }

  lemma HeldGrows(a: set<SignedVote>, b: set<SignedVote>, r: nat, kind: VoteType)
    requires a <= b
    ensures Held(a, r, kind) <= Held(b, r, kind)
  {
  }

  lemma TornStays(cfg: Setup, pool: set<SignedVote>, more: set<SignedVote>, r: nat)
    requires pool <= more && Torn(cfg, pool, r)
    ensures Torn(cfg, more, r)
  {
    HeldGrows(pool, more, r, Precommit);
    var seen :| seen <= Held(pool, r, Precommit) && AnyQuorum(cfg.vs, seen) && QuorumIn(cfg.vs, seen).None?;
    assert seen <= Held(more, r, Precommit);
  }

  lemma CarriedStays(cfg: Setup, pool: set<SignedVote>, more: set<SignedVote>, r: nat, v: Option<Hash32>)
    requires pool <= more && Carried(cfg, pool, r, v)
    ensures Carried(cfg, more, r, v)
  {
    HeldGrows(pool, more, r, Precommit);
    var seen :| seen <= Held(pool, r, Precommit) && cfg.vs.HasQuorum(Tally(cfg.vs, seen, v));
    assert seen <= Held(more, r, Precommit);
  }

  /** How a node may leave a round without committing. */
  ghost predicate Left(cfg: Setup, pool: set<SignedVote>, r: nat) { Torn(cfg, pool, r) || Carried(cfg, pool, r, None) }

  /** Some round was torn for one node and won by nil for another. */
  ghost predicate Muddled(cfg: Setup, pool: set<SignedVote>) {
    exists r :: Torn(cfg, pool, r) && Carried(cfg, pool, r, None)
  }

  lemma MuddledStays(cfg: Setup, pool: set<SignedVote>, more: set<SignedVote>)
    requires pool <= more && Muddled(cfg, pool)
    ensures Muddled(cfg, more)
  {
    var r :| Torn(cfg, pool, r) && Carried(cfg, pool, r, None);
    TornStays(cfg, pool, more, r);
    CarriedStays(cfg, pool, more, r, None);
  }

  /** Everything an honest validator has signed: no later than its record says, and one value at each point. */
  ghost predicate SignedInv(pool: set<SignedVote>, who: Address, n: Node) {
    && n.lastStamp <= Stamp(n.rs.round, Precommitting)
    && (forall s :: s in pool && s.vote.validator == who ==> VoteStamp(s.vote) <= n.lastStamp)
    && (forall s, t :: (&& s in pool && t in pool && s.vote.validator == who && t.vote.validator == who
                        && VoteStamp(s.vote) == VoteStamp(t.vote)) ==> s.vote.blockId == t.vote.blockId)
  }

  ghost predicate RoundsInv(cfg: Setup, pool: set<SignedVote>, n: Node) {
    && n.inbox <= pool
    && (forall r :: (r, Precommitting) in n.timers ==> Torn(cfg, pool, r))
    && (Muddled(cfg, pool) || OnTime(cfg, pool, n))
    && (n.decided.Some? ==> Carried(cfg, pool, n.certified, n.decided))
  }

  /** A node leaves a torn round by spending the timer it asked for there, so
      none is left to end a later round early. */
  ghost predicate OnTime(cfg: Setup, pool: set<SignedVote>, n: Node) {
    && (forall r :: (r, Precommitting) in n.timers ==> r == n.rs.round)
    && (forall r :: 0 <= r < n.rs.round ==> Left(cfg, pool, r))
  }

  ghost predicate NodeInv(cfg: Setup, pool: set<SignedVote>, who: Address, n: Node) {
    SignedInv(pool, who, n) && RoundsInv(cfg, pool, n)
  }

  ghost predicate Inv(cfg: Setup, net: Network) {
    net.nodes.Keys == cfg.Honest() && forall a :: a in net.nodes ==> NodeInv(cfg, net.pool, a, net.nodes[a])
  }

  /** Votes of others do not disturb a node. */
  lemma NodeInvStays(cfg: Setup, pool: set<SignedVote>, more: set<SignedVote>, who: Address, n: Node)
    requires NodeInv(cfg, pool, who, n) && pool <= more
    requires forall s :: s in more && s !in pool ==> s.vote.validator != who
    ensures NodeInv(cfg, more, who, n)
  {
    RoundsInvStays(cfg, pool, more, n);
  }

  lemma LeftStays(cfg: Setup, pool: set<SignedVote>, more: set<SignedVote>, r: nat)
    requires pool <= more && Left(cfg, pool, r)
    ensures Left(cfg, more, r)
  {
    if Torn(cfg, pool, r) {
      TornStays(cfg, pool, more, r);
    } else {
      CarriedStays(cfg, pool, more, r, None);
    }
  }

  /** Only the inbox, the round state's locks and step, the proposals, the begun mark or a harmless timer changed. */
  lemma PrecommitsKeepInv(cfg: Setup, pool: set<SignedVote>, who: Address, n: Node)
    requires NodeInv(cfg, pool, who, n) && n.decided.None?
    ensures NodeInv(cfg, pool, who, CountPrecommits(cfg, n))
  {
    var votes := Held(n.inbox, n.rs.round, Precommit);
    HeldGrows(n.inbox, pool, n.rs.round, Precommit);
    match QuorumIn(cfg.vs, votes)
    case None =>
      if AnyQuorum(cfg.vs, votes) {
        assert Torn(cfg, pool, n.rs.round);
      }
    case Some(v) => assert Carried(cfg, pool, n.rs.round, v);
  }

  lemma SignKeepsInv(cfg: Setup, pool: set<SignedVote>, who: Address, n: Node, kind: VoteType, v: Option<Hash32>)
    requires NodeInv(cfg, pool, who, n) && Sign(cfg, who, n, kind, v).Some?
    ensures var (signed, vote) := Sign(cfg, who, n, kind, v).value;
      vote.vote.validator == who && NodeInv(cfg, pool + {vote}, who, signed)
  {
    var (signed, vote) := Sign(cfg, who, n, kind, v).value;
    RoundsInvStays(cfg, pool, pool + {vote}, n);
  }

  lemma RoundsInvStays(cfg: Setup, pool: set<SignedVote>, more: set<SignedVote>, n: Node)
    requires RoundsInv(cfg, pool, n) && pool <= more
    ensures RoundsInv(cfg, more, n)
  {
    forall r | (r, Precommitting) in n.timers ensures Torn(cfg, more, r) { TornStays(cfg, pool, more, r); }
    if Muddled(cfg, pool) {
      MuddledStays(cfg, pool, more);
    } else {
      forall r | 0 <= r < n.rs.round ensures Left(cfg, more, r) { LeftStays(cfg, pool, more, r); }
    }
    if n.decided.Some? {
      CarriedStays(cfg, pool, more, n.certified, n.decided);
    }
  }

  lemma EmitPrecommitKeepsInv(cfg: Setup, pool: set<SignedVote>, who: Address, n: Node, v: Option<Hash32>)
    requires NodeInv(cfg, pool, who, n) && n.decided.None?
    ensures var (next, votes) := EmitPrecommit(cfg, who, n, v);
      NodeInv(cfg, pool + votes, who, next) && forall s :: s in votes ==> s.vote.validator == who
  {
    match Sign(cfg, who, n, Precommit, v)
    case None => assert pool + {} == pool;
    case Some((signed, vote)) =>
      SignKeepsInv(cfg, pool, who, n, Precommit, v);
      PrecommitsKeepInv(cfg, pool + {vote}, who, signed);
  }

  lemma PrevotesKeepInv(cfg: Setup, pool: set<SignedVote>, who: Address, n: Node)
    requires NodeInv(cfg, pool, who, n) && n.decided.None?
    ensures var (next, votes) := CountPrevotes(cfg, who, n);
      NodeInv(cfg, pool + votes, who, next) && forall s :: s in votes ==> s.vote.validator == who
  {
    var held := Held(n.inbox, n.rs.round, Prevote);
    assert pool + {} == pool;
    if n.rs.step != Precommitting && QuorumIn(cfg.vs, held).Some? {
      var (rs, d) := AfterPrevotes(n.rs, QuorumIn(cfg.vs, held));
      EmitPrecommitKeepsInv(cfg, pool, who, n.(rs := rs), d.value);
    }
  }

  lemma EmitPrevoteKeepsInv(cfg: Setup, pool: set<SignedVote>, who: Address, n: Node, v: Option<Hash32>)
    requires NodeInv(cfg, pool, who, n) && n.decided.None?
    ensures var (next, votes) := EmitPrevote(cfg, who, n, v);
      NodeInv(cfg, pool + votes, who, next) && forall s :: s in votes ==> s.vote.validator == who
  {
    match Sign(cfg, who, n, Prevote, v)
    case None => assert pool + {} == pool;
    case Some((signed, vote)) =>
      SignKeepsInv(cfg, pool, who, n, Prevote, v);
      PrevotesKeepInv(cfg, pool + {vote}, who, signed);
      var (next, more) := CountPrevotes(cfg, who, signed);
      assert pool + {vote} + more == pool + ({vote} + more);
  }

  lemma HearKeepsInv(cfg: Setup, pool: set<SignedVote>, who: Address, n: Node, p: Proposal)
    requires NodeInv(cfg, pool, who, n) && n.decided.None?
    ensures var (next, votes) := Hear(cfg, who, n, p);
      NodeInv(cfg, pool + votes, who, next) && forall s :: s in votes ==> s.vote.validator == who
  {
    assert pool + {} == pool;
    if p.round == n.rs.round && cfg.proposer(p.round) == p.proposer {
      var d := DecidePrevote(n.rs, Some(p.block), p.validRound, cfg.executes(p.block));
      EmitPrevoteKeepsInv(cfg, pool, who, n.(proposals := n.proposals[p.round := p], rs := n.rs.(step := Prevoting)),
        d.value);
    }
  }

  lemma BeginKeepsInv(cfg: Setup, pool: set<SignedVote>, who: Address, n: Node, built: Hash32)
    requires NodeInv(cfg, pool, who, n) && n.decided.None?
    ensures var (next, votes, offers) := Begin(cfg, who, n, built);
      NodeInv(cfg, pool + votes, who, next) && forall s :: s in votes ==> s.vote.validator == who
  {
    assert pool + {} == pool;
    var n1 := n.(begun := Some(n.rs.round));
    var stamp := Stamp(n.rs.round, Propose);
    if n.begun != Some(n.rs.round) && cfg.proposer(n.rs.round) == who && stamp > n.lastStamp {
      assert NodeInv(cfg, pool, who, n1.(lastStamp := stamp));
      HearKeepsInv(cfg, pool, who, n1.(lastStamp := stamp), Offer(n, who, built));
    }
  }

  lemma ReceiveKeepsInv(cfg: Setup, pool: set<SignedVote>, who: Address, n: Node, s: SignedVote)
    requires NodeInv(cfg, pool, who, n) && n.decided.None? && s in pool
    ensures var (next, votes) := Receive(cfg, who, n, s);
      NodeInv(cfg, pool + votes, who, next) && forall s :: s in votes ==> s.vote.validator == who
  {
    assert pool + {} == pool;
    var n1 := n.(inbox := n.inbox + {s});
    assert NodeInv(cfg, pool, who, n1);
    if s.vote.round == n.rs.round {
      if s.vote.kind == Prevote {
        PrevotesKeepInv(cfg, pool, who, n1);
      } else {
        PrecommitsKeepInv(cfg, pool, who, n1);
      }
    }
  }

  lemma TimeoutKeepsInv(cfg: Setup, pool: set<SignedVote>, who: Address, n: Node, asked: nat, step: Step)
    requires NodeInv(cfg, pool, who, n) && n.decided.None? && (asked, step) in n.timers
    ensures var (next, votes) := Timeout(cfg, who, n, asked, step);
      NodeInv(cfg, pool + votes, who, next) && forall s :: s in votes ==> s.vote.validator == who
  {
    assert pool + {} == pool;
    var n1 := n.(timers := n.timers - {(asked, step)});
    assert NodeInv(cfg, pool, who, n1);
    if n.rs.step == step {
      match step
      case Propose => EmitPrevoteKeepsInv(cfg, pool, who, n1.(rs := n1.rs.(step := Prevoting)), None);
      case Prevoting => EmitPrecommitKeepsInv(cfg, pool, who, n1.(rs := n1.rs.(step := Precommitting)), None);
      case Precommitting => assert Torn(cfg, pool, asked);
    }
  }

  /** A certificate that verifies, made of votes that were signed, is what lets a node adopt a block. */
  lemma VerifiedIsSigned(cfg: Setup, pool: set<SignedVote>, c: Commits.Commit, genuine: Verifier)
    requires cfg.vs.Valid() && Commits.Certifies(c, cfg.chain, cfg.vs, genuine)
    requires forall s :: s in c.signatures ==> s in pool
    ensures QuorumSigned(cfg.Core(), pool, c.round, Precommit, Some(c.blockId))
  {
    forall a | a in Commits.Signers(c.signatures) ensures a in SignersOf(pool, c.round, Precommit, Some(c.blockId)) {
      var i :| 0 <= i < |c.signatures| && c.signatures[i].vote.validator == a;
      assert Commits.Backs(c, cfg.chain, cfg.vs, genuine, c.signatures[i]);
    }
    PowerOfMonotone(cfg.vs.validators, Commits.Signers(c.signatures),
                    SignersOf(pool, c.round, Precommit, Some(c.blockId)));
  }

  /** What a certificate shows, some node could have counted. */
  lemma CertificateCarries(cfg: Setup, pool: set<SignedVote>, r: nat, v: Option<Hash32>)
    requires QuorumSigned(cfg.Core(), pool, r, Precommit, v)
    ensures Carried(cfg, pool, r, v)
  {
    var seen := set s | s in Held(pool, r, Precommit) && s.vote.blockId == v;
    forall a | a in SignersOf(pool, r, Precommit, v) ensures a in Backers(seen, v) {
      var s :| s in pool && s.vote.round == r && s.vote.kind == Precommit && s.vote.blockId == v
        && s.vote.validator == a;
      assert s in seen;
      assert ValuesOf(seen, a) == {v};
    }
    PowerOfMonotone(cfg.vs.validators, SignersOf(pool, r, Precommit, v), Backers(seen, v));
    assert seen <= Held(pool, r, Precommit) && cfg.vs.HasQuorum(Tally(cfg.vs, seen, v));
  }

  lemma ReactKeepsInv(cfg: Setup, net: Network, who: Address, event: Event)
    requires Inv(cfg, net) && Enabled(cfg, net, Happens(who, event))
    ensures var (next, votes, offers) := React(cfg, who, net.nodes[who], event);
      NodeInv(cfg, net.pool + votes, who, next) && forall s :: s in votes ==> s.vote.validator == who
  {
    var n := net.nodes[who];
    assert NodeInv(cfg, net.pool, who, n);
    match event
    case Start(built) => BeginKeepsInv(cfg, net.pool, who, n, built);
    case Offered(p) => HearKeepsInv(cfg, net.pool, who, n, p);
    case Delivered(s) => ReceiveKeepsInv(cfg, net.pool, who, n, s);
    case TimedOut(asked, step) => TimeoutKeepsInv(cfg, net.pool, who, n, asked, step);
    case Synced(round, block) =>
      CertificateCarries(cfg, net.pool, round, Some(block));
      assert net.pool + {} == net.pool;
  }

  lemma ActKeepsInv(cfg: Setup, net: Network, act: Act)
    requires Inv(cfg, net) && Enabled(cfg, net, act)
    ensures Inv(cfg, Apply(cfg, net, act))
  {
    var next := Apply(cfg, net, act);
    match act
    case Happens(who, event) =>
      ReactKeepsInv(cfg, net, who, event);
      forall a | a in next.nodes && a != who ensures NodeInv(cfg, next.pool, a, next.nodes[a]) {
        NodeInvStays(cfg, net.pool, next.pool, a, net.nodes[a]);
      }
    case FaultyVote(s) =>
      forall a | a in next.nodes ensures NodeInv(cfg, next.pool, a, next.nodes[a]) {
        NodeInvStays(cfg, net.pool, next.pool, a, net.nodes[a]);
      }
    case ForgedOffer(_) =>
  }

  lemma {:induction false} RunKeepsInv(cfg: Setup, net: Network, acts: seq<Act>)
    requires Inv(cfg, net) && Legal(cfg, net, acts)
    ensures Inv(cfg, RunFrom(cfg, net, acts))
    decreases |acts|
  {
    if acts != [] {
      ActKeepsInv(cfg, net, acts[0]);
      RunKeepsInv(cfg, Apply(cfg, net, acts[0]), acts[1..]);
    }
  }

  lemma InitInv(cfg: Setup)
    ensures Inv(cfg, Init(cfg))
  {
  }

  // -- safety ---------------------------------------------------------------

  /** The validators no quorum can do without. */
  ghost function Indispensable(vs: ValidatorSet): set<Address> {
    set v | v in vs.validators && v.power > vs.MaxByzantinePower() :: v.address
  }

  /** They are a quorum by themselves. */
  ghost predicate OneQuorumRules(vs: ValidatorSet) { vs.HasQuorum(vs.Power(Indispensable(vs))) }

  lemma UniqueMember(vs: ValidatorSet, u: Validator)
    requires vs.Valid() && u in vs.validators
    ensures vs.Get(u.address) == Some(u)
  {
    var i :| 0 <= i < |vs.validators| && vs.validators[i] == u;
    AscendingMeansDistinct(vs.validators);
    assert u.address in Members(vs.validators);
    var v := vs.Get(u.address).value;
    var j :| 0 <= j < |vs.validators| && vs.validators[j] == v;
  }

  lemma QuorumHasIndispensable(vs: ValidatorSet, who: set<Address>)
    requires vs.Valid() && vs.HasQuorum(vs.Power(who))
    ensures Indispensable(vs) <= who
  {
    QuorumSplitsTotal(vs);
    forall a | a in Indispensable(vs) ensures a in who {
      var v :| v in vs.validators && v.power > vs.MaxByzantinePower() && v.address == a;
      UniqueMember(vs, v);
      PowerWithOne(vs, who, a);
      PowerOfUpTo(vs.validators, who + {a});
    }
  }

  lemma IndispensableIsHonest(cfg: Setup, a: Address)
    requires cfg.Valid() && a in Indispensable(cfg.vs)
    ensures a in cfg.Honest()
  {
    var v :| v in cfg.vs.validators && v.power > cfg.vs.MaxByzantinePower() && v.address == a;
    UniqueMember(cfg.vs, v);
    PowerWithOne(cfg.vs, cfg.faulty, a);
  }

  /** A backer of `v` in votes held for a round has signed `v` there. */
  lemma BackerSigned(pool: set<SignedVote>, r: nat, seen: set<SignedVote>, v: Option<Hash32>, a: Address)
    returns (s: SignedVote)
    requires seen <= Held(pool, r, Precommit) && a in Backers(seen, v)
    ensures s in pool && s.vote.validator == a && s.vote.round == r && s.vote.kind == Precommit && s.vote.blockId == v
  {
    assert v in ValuesOf(seen, a);
    s :| s in seen && s.vote.validator == a && s.vote.blockId == v;
  }

  /** Two honest validators that commit in one round commit the same block,
      whatever anyone claimed and whether they counted or were shown the votes. */
  lemma OneCommitPerRound(cfg: Setup, net: Network, a: Address, b: Address)
    requires cfg.Valid() && Inv(cfg, net) && a in net.nodes && b in net.nodes
    requires net.nodes[a].decided.Some? && net.nodes[b].decided.Some?
    requires net.nodes[a].certified == net.nodes[b].certified
    ensures net.nodes[a].decided == net.nodes[b].decided
  {
    assert NodeInv(cfg, net.pool, a, net.nodes[a]) && NodeInv(cfg, net.pool, b, net.nodes[b]);
    OneCarried(cfg, net, net.nodes[a].certified, net.nodes[a].decided, net.nodes[b].decided);
  }

  lemma OneCarried(cfg: Setup, net: Network, r: nat, v: Option<Hash32>, w: Option<Hash32>)
    requires cfg.Valid() && Inv(cfg, net) && Carried(cfg, net.pool, r, v) && Carried(cfg, net.pool, r, w)
    ensures v == w
  {
    var xs :| xs <= Held(net.pool, r, Precommit) && cfg.vs.HasQuorum(Tally(cfg.vs, xs, v));
    var ys :| ys <= Held(net.pool, r, Precommit) && cfg.vs.HasQuorum(Tally(cfg.vs, ys, w));
    var x := QuorumsShareHonest(cfg.vs, Backers(xs, v), Backers(ys, w), cfg.faulty);
    var s := BackerSigned(net.pool, r, xs, v, x);
    var t := BackerSigned(net.pool, r, ys, w, x);
    assert NodeInv(cfg, net.pool, x, net.nodes[x]);
  }

  /** Where the indispensable validators are a quorum, a round that one value won is torn for nobody. */
  lemma CarriedIsNotTorn(cfg: Setup, net: Network, r: nat, v: Option<Hash32>)
    requires cfg.Valid() && Inv(cfg, net) && OneQuorumRules(cfg.vs) && Carried(cfg, net.pool, r, v)
    ensures !Torn(cfg, net.pool, r)
  {
    var xs :| xs <= Held(net.pool, r, Precommit) && cfg.vs.HasQuorum(Tally(cfg.vs, xs, v));
    QuorumHasIndispensable(cfg.vs, Backers(xs, v));
    forall seen | seen <= Held(net.pool, r, Precommit) && AnyQuorum(cfg.vs, seen)
      ensures QuorumIn(cfg.vs, seen).Some?
    {
      QuorumHasIndispensable(cfg.vs, Consistent(seen));
      forall a | a in Indispensable(cfg.vs) ensures a in Backers(seen, v) {
        OnlySigned(cfg, net, r, xs, v, seen, a);
      }
      PowerOfMonotone(cfg.vs.validators, Indispensable(cfg.vs), Backers(seen, v));
    }
  }

  lemma OnlySigned(cfg: Setup, net: Network, r: nat, xs: set<SignedVote>, v: Option<Hash32>, seen: set<SignedVote>,
                   a: Address)
    requires cfg.Valid() && Inv(cfg, net) && a in Indispensable(cfg.vs)
    requires xs <= Held(net.pool, r, Precommit) && a in Backers(xs, v)
    requires seen <= Held(net.pool, r, Precommit) && a in Consistent(seen)
    ensures a in Backers(seen, v)
  {
    IndispensableIsHonest(cfg, a);
    assert NodeInv(cfg, net.pool, a, net.nodes[a]);
    var s := BackerSigned(net.pool, r, xs, v, a);
    forall w | w in ValuesOf(seen, a) ensures w == v {
      var t :| t in seen && t.vote.validator == a && t.vote.blockId == w;
      assert t in net.pool && VoteStamp(t.vote) == VoteStamp(s.vote);
    }
    Voted(seen, a);
    assert ValuesOf(seen, a) == {v};
  }

  /** So no timer outlives its round, and a round in which a block won is left by nobody. */
  lemma CarriedRoundIsLast(cfg: Setup, net: Network, r: nat, x: Hash32)
    requires cfg.Valid() && Inv(cfg, net) && OneQuorumRules(cfg.vs) && Carried(cfg, net.pool, r, Some(x))
    ensures !Muddled(cfg, net.pool) && !Left(cfg, net.pool, r)
  {
    forall k | Carried(cfg, net.pool, k, None) ensures !Torn(cfg, net.pool, k) {
      CarriedIsNotTorn(cfg, net, k, None);
    }
    CarriedIsNotTorn(cfg, net, r, Some(x));
    if Carried(cfg, net.pool, r, None) {
      OneCarried(cfg, net, r, Some(x), None);
    }
  }

  /** A round that a value won was reached by some honest validator. */
  lemma SomeoneWasThere(cfg: Setup, net: Network, r: nat, v: Option<Hash32>) returns (x: Address)
    requires cfg.Valid() && Inv(cfg, net) && Carried(cfg, net.pool, r, v)
    ensures x in net.nodes && net.nodes[x].rs.round >= r
  {
    var xs :| xs <= Held(net.pool, r, Precommit) && cfg.vs.HasQuorum(Tally(cfg.vs, xs, v));
    x := QuorumsShareHonest(cfg.vs, Backers(xs, v), Backers(xs, v), cfg.faulty);
    var s := BackerSigned(net.pool, r, xs, v, x);
    assert NodeInv(cfg, net.pool, x, net.nodes[x]);
  }

  /** So nobody commits in a later round than anybody else. */
  lemma EarlierCommit(cfg: Setup, net: Network, a: Address, b: Address)
    requires cfg.Valid() && Inv(cfg, net) && OneQuorumRules(cfg.vs) && a in net.nodes && b in net.nodes
    requires net.nodes[a].decided.Some? && net.nodes[b].decided.Some?
    ensures net.nodes[a].certified >= net.nodes[b].certified
  {
    assert NodeInv(cfg, net.pool, a, net.nodes[a]) && NodeInv(cfg, net.pool, b, net.nodes[b]);
    CarriedRoundIsLast(cfg, net, net.nodes[a].certified, net.nodes[a].decided.value);
    var x := SomeoneWasThere(cfg, net, net.nodes[b].certified, net.nodes[b].decided);
    assert NodeInv(cfg, net.pool, x, net.nodes[x]);
  }

  /** Where the indispensable validators are a quorum, every run agrees. */
  lemma AgreesWhenOneQuorumRules(cfg: Setup, acts: seq<Act>)
    requires cfg.Valid() && OneQuorumRules(cfg.vs) && Legal(cfg, Init(cfg), acts)
    ensures Agreement(RunFrom(cfg, Init(cfg), acts))
  {
    var net := RunFrom(cfg, Init(cfg), acts);
    InitInv(cfg);
    RunKeepsInv(cfg, Init(cfg), acts);
    forall a, b | a in net.nodes && b in net.nodes && net.nodes[a].decided.Some? && net.nodes[b].decided.Some?
      ensures net.nodes[a].decided == net.nodes[b].decided
    {
      EarlierCommit(cfg, net, a, b);
      EarlierCommit(cfg, net, b, a);
      OneCommitPerRound(cfg, net, a, b);
    }
  }

  /** Once an indispensable validator has committed, nobody commits in a later
      round than it was in: it votes no more, and every quorum needs it. */
  lemma NeededCommitIsLast(cfg: Setup, net: Network, a: Address, b: Address)
    requires cfg.Valid() && Inv(cfg, net) && a in net.nodes && b in net.nodes && a in Indispensable(cfg.vs)
    requires net.nodes[a].decided.Some? && net.nodes[b].decided.Some?
    ensures net.nodes[a].rs.round >= net.nodes[b].certified
  {
    var r, v := net.nodes[b].certified, net.nodes[b].decided;
    assert NodeInv(cfg, net.pool, a, net.nodes[a]) && NodeInv(cfg, net.pool, b, net.nodes[b]);
    var seen :| seen <= Held(net.pool, r, Precommit) && cfg.vs.HasQuorum(Tally(cfg.vs, seen, v));
    QuorumHasIndispensable(cfg.vs, Backers(seen, v));
    var s := BackerSigned(net.pool, r, seen, v, a);
  }
}
