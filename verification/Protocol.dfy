/** All validators deciding one height together: the node's handling of proposals,
    quorums and timeouts (crates/node/src/lib.rs) around the round state machine,
    the signing record (crates/node/src/signing.rs) and the vote set. */
module Protocol {
  import opened Base
  import opened Validators
  import opened Votes
  import opened Rounds
  import opened Signing

  /** An honest validator: its round state, the last point it signed at (-1 for
      none at this height), and the block it committed with the round of its certificate. */
  datatype Node = Node(rs: RoundView, lastStamp: int, decided: Option<Hash32>, certified: nat)

  /** The honest validators, and every vote that has been signed. A vote once
      signed may reach any validator, at any time, in any order, or never. */
  datatype State = State(nodes: map<Address, Node>, pool: set<SignedVote>)

  datatype Action =
    | ReceiveProposal(who: Address, block: Hash32, validRound: Option<nat>, isValid: bool)
    | ProposeTimeout(who: Address)
    | SeePrevoteQuorum(who: Address, value: Option<Hash32>)
    | PrevoteTimeout(who: Address)
    | SeePrecommitQuorum(who: Address, value: Option<Hash32>)
    | PrecommitTimeout(who: Address)
    | ClaimProposal(who: Address)
    | AdoptCertified(who: Address, round: nat, block: Hash32)
    | Misbehave(vote: SignedVote)

  /** What some vote set would report after receiving some of the signed votes. */
  ghost predicate QuorumSeen(cfg: Config, pool: set<SignedVote>, round: nat, kind: VoteType, v: Option<Hash32>) {
    exists received ::
      received <= Held(pool, round, kind) && cfg.vs.HasQuorum(Tally(cfg.vs, received, v))
  }

  /** Some round after `r` saw a quorum prevote nil. */
  ghost predicate NilQuorumAfter(cfg: Config, pool: set<SignedVote>, r: nat) {
    exists r' :: r' > r && QuorumSigned(cfg, pool, r', Prevote, None)
  }

  // -- steps ----------------------------------------------------------------

  /** Signs and releases a vote if the signing record allows it, else nothing. */
  ghost function Emit(cfg: Config, s: State, who: Address, n: Node, kind: VoteType, v: Option<Hash32>): State {
    var stamp := Stamp(n.rs.round, StepOf(kind));
    if stamp > n.lastStamp then
      var vote := Vote(cfg.chain, cfg.height, n.rs.round, kind, v, who);
      State(s.nodes[who := n.(lastStamp := stamp)], s.pool + {SignedVote(vote, cfg.sign(vote))})
    else
      State(s.nodes[who := n], s.pool)
  }

  ghost predicate Running(s: State, who: Address) {
    who in s.nodes && s.nodes[who].decided.None?
  }

  /** A claim that a proposal already had a quorum is backed by one. */
  ghost predicate Backed(cfg: Config, s: State, who: Address, block: Hash32, validRound: Option<nat>)
    requires who in s.nodes
  {
    validRound.Some? ==>
      && validRound.value < s.nodes[who].rs.round
      && QuorumSigned(cfg, s.pool, validRound.value, Prevote, Some(block))
  }

  ghost predicate Enabled(cfg: Config, s: State, act: Action) {
    match act
    case ReceiveProposal(who, block, validRound, _) => Running(s, who) && Backed(cfg, s, who, block, validRound)
    case ProposeTimeout(who) => Running(s, who) && s.nodes[who].rs.step == Propose
    case SeePrevoteQuorum(who, v) =>
      && Running(s, who) && s.nodes[who].rs.step != Precommitting
      && QuorumSeen(cfg, s.pool, s.nodes[who].rs.round, Prevote, v)
    case PrevoteTimeout(who) => Running(s, who) && s.nodes[who].rs.step == Prevoting
    case SeePrecommitQuorum(who, v) =>
      && Running(s, who)
      && QuorumSeen(cfg, s.pool, s.nodes[who].rs.round, Precommit, v)
    case PrecommitTimeout(who) => Running(s, who) && s.nodes[who].rs.step == Precommitting
    case ClaimProposal(who) => Running(s, who) && Stamp(s.nodes[who].rs.round, Propose) > s.nodes[who].lastStamp
    case AdoptCertified(who, round, block) =>
      Running(s, who) && QuorumSigned(cfg, s.pool, round, Precommit, Some(block))
    case Misbehave(sv) => sv.vote.validator in cfg.faulty && sv.vote.height == cfg.height && sv.vote.chain == cfg.chain
  }

  ghost function Apply(cfg: Config, s: State, act: Action): State
    requires Enabled(cfg, s, act)
  {
    match act
    case ReceiveProposal(who, block, validRound, isValid) =>
      var n := s.nodes[who];
      Emit(cfg, s, who, n.(rs := n.rs.(step := Prevoting)), Prevote,
           DecidePrevote(n.rs, Some(block), validRound, isValid).value)
    case ProposeTimeout(who) =>
      var n := s.nodes[who];
      Emit(cfg, s, who, n.(rs := n.rs.(step := Prevoting)), Prevote, None)
    case SeePrevoteQuorum(who, v) =>
      var n := s.nodes[who];
      var (rs', d) := AfterPrevotes(n.rs, Some(v));
      Emit(cfg, s, who, n.(rs := rs'), Precommit, d.value)
    case PrevoteTimeout(who) =>
      var n := s.nodes[who];
      var (rs', d) := AfterPrevotes(n.rs, None);
      Emit(cfg, s, who, n.(rs := rs'), Precommit, d.value)
    case SeePrecommitQuorum(who, v) =>
      var n := s.nodes[who];
      var (rs', d) := AfterPrecommits(n.rs, Some(v));
      s.(nodes := s.nodes[who := if d.CommitBlock? then n.(decided := Some(d.block), certified := n.rs.round)
                                 else n.(rs := rs')])
    case PrecommitTimeout(who) =>
      var n := s.nodes[who];
      s.(nodes := s.nodes[who := n.(rs := AdvancedTo(n.rs, n.rs.round + 1))])
    case ClaimProposal(who) =>
      var n := s.nodes[who];
      s.(nodes := s.nodes[who := n.(lastStamp := Stamp(n.rs.round, Propose))])
    case AdoptCertified(who, round, block) =>
      s.(nodes := s.nodes[who := s.nodes[who].(decided := Some(block), certified := round)])
    case Misbehave(sv) => s.(pool := s.pool + {sv})
  }

  ghost function Init(cfg: Config): State {
    State(map a | a in cfg.Honest() :: Node(Fresh(cfg.height), -1, None, 0), {})
  }

  ghost predicate Legal(cfg: Config, s: State, acts: seq<Action>)
    decreases |acts|
  {
    acts != [] ==> Enabled(cfg, s, acts[0]) && Legal(cfg, Apply(cfg, s, acts[0]), acts[1..])
  }

  ghost function RunFrom(cfg: Config, s: State, acts: seq<Action>): State
    requires Legal(cfg, s, acts)
    decreases |acts|
  {
    if acts == [] then s else RunFrom(cfg, Apply(cfg, s, acts[0]), acts[1..])
  }

  // -- quorums --------------------------------------------------------------

  lemma SeenIsSigned(cfg: Config, pool: set<SignedVote>, round: nat, kind: VoteType, v: Option<Hash32>)
    requires QuorumSeen(cfg, pool, round, kind, v)
    ensures QuorumSigned(cfg, pool, round, kind, v)
  {
    var received :| received <= Held(pool, round, kind) && cfg.vs.HasQuorum(Tally(cfg.vs, received, v));
    forall a | a in Backers(received, v) ensures a in SignersOf(pool, round, kind, v) {
      assert v in ValuesOf(received, a);
      var s :| s in received && s.vote.validator == a && s.vote.blockId == v;
      assert s in Held(pool, round, kind);
    }
    PowerOfMonotone(cfg.vs.validators, Backers(received, v), SignersOf(pool, round, kind, v));
  }

  /** An honest validator signs one value per round and phase. */
  ghost predicate OneVoteEach(cfg: Config, pool: set<SignedVote>) {
    forall s, t :: (&& s in pool && t in pool
                    && s.vote.validator == t.vote.validator && s.vote.validator in cfg.Honest()
                    && s.vote.round == t.vote.round && s.vote.kind == t.vote.kind)
                   ==> s.vote.blockId == t.vote.blockId
  }

  lemma HonestInBoth(cfg: Config, pool: set<SignedVote>, r: nat, k: VoteType, v: Option<Hash32>,
                     r': nat, k': VoteType, v': Option<Hash32>) returns (s: SignedVote, t: SignedVote)
    requires cfg.Valid() && QuorumSigned(cfg, pool, r, k, v) && QuorumSigned(cfg, pool, r', k', v')
    ensures s in pool && s.vote.round == r && s.vote.kind == k && s.vote.blockId == v
    ensures t in pool && t.vote.round == r' && t.vote.kind == k' && t.vote.blockId == v'
    ensures s.vote.validator == t.vote.validator && s.vote.validator in cfg.Honest()
  {
    var x := QuorumsShareHonest(cfg.vs, SignersOf(pool, r, k, v), SignersOf(pool, r', k', v'), cfg.faulty);
    s :| s in pool && s.vote.round == r && s.vote.kind == k && s.vote.blockId == v && s.vote.validator == x;
    t :| t in pool && t.vote.round == r' && t.vote.kind == k' && t.vote.blockId == v' && t.vote.validator == x;
  }

  lemma OneQuorumPerRound(cfg: Config, pool: set<SignedVote>, r: nat, k: VoteType, v: Option<Hash32>, w: Option<Hash32>)
    requires cfg.Valid() && OneVoteEach(cfg, pool)
    requires QuorumSigned(cfg, pool, r, k, v) && QuorumSigned(cfg, pool, r, k, w)
    ensures v == w
  {
    var s, t := HonestInBoth(cfg, pool, r, k, v, r, k, w);
  }

  // -- the invariant --------------------------------------------------------

  /** A value remembered with its round rests on a quorum, and was recorded before anything later was signed. */
  ghost predicate Rests(cfg: Config, pool: set<SignedVote>, n: Node, value: Option<Hash32>, round: Option<nat>) {
    && (value.Some? <==> round.Some?)
    && (round.Some? ==>
          && round.value <= n.rs.round
          && QuorumSigned(cfg, pool, round.value, Prevote, value)
          && (round.value == n.rs.round ==> n.lastStamp >= Stamp(n.rs.round, Precommitting)))
  }

  ghost predicate LockInv(cfg: Config, pool: set<SignedVote>, n: Node) {
    && Rests(cfg, pool, n, n.rs.lockedValue, n.rs.lockedRound)
    && Rests(cfg, pool, n, n.rs.validValue, n.rs.validRound)
  }

  /** Having precommitted `v` at round `r`, the node is still locked at `r` or
      later, unless nil carried a later round. */
  ghost predicate Holds(cfg: Config, pool: set<SignedVote>, n: Node, r: nat, v: Hash32) {
    || NilQuorumAfter(cfg, pool, r)
    || (&& n.rs.lockedRound.Some? && n.rs.lockedRound.value >= r
        && (n.rs.lockedRound.value == r ==> n.rs.lockedValue == Some(v)))
  }

  /** A later prevote for another value `w` at round `r'` rested on a quorum for
      `w` in between, unless nil carried a round after `r`. */
  ghost predicate Excused(cfg: Config, pool: set<SignedVote>, r: nat, r': nat, w: Hash32) {
    || NilQuorumAfter(cfg, pool, r)
    || exists r'' :: r < r'' < r' && QuorumSigned(cfg, pool, r'', Prevote, Some(w))
  }

  ghost predicate VoteInv(cfg: Config, pool: set<SignedVote>, n: Node, s: SignedVote) {
    && VoteStamp(s.vote) <= n.lastStamp
    && s.vote.round <= n.rs.round
    && (s.vote.kind == Precommit && s.vote.blockId.Some? ==>
          && QuorumSigned(cfg, pool, s.vote.round, Prevote, s.vote.blockId)
          && Holds(cfg, pool, n, s.vote.round, s.vote.blockId.value))
  }

  ghost predicate PairInv(cfg: Config, pool: set<SignedVote>, s: SignedVote, t: SignedVote) {
    s.vote.kind == Precommit && t.vote.kind == Prevote && s.vote.round < t.vote.round
    && s.vote.blockId.Some? && t.vote.blockId.Some? && s.vote.blockId != t.vote.blockId
    ==> Excused(cfg, pool, s.vote.round, t.vote.round, t.vote.blockId.value)
  }

  ghost predicate NodeInv(cfg: Config, pool: set<SignedVote>, who: Address, n: Node) {
    && LockInv(cfg, pool, n)
    && (n.decided.Some? ==> QuorumSigned(cfg, pool, n.certified, Precommit, n.decided))
    && (forall s :: s in pool && s.vote.validator == who ==> VoteInv(cfg, pool, n, s))
    && (forall s, t :: s in pool && t in pool && s.vote.validator == who && t.vote.validator == who
          ==> PairInv(cfg, pool, s, t))
  }

  ghost predicate Inv(cfg: Config, s: State) {
    && s.nodes.Keys == cfg.Honest()
    && OneVoteEach(cfg, s.pool)
    && forall a :: a in s.nodes ==> NodeInv(cfg, s.pool, a, s.nodes[a])
  }

  lemma NilStays(cfg: Config, pool: set<SignedVote>, more: set<SignedVote>, r: nat)
    requires pool <= more && NilQuorumAfter(cfg, pool, r)
    ensures NilQuorumAfter(cfg, more, r)
  {
    var r' :| r' > r && QuorumSigned(cfg, pool, r', Prevote, None);
    SignedStays(cfg, pool, more, r', Prevote, None);
  }

  lemma VoteInvStays(cfg: Config, pool: set<SignedVote>, more: set<SignedVote>, n: Node, s: SignedVote)
    requires pool <= more && VoteInv(cfg, pool, n, s)
    ensures VoteInv(cfg, more, n, s)
  {
    if s.vote.kind == Precommit && s.vote.blockId.Some? {
      SignedStays(cfg, pool, more, s.vote.round, Prevote, s.vote.blockId);
      if NilQuorumAfter(cfg, pool, s.vote.round) {
        NilStays(cfg, pool, more, s.vote.round);
      }
    }
  }

  lemma ExcusedStays(cfg: Config, pool: set<SignedVote>, more: set<SignedVote>, r: nat, r': nat, w: Hash32)
    requires pool <= more && Excused(cfg, pool, r, r', w)
    ensures Excused(cfg, more, r, r', w)
  {
    if NilQuorumAfter(cfg, pool, r) {
      NilStays(cfg, pool, more, r);
    } else {
      var r'' :| r < r'' < r' && QuorumSigned(cfg, pool, r'', Prevote, Some(w));
      SignedStays(cfg, pool, more, r'', Prevote, Some(w));
    }
  }

  lemma LockInvStays(cfg: Config, pool: set<SignedVote>, more: set<SignedVote>, n: Node)
    requires pool <= more && LockInv(cfg, pool, n)
    ensures LockInv(cfg, more, n)
  {
    if n.rs.lockedRound.Some? {
      SignedStays(cfg, pool, more, n.rs.lockedRound.value, Prevote, n.rs.lockedValue);
    }
    if n.rs.validRound.Some? {
      SignedStays(cfg, pool, more, n.rs.validRound.value, Prevote, n.rs.validValue);
    }
  }

  /** Votes signed by others do not disturb what is known of a node. */
  lemma NodeInvStays(cfg: Config, pool: set<SignedVote>, more: set<SignedVote>, who: Address, n: Node)
    requires pool <= more && NodeInv(cfg, pool, who, n)
    requires forall s :: s in more && s.vote.validator == who ==> s in pool
    ensures NodeInv(cfg, more, who, n)
  {
    LockInvStays(cfg, pool, more, n);
    if n.decided.Some? {
      SignedStays(cfg, pool, more, n.certified, Precommit, n.decided);
    }
    forall s | s in more && s.vote.validator == who ensures VoteInv(cfg, more, n, s) {
      VoteInvStays(cfg, pool, more, n, s);
    }
    forall s, t | s in more && t in more && s.vote.validator == who && t.vote.validator == who
      ensures PairInv(cfg, more, s, t)
    {
      PairInvStays(cfg, pool, more, s, t);
    }
  }

  // -- every step keeps the invariant ---------------------------------------

  ghost predicate ByNode(pool: set<SignedVote>, who: Address, s: SignedVote) {
    s in pool && s.vote.validator == who
  }

  /** What the acting node has to establish; the rest follows. */
  lemma ActedNodeKeepsInv(cfg: Config, s: State, who: Address, n: Node, added: set<SignedVote>, w: SignedVote)
    requires cfg.Valid() && Inv(cfg, s) && who in s.nodes
    requires added == {} || (added == {w} && w.vote.validator == who && w.vote.round == n.rs.round)
    requires LockInv(cfg, s.pool + added, n)
    requires n.decided.Some? ==> QuorumSigned(cfg, s.pool + added, n.certified, Precommit, n.decided)
    requires forall p :: ByNode(s.pool, who, p) ==> VoteInv(cfg, s.pool + added, n, p)
    requires added == {w} ==>
               && VoteStamp(w.vote) > s.nodes[who].lastStamp
               && VoteInv(cfg, s.pool + added, n, w)
               && forall p :: ByNode(s.pool, who, p) ==> PairInv(cfg, s.pool + added, p, w)
    ensures Inv(cfg, State(s.nodes[who := n], s.pool + added))
  {
    var more := s.pool + added;
    assert NodeInv(cfg, s.pool, who, s.nodes[who]);
    forall p | ByNode(s.pool, who, p) ensures VoteStamp(p.vote) <= s.nodes[who].lastStamp {
      assert VoteInv(cfg, s.pool, s.nodes[who], p);
    }
    assert OneVoteEach(cfg, more) by {
      forall p, q | p in more && q in more && p.vote.validator == q.vote.validator && p.vote.validator in cfg.Honest()
        && p.vote.round == q.vote.round && p.vote.kind == q.vote.kind
        ensures p.vote.blockId == q.vote.blockId
      {
        assert (p in s.pool && q in s.pool) || p == q || ByNode(s.pool, who, p) || ByNode(s.pool, who, q);
      }
    }
    forall a | a in s.nodes && a != who ensures NodeInv(cfg, more, a, s.nodes[a]) {
      NodeInvStays(cfg, s.pool, more, a, s.nodes[a]);
    }
    forall p | p in more && p.vote.validator == who ensures VoteInv(cfg, more, n, p) {
      assert p in added || ByNode(s.pool, who, p);
    }
    forall p, q | p in more && q in more && p.vote.validator == who && q.vote.validator == who
      ensures PairInv(cfg, more, p, q)
    {
      if ByNode(s.pool, who, p) && ByNode(s.pool, who, q) {
        PairInvStays(cfg, s.pool, more, p, q);
      } else if p == w && added == {w} {
        assert VoteInv(cfg, more, n, q);
      }
    }
  }

  lemma PairInvStays(cfg: Config, pool: set<SignedVote>, more: set<SignedVote>, s: SignedVote, t: SignedVote)
    requires pool <= more && PairInv(cfg, pool, s, t)
    ensures PairInv(cfg, more, s, t)
  {
    if t.vote.blockId.Some? && Excused(cfg, pool, s.vote.round, t.vote.round, t.vote.blockId.value) {
      ExcusedStays(cfg, pool, more, s.vote.round, t.vote.round, t.vote.blockId.value);
    }
  }

  /** Signing a prevote: the lock is untouched, so what has to be shown is that a
      prevote for a rival value had its excuse. */
  lemma PrevoteKeepsInv(cfg: Config, s: State, who: Address, v: Option<Hash32>)
    requires cfg.Valid() && Inv(cfg, s) && Running(s, who)
    requires forall p :: ByNode(s.pool, who, p) && Stamp(s.nodes[who].rs.round, Prevoting) > s.nodes[who].lastStamp
               && v.Some? && p.vote.kind == Precommit && p.vote.blockId.Some? && p.vote.blockId != v
               ==> Excused(cfg, s.pool, p.vote.round, s.nodes[who].rs.round, v.value)
    ensures Inv(cfg, Emit(cfg, s, who, s.nodes[who].(rs := s.nodes[who].rs.(step := Prevoting)), Prevote, v))
  {
    var n0 := s.nodes[who];
    var n1 := n0.(rs := n0.rs.(step := Prevoting));
    var stamp := Stamp(n0.rs.round, Prevoting);
    var vote := Vote(cfg.chain, cfg.height, n0.rs.round, Prevote, v, who);
    var w := SignedVote(vote, cfg.sign(vote));
    var emits := stamp > n0.lastStamp;
    var added, n := if emits then {w} else {}, if emits then n1.(lastStamp := stamp) else n1;
    assert NodeInv(cfg, s.pool, who, n0);
    LockInvStays(cfg, s.pool, s.pool + added, n0);
    forall p | ByNode(s.pool, who, p) ensures VoteInv(cfg, s.pool + added, n, p) {
      VoteInvStays(cfg, s.pool, s.pool + added, n0, p);
    }
    if emits {
      forall p | ByNode(s.pool, who, p) ensures PairInv(cfg, s.pool + added, p, w) {
        if v.Some? && p.vote.kind == Precommit && p.vote.blockId.Some? && p.vote.blockId != v {
          ExcusedStays(cfg, s.pool, s.pool + added, p.vote.round, w.vote.round, v.value);
        }
      }
    }
    ActedNodeKeepsInv(cfg, s, who, n, added, w);
    assert s.pool + {} == s.pool;
  }

  /** A prevote for a value other than one precommitted earlier is excused: either
      nil carried a round since, or the lock that resulted, or the claim that
      overrode it, rested on a quorum in between. */
  lemma ProposalKeepsInv(cfg: Config, s: State, act: Action)
    requires cfg.Valid() && Inv(cfg, s) && act.ReceiveProposal? && Enabled(cfg, s, act)
    ensures Inv(cfg, Apply(cfg, s, act))
  {
    var who := act.who;
    var n := s.nodes[who];
    var v := DecidePrevote(n.rs, Some(act.block), act.validRound, act.isValid).value;
    assert NodeInv(cfg, s.pool, who, n);
    forall p | ByNode(s.pool, who, p) && Stamp(n.rs.round, Prevoting) > n.lastStamp
               && v.Some? && p.vote.kind == Precommit && p.vote.blockId.Some? && p.vote.blockId != v
      ensures Excused(cfg, s.pool, p.vote.round, n.rs.round, v.value)
    {
      assert VoteInv(cfg, s.pool, n, p);
      var r := p.vote.round;
      assert Holds(cfg, s.pool, n, r, p.vote.blockId.value);
      if !NilQuorumAfter(cfg, s.pool, r) {
        var lr := n.rs.lockedRound.value;
        if n.rs.lockedValue == v {
          assert r < lr < n.rs.round && QuorumSigned(cfg, s.pool, lr, Prevote, Some(v.value));
        } else {
          var pvr := act.validRound.value;
          assert r < pvr < n.rs.round && QuorumSigned(cfg, s.pool, pvr, Prevote, Some(v.value));
        }
      }
    }
    PrevoteKeepsInv(cfg, s, who, v);
  }

  /** The lock taken or released, and the value remembered, on seeing a prevote quorum. */
  lemma LockMoves(cfg: Config, pool: set<SignedVote>, more: set<SignedVote>, n0: Node, v: Option<Hash32>, n: Node)
    requires pool <= more && LockInv(cfg, pool, n0) && QuorumSigned(cfg, pool, n0.rs.round, Prevote, v)
    requires n.rs == AfterPrevotes(n0.rs, Some(v)).0
    requires n.lastStamp >= n0.lastStamp && n.lastStamp >= Stamp(n0.rs.round, Precommitting)
    ensures LockInv(cfg, more, n)
  {
    LockInvStays(cfg, pool, more, n0);
    SignedStays(cfg, pool, more, n0.rs.round, Prevote, v);
  }

  /** What a vote signed earlier rests on survives a prevote quorum for `v` in this round. */
  lemma VoteOutlivesQuorum(cfg: Config, pool: set<SignedVote>, more: set<SignedVote>, n0: Node, v: Option<Hash32>,
                           n: Node, p: SignedVote)
    requires cfg.Valid() && pool <= more && OneVoteEach(cfg, pool) && VoteInv(cfg, pool, n0, p)
    requires QuorumSigned(cfg, pool, n0.rs.round, Prevote, v)
    requires n.rs == AfterPrevotes(n0.rs, Some(v)).0 && n.lastStamp >= n0.lastStamp
    ensures VoteInv(cfg, more, n, p)
  {
    var r := n0.rs.round;
    VoteInvStays(cfg, pool, more, n0, p);
    SignedStays(cfg, pool, more, r, Prevote, v);
    if p.vote.kind == Precommit && p.vote.blockId.Some? {
      if p.vote.round == r {
        OneQuorumPerRound(cfg, pool, r, Prevote, p.vote.blockId, v);
      } else if v.None? {
        assert r > p.vote.round && QuorumSigned(cfg, more, r, Prevote, None);
      }
    }
  }

  /** Signing a precommit after seeing a prevote quorum, locking or unlocking. */
  lemma PrevoteQuorumKeepsInv(cfg: Config, s: State, act: Action)
    requires cfg.Valid() && Inv(cfg, s) && act.SeePrevoteQuorum? && Enabled(cfg, s, act)
    ensures Inv(cfg, Apply(cfg, s, act))
  {
    var who, v := act.who, act.value;
    var n0 := s.nodes[who];
    var r := n0.rs.round;
    SeenIsSigned(cfg, s.pool, r, Prevote, v);
    assert NodeInv(cfg, s.pool, who, n0);
    var stamp := Stamp(r, Precommitting);
    var vote := Vote(cfg.chain, cfg.height, r, Precommit, v, who);
    var w := SignedVote(vote, cfg.sign(vote));
    var emits := stamp > n0.lastStamp;
    var added := if emits then {w} else {};
    var more := s.pool + added;
    var n := n0.(rs := AfterPrevotes(n0.rs, Some(v)).0, lastStamp := if emits then stamp else n0.lastStamp);
    SignedStays(cfg, s.pool, more, r, Prevote, v);
    LockMoves(cfg, s.pool, more, n0, v, n);
    forall p | ByNode(s.pool, who, p) ensures VoteInv(cfg, more, n, p) {
      VoteOutlivesQuorum(cfg, s.pool, more, n0, v, n, p);
    }
    ActedNodeKeepsInv(cfg, s, who, n, added, w);
    assert s.pool + {} == s.pool;
  }

  lemma PrevoteTimeoutKeepsInv(cfg: Config, s: State, act: Action)
    requires cfg.Valid() && Inv(cfg, s) && act.PrevoteTimeout? && Enabled(cfg, s, act)
    ensures Inv(cfg, Apply(cfg, s, act))
  {
    var who := act.who;
    var n0 := s.nodes[who];
    assert NodeInv(cfg, s.pool, who, n0);
    var stamp := Stamp(n0.rs.round, Precommitting);
    var vote := Vote(cfg.chain, cfg.height, n0.rs.round, Precommit, None, who);
    var w := SignedVote(vote, cfg.sign(vote));
    var emits := stamp > n0.lastStamp;
    var added := if emits then {w} else {};
    var n := n0.(rs := n0.rs.(step := Precommitting), lastStamp := if emits then stamp else n0.lastStamp);
    LockInvStays(cfg, s.pool, s.pool + added, n0);
    forall p | ByNode(s.pool, who, p) ensures VoteInv(cfg, s.pool + added, n, p) {
      VoteInvStays(cfg, s.pool, s.pool + added, n0, p);
    }
    ActedNodeKeepsInv(cfg, s, who, n, added, w);
    assert s.pool + {} == s.pool;
  }

  /** Steps of a validator that sign nothing. */
  predicate Quiet(act: Action) {
    act.SeePrecommitQuorum? || act.PrecommitTimeout? || act.ClaimProposal? || act.AdoptCertified?
  }

  /** A node that signs nothing and keeps its lock and its memory. */
  lemma QuietNodeKeepsInv(cfg: Config, s: State, who: Address, n: Node)
    requires cfg.Valid() && Inv(cfg, s) && Running(s, who)
    requires n.rs == s.nodes[who].rs.(round := n.rs.round, step := n.rs.step)
    requires n.rs.round >= s.nodes[who].rs.round && n.lastStamp >= s.nodes[who].lastStamp
    requires n.decided.Some? ==> QuorumSigned(cfg, s.pool, n.certified, Precommit, n.decided)
    ensures Inv(cfg, s.(nodes := s.nodes[who := n]))
  {
    assert NodeInv(cfg, s.pool, who, s.nodes[who]);
    assert s.pool + {} == s.pool;
    forall p | ByNode(s.pool, who, p) ensures VoteInv(cfg, s.pool, n, p) {
      assert VoteInv(cfg, s.pool, s.nodes[who], p);
    }
    var anything := SignedVote(Vote(0, 0, 0, Prevote, None, 0), 0);
    ActedNodeKeepsInv(cfg, s, who, n, {}, anything);
  }

  lemma QuietKeepsInv(cfg: Config, s: State, act: Action)
    requires cfg.Valid() && Inv(cfg, s) && Quiet(act) && Enabled(cfg, s, act)
    ensures Inv(cfg, Apply(cfg, s, act))
  {
    var who := act.who;
    if act.SeePrecommitQuorum? {
      SeenIsSigned(cfg, s.pool, s.nodes[who].rs.round, Precommit, act.value);
    }
    QuietNodeKeepsInv(cfg, s, who, Apply(cfg, s, act).nodes[who]);
  }

  lemma MisbehaviourKeepsInv(cfg: Config, s: State, act: Action)
    requires cfg.Valid() && Inv(cfg, s) && act.Misbehave? && Enabled(cfg, s, act)
    ensures Inv(cfg, Apply(cfg, s, act))
  {
    forall a | a in s.nodes ensures NodeInv(cfg, s.pool + {act.vote}, a, s.nodes[a]) {
      NodeInvStays(cfg, s.pool, s.pool + {act.vote}, a, s.nodes[a]);
    }
  }

  lemma StepKeepsInv(cfg: Config, s: State, act: Action)
    requires cfg.Valid() && Inv(cfg, s) && Enabled(cfg, s, act)
    ensures Inv(cfg, Apply(cfg, s, act))
  {
    match act
    case ReceiveProposal(_, _, _, _) => ProposalKeepsInv(cfg, s, act);
    case ProposeTimeout(who) => PrevoteKeepsInv(cfg, s, who, None);
    case SeePrevoteQuorum(_, _) => PrevoteQuorumKeepsInv(cfg, s, act);
    case PrevoteTimeout(_) => PrevoteTimeoutKeepsInv(cfg, s, act);
    case SeePrecommitQuorum(_, _) => QuietKeepsInv(cfg, s, act);
    case PrecommitTimeout(_) => QuietKeepsInv(cfg, s, act);
    case ClaimProposal(_) => QuietKeepsInv(cfg, s, act);
    case AdoptCertified(_, _, _) => QuietKeepsInv(cfg, s, act);
    case Misbehave(_) => MisbehaviourKeepsInv(cfg, s, act);
  }

  lemma {:induction false} RunKeepsInv(cfg: Config, s: State, acts: seq<Action>)
    requires cfg.Valid() && Inv(cfg, s) && Legal(cfg, s, acts)
    ensures Inv(cfg, RunFrom(cfg, s, acts))
    decreases |acts|
  {
    if acts != [] {
      StepKeepsInv(cfg, s, acts[0]);
      RunKeepsInv(cfg, Apply(cfg, s, acts[0]), acts[1..]);
    }
  }

  // -- agreement ------------------------------------------------------------

  /** Once a quorum has precommitted `v` at round `r`, no other value gathers a
      prevote quorum at `r` or later, as long as nil does not. */
  lemma {:induction false} NoRivalQuorum(cfg: Config, s: State, r: nat, v: Hash32, r': nat, w: Hash32)
    requires cfg.Valid() && Inv(cfg, s)
    requires QuorumSigned(cfg, s.pool, r, Precommit, Some(v)) && !NilQuorumAfter(cfg, s.pool, r)
    requires r <= r' && QuorumSigned(cfg, s.pool, r', Prevote, Some(w))
    ensures v == w
    decreases r'
  {
    var p, q := HonestInBoth(cfg, s.pool, r, Precommit, Some(v), r', Prevote, Some(w));
    var n := s.nodes[p.vote.validator];
    assert NodeInv(cfg, s.pool, p.vote.validator, n);
    assert VoteInv(cfg, s.pool, n, p) && PairInv(cfg, s.pool, p, q);
    if r == r' {
      OneQuorumPerRound(cfg, s.pool, r, Prevote, Some(v), Some(w));
    } else if v != w {
      var r'' :| r < r'' < r' && QuorumSigned(cfg, s.pool, r'', Prevote, Some(w));
      NoRivalQuorum(cfg, s, r, v, r'', w);
    }
  }

  ghost predicate Agreement(s: State) {
    forall a, b :: a in s.nodes && b in s.nodes && s.nodes[a].decided.Some? && s.nodes[b].decided.Some?
      ==> s.nodes[a].decided == s.nodes[b].decided
  }

  /** No nil quorum after the round of any commit. */
  ghost predicate NoNilAfterCommit(cfg: Config, s: State) {
    forall a :: a in s.nodes && s.nodes[a].decided.Some? ==> !NilQuorumAfter(cfg, s.pool, s.nodes[a].certified)
  }

  lemma DecidedAgree(cfg: Config, s: State, a: Address, b: Address)
    requires cfg.Valid() && Inv(cfg, s) && NoNilAfterCommit(cfg, s)
    requires a in s.nodes && b in s.nodes && s.nodes[a].decided.Some? && s.nodes[b].decided.Some?
    requires s.nodes[a].certified <= s.nodes[b].certified
    ensures s.nodes[a].decided == s.nodes[b].decided
  {
    var ra, rb := s.nodes[a].certified, s.nodes[b].certified;
    var v, w := s.nodes[a].decided.value, s.nodes[b].decided.value;
    assert NodeInv(cfg, s.pool, a, s.nodes[a]) && NodeInv(cfg, s.pool, b, s.nodes[b]);
    var p, q := HonestInBoth(cfg, s.pool, rb, Precommit, Some(w), rb, Precommit, Some(w));
    assert NodeInv(cfg, s.pool, p.vote.validator, s.nodes[p.vote.validator]);
    assert VoteInv(cfg, s.pool, s.nodes[p.vote.validator], p);
    NoRivalQuorum(cfg, s, ra, v, rb, w);
  }

  /** Safety across rounds: in every run of honest validators and a faulty
      coalition within the ceiling, in which no nil quorum formed after a commit,
      no two honest validators commit different blocks. */
  lemma HonestCommitsAgree(cfg: Config, acts: seq<Action>)
    requires cfg.Valid() && Legal(cfg, Init(cfg), acts)
    requires NoNilAfterCommit(cfg, RunFrom(cfg, Init(cfg), acts))
    ensures Agreement(RunFrom(cfg, Init(cfg), acts))
  {
    var s := RunFrom(cfg, Init(cfg), acts);
    RunKeepsInv(cfg, Init(cfg), acts);
    forall a, b | a in s.nodes && b in s.nodes && s.nodes[a].decided.Some? && s.nodes[b].decided.Some?
      ensures s.nodes[a].decided == s.nodes[b].decided
    {
      if s.nodes[a].certified <= s.nodes[b].certified {
        DecidedAgree(cfg, s, a, b);
      } else {
        DecidedAgree(cfg, s, b, a);
      }
    }
  }
}
