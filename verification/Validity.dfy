/** What honest nodes vote for and commit, in every run: only blocks that were
    proposed to them and that execute to the state they claim. */
module Validity {
  import opened Base
  import opened Validators
  import opened Votes
  import opened Rounds
  import opened Signing
  import opened Nodes

  // -- what an honest validator's vote rests on -----------------------------

  /** A vote for this height and chain, signed with its validator's key; a
      prevoted block executes, and a precommitted one had a quorum of prevotes. */
  ghost predicate Sound(cfg: Setup, pool: set<SignedVote>, s: SignedVote) {
    && s.vote.chain == cfg.chain && s.vote.height == cfg.height && s.signature == cfg.sign(s.vote)
    && (s.vote.blockId.Some? ==>
          if s.vote.kind == Prevote then cfg.executes(s.vote.blockId.value)
          else QuorumSigned(cfg.Core(), pool, s.vote.round, Prevote, s.vote.blockId))
  }

  ghost predicate PoolSound(cfg: Setup, pool: set<SignedVote>) {
    forall s :: s in pool && s.vote.validator in cfg.Honest() ==> Sound(cfg, pool, s)
  }

  lemma SoundStays(cfg: Setup, pool: set<SignedVote>, more: set<SignedVote>, s: SignedVote)
    requires pool <= more && Sound(cfg, pool, s)
    ensures Sound(cfg, more, s)
  {
    if s.vote.kind == Precommit && s.vote.blockId.Some? {
      SignedStays(cfg.Core(), pool, more, s.vote.round, Prevote, s.vote.blockId);
    }
  }

  lemma PoolGrows(cfg: Setup, pool: set<SignedVote>, s: SignedVote)
    requires PoolSound(cfg, pool) && (s.vote.validator in cfg.Honest() ==> Sound(cfg, pool, s))
    ensures PoolSound(cfg, pool + {s})
  {
    forall t | t in pool + {s} && t.vote.validator in cfg.Honest() ensures Sound(cfg, pool + {s}, t) {
      SoundStays(cfg, pool, pool + {s}, t);
    }
  }

  /** A quorum counted in an inbox was signed. */
  lemma CountedIsSigned(cfg: Setup, pool: set<SignedVote>, n: Node, kind: VoteType, v: Option<Hash32>)
    requires n.inbox <= pool && QuorumIn(cfg.vs, Held(n.inbox, n.rs.round, kind)) == Some(v)
    ensures QuorumSigned(cfg.Core(), pool, n.rs.round, kind, v)
  {
    var held := Held(n.inbox, n.rs.round, kind);
    forall a | a in Backers(held, v) ensures a in SignersOf(pool, n.rs.round, kind, v) {
      assert v in ValuesOf(held, a);
      var s :| s in held && s.vote.validator == a && s.vote.blockId == v;
    }
    PowerOfMonotone(cfg.vs.validators, Backers(held, v), SignersOf(pool, n.rs.round, kind, v));
  }

  // -- what a node holds ----------------------------------------------------

  /** Every proposal held was offered, for its round, in the name of that round's
      proposer; and a committed block has a quorum of precommits. */
  ghost predicate NodeSound(cfg: Setup, pool: set<SignedVote>, offers: set<Proposal>, n: Node) {
    && n.inbox <= pool
    && (forall r :: r in n.proposals ==>
          n.proposals[r] in offers && n.proposals[r].round == r && n.proposals[r].proposer == cfg.proposer(r))
    && (n.decided.Some? ==> QuorumSigned(cfg.Core(), pool, n.certified, Precommit, n.decided))
  }

  lemma NodeSoundStays(cfg: Setup, pool: set<SignedVote>, offers: set<Proposal>, pool': set<SignedVote>,
                       offers': set<Proposal>, n: Node)
    requires NodeSound(cfg, pool, offers, n) && pool <= pool' && offers <= offers'
    ensures NodeSound(cfg, pool', offers', n)
  {
    if n.decided.Some? {
      SignedStays(cfg.Core(), pool, pool', n.certified, Precommit, n.decided);
    }
  }

  /** What a reaction has to leave behind. */
  ghost predicate Leaves(cfg: Setup, pool: set<SignedVote>, offers: set<Proposal>, next: Node, votes: set<SignedVote>) {
    PoolSound(cfg, pool + votes) && NodeSound(cfg, pool + votes, offers, next)
  }

  lemma PrecommitsCounted(cfg: Setup, pool: set<SignedVote>, offers: set<Proposal>, n: Node)
    requires NodeSound(cfg, pool, offers, n)
    ensures NodeSound(cfg, pool, offers, CountPrecommits(cfg, n))
  {
    var quorum := QuorumIn(cfg.vs, Held(n.inbox, n.rs.round, Precommit));
    if quorum.Some? {
      CountedIsSigned(cfg, pool, n, Precommit, quorum.value);
    }
  }

  lemma PrecommitEmitted(cfg: Setup, pool: set<SignedVote>, offers: set<Proposal>, who: Address, n: Node,
                         v: Option<Hash32>)
    requires PoolSound(cfg, pool) && NodeSound(cfg, pool, offers, n)
    requires v.Some? ==> QuorumSigned(cfg.Core(), pool, n.rs.round, Prevote, v)
    ensures var (next, votes) := EmitPrecommit(cfg, who, n, v); Leaves(cfg, pool, offers, next, votes)
  {
    assert pool + {} == pool;
    if Sign(cfg, who, n, Precommit, v).Some? {
      var (signed, vote) := Sign(cfg, who, n, Precommit, v).value;
      PoolGrows(cfg, pool, vote);
      NodeSoundStays(cfg, pool, offers, pool + {vote}, offers, n);
      PrecommitsCounted(cfg, pool + {vote}, offers, signed);
    }
  }

  lemma PrevotesCounted(cfg: Setup, pool: set<SignedVote>, offers: set<Proposal>, who: Address, n: Node)
    requires PoolSound(cfg, pool) && NodeSound(cfg, pool, offers, n)
    ensures var (next, votes) := CountPrevotes(cfg, who, n); Leaves(cfg, pool, offers, next, votes)
  {
    assert pool + {} == pool;
    var quorum := QuorumIn(cfg.vs, Held(n.inbox, n.rs.round, Prevote));
    if n.rs.step != Precommitting && quorum.Some? {
      CountedIsSigned(cfg, pool, n, Prevote, quorum.value);
      var (rs, d) := AfterPrevotes(n.rs, quorum);
      PrecommitEmitted(cfg, pool, offers, who, n.(rs := rs), d.value);
    }
  }

  lemma PrevoteEmitted(cfg: Setup, pool: set<SignedVote>, offers: set<Proposal>, who: Address, n: Node,
                       v: Option<Hash32>)
    requires PoolSound(cfg, pool) && NodeSound(cfg, pool, offers, n) && (v.Some? ==> cfg.executes(v.value))
    ensures var (next, votes) := EmitPrevote(cfg, who, n, v); Leaves(cfg, pool, offers, next, votes)
  {
    assert pool + {} == pool;
    if Sign(cfg, who, n, Prevote, v).Some? {
      var (signed, vote) := Sign(cfg, who, n, Prevote, v).value;
      PoolGrows(cfg, pool, vote);
      NodeSoundStays(cfg, pool, offers, pool + {vote}, offers, n);
      PrevotesCounted(cfg, pool + {vote}, offers, who, signed);
      var (next, more) := CountPrevotes(cfg, who, signed);
      assert pool + {vote} + more == pool + ({vote} + more);
    }
  }

  lemma ProposalHeard(cfg: Setup, pool: set<SignedVote>, offers: set<Proposal>, who: Address, n: Node, p: Proposal)
    requires PoolSound(cfg, pool) && NodeSound(cfg, pool, offers, n) && p in offers
    ensures var (next, votes) := Hear(cfg, who, n, p); Leaves(cfg, pool, offers, next, votes)
  {
    assert pool + {} == pool;
    if p.round == n.rs.round && cfg.proposer(p.round) == p.proposer {
      var d := DecidePrevote(n.rs, Some(p.block), p.validRound, cfg.executes(p.block));
      PrevotesExactlyWhen(n.rs, Some(p.block), p.validRound, cfg.executes(p.block),
                          if d.value.Some? then d.value.value else p.block);
      var heard := n.(proposals := n.proposals[p.round := p], rs := n.rs.(step := Prevoting));
      PrevoteEmitted(cfg, pool, offers, who, heard, d.value);
    }
  }

  lemma RoundBegun(cfg: Setup, pool: set<SignedVote>, offers: set<Proposal>, who: Address, n: Node, built: Hash32)
    requires PoolSound(cfg, pool) && NodeSound(cfg, pool, offers, n)
    ensures var (next, votes, more) := Begin(cfg, who, n, built); Leaves(cfg, pool, offers + more, next, votes)
  {
    var (next, votes, more) := Begin(cfg, who, n, built);
    assert pool + {} == pool;
    NodeSoundStays(cfg, pool, offers, pool, offers + more, n);
    if more != {} {
      var claimed := n.(begun := Some(n.rs.round), lastStamp := Stamp(n.rs.round, Propose));
      ProposalHeard(cfg, pool, offers + more, who, claimed, Offer(n, who, built));
    }
  }

  lemma TimerFired(cfg: Setup, pool: set<SignedVote>, offers: set<Proposal>, who: Address, n: Node, asked: nat,
                   step: Step)
    requires PoolSound(cfg, pool) && NodeSound(cfg, pool, offers, n)
    ensures var (next, votes) := Timeout(cfg, who, n, asked, step); Leaves(cfg, pool, offers, next, votes)
  {
    assert pool + {} == pool;
    var n1 := n.(timers := n.timers - {(asked, step)});
    if n.rs.step == step {
      match step
      case Propose => PrevoteEmitted(cfg, pool, offers, who, n1.(rs := n1.rs.(step := Prevoting)), None);
      case Prevoting => PrecommitEmitted(cfg, pool, offers, who, n1.(rs := n1.rs.(step := Precommitting)), None);
      case Precommitting =>
    }
  }

  lemma EventSound(cfg: Setup, pool: set<SignedVote>, offers: set<Proposal>, who: Address, n: Node, event: Event)
    requires PoolSound(cfg, pool) && NodeSound(cfg, pool, offers, n) && CanHappen(cfg, pool, offers, n, event)
    ensures var (next, votes, more) := React(cfg, who, n, event); Leaves(cfg, pool, offers + more, next, votes)
  {
    assert pool + {} == pool && offers + {} == offers;
    match event
    case Start(built) => RoundBegun(cfg, pool, offers, who, n, built);
    case Offered(p) => ProposalHeard(cfg, pool, offers, who, n, p);
    case Delivered(s) =>
      var n1 := n.(inbox := n.inbox + {s});
      PrevotesCounted(cfg, pool, offers, who, n1);
      PrecommitsCounted(cfg, pool, offers, n1);
    case TimedOut(asked, step) => TimerFired(cfg, pool, offers, who, n, asked, step);
    case Synced(_, _) =>
  }

  // -- every run ------------------------------------------------------------

  ghost predicate Inv(cfg: Setup, net: Network) {
    PoolSound(cfg, net.pool) && forall a :: a in net.nodes ==> NodeSound(cfg, net.pool, net.offers, net.nodes[a])
  }

  lemma ActKeepsInv(cfg: Setup, net: Network, act: Act)
    requires Inv(cfg, net) && Enabled(cfg, net, act)
    ensures Inv(cfg, Apply(cfg, net, act))
  {
    var next := Apply(cfg, net, act);
    if act.Happens? {
      EventSound(cfg, net.pool, net.offers, act.who, net.nodes[act.who], act.event);
    } else if act.FaultyVote? {
      PoolGrows(cfg, net.pool, act.vote);
    }
    forall a | a in net.nodes && (act.Happens? ==> a != act.who)
      ensures NodeSound(cfg, next.pool, next.offers, next.nodes[a])
    {
      NodeSoundStays(cfg, net.pool, net.offers, next.pool, next.offers, net.nodes[a]);
    }
  }

  lemma {:induction false} RunKeepsInv(cfg: Setup, net: Network, acts: seq<Act>)
    requires Inv(cfg, net) && Legal(cfg, net, acts)
    ensures Inv(cfg, RunFrom(cfg, net, acts))
    decreases |acts|
  {
    if acts != [] {
      ActKeepsInv(cfg, net, acts[0]);
      RunKeepsInv(cfg, Apply(cfg, net, acts[0]), acts[1..]);
    }
  }

  /** A quorum has an honest member, whose vote is sound. */
  lemma HonestInQuorum(cfg: Setup, pool: set<SignedVote>, r: nat, kind: VoteType, v: Option<Hash32>)
    returns (s: SignedVote)
    requires cfg.Valid() && PoolSound(cfg, pool) && QuorumSigned(cfg.Core(), pool, r, kind, v)
    ensures s in pool && s.vote.round == r && s.vote.kind == kind && s.vote.blockId == v && Sound(cfg, pool, s)
  {
    var signers := SignersOf(pool, r, kind, v);
    var a := QuorumsShareHonest(cfg.vs, signers, signers, cfg.faulty);
    s :| s in pool && s.vote.round == r && s.vote.kind == kind && s.vote.blockId == v && s.vote.validator == a;
  }

  lemma QuorumExecutes(cfg: Setup, pool: set<SignedVote>, r: nat, kind: VoteType, b: Hash32)
    requires cfg.Valid() && PoolSound(cfg, pool) && QuorumSigned(cfg.Core(), pool, r, kind, Some(b))
    ensures cfg.executes(b)
  {
    var s := HonestInQuorum(cfg, pool, r, kind, Some(b));
    if kind == Precommit {
      var t := HonestInQuorum(cfg, pool, r, Prevote, Some(b));
    }
  }

  /** Validity in every run: every block an honest validator prevotes executes,
      every block a quorum prevotes or precommits executes, and so does every
      block an honest validator commits, whether it counted the votes or was
      shown them. */
  lemma OnlyBlocksThatExecute(cfg: Setup, acts: seq<Act>)
    requires cfg.Valid() && Legal(cfg, Init(cfg), acts)
    ensures var net := RunFrom(cfg, Init(cfg), acts);
      && (forall s :: s in net.pool && s.vote.validator in cfg.Honest() && s.vote.blockId.Some? ==>
            cfg.executes(s.vote.blockId.value))
      && (forall r, kind, b :: QuorumSigned(cfg.Core(), net.pool, r, kind, Some(b)) ==> cfg.executes(b))
      && (forall a :: a in net.nodes && net.nodes[a].decided.Some? ==> cfg.executes(net.nodes[a].decided.value))
  {
    var net := RunFrom(cfg, Init(cfg), acts);
    RunKeepsInv(cfg, Init(cfg), acts);
    forall r, kind, b | QuorumSigned(cfg.Core(), net.pool, r, kind, Some(b)) ensures cfg.executes(b) {
      QuorumExecutes(cfg, net.pool, r, kind, b);
    }
    forall s | s in net.pool && s.vote.validator in cfg.Honest() && s.vote.blockId.Some?
      ensures cfg.executes(s.vote.blockId.value)
    {
      assert Sound(cfg, net.pool, s);
    }
  }

  /** A block a node commits by counting is one it holds a proposal for, made for
      its round in the name of that round's proposer. */
  lemma CountedIsProposed(cfg: Setup, acts: seq<Act>, who: Address, event: Event)
    requires Legal(cfg, Init(cfg), acts) && Enabled(cfg, RunFrom(cfg, Init(cfg), acts), Happens(who, event))
    requires !event.Synced?
    ensures var net := Apply(cfg, RunFrom(cfg, Init(cfg), acts), Happens(who, event));
      net.nodes[who].decided.Some? ==> Proposed(cfg, net.offers, net.nodes[who].decided.value)
  {
    var before := RunFrom(cfg, Init(cfg), acts);
    var n := before.nodes[who];
    RunKeepsInv(cfg, Init(cfg), acts);
    EventSound(cfg, before.pool, before.offers, who, n, event);
    DecidesOnlyKnown(cfg, who, n, event);
    var (next, votes, more) := React(cfg, who, n, event);
    if next.decided.Some? {
      KnownIsProposed(cfg, before.pool + votes, before.offers + more, next, next.decided.value);
    }
  }

  ghost predicate Proposed(cfg: Setup, offers: set<Proposal>, b: Hash32) {
    exists p :: p in offers && p.block == b && p.proposer == cfg.proposer(p.round)
  }

  lemma KnownIsProposed(cfg: Setup, pool: set<SignedVote>, offers: set<Proposal>, n: Node, b: Hash32)
    requires NodeSound(cfg, pool, offers, n) && Knows(n, b)
    ensures Proposed(cfg, offers, b)
  {
    var r :| r in n.proposals && n.proposals[r].block == b;
    assert n.proposals[r] in offers;
  }

  /** Whatever the node has committed, it holds. */
  ghost predicate HoldsDecided(n: Node) { n.decided.Some? ==> Knows(n, n.decided.value) }

  lemma CountingDecidesKnown(cfg: Setup, n: Node)
    requires n.decided.None?
    ensures HoldsDecided(CountPrecommits(cfg, n))
  {
    assert CountPrecommits(cfg, n).proposals == n.proposals;
  }

  lemma PrecommitDecidesKnown(cfg: Setup, who: Address, n: Node, v: Option<Hash32>)
    requires n.decided.None?
    ensures HoldsDecided(EmitPrecommit(cfg, who, n, v).0)
  {
    if Sign(cfg, who, n, Precommit, v).Some? {
      CountingDecidesKnown(cfg, Sign(cfg, who, n, Precommit, v).value.0);
    }
  }

  lemma PrevotesDecideKnown(cfg: Setup, who: Address, n: Node)
    requires n.decided.None?
    ensures HoldsDecided(CountPrevotes(cfg, who, n).0)
  {
    var quorum := QuorumIn(cfg.vs, Held(n.inbox, n.rs.round, Prevote));
    if quorum.Some? {
      var (rs, d) := AfterPrevotes(n.rs, quorum);
      PrecommitDecidesKnown(cfg, who, n.(rs := rs), d.value);
    }
  }

  lemma PrevoteDecidesKnown(cfg: Setup, who: Address, n: Node, v: Option<Hash32>)
    requires n.decided.None?
    ensures HoldsDecided(EmitPrevote(cfg, who, n, v).0)
  {
    if Sign(cfg, who, n, Prevote, v).Some? {
      PrevotesDecideKnown(cfg, who, Sign(cfg, who, n, Prevote, v).value.0);
    }
  }

  lemma HearingDecidesKnown(cfg: Setup, who: Address, n: Node, p: Proposal)
    requires n.decided.None?
    ensures HoldsDecided(Hear(cfg, who, n, p).0)
  {
    if p.round == n.rs.round && cfg.proposer(p.round) == p.proposer {
      var heard := n.(proposals := n.proposals[p.round := p], rs := n.rs.(step := Prevoting));
      PrevoteDecidesKnown(cfg, who, heard,
                          DecidePrevote(n.rs, Some(p.block), p.validRound, cfg.executes(p.block)).value);
    }
  }

  lemma DecidesOnlyKnown(cfg: Setup, who: Address, n: Node, event: Event)
    requires n.decided.None? && !event.Synced?
    ensures HoldsDecided(React(cfg, who, n, event).0)
  {
    match event
    case Start(built) =>
      HearingDecidesKnown(cfg, who, n.(begun := Some(n.rs.round), lastStamp := Stamp(n.rs.round, Propose)),
                          Offer(n, who, built));
    case Offered(p) => HearingDecidesKnown(cfg, who, n, p);
    case Delivered(s) =>
      var n1 := n.(inbox := n.inbox + {s});
      PrevotesDecideKnown(cfg, who, n1);
      CountingDecidesKnown(cfg, n1);
    case TimedOut(asked, step) =>
      var n1 := n.(timers := n.timers - {(asked, step)});
      PrevoteDecidesKnown(cfg, who, n1.(rs := n1.rs.(step := Prevoting)), None);
      PrecommitDecidesKnown(cfg, who, n1.(rs := n1.rs.(step := Precommitting)), None);
  }

  // -- proposing ------------------------------------------------------------

  /** A node proposes exactly when it begins a round it has not begun, that round
      is its turn, and it has signed nothing at or after this point. */
  lemma ProposesExactlyWhen(cfg: Setup, who: Address, n: Node, built: Hash32)
    ensures var (next, votes, offers) := Begin(cfg, who, n, built);
      && (offers != {} <==>
            n.begun != Some(n.rs.round) && cfg.proposer(n.rs.round) == who && n.lastStamp < Stamp(n.rs.round, Propose))
      && (forall p :: p in offers ==> p.round == n.rs.round && p.proposer == who)
      && (n.rs.validValue.None? ==> offers <= {Proposal(n.rs.round, built, None, who)})
  {
  }
}
