/** What the two models of one height share: who validates, the order in which
    the signing record lets a key sign (crates/node/src/signing.rs), and what the
    votes signed so far amount to. */
module Signing {
  import opened Base
  import opened Validators
  import opened Votes
  import opened Rounds

  /** One height: who validates, who is faulty, and how a key signs a vote. */
  datatype Config = Config(vs: ValidatorSet, faulty: set<Address>, chain: ChainId, height: nat,
                           sign: Vote -> Signature) {
    ghost predicate Valid() {
      vs.Valid() && vs.Power(faulty) <= vs.MaxByzantinePower()
    }

    ghost function Honest(): set<Address> {
      Members(vs.validators) - faulty
    }
  }

  /** The order of `(round, step)` that the signing record compares. */
  function Stamp(round: nat, step: Step): int {
    3 * round + (match step case Propose => 0 case Prevoting => 1 case Precommitting => 2)
  }

  function StepOf(kind: VoteType): Step { if kind == Prevote then Prevoting else Precommitting }

  function VoteStamp(v: Vote): int { Stamp(v.round, StepOf(v.kind)) }

  /** The votes of one round and phase. */
  ghost function Held(votes: set<SignedVote>, round: nat, kind: VoteType): set<SignedVote> {
    set s | s in votes && s.vote.round == round && s.vote.kind == kind
  }

  ghost function SignersOf(pool: set<SignedVote>, round: nat, kind: VoteType, v: Option<Hash32>): set<Address> {
    set s | s in pool && s.vote.round == round && s.vote.kind == kind && s.vote.blockId == v :: s.vote.validator
  }

  /** A quorum of validators has signed for `v`: for a precommit, what a certificate shows. */
  ghost predicate QuorumSigned(cfg: Config, pool: set<SignedVote>, round: nat, kind: VoteType, v: Option<Hash32>) {
    cfg.vs.HasQuorum(cfg.vs.Power(SignersOf(pool, round, kind, v)))
  }

  lemma SignedStays(cfg: Config, pool: set<SignedVote>, more: set<SignedVote>, round: nat, kind: VoteType,
                    v: Option<Hash32>)
    requires pool <= more && QuorumSigned(cfg, pool, round, kind, v)
    ensures QuorumSigned(cfg, more, round, kind, v)
  {
    PowerOfMonotone(cfg.vs.validators, SignersOf(pool, round, kind, v), SignersOf(more, round, kind, v));
  }
}
