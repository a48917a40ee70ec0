/** Commit certificates (crates/consensus/src/commit.rs). */
module Commits {
  import opened Base
  import opened Validators
  import opened Votes

  datatype Commit = Commit(height: nat, round: nat, blockId: Hash32, signatures: seq<SignedVote>)

  datatype CommitError =
    | Empty | MismatchedVote | DuplicateSigner | UnknownSigner | InvalidSignature
    | InsufficientPower(got: nat, needed: nat)

  function Signers(sigs: seq<SignedVote>): set<Address> {
    set s | s in sigs :: s.vote.validator
  }

  predicate Matches(c: Commit, chain: ChainId, v: Vote) {
    v.height == c.height && v.round == c.round && v.kind == Precommit
    && v.blockId == Some(c.blockId) && v.chain == chain
  }

  /** `s` is a member's genuine precommit for the certificate's block. */
  ghost predicate Backs(c: Commit, chain: ChainId, vs: ValidatorSet, genuine: Verifier, s: SignedVote)
    requires vs.Valid()
  {
    && Matches(c, chain, s.vote)
    && vs.Get(s.vote.validator).Some?
    && genuine(vs.Get(s.vote.validator).value.key, s.vote, s.signature)
  }

  ghost predicate NoRepeatedSigner(sigs: seq<SignedVote>) {
    forall i, j :: 0 <= i < j < |sigs| ==> sigs[i].vote.validator != sigs[j].vote.validator
  }

  /** What a certificate has to be: genuine precommits of distinct members that
      together hold a quorum. */
  ghost predicate Certifies(c: Commit, chain: ChainId, vs: ValidatorSet, genuine: Verifier)
    requires vs.Valid()
  {
    && |c.signatures| > 0
    && (forall i :: 0 <= i < |c.signatures| ==> Backs(c, chain, vs, genuine, c.signatures[i]))
    && NoRepeatedSigner(c.signatures)
    && vs.HasQuorum(vs.Power(Signers(c.signatures)))
  }

  /** The first `n` signatures are sound, and `seen` is who made them. */
  ghost predicate SoundPrefix(c: Commit, chain: ChainId, vs: ValidatorSet, genuine: Verifier, n: nat,
                              seen: set<Address>)
    requires vs.Valid() && n <= |c.signatures|
  {
    && (forall i :: 0 <= i < n ==> Backs(c, chain, vs, genuine, c.signatures[i]))
    && NoRepeatedSigner(c.signatures[..n])
    && seen == Signers(c.signatures[..n])
  }

  lemma SoundStep(c: Commit, chain: ChainId, vs: ValidatorSet, genuine: Verifier, n: nat, seen: set<Address>)
    requires vs.Valid() && n < |c.signatures|
    requires SoundPrefix(c, chain, vs, genuine, n, seen)
    requires Backs(c, chain, vs, genuine, c.signatures[n]) && c.signatures[n].vote.validator !in seen
    ensures SoundPrefix(c, chain, vs, genuine, n + 1, seen + {c.signatures[n].vote.validator})
  {
    var before, after := c.signatures[..n], c.signatures[..n + 1];
    assert after == before + [c.signatures[n]];
    forall i, j | 0 <= i < j < |after| ensures after[i].vote.validator != after[j].vote.validator {
      if j == n {
        assert before[i] in before;
      } else {
        assert before[i].vote.validator != before[j].vote.validator;
      }
    }
  }

  lemma RepeatedSigner(sigs: seq<SignedVote>, n: nat)
    requires n < |sigs| && sigs[n].vote.validator in Signers(sigs[..n])
    ensures !NoRepeatedSigner(sigs)
  {
    var s :| s in sigs[..n] && s.vote.validator == sigs[n].vote.validator;
    var i :| 0 <= i < n && sigs[..n][i] == s;
    assert sigs[i].vote.validator == sigs[n].vote.validator;
  }

  /** Why a certificate that is not one was refused. */
  ghost predicate Refused(e: CommitError, c: Commit, chain: ChainId, vs: ValidatorSet, genuine: Verifier)
    requires vs.Valid()
  {
    match e
    case Empty => c.signatures == []
    case MismatchedVote => exists i :: 0 <= i < |c.signatures| && !Matches(c, chain, c.signatures[i].vote)
    case DuplicateSigner => !NoRepeatedSigner(c.signatures)
    case UnknownSigner => exists i :: 0 <= i < |c.signatures| && vs.Get(c.signatures[i].vote.validator).None?
    case InvalidSignature =>
      exists i :: && 0 <= i < |c.signatures|
                  && vs.Get(c.signatures[i].vote.validator).Some?
                  && !Backs(c, chain, vs, genuine, c.signatures[i])
    case InsufficientPower(got, needed) =>
      got == vs.Power(Signers(c.signatures)) < needed == vs.QuorumThreshold()
  }

  /** Accepts exactly the certificates: nothing forged, repeated, foreign or short
      of a quorum gets through, and nothing sound is refused. */
  method Verify(c: Commit, chain: ChainId, vs: ValidatorSet, genuine: Verifier)
    returns (r: Result<(), CommitError>)
    requires vs.Valid()
    ensures r.Ok? <==> Certifies(c, chain, vs, genuine)
    ensures r.Err? ==> Refused(r.error, c, chain, vs, genuine)
  {
    var sigs := c.signatures;
    if |sigs| == 0 { return Err(CommitError.Empty); }
    var seen: set<Address>, power: U64 := {}, 0;
    PowerOfNone(vs.validators, {});
    assert sigs[..0] == [];
    for n := 0 to |sigs|
      invariant SoundPrefix(c, chain, vs, genuine, n, seen)
      invariant power == vs.Power(seen)
    {
      var vote := sigs[n].vote;
      if !Matches(c, chain, vote) { return Err(MismatchedVote); }
      if vote.validator in seen {
        RepeatedSigner(sigs, n);
        return Err(DuplicateSigner);
      }
      var found := vs.Get(vote.validator);
      if found.None? { return Err(UnknownSigner); }
      if !genuine(found.value.key, vote, sigs[n].signature) {
        assert !Backs(c, chain, vs, genuine, sigs[n]);
        return Err(CommitError.InvalidSignature);
      }
      SoundStep(c, chain, vs, genuine, n, seen);
      PowerWithOne(vs, seen, vote.validator);
      seen := seen + {vote.validator};
      power := SaturatingAdd64(power, found.value.power);
    }
    assert sigs[..|sigs|] == sigs;
    if !vs.HasQuorum(power) {
      return Err(InsufficientPower(power, vs.QuorumThreshold()));
    }
    return Ok(());
  }

  // -- a certificate assembled from a vote set ------------------------------

  lemma {:induction false} HeldForFacts(vals: seq<Validator>, votes: map<Address, SignedVote>, v: Option<Hash32>)
    requires Distinct(vals)
    requires forall a :: a in votes ==> votes[a].vote.validator == a
    ensures forall s :: s in HeldFor(vals, votes, v) <==>
              s.vote.validator in votes && s.vote.validator in Members(vals)
              && votes[s.vote.validator] == s && s.vote.blockId == v
    ensures NoRepeatedSigner(HeldFor(vals, votes, v))
  {
    if vals != [] {
      var a := vals[0].address;
      HeldForFacts(vals[1..], votes, v);
      assert vals == [vals[0]] + vals[1..];
      assert Members(vals) == {a} + Members(vals[1..]) by {
        assert vals[0] in vals;
      }
      assert a !in Members(vals[1..]);
      var rest := HeldFor(vals[1..], votes, v);
      forall i | 0 <= i < |rest| ensures rest[i].vote.validator != a {
        assert rest[i] in rest;
      }
    }
  }

  /** A backer's vote is in the books, under the value it backs. */
  lemma BackerIsHeld(set_: VoteSet, vs: ValidatorSet, genuine: Verifier, v: Option<Hash32>, a: Address)
    requires vs.Valid() && set_.Valid(vs, genuine) && a in Backers(set_.accepted, v)
    ensures a in set_.votes && set_.votes[a].vote.blockId == v
  {
    assert |{v}| == 1;
    assert a in set_.votes;
    assert set_.votes[a].vote.blockId in ValuesOf(set_.accepted, a);
  }

  /** The precommits that carried a block over the quorum line are a certificate
      that verifies. */
  lemma AssembledCommitVerifies(set_: VoteSet, vs: ValidatorSet, genuine: Verifier, block: Hash32)
    requires vs.Valid() && set_.Valid(vs, genuine)
    requires set_.kind == Precommit
    requires vs.HasQuorum(Tally(vs, set_.accepted, Some(block)))
    ensures Certifies(Commit(set_.height, set_.round, block, HeldFor(vs.validators, set_.votes, Some(block))),
                      set_.chain, vs, genuine)
  {
    var held := HeldFor(vs.validators, set_.votes, Some(block));
    var c := Commit(set_.height, set_.round, block, held);
    AscendingMeansDistinct(vs.validators);
    HeldForFacts(vs.validators, set_.votes, Some(block));
    forall i | 0 <= i < |held| ensures Backs(c, set_.chain, vs, genuine, held[i]) {
      assert held[i] in held;
      assert set_.Admissible(vs, genuine, held[i]);
    }
    forall a | a in Members(vs.validators) && a in Backers(set_.accepted, Some(block)) ensures a in Signers(held) {
      BackerIsHeld(set_, vs, genuine, Some(block), a);
      assert set_.votes[a] in held;
    }
    PowerOfMonotone(vs.validators, Backers(set_.accepted, Some(block)), Signers(held));
    QuorumSplitsTotal(vs);
    if held == [] {
      PowerOfNone(vs.validators, Signers(held));
    }
  }

  /** Signatures certify one thing: they make a certificate for no other chain, height, round or block. */
  lemma SignaturesCertifyOneBlock(c: Commit, chain: ChainId, d: Commit, other: ChainId, vs: ValidatorSet,
                                  genuine: Verifier)
    requires vs.Valid() && Certifies(c, chain, vs, genuine) && Certifies(d, other, vs, genuine)
    requires c.signatures == d.signatures
    ensures c == d && chain == other
  {
    assert Backs(c, chain, vs, genuine, c.signatures[0]) && Backs(d, other, vs, genuine, c.signatures[0]);
  }

  /** One more signature leaves a certificate a certificate exactly when it is a
      genuine precommit for the same block from a member who has not signed yet. */
  lemma ExtendsExactlyWhen(c: Commit, s: SignedVote, chain: ChainId, vs: ValidatorSet, genuine: Verifier)
    requires vs.Valid() && Certifies(c, chain, vs, genuine)
    ensures Certifies(c.(signatures := c.signatures + [s]), chain, vs, genuine)
      <==> Backs(c, chain, vs, genuine, s) && s.vote.validator !in Signers(c.signatures)
  {
    var n := |c.signatures|;
    var d := c.(signatures := c.signatures + [s]);
    assert d.signatures[..n] == c.signatures && d.signatures[n] == s && d.signatures[..n + 1] == d.signatures;
    if s.vote.validator in Signers(c.signatures) {
      RepeatedSigner(d.signatures, n);
    } else if Backs(c, chain, vs, genuine, s) {
      forall i | 0 <= i < n ensures Backs(d, chain, vs, genuine, d.signatures[i]) {
        assert Backs(c, chain, vs, genuine, c.signatures[i]);
      }
      SoundStep(d, chain, vs, genuine, n, Signers(c.signatures));
      PowerOfMonotone(vs.validators, Signers(c.signatures), Signers(d.signatures));
    }
  }

  /** `a` put a genuine signature on two different votes for one height, round and phase. */
  ghost predicate SignedBoth(c: Commit, d: Commit, vs: ValidatorSet, genuine: Verifier, a: Address)
    requires vs.Valid()
  {
    exists s, t ::
      && s in c.signatures && t in d.signatures
      && s.vote.validator == a == t.vote.validator
      && s.vote.height == t.vote.height && s.vote.round == t.vote.round
      && s.vote.kind == t.vote.kind && s.vote.blockId != t.vote.blockId
      && vs.Get(a).Some?
      && genuine(vs.Get(a).value.key, s.vote, s.signature)
      && genuine(vs.Get(a).value.key, t.vote, t.signature)
  }

  lemma SharedSignerSignedBoth(c: Commit, d: Commit, chain: ChainId, vs: ValidatorSet, genuine: Verifier, a: Address)
    requires vs.Valid() && Certifies(c, chain, vs, genuine) && Certifies(d, chain, vs, genuine)
    requires c.height == d.height && c.round == d.round && c.blockId != d.blockId
    requires a in Signers(c.signatures) && a in Signers(d.signatures)
    ensures SignedBoth(c, d, vs, genuine, a)
  {
    var s :| s in c.signatures && s.vote.validator == a;
    var t :| t in d.signatures && t.vote.validator == a;
    assert Backs(c, chain, vs, genuine, s) && Backs(d, chain, vs, genuine, t);
  }

  /** Two certificates for different blocks at one height and round convict more
      power than a Byzantine coalition may hold: each shared signer put a genuine
      signature on both. */
  lemma ConflictingCommitsConvict(c: Commit, d: Commit, chain: ChainId, vs: ValidatorSet, genuine: Verifier)
    returns (guilty: set<Address>)
    requires vs.Valid() && Certifies(c, chain, vs, genuine) && Certifies(d, chain, vs, genuine)
    requires c.height == d.height && c.round == d.round && c.blockId != d.blockId
    ensures vs.Power(guilty) > vs.MaxByzantinePower()
    ensures forall a :: a in guilty ==> SignedBoth(c, d, vs, genuine, a)
  {
    guilty := Signers(c.signatures) * Signers(d.signatures);
    QuorumsIntersect(vs, Signers(c.signatures), Signers(d.signatures));
    forall a | a in guilty ensures SignedBoth(c, d, vs, genuine, a) {
      SharedSignerSignedBoth(c, d, chain, vs, genuine, a);
    }
  }
}
