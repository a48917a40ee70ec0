/** Votes and vote accounting (crates/consensus/src/vote.rs). */
module Votes {
  import opened Base
  import opened Validators

  type ChainId = nat
  type Signature = nat

  datatype VoteType = Prevote | Precommit

  /** `blockId == None` is a vote for nil. */
  datatype Vote = Vote(chain: ChainId, height: nat, round: nat, kind: VoteType,
                       blockId: Option<Hash32>, validator: Address)

  datatype SignedVote = SignedVote(vote: Vote, signature: Signature)

  /** Whether a signature by a key over a vote is genuine. */
  type Verifier = (PublicKey, Vote, Signature) -> bool

  datatype Equivocation = Equivocation(validator: Address, first: SignedVote, second: SignedVote)

  datatype VoteError = WrongSet | WrongChain(chain: ChainId) | NotAValidator | InvalidSignature

  datatype VoteOutcome = Added | AlreadyHeld | Equivocated(evidence: Equivocation)

  // -- the order-free reading of a pile of votes ----------------------------

  /** Every value `who` signed for among `votes`. */
  ghost function ValuesOf(votes: set<SignedVote>, who: Address): set<Option<Hash32>> {
    set s | s in votes && s.vote.validator == who :: s.vote.blockId
  }

  ghost function Voters(votes: set<SignedVote>): set<Address> {
    set s | s in votes :: s.vote.validator
  }

  /** The validators all of whose votes name `v`, and who voted at all. */
  ghost function Backers(votes: set<SignedVote>, v: Option<Hash32>): set<Address> {
    set a | a in Voters(votes) && ValuesOf(votes, a) == {v}
  }

  /** The validators that voted, and for one value only. */
  ghost function Consistent(votes: set<SignedVote>): set<Address> {
    set a | a in Voters(votes) && |ValuesOf(votes, a)| == 1
  }

  /** The validators that signed for two values. */
  ghost function TwoFaced(votes: set<SignedVote>): set<Address> {
    set a | a in Voters(votes) && |ValuesOf(votes, a)| >= 2
  }

  /** The power behind `v`: that of its backers. */
  ghost function Tally(vs: ValidatorSet, votes: set<SignedVote>, v: Option<Hash32>): nat {
    vs.Power(Backers(votes, v))
  }

  /** Two values cannot both be backed by a quorum: no validator backs both. */
  lemma AtMostOneQuorum(vs: ValidatorSet, votes: set<SignedVote>, v: Option<Hash32>, w: Option<Hash32>)
    requires vs.Valid()
    requires vs.HasQuorum(Tally(vs, votes, v)) && vs.HasQuorum(Tally(vs, votes, w))
    ensures v == w
  {
    QuorumsIntersect(vs, Backers(votes, v), Backers(votes, w));
    PowerOfNone(vs.validators, {});
    if Backers(votes, v) * Backers(votes, w) != {} {
      var x :| x in Backers(votes, v) && x in Backers(votes, w);
      assert {v} == ValuesOf(votes, x) == {w};
      assert v in {w};
    }
  }

  // -- the effect of one more vote on that reading --------------------------

  lemma Voted(votes: set<SignedVote>, a: Address)
    ensures a in Voters(votes) <==> ValuesOf(votes, a) != {}
  {
    if a in Voters(votes) {
      var s :| s in votes && s.vote.validator == a;
      assert s.vote.blockId in ValuesOf(votes, a);
    }
    if ValuesOf(votes, a) != {} {
      var v :| v in ValuesOf(votes, a);
    }
  }

  /** One more vote changes what is said of its signer and of nobody else. */
  lemma OneMoreVote(votes: set<SignedVote>, s: SignedVote)
    ensures ValuesOf(votes + {s}, s.vote.validator) == ValuesOf(votes, s.vote.validator) + {s.vote.blockId}
    ensures s.vote.validator in Voters(votes + {s})
    ensures s.vote.validator in Voters(votes) <==> ValuesOf(votes, s.vote.validator) != {}
    ensures Consistent(votes + {s}) - {s.vote.validator} == Consistent(votes) - {s.vote.validator}
    ensures TwoFaced(votes + {s}) - {s.vote.validator} == TwoFaced(votes) - {s.vote.validator}
    ensures forall v :: Backers(votes + {s}, v) - {s.vote.validator} == Backers(votes, v) - {s.vote.validator}
  {
    Voted(votes, s.vote.validator);
    assert s in votes + {s};
    forall a | a != s.vote.validator
      ensures ValuesOf(votes + {s}, a) == ValuesOf(votes, a)
      ensures a in Voters(votes + {s}) <==> a in Voters(votes)
    {
      Voted(votes, a);
      Voted(votes + {s}, a);
    }
  }

  lemma SameButOne(x: set<Address>, y: set<Address>, w: Address)
    requires x - {w} == y - {w}
    ensures (w in x <==> w in y) ==> x == y
    ensures w in x && w !in y ==> x == y + {w}
    ensures w !in x && w in y ==> x == y - {w}
  {
    assert forall a :: a != w ==> (a in x <==> a in x - {w}) && (a in y <==> a in y - {w});
  }

  /** A first vote adds its signer behind the value it names. */
  lemma FirstVote(votes: set<SignedVote>, s: SignedVote)
    requires ValuesOf(votes, s.vote.validator) == {}
    ensures Consistent(votes + {s}) == Consistent(votes) + {s.vote.validator}
    ensures TwoFaced(votes + {s}) == TwoFaced(votes)
    ensures Backers(votes + {s}, s.vote.blockId) == Backers(votes, s.vote.blockId) + {s.vote.validator}
    ensures forall v :: v != s.vote.blockId ==> Backers(votes + {s}, v) == Backers(votes, v)
    ensures s.vote.validator !in Backers(votes, s.vote.blockId) && s.vote.validator !in Consistent(votes)
  {
    var w := s.vote.validator;
    OneMoreVote(votes, s);
    SameButOne(Consistent(votes + {s}), Consistent(votes), w);
    SameButOne(TwoFaced(votes + {s}), TwoFaced(votes), w);
    assert ValuesOf(votes + {s}, w) == {s.vote.blockId};
    forall v | v != s.vote.blockId ensures Backers(votes + {s}, v) == Backers(votes, v) {
      assert s.vote.blockId !in {v};
      assert Backers(votes + {s}, v) - {w} == Backers(votes, v) - {w};
    }
    assert Backers(votes + {s}, s.vote.blockId) - {w} == Backers(votes, s.vote.blockId) - {w};
  }

  /** A vote by someone already caught, or one that repeats the signer's only
      value, changes nothing. */
  lemma RedundantVote(votes: set<SignedVote>, s: SignedVote)
    requires |ValuesOf(votes, s.vote.validator)| >= 2 || ValuesOf(votes, s.vote.validator) == {s.vote.blockId}
    ensures Consistent(votes + {s}) == Consistent(votes)
    ensures TwoFaced(votes + {s}) == TwoFaced(votes)
    ensures forall v :: Backers(votes + {s}, v) == Backers(votes, v)
  {
    var w := s.vote.validator;
    OneMoreVote(votes, s);
    SameButOne(Consistent(votes + {s}), Consistent(votes), w);
    SameButOne(TwoFaced(votes + {s}), TwoFaced(votes), w);
    if ValuesOf(votes, w) == {s.vote.blockId} {
      assert ValuesOf(votes + {s}, w) == ValuesOf(votes, w);
      assert |ValuesOf(votes, w)| == 1;
    } else if s.vote.blockId in ValuesOf(votes, w) {
      assert ValuesOf(votes + {s}, w) == ValuesOf(votes, w);
    } else {
      assert |ValuesOf(votes + {s}, w)| == |ValuesOf(votes, w)| + 1;
    }
    forall v ensures Backers(votes + {s}, v) == Backers(votes, v) {
      assert Backers(votes + {s}, v) - {w} == Backers(votes, v) - {w};
      assert |{v}| == 1;
    }
  }

  /** A second, different value withdraws its signer from every side. */
  lemma ConflictingVote(votes: set<SignedVote>, s: SignedVote, u: Option<Hash32>)
    requires ValuesOf(votes, s.vote.validator) == {u} && u != s.vote.blockId
    ensures Consistent(votes + {s}) == Consistent(votes) - {s.vote.validator}
    ensures TwoFaced(votes + {s}) == TwoFaced(votes) + {s.vote.validator}
    ensures s.vote.validator !in TwoFaced(votes)
    ensures Backers(votes + {s}, u) == Backers(votes, u) - {s.vote.validator}
    ensures forall v :: v != u ==> Backers(votes + {s}, v) == Backers(votes, v)
    ensures s.vote.validator in Backers(votes, u) && s.vote.validator in Consistent(votes)
  {
    var w := s.vote.validator;
    OneMoreVote(votes, s);
    SameButOne(Consistent(votes + {s}), Consistent(votes), w);
    SameButOne(TwoFaced(votes + {s}), TwoFaced(votes), w);
    assert |ValuesOf(votes + {s}, w)| == 2;
    assert |ValuesOf(votes, w)| == 1;
    forall v | v != u ensures Backers(votes + {s}, v) == Backers(votes, v) {
      assert Backers(votes + {s}, v) - {w} == Backers(votes, v) - {w};
      assert |{v}| == 1;
      assert u !in {v};
    }
    assert Backers(votes + {s}, u) - {w} == Backers(votes, u) - {w};
    assert |{u}| == 1;
  }

  lemma OnlyValue<T>(values: set<T>, v: T)
    requires |values| == 1 && v in values
    ensures values == {v}
  {
    assert |values - {v}| == 0;
  }

  lemma PowerWithOne(vs: ValidatorSet, who: set<Address>, a: Address)
    requires vs.Valid() && vs.Get(a).Some?
    ensures a !in who ==> vs.Power(who + {a}) == vs.Power(who) + vs.Get(a).value.power
    ensures a in who ==> vs.Power(who - {a}) + vs.Get(a).value.power == vs.Power(who)
    ensures vs.Power(who) <= U64_MAX && vs.Power(who + {a}) <= U64_MAX
  {
    var v := vs.Get(a).value;
    assert vs.totalPower <= U64_MAX;
    AscendingMeansDistinct(vs.validators);
    PowerOfOne(vs.validators, v);
    PowerOfNone(vs.validators, {});
    PowerOfUnion(vs.validators, who, {a});
    PowerOfUnion(vs.validators, who - {a}, {a});
    PowerOfUpTo(vs.validators, who);
    PowerOfUpTo(vs.validators, who + {a});
    if a in who {
      assert who - {a} + {a} == who && (who - {a}) * {a} == {};
    } else {
      assert who * {a} == {};
    }
  }

  function PowerAt(m: map<Option<Hash32>, U64>, v: Option<Hash32>): U64 {
    if v in m then m[v] else 0
  }

  /** The votes of `vals`, in canonical order, that are held for `v`. */
  function HeldFor(vals: seq<Validator>, votes: map<Address, SignedVote>, v: Option<Hash32>): seq<SignedVote> {
    if vals == [] then []
    else
      var rest := HeldFor(vals[1..], votes, v);
      var a := vals[0].address;
      if a in votes && votes[a].vote.blockId == v then [votes[a]] + rest else rest
  }

  /** The books kept by a vote set, as a value. */
  datatype Books = Books(votes: map<Address, SignedVote>, equivocators: map<Address, Equivocation>,
                         powerByValue: map<Option<Hash32>, U64>, totalVoted: U64)

  /** The evidence is two of the votes, both by `a`, that name different values. */
  ghost predicate Proves(votes: set<SignedVote>, e: Equivocation, a: Address) {
    && e.validator == a && e.first in votes && e.second in votes
    && e.first.vote.validator == a && e.second.vote.validator == a
    && e.first.vote.blockId != e.second.vote.blockId
  }

  /** The books agree with the order-free reading of the votes accepted. */
  ghost predicate Agree(vs: ValidatorSet, b: Books, accepted: set<SignedVote>) {
    && b.votes.Keys == Consistent(accepted)
    && b.equivocators.Keys == TwoFaced(accepted)
    && (forall a :: a in b.votes ==> b.votes[a] in accepted && b.votes[a].vote.validator == a)
    && (forall a :: a in b.equivocators ==> Proves(accepted, b.equivocators[a], a))
    && b.totalVoted == vs.Power(Consistent(accepted))
    && (forall v :: PowerAt(b.powerByValue, v) == Tally(vs, accepted, v))
  }

  lemma AgreeAtStart(vs: ValidatorSet)
    requires vs.Valid()
    ensures Agree(vs, Books(map[], map[], map[], 0), {})
  {
    PowerOfNone(vs.validators, {});
    assert Consistent({}) == {} && TwoFaced({}) == {};
    forall v ensures Tally(vs, {}, v) == 0 {
      assert Backers({}, v) == {};
    }
  }

  lemma AgreeAfterRedundant(vs: ValidatorSet, b: Books, accepted: set<SignedVote>, s: SignedVote)
    requires vs.Valid() && Agree(vs, b, accepted)
    requires |ValuesOf(accepted, s.vote.validator)| >= 2 || ValuesOf(accepted, s.vote.validator) == {s.vote.blockId}
    ensures Agree(vs, b, accepted + {s})
  {
    RedundantVote(accepted, s);
    forall v ensures PowerAt(b.powerByValue, v) == Tally(vs, accepted + {s}, v) {
      assert PowerAt(b.powerByValue, v) == Tally(vs, accepted, v);
    }
  }

  function CountFirst(b: Books, s: SignedVote, power: U64): Books {
    Books(b.votes[s.vote.validator := s], b.equivocators,
          b.powerByValue[s.vote.blockId := SaturatingAdd64(PowerAt(b.powerByValue, s.vote.blockId), power)],
          SaturatingAdd64(b.totalVoted, power))
  }

  lemma AgreeAfterFirst(vs: ValidatorSet, b: Books, accepted: set<SignedVote>, s: SignedVote)
    requires vs.Valid() && Agree(vs, b, accepted) && vs.Get(s.vote.validator).Some?
    requires ValuesOf(accepted, s.vote.validator) == {}
    ensures Agree(vs, CountFirst(b, s, vs.Get(s.vote.validator).value.power), accepted + {s})
  {
    var w, power := s.vote.validator, vs.Get(s.vote.validator).value.power;
    var b' := CountFirst(b, s, power);
    FirstVote(accepted, s);
    PowerWithOne(vs, Consistent(accepted), w);
    PowerWithOne(vs, Backers(accepted, s.vote.blockId), w);
    forall v ensures PowerAt(b'.powerByValue, v) == Tally(vs, accepted + {s}, v) {
      assert PowerAt(b.powerByValue, v) == Tally(vs, accepted, v);
    }
  }

  function WithdrawConflicting(b: Books, s: SignedVote, power: U64): Books
    requires s.vote.validator in b.votes
  {
    var existing := b.votes[s.vote.validator];
    var previous := existing.vote.blockId;
    Books(b.votes - {s.vote.validator},
          b.equivocators[s.vote.validator := Equivocation(s.vote.validator, existing, s)],
          if previous in b.powerByValue
          then b.powerByValue[previous := SaturatingSub64(b.powerByValue[previous], power)]
          else b.powerByValue,
          SaturatingSub64(b.totalVoted, power))
  }

  lemma TalliesAfterConflict(vs: ValidatorSet, b: Books, accepted: set<SignedVote>, s: SignedVote, u: Option<Hash32>)
    requires vs.Valid() && vs.Get(s.vote.validator).Some? && s.vote.validator in b.votes
    requires u == b.votes[s.vote.validator].vote.blockId != s.vote.blockId
      && ValuesOf(accepted, s.vote.validator) == {u}
    requires forall v :: PowerAt(b.powerByValue, v) == Tally(vs, accepted, v)
    ensures var b' := WithdrawConflicting(b, s, vs.Get(s.vote.validator).value.power);
      forall v :: PowerAt(b'.powerByValue, v) == Tally(vs, accepted + {s}, v)
  {
    var b' := WithdrawConflicting(b, s, vs.Get(s.vote.validator).value.power);
    ConflictingVote(accepted, s, u);
    PowerWithOne(vs, Backers(accepted, u), s.vote.validator);
    forall v ensures PowerAt(b'.powerByValue, v) == Tally(vs, accepted + {s}, v) {
      assert PowerAt(b.powerByValue, v) == Tally(vs, accepted, v);
    }
  }

  lemma AgreeAfterConflict(vs: ValidatorSet, b: Books, accepted: set<SignedVote>, s: SignedVote)
    requires vs.Valid() && Agree(vs, b, accepted) && vs.Get(s.vote.validator).Some?
    requires s.vote.validator in b.votes && b.votes[s.vote.validator].vote.blockId != s.vote.blockId
    ensures Agree(vs, WithdrawConflicting(b, s, vs.Get(s.vote.validator).value.power), accepted + {s})
    ensures s.vote.validator in TwoFaced(accepted + {s}) - TwoFaced(accepted)
  {
    var w := s.vote.validator;
    var previous := b.votes[w].vote.blockId;
    assert previous in ValuesOf(accepted, w);
    OnlyValue(ValuesOf(accepted, w), previous);
    ConflictingVote(accepted, s, previous);
    PowerWithOne(vs, Consistent(accepted), w);
    TalliesAfterConflict(vs, b, accepted, s, previous);
  }

  /** What the books become, and what is answered, when a vote is counted. */
  function Counted(b: Books, s: SignedVote, power: U64): (Books, VoteOutcome) {
    var a := s.vote.validator;
    if a in b.equivocators then (b, AlreadyHeld)
    else if a !in b.votes then (CountFirst(b, s, power), Added)
    else if b.votes[a].vote.blockId == s.vote.blockId then (b, AlreadyHeld)
    else (WithdrawConflicting(b, s, power), Equivocated(Equivocation(a, b.votes[a], s)))
  }

  /** The answer says what the vote was among those accepted before it. */
  ghost predicate Answers(accepted: set<SignedVote>, s: SignedVote, outcome: VoteOutcome) {
    && (outcome == Added <==> ValuesOf(accepted, s.vote.validator) == {})
    && (outcome.Equivocated? <==> s.vote.validator in TwoFaced(accepted + {s}) - TwoFaced(accepted))
    && (outcome.Equivocated? ==> Proves(accepted + {s}, outcome.evidence, s.vote.validator))
  }

  /** Counting keeps the books in agreement and answers truly. */
  lemma CountingAgrees(vs: ValidatorSet, b: Books, accepted: set<SignedVote>, s: SignedVote)
    requires vs.Valid() && Agree(vs, b, accepted) && vs.Get(s.vote.validator).Some?
    ensures var (after, outcome) := Counted(b, s, vs.Get(s.vote.validator).value.power);
      Agree(vs, after, accepted + {s}) && Answers(accepted, s, outcome)
  {
    var a := s.vote.validator;
    Voted(accepted, a);
    if a in b.equivocators {
      RedundantAgrees(vs, b, accepted, s);
    } else if a !in b.votes {
      assert |ValuesOf(accepted, a)| == 0;
      FirstVote(accepted, s);
      AgreeAfterFirst(vs, b, accepted, s);
    } else if b.votes[a].vote.blockId == s.vote.blockId {
      assert s.vote.blockId in ValuesOf(accepted, a);
      OnlyValue(ValuesOf(accepted, a), s.vote.blockId);
      RedundantAgrees(vs, b, accepted, s);
    } else {
      assert b.votes[a].vote.blockId in ValuesOf(accepted, a);
      AgreeAfterConflict(vs, b, accepted, s);
    }
  }

  lemma RedundantAgrees(vs: ValidatorSet, b: Books, accepted: set<SignedVote>, s: SignedVote)
    requires vs.Valid() && Agree(vs, b, accepted)
    requires |ValuesOf(accepted, s.vote.validator)| >= 2 || ValuesOf(accepted, s.vote.validator) == {s.vote.blockId}
    ensures Agree(vs, b, accepted + {s}) && Answers(accepted, s, AlreadyHeld)
  {
    AgreeAfterRedundant(vs, b, accepted, s);
    RedundantVote(accepted, s);
    assert s.vote.blockId in {s.vote.blockId};
  }

  /** Votes for one height, round and phase. */
  class VoteSet {
    const chain: ChainId
    const height: nat
    const round: nat
    const kind: VoteType
    var votes: map<Address, SignedVote>
    var equivocators: map<Address, Equivocation>
    var powerByValue: map<Option<Hash32>, U64>
    var totalVoted: U64
    /** Every vote accepted so far, in no order. */
    ghost var accepted: set<SignedVote>

    constructor (chain: ChainId, height: nat, round: nat, kind: VoteType)
      ensures this.chain == chain && this.height == height && this.round == round && this.kind == kind
      ensures accepted == {}
      ensures forall vs: ValidatorSet, genuine: Verifier | vs.Valid() :: Valid(vs, genuine)
    {
      this.chain, this.height, this.round, this.kind := chain, height, round, kind;
      votes, equivocators, powerByValue, totalVoted := map[], map[], map[], 0;
      accepted := {};
      new;
      forall vs: ValidatorSet, genuine: Verifier | vs.Valid() ensures Valid(vs, genuine) {
        AgreeAtStart(vs);
      }
    }

    predicate Belongs(v: Vote) {
      v.height == height && v.round == round && v.kind == kind
    }

    /** Whether `add` accepts the vote at all. */
    ghost predicate Admissible(vs: ValidatorSet, genuine: Verifier, s: SignedVote)
      requires vs.Valid()
    {
      && Belongs(s.vote) && s.vote.chain == chain
      && vs.Get(s.vote.validator).Some?
      && genuine(vs.Get(s.vote.validator).value.key, s.vote, s.signature)
    }

    function View(): Books
      reads this
    {
      Books(votes, equivocators, powerByValue, totalVoted)
    }

    /** The set agrees with the order-free reading of the votes accepted. */
    ghost predicate Valid(vs: ValidatorSet, genuine: Verifier)
      reads this
      requires vs.Valid()
    {
      && (forall s :: s in accepted ==> Admissible(vs, genuine, s))
      && Agree(vs, View(), accepted)
    }

    /** Counts a vote once, withdraws a validator that names a second value, and
        refuses anything that does not belong, is not a member's, or is forged. */
    method Add(vs: ValidatorSet, genuine: Verifier, s: SignedVote)
      returns (r: Result<VoteOutcome, VoteError>)
      requires vs.Valid() && Valid(vs, genuine)
      modifies this
      ensures Valid(vs, genuine)
      ensures r.Ok? <==> Admissible(vs, genuine, s)
      ensures accepted == old(accepted) + (if r.Ok? then {s} else {})
      ensures r.Err? ==> unchanged(this)
      ensures r == Err(WrongSet) <==> !Belongs(s.vote)
      ensures r.Err? && r.error.WrongChain? <==> Belongs(s.vote) && s.vote.chain != chain
      ensures r == Err(NotAValidator) <==>
              Belongs(s.vote) && s.vote.chain == chain && s.vote.validator !in Members(vs.validators)
      ensures r == Ok(Added) <==> Admissible(vs, genuine, s) && ValuesOf(old(accepted), s.vote.validator) == {}
      ensures r.Ok? && r.value.Equivocated? <==>
              Admissible(vs, genuine, s) && s.vote.validator in TwoFaced(accepted) - TwoFaced(old(accepted))
      ensures r.Ok? && r.value.Equivocated? ==> Proves(accepted, r.value.evidence, s.vote.validator)
    {
      var vote := s.vote;
      if !Belongs(vote) { return Err(WrongSet); }
      if vote.chain != chain { return Err(WrongChain(vote.chain)); }
      var found := vs.Get(vote.validator);
      if found.None? { return Err(NotAValidator); }
      var validator := found.value;
      if !genuine(validator.key, vote, s.signature) { return Err(InvalidSignature); }

      CountingAgrees(vs, View(), accepted, s);
      var outcome := Record(s, validator.power);
      accepted := accepted + {s};
      return Ok(outcome);
    }

    method Record(s: SignedVote, power: U64) returns (outcome: VoteOutcome)
      modifies this
      ensures (View(), outcome) == Counted(old(View()), s, power) && accepted == old(accepted)
    {
      if s.vote.validator in equivocators {
        return AlreadyHeld;
      }
      if s.vote.validator in votes {
        if votes[s.vote.validator].vote.blockId == s.vote.blockId {
          return AlreadyHeld;
        }
        var evidence := Withdraw(s, power);
        return Equivocated(evidence);
      }
      Count(s, power);
      return Added;
    }

    /** A first vote goes into the books. */
    method Count(s: SignedVote, power: U64)
      modifies this
      ensures View() == CountFirst(old(View()), s, power) && accepted == old(accepted)
    {
      votes := votes[s.vote.validator := s];
      powerByValue := powerByValue[s.vote.blockId := SaturatingAdd64(PowerAt(powerByValue, s.vote.blockId), power)];
      totalVoted := SaturatingAdd64(totalVoted, power);
    }

    /** A second, different vote takes the first out of them. */
    method Withdraw(s: SignedVote, power: U64) returns (evidence: Equivocation)
      requires s.vote.validator in votes
      modifies this
      ensures View() == WithdrawConflicting(old(View()), s, power) && accepted == old(accepted)
      ensures evidence == Equivocation(s.vote.validator, old(votes)[s.vote.validator], s)
    {
      var existing := votes[s.vote.validator];
      evidence := Equivocation(s.vote.validator, existing, s);
      var previous := existing.vote.blockId;
      if previous in powerByValue {
        powerByValue := powerByValue[previous := SaturatingSub64(powerByValue[previous], power)];
      }
      totalVoted := SaturatingSub64(totalVoted, power);
      votes := votes - {s.vote.validator};
      equivocators := equivocators[s.vote.validator := evidence];
    }

    function PowerFor(v: Option<Hash32>): U64
      reads this
    {
      PowerAt(powerByValue, v)
    }

    /** The value a quorum stands behind: sound, complete and unique. */
    method QuorumValue(vs: ValidatorSet, ghost genuine: Verifier) returns (r: Option<Option<Hash32>>)
      requires vs.Valid() && Valid(vs, genuine)
      ensures forall v :: r == Some(v) <==> vs.HasQuorum(Tally(vs, accepted, v))
    {
      var rest := powerByValue.Keys;
      QuorumSplitsTotal(vs);
      while rest != {}
        invariant rest <= powerByValue.Keys
        invariant forall v :: v in powerByValue && v !in rest ==> !vs.HasQuorum(powerByValue[v])
        decreases |rest|
      {
        var v :| v in rest;
        if vs.HasQuorum(powerByValue[v]) {
          assert PowerAt(powerByValue, v) == Tally(vs, accepted, v);
          forall w | vs.HasQuorum(Tally(vs, accepted, w)) ensures v == w {
            AtMostOneQuorum(vs, accepted, v, w);
          }
          return Some(v);
        }
        rest := rest - {v};
      }
      forall v ensures !vs.HasQuorum(Tally(vs, accepted, v)) {
        assert PowerAt(powerByValue, v) == Tally(vs, accepted, v);
      }
      return None;
    }

    /** Whether the voters, whatever they voted for, amount to a quorum. */
    predicate HasQuorumAny(vs: ValidatorSet)
      reads this
    {
      vs.HasQuorum(totalVoted)
    }
  }

  /** Two vote sets that accepted the same votes hold the same tallies, accuse the
      same validators and report the same quorum, whatever the order and however
      often each vote arrived. */
  lemma OrderDoesNotMatter(a: VoteSet, b: VoteSet, vs: ValidatorSet, genuine: Verifier)
    requires vs.Valid() && a.Valid(vs, genuine) && b.Valid(vs, genuine)
    requires a.accepted == b.accepted
    ensures forall v :: a.PowerFor(v) == b.PowerFor(v)
    ensures a.equivocators.Keys == b.equivocators.Keys && a.votes.Keys == b.votes.Keys
    ensures a.totalVoted == b.totalVoted && (a.HasQuorumAny(vs) <==> b.HasQuorumAny(vs))
  {
    forall v ensures a.PowerFor(v) == b.PowerFor(v) {
      assert PowerAt(a.powerByValue, v) == Tally(vs, a.accepted, v);
      assert PowerAt(b.powerByValue, v) == Tally(vs, b.accepted, v);
    }
  }

  /** The tally of the voters that name one value each is split between those
      values: no power is counted twice, and a quorum for one value is a quorum of
      voters. */
  lemma QuorumOfOneIsQuorumOfAny(vs: ValidatorSet, votes: set<SignedVote>, v: Option<Hash32>)
    requires vs.Valid() && vs.HasQuorum(Tally(vs, votes, v))
    ensures vs.HasQuorum(vs.Power(Consistent(votes)))
  {
    forall a | a in Backers(votes, v) ensures a in Consistent(votes) {
      assert |{v}| == 1;
    }
    PowerOfMonotone(vs.validators, Backers(votes, v), Consistent(votes));
  }
}
