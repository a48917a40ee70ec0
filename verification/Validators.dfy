/** Validator sets and the quorum rule (crates/consensus/src/validator.rs). */
module Validators {
  import opened Base

  type PublicKey = nat
  type Country = nat

  datatype Validator = Validator(address: Address, key: PublicKey, power: U64, country: Country)

  datatype ValidatorError = Empty | Duplicate | ZeroPower | PowerOverflow

  function Addresses(vals: seq<Validator>): (r: seq<Address>)
    ensures |r| == |vals| && forall i :: 0 <= i < |vals| ==> r[i] == vals[i].address
  {
    seq(|vals|, i requires 0 <= i < |vals| => vals[i].address)
  }

  function Members(vals: seq<Validator>): set<Address> {
    set v | v in vals :: v.address
  }

  /** The combined power of the validators of `vals` whose address is in `who`. */
  function PowerOf(vals: seq<Validator>, who: set<Address>): nat {
    if vals == [] then 0
    else (if vals[0].address in who then vals[0].power else 0) + PowerOf(vals[1..], who)
  }

  function TotalPower(vals: seq<Validator>): nat {
    if vals == [] then 0 else vals[0].power + TotalPower(vals[1..])
  }

  /** A set as `ValidatorSet::new` leaves it: ordered by address with no repeats,
      every member with power, and a total that fits a u64. */
  datatype ValidatorSet = ValidatorSet(validators: seq<Validator>, totalPower: nat) {

    ghost predicate Valid() {
      && |validators| > 0
      && StrictlyAscending(Addresses(validators))
      && (forall v :: v in validators ==> v.power > 0)
      && totalPower == TotalPower(validators) <= U64_MAX
    }

    /** `floor(2 * total / 3) + 1`, in u128 and then narrowed. */
    function QuorumThreshold(): nat {
      var threshold := totalPower * 2 / 3 + 1;
      if threshold <= U64_MAX then threshold else U64_MAX
    }

    predicate HasQuorum(power: nat) {
      power >= QuorumThreshold()
    }

    /** `(total - 1) / 3`, with the subtraction saturating at zero. */
    function MaxByzantinePower(): nat {
      (if totalPower == 0 then 0 else totalPower - 1) / 3
    }

    function Get(address: Address): (r: Option<Validator>)
      requires StrictlyAscending(Addresses(validators))
      ensures r.Some? ==> r.value in validators && r.value.address == address
      ensures r.None? ==> address !in Members(validators)
    {
      match Search(Addresses(validators), address)
      case Found(at) => Some(validators[at])
      case Missing(at) =>
        assert forall v | v in validators :: v.address != address by {
          forall v | v in validators ensures v.address != address {
            var i :| 0 <= i < |validators| && validators[i] == v;
            assert Addresses(validators)[i] == v.address;
          }
        }
        None
    }

    ghost function Power(who: set<Address>): nat {
      PowerOf(validators, who)
    }
  }

  function ByAddress(v: Validator): int { v.address }

  predicate HasAdjacentRepeat(sorted: seq<Validator>) {
    exists i :: 0 <= i < |sorted| - 1 && sorted[i].address == sorted[i + 1].address
  }

  ghost predicate Distinct(s: seq<Validator>) {
    forall i, j :: 0 <= i < j < |s| ==> s[i].address != s[j].address
  }

  /** What `ValidatorSet::new` accepts, without reference to any order. */
  ghost predicate Acceptable(input: seq<Validator>) {
    && |input| > 0
    && (forall v :: v in input ==> v.power > 0)
    && Distinct(input)
    && TotalPower(input) <= U64_MAX
  }

  // -- facts about power ----------------------------------------------------

  lemma {:induction false} PowerOfUpTo(vals: seq<Validator>, who: set<Address>)
    ensures PowerOf(vals, who) <= TotalPower(vals)
    ensures Members(vals) <= who ==> PowerOf(vals, who) == TotalPower(vals)
  {
    if vals != [] {
      assert vals == [vals[0]] + vals[1..];
      assert forall v :: v in vals[1..] ==> v in vals;
      assert vals[0] in vals;
      PowerOfUpTo(vals[1..], who);
    }
  }

  lemma {:induction false} PowerOfMonotone(vals: seq<Validator>, a: set<Address>, b: set<Address>)
    requires forall x :: x in Members(vals) && x in a ==> x in b
    ensures PowerOf(vals, a) <= PowerOf(vals, b)
  {
    if vals != [] {
      assert vals[0] in vals && vals[0].address in Members(vals);
      assert forall v :: v in vals[1..] ==> v in vals;
      PowerOfMonotone(vals[1..], a, b);
    }
  }

  /** Inclusion and exclusion. */
  lemma {:induction false} PowerOfUnion(vals: seq<Validator>, a: set<Address>, b: set<Address>)
    ensures PowerOf(vals, a) + PowerOf(vals, b) == PowerOf(vals, a + b) + PowerOf(vals, a * b)
  {
    if vals != [] {
      PowerOfUnion(vals[1..], a, b);
    }
  }

  lemma {:induction false} PowerOfNone(vals: seq<Validator>, who: set<Address>)
    requires Members(vals) !! who
    ensures PowerOf(vals, who) == 0
  {
    if vals != [] {
      assert vals[0] in vals;
      assert forall v :: v in vals[1..] ==> v in vals;
      PowerOfNone(vals[1..], who);
    }
  }

  /** One member contributes its own power. */
  lemma {:induction false} PowerOfOne(vals: seq<Validator>, v: Validator)
    requires v in vals && Distinct(vals)
    ensures PowerOf(vals, {v.address}) == v.power
  {
    if vals[0] == v {
      assert Members(vals[1..]) !! {v.address};
      PowerOfNone(vals[1..], {v.address});
    } else {
      assert v in vals[1..];
      assert vals[0].address != v.address by {
        var i :| 0 <= i < |vals[1..]| && vals[1..][i] == v;
        assert vals[i + 1] == v;
      }
      PowerOfOne(vals[1..], v);
    }
  }

  lemma AscendingMeansDistinct(vals: seq<Validator>)
    requires StrictlyAscending(Addresses(vals))
    ensures Distinct(vals)
  {
    forall i, j | 0 <= i < j < |vals| ensures vals[i].address != vals[j].address {
      assert Addresses(vals)[i] < Addresses(vals)[j];
    }
  }

  // -- the quorum rule ------------------------------------------------------

  /** A quorum and the Byzantine ceiling split the total exactly, so a coalition
      above the ceiling is precisely one whose absence leaves no quorum. */
  lemma QuorumSplitsTotal(vs: ValidatorSet)
    requires vs.Valid()
    ensures vs.QuorumThreshold() + vs.MaxByzantinePower() == vs.totalPower
    ensures 1 <= vs.QuorumThreshold() <= vs.totalPower
    ensures 3 * vs.MaxByzantinePower() < vs.totalPower
  {
    var v := vs.validators[0];
    assert v.power > 0;
  }

  /** Any two quorums share more power than a Byzantine coalition may hold. */
  lemma QuorumsIntersect(vs: ValidatorSet, a: set<Address>, b: set<Address>)
    requires vs.Valid()
    requires vs.HasQuorum(vs.Power(a)) && vs.HasQuorum(vs.Power(b))
    ensures vs.Power(a * b) > vs.MaxByzantinePower()
  {
    QuorumSplitsTotal(vs);
    PowerOfUnion(vs.validators, a, b);
    PowerOfUpTo(vs.validators, a + b);
  }

  /** So if the faulty validators stay under the ceiling, two quorums share an
      honest member. */
  lemma QuorumsShareHonest(vs: ValidatorSet, a: set<Address>, b: set<Address>, faulty: set<Address>)
    returns (x: Address)
    requires vs.Valid()
    requires vs.HasQuorum(vs.Power(a)) && vs.HasQuorum(vs.Power(b))
    requires vs.Power(faulty) <= vs.MaxByzantinePower()
    ensures x in a && x in b && x in Members(vs.validators) && x !in faulty
  {
    QuorumsIntersect(vs, a, b);
    if forall y :: y in Members(vs.validators) && y in a * b ==> y in faulty {
      PowerOfMonotone(vs.validators, a * b, faulty);
      assert false;
    }
    x :| x in Members(vs.validators) && x in a * b && x !in faulty;
  }

  // -- construction ---------------------------------------------------------

  /** Rejects an empty list, a powerless member, a repeated address and an
      overflowing total, in that order; otherwise keeps exactly the members it
      was given, in address order. */
  method NewValidatorSet(input: seq<Validator>) returns (r: Result<ValidatorSet, ValidatorError>)
    ensures r.Ok? <==> Acceptable(input)
    ensures r.Ok? ==> r.value.Valid() && multiset(r.value.validators) == multiset(input)
    ensures r == Err(Empty) <==> input == []
    ensures r == Err(ZeroPower) <==> input != [] && exists v :: v in input && v.power == 0
    ensures r == Err(Duplicate) ==> !Distinct(input)
    ensures r == Err(PowerOverflow) ==> TotalPower(input) > U64_MAX
  {
    if |input| == 0 { return Err(Empty); }
    if exists v :: v in input && v.power == 0 { return Err(ZeroPower); }
    var sorted := SortBy(input, ByAddress);
    SortedFacts(input, sorted);
    if HasAdjacentRepeat(sorted) {
      return Err(Duplicate);
    }
    var total := SumPowers(sorted);
    if total.None? {
      return Err(PowerOverflow);
    }
    return Ok(ValidatorSet(sorted, total.value));
  }

  /** What sorting makes of the input. */
  lemma SortedFacts(input: seq<Validator>, sorted: seq<Validator>)
    requires sorted == SortBy(input, ByAddress)
    ensures TotalPower(sorted) == TotalPower(input) && multiset(sorted) == multiset(input)
    ensures HasAdjacentRepeat(sorted) ==> !Distinct(input)
    ensures !HasAdjacentRepeat(sorted) ==> StrictlyAscending(Addresses(sorted)) && Distinct(input)
    ensures forall v :: v in sorted <==> v in input
  {
    SortKeepsTotal(input);
    if HasAdjacentRepeat(sorted) {
      RepeatSurvivesPermutation(sorted, input);
    } else {
      NoAdjacentRepeatIsAscending(sorted);
      AscendingMeansDistinct(sorted);
      DistinctUnderPermutation(sorted, input);
    }
    forall v ensures v in sorted <==> v in input {
      assert v in multiset(sorted) <==> v in multiset(input);
    }
  }

  /** The checked u64 sum of powers. */
  method SumPowers(vs: seq<Validator>) returns (total: Option<nat>)
    ensures total == if TotalPower(vs) <= U64_MAX then Some(TotalPower(vs)) else None
  {
    var sum: nat := 0;
    var i := 0;
    while i < |vs|
      invariant 0 <= i <= |vs| && sum == TotalPower(vs[..i]) <= U64_MAX
    {
      TotalOfSnoc(vs[..i], vs[i]);
      assert vs[..i + 1] == vs[..i] + [vs[i]];
      if sum + vs[i].power > U64_MAX {
        TotalOfPrefix(vs, i + 1);
        return None;
      }
      sum := sum + vs[i].power;
      i := i + 1;
    }
    assert vs[..i] == vs;
    return Some(sum);
  }

  /** The same membership, supplied in any order, is the same set. */
  lemma {:induction false} ConstructionIgnoresOrder(a: seq<Validator>, b: seq<Validator>)
    requires StrictlyAscending(Addresses(a)) && StrictlyAscending(Addresses(b))
    requires multiset(a) == multiset(b)
    ensures a == b
  {
    SameSize(a, b);
    if a != [] {
      SameFirst(a, b);
      TailOf(a);
      TailOf(b);
      AscendingTail(a);
      AscendingTail(b);
      ConstructionIgnoresOrder(a[1..], b[1..]);
    }
  }

  lemma SameSize(a: seq<Validator>, b: seq<Validator>)
    requires multiset(a) == multiset(b)
    ensures |a| == |b|
  {
    assert |multiset(a)| == |multiset(b)|;
  }

  lemma SameFirst(a: seq<Validator>, b: seq<Validator>)
    requires StrictlyAscending(Addresses(a)) && StrictlyAscending(Addresses(b))
    requires multiset(a) == multiset(b) && a != [] && b != []
    ensures a[0] == b[0]
  {
    assert a[0] in multiset(b) && b[0] in multiset(a);
    FirstIsLeast(a, b[0]);
    FirstIsLeast(b, a[0]);
  }

  lemma TailOf(a: seq<Validator>)
    requires a != []
    ensures a == [a[0]] + a[1..] && multiset(a[1..]) == multiset(a) - multiset{a[0]}
  {
    assert a == [a[0]] + a[1..];
  }

  lemma FirstIsLeast(a: seq<Validator>, v: Validator)
    requires StrictlyAscending(Addresses(a)) && v in a
    ensures a[0].address <= v.address && (a[0].address == v.address ==> a[0] == v)
  {
    var i :| 0 <= i < |a| && a[i] == v;
    assert i > 0 ==> Addresses(a)[0] < Addresses(a)[i];
  }

  lemma AscendingTail(a: seq<Validator>)
    requires a != [] && StrictlyAscending(Addresses(a))
    ensures StrictlyAscending(Addresses(a[1..]))
  {
    forall i, j | 0 <= i < j < |a[1..]|
      ensures Addresses(a[1..])[i] < Addresses(a[1..])[j]
    {
      assert Addresses(a)[i + 1] < Addresses(a)[j + 1];
    }
  }

  lemma {:induction false} TotalOfSnoc(vals: seq<Validator>, v: Validator)
    ensures TotalPower(vals + [v]) == TotalPower(vals) + v.power
  {
    if vals == [] {
      assert vals + [v] == [v];
      assert [v][1..] == [];
    } else {
      assert (vals + [v])[1..] == vals[1..] + [v];
      TotalOfSnoc(vals[1..], v);
    }
  }

  lemma {:induction false} TotalOfPrefix(vals: seq<Validator>, n: nat)
    requires n <= |vals|
    ensures TotalPower(vals[..n]) <= TotalPower(vals)
    decreases |vals| - n
  {
    if n < |vals| {
      TotalOfPrefix(vals, n + 1);
      assert vals[..n + 1] == vals[..n] + [vals[n]];
      TotalOfSnoc(vals[..n], vals[n]);
    } else {
      assert vals[..n] == vals;
    }
  }

  lemma {:induction false} InsertKeepsTotal(x: Validator, s: seq<Validator>)
    requires Ascending(s, ByAddress)
    ensures TotalPower(Insert(x, s, ByAddress)) == TotalPower(s) + x.power
  {
    if |s| == 0 || ByAddress(s[|s| - 1]) <= ByAddress(x) {
      TotalOfSnoc(s, x);
    } else {
      var front, last := s[..|s| - 1], s[|s| - 1];
      InsertKeepsTotal(x, front);
      TotalOfSnoc(Insert(x, front, ByAddress), last);
      TotalOfSnoc(front, last);
      assert s == front + [last];
    }
  }

  lemma {:induction false} SortUnfolds(s: seq<Validator>)
    requires s != []
    ensures SortBy(s, ByAddress) == Insert(s[|s| - 1], SortBy(s[..|s| - 1], ByAddress), ByAddress)
  {
  }

  lemma {:induction false} SortTotalStep(front: seq<Validator>, last: Validator, sorted: seq<Validator>)
    requires Ascending(sorted, ByAddress) && TotalPower(sorted) == TotalPower(front)
    ensures TotalPower(Insert(last, sorted, ByAddress)) == TotalPower(front + [last])
  {
    InsertKeepsTotal(last, sorted);
    TotalOfSnoc(front, last);
  }

  lemma {:induction false} SortKeepsTotal(s: seq<Validator>)
    ensures TotalPower(SortBy(s, ByAddress)) == TotalPower(s)
  {
    if s != [] {
      var front, last := s[..|s| - 1], s[|s| - 1];
      SortKeepsTotal(front);
      SortUnfolds(s);
      SortTotalStep(front, last, SortBy(front, ByAddress));
      assert s == front + [last];
    }
  }

  lemma NoAdjacentRepeatIsAscending(sorted: seq<Validator>)
    requires Ascending(sorted, ByAddress)
    requires !HasAdjacentRepeat(sorted)
    ensures StrictlyAscending(Addresses(sorted))
  {
    forall i, j | 0 <= i < j < |sorted| ensures Addresses(sorted)[i] < Addresses(sorted)[j] {
      assert ByAddress(sorted[i]) <= ByAddress(sorted[i + 1]);
      assert sorted[i].address != sorted[i + 1].address;
      assert i + 1 == j || ByAddress(sorted[i + 1]) <= ByAddress(sorted[j]);
    }
  }

  /** Distinctness is a property of the members, not of their order. */
  lemma {:induction false} DistinctUnderPermutation(a: seq<Validator>, b: seq<Validator>)
    requires multiset(a) == multiset(b)
    requires Distinct(a)
    ensures Distinct(b)
  {
    forall i, j | 0 <= i < j < |b| ensures b[i].address != b[j].address {
      assert b[i] in multiset(a) && b[j] in multiset(a);
      MultiplicityOne(a, b[i]);
      if b[i] == b[j] {
        RepeatCountsTwice(b, i, j);
      }
    }
  }

  lemma RepeatCountsTwice(b: seq<Validator>, i: nat, j: nat)
    requires i < j < |b| && b[i] == b[j]
    ensures multiset(b)[b[i]] >= 2
  {
    assert b == b[..i] + [b[i]] + b[i + 1..j] + [b[j]] + b[j + 1..];
  }

  lemma {:induction false} MultiplicityOne(a: seq<Validator>, v: Validator)
    requires Distinct(a)
    ensures multiset(a)[v] <= 1
  {
    if a != [] {
      assert a == [a[0]] + a[1..];
      MultiplicityOne(a[1..], v);
      if a[0] == v {
        assert v !in a[1..];
        assert multiset(a[1..])[v] == 0;
      }
    }
  }

  lemma RepeatSurvivesPermutation(sorted: seq<Validator>, input: seq<Validator>)
    requires multiset(sorted) == multiset(input)
    requires HasAdjacentRepeat(sorted)
    ensures !Distinct(input)
  {
    if Distinct(input) {
      DistinctUnderPermutation(input, sorted);
    }
  }
}
