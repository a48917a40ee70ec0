/** Concentration metrics (crates/consensus/src/decentralization.rs). */
module Concentration {
  import opened Base
  import opened Validators

  /** Someone's share of the power, under an identifier of their own. */
  datatype Holder = Holder(id: nat, power: nat)

  ghost predicate DistinctIds(hs: seq<Holder>) {
    forall i, j :: 0 <= i < j < |hs| ==> hs[i].id != hs[j].id
  }

  ghost function Ids(hs: seq<Holder>): set<nat> {
    set h | h in hs :: h.id
  }

  /** The combined power of the coalition `who`. */
  ghost function Weight(hs: seq<Holder>, who: set<nat>): nat {
    if hs == [] then 0
    else Weight(hs[..|hs| - 1], who) + (if hs[|hs| - 1].id in who then hs[|hs| - 1].power else 0)
  }

  /** The combined power of the first `k` holders. */
  ghost function TopSum(hs: seq<Holder>, k: nat): nat
    requires k <= |hs|
  {
    if k == 0 then 0 else TopSum(hs, k - 1) + hs[k - 1].power
  }

  lemma {:induction false} TopSumOfFront(hs: seq<Holder>, n: nat, k: nat)
    requires k <= n <= |hs|
    ensures TopSum(hs[..n], k) == TopSum(hs, k)
  {
    if k > 0 { TopSumOfFront(hs, n, k - 1); }
  }

  lemma {:induction false} TopSumGrows(hs: seq<Holder>, j: nat, k: nat)
    requires j <= k <= |hs|
    ensures TopSum(hs, j) <= TopSum(hs, k)
  {
    if j < k { TopSumGrows(hs, j, k - 1); }
  }

  function Descending(h: Holder): int { 0 - h.power }

  // -- sorting does not change what a coalition weighs ----------------------

  lemma {:induction false} WeightOfInsert(x: Holder, s: seq<Holder>, who: set<nat>)
    requires Ascending(s, Descending)
    ensures Weight(Insert(x, s, Descending), who) == Weight(s, who) + (if x.id in who then x.power else 0)
  {
    if |s| == 0 || Descending(s[|s| - 1]) <= Descending(x) {
      assert (s + [x])[..|s|] == s;
    } else {
      var front, last := s[..|s| - 1], s[|s| - 1];
      var r := Insert(x, front, Descending);
      WeightOfInsert(x, front, who);
      assert (r + [last])[..|r|] == r;
    }
  }

  lemma {:induction false} WeightOfSorted(s: seq<Holder>, who: set<nat>)
    ensures Weight(SortBy(s, Descending), who) == Weight(s, who)
  {
    if s != [] {
      WeightOfSorted(s[..|s| - 1], who);
      WeightOfInsert(s[|s| - 1], SortBy(s[..|s| - 1], Descending), who);
    }
  }

  lemma IdsOfPermutation(a: seq<Holder>, b: seq<Holder>)
    requires multiset(a) == multiset(b)
    ensures Ids(a) == Ids(b)
  {
    assert forall h :: h in a <==> h in multiset(a);
    assert forall h :: h in b <==> h in multiset(b);
  }

  lemma {:induction false} DistinctAfterInsert(x: Holder, s: seq<Holder>)
    requires Ascending(s, Descending) && DistinctIds(s) && x.id !in Ids(s)
    ensures DistinctIds(Insert(x, s, Descending))
  {
    if |s| == 0 || Descending(s[|s| - 1]) <= Descending(x) {
      forall i | 0 <= i < |s| ensures s[i].id != x.id { assert s[i] in s; }
    } else {
      var front, last := s[..|s| - 1], s[|s| - 1];
      var r := Insert(x, front, Descending);
      assert forall h :: h in front ==> h in s;
      DistinctAfterInsert(x, front);
      forall i | 0 <= i < |r| ensures r[i].id != last.id {
        LastIsApart(x, s, r, i);
      }
    }
  }

  lemma LastIsApart(x: Holder, s: seq<Holder>, r: seq<Holder>, i: nat)
    requires s != [] && DistinctIds(s) && x.id !in Ids(s) && i < |r|
    requires multiset(r) == multiset(s[..|s| - 1]) + multiset{x}
    ensures r[i].id != s[|s| - 1].id
  {
    var front, last := s[..|s| - 1], s[|s| - 1];
    assert r[i] in multiset(r) && last in s;
    if r[i] in front {
      var j :| 0 <= j < |front| && front[j] == r[i];
      assert s[j].id != last.id;
    }
  }

  lemma {:induction false} DistinctAfterSort(s: seq<Holder>)
    requires DistinctIds(s)
    ensures DistinctIds(SortBy(s, Descending))
  {
    if s != [] {
      var front, last := s[..|s| - 1], s[|s| - 1];
      DistinctAfterSort(front);
      IdsOfPermutation(SortBy(front, Descending), front);
      forall h | h in front ensures h.id != last.id {
        var j :| 0 <= j < |front| && front[j] == h;
        assert s[j].id != s[|s| - 1].id;
      }
      DistinctAfterInsert(last, SortBy(front, Descending));
    }
  }

  lemma IdsOfSnoc(hs: seq<Holder>)
    requires hs != [] && DistinctIds(hs)
    ensures Ids(hs) == Ids(hs[..|hs| - 1]) + {hs[|hs| - 1].id}
    ensures hs[|hs| - 1].id !in Ids(hs[..|hs| - 1])
    ensures DistinctIds(hs[..|hs| - 1])
  {
    var front, last := hs[..|hs| - 1], hs[|hs| - 1];
    assert hs == front + [last];
    forall h | h in front ensures h.id != last.id {
      var j :| 0 <= j < |front| && front[j] == h;
      assert hs[j].id != hs[|hs| - 1].id;
    }
  }

  // -- the largest holders are the strongest coalition of their size --------

  ghost predicate LargestFirst(hs: seq<Holder>) {
    forall i, j :: 0 <= i < j < |hs| ==> hs[i].power >= hs[j].power
  }

  lemma SortedLargestFirst(hs: seq<Holder>)
    requires Ascending(hs, Descending)
    ensures LargestFirst(hs)
  {
    forall i, j | 0 <= i < j < |hs| ensures hs[i].power >= hs[j].power {
      assert Descending(hs[i]) <= Descending(hs[j]);
    }
  }

  /** No coalition outweighs as many of the largest holders. */
  lemma {:induction false} LargestAreStrongest(hs: seq<Holder>, who: set<nat>)
    requires LargestFirst(hs) && DistinctIds(hs) && who <= Ids(hs)
    ensures |who| <= |hs| && Weight(hs, who) <= TopSum(hs, |who|)
  {
    if hs == [] {
      assert Ids(hs) == {};
      assert who == {};
    } else {
      var front, last := hs[..|hs| - 1], hs[|hs| - 1];
      var who' := who - {last.id};
      IdsOfSnoc(hs);
      assert LargestFirst(front);
      assert who' <= Ids(front);
      LargestAreStrongest(front, who');
      WeightWithout(front, who, last.id);
      StrongestWithLast(hs, who, who');
    }
  }

  lemma {:induction false} StrongestWithLast(hs: seq<Holder>, who: set<nat>, who': set<nat>)
    requires hs != [] && LargestFirst(hs) && who' == who - {hs[|hs| - 1].id}
    requires |who'| <= |hs| - 1 && Weight(hs[..|hs| - 1], who) <= TopSum(hs[..|hs| - 1], |who'|)
    ensures |who| <= |hs| && Weight(hs, who) <= TopSum(hs, |who|)
  {
    var last, k := hs[|hs| - 1], |who'|;
    TopSumOfFront(hs, |hs| - 1, k);
    assert Weight(hs, who) == Weight(hs[..|hs| - 1], who) + (if last.id in who then last.power else 0);
    if last.id in who {
      assert who == who' + {last.id};
      assert |who| == k + 1;
      assert k < |hs| - 1 ==> hs[k].power >= last.power;
      assert TopSum(hs, k + 1) == TopSum(hs, k) + hs[k].power;
    } else {
      assert who' == who;
    }
  }

  lemma {:induction false} WeightWithout(hs: seq<Holder>, who: set<nat>, id: nat)
    requires id !in Ids(hs)
    ensures Weight(hs, who - {id}) == Weight(hs, who)
  {
    if hs != [] {
      assert hs[|hs| - 1] in hs;
      assert forall h :: h in hs[..|hs| - 1] ==> h in hs;
      WeightWithout(hs[..|hs| - 1], who, id);
    }
  }

  lemma {:induction false} WeightOfAll(hs: seq<Holder>, who: set<nat>)
    requires Ids(hs) <= who
    ensures Weight(hs, who) == TopSum(hs, |hs|)
  {
    if hs != [] {
      TopSumOfFront(hs, |hs| - 1, |hs| - 1);
      assert hs[|hs| - 1] in hs;
      assert forall h :: h in hs[..|hs| - 1] ==> h in hs;
      WeightOfAll(hs[..|hs| - 1], who);
    }
  }

  lemma {:induction false} CountIds(hs: seq<Holder>)
    requires DistinctIds(hs)
    ensures |Ids(hs)| == |hs|
  {
    if hs != [] {
      var front, last := hs[..|hs| - 1], hs[|hs| - 1];
      CountIds(front);
      IdsOfSnoc(hs);
    }
  }

  /** The first `k` of a list are themselves a coalition of `k`. */
  lemma {:induction false} PrefixCoalition(hs: seq<Holder>, k: nat)
    requires DistinctIds(hs) && k <= |hs|
    ensures |Ids(hs[..k])| == k && Ids(hs[..k]) <= Ids(hs)
    ensures Weight(hs, Ids(hs[..k])) == TopSum(hs, k)
  {
    CountIds(hs[..k]);
    if k == |hs| {
      assert hs[..k] == hs;
      WeightOfAll(hs, Ids(hs));
    } else {
      var front, last := hs[..|hs| - 1], hs[|hs| - 1];
      assert front[..k] == hs[..k];
      TopSumOfFront(hs, |hs| - 1, k);
      PrefixCoalition(front, k);
      forall h | h in hs[..k] ensures h.id != last.id {
        var j :| 0 <= j < k && hs[..k][j] == h;
        assert hs[j].id != hs[|hs| - 1].id;
      }
    }
  }

  // -- the greedy walk ------------------------------------------------------

  function PowersOf(hs: seq<Holder>): (r: seq<nat>)
    ensures |r| == |hs| && forall i :: 0 <= i < |hs| ==> r[i] == hs[i].power
  {
    seq(|hs|, i requires 0 <= i < |hs| => hs[i].power)
  }

  function Negated(p: nat): int { 0 - p }

  lemma {:induction false} InsertPower(x: Holder, s: seq<Holder>)
    requires Ascending(s, Descending)
    requires Ascending(PowersOf(s), Negated)
    ensures PowersOf(Insert(x, s, Descending)) == Insert(x.power, PowersOf(s), Negated)
  {
    InsertUnfolds(x, s, Descending);
    InsertUnfolds(x.power, PowersOf(s), Negated);
    if |s| > 0 && Descending(s[|s| - 1]) > Descending(x) {
      var front := s[..|s| - 1];
      assert PowersOf(front) == PowersOf(s)[..|s| - 1];
      InsertPower(x, front);
      PowersOfSnoc(Insert(x, front, Descending), s[|s| - 1]);
    } else {
      PowersOfSnoc(s, x);
    }
  }

  lemma PowersOfSnoc(s: seq<Holder>, x: Holder)
    ensures PowersOf(s + [x]) == PowersOf(s) + [x.power]
  {
  }

  /** Sorting the bare powers is sorting their holders. */
  lemma {:induction false} SortPowers(hs: seq<Holder>)
    ensures PowersOf(SortBy(hs, Descending)) == SortBy(PowersOf(hs), Negated)
  {
    if hs != [] {
      var front, last := hs[..|hs| - 1], hs[|hs| - 1];
      assert PowersOf(front) == PowersOf(hs)[..|hs| - 1];
      SortPowers(front);
      InsertPower(last, SortBy(front, Descending));
    }
  }

  /** The same holders, largest first. */
  ghost predicate SameHolders(hs: seq<Holder>, sorted: seq<Holder>) {
    && LargestFirst(sorted) && DistinctIds(sorted) && Ids(sorted) == Ids(hs)
    && forall who :: Weight(sorted, who) == Weight(hs, who)
  }

  lemma SortedHolders(hs: seq<Holder>)
    requires DistinctIds(hs)
    ensures SameHolders(hs, SortBy(hs, Descending))
  {
    var sorted := SortBy(hs, Descending);
    SortedLargestFirst(sorted);
    DistinctAfterSort(hs);
    IdsOfPermutation(sorted, hs);
    forall who ensures Weight(sorted, who) == Weight(hs, who) {
      WeightOfSorted(hs, who);
    }
  }

  /** `k` is the size of the smallest coalition that holds at least `target`. */
  ghost predicate SmallestCoalition(hs: seq<Holder>, target: nat, k: nat) {
    && (exists who :: who <= Ids(hs) && |who| == k && Weight(hs, who) >= target)
    && (forall who :: who <= Ids(hs) && Weight(hs, who) >= target ==> |who| >= k)
  }

  /** The greedy walk, largest first, finds exactly the smallest coalition that
      reaches the target, whoever the powers belong to, and answers zero when none
      does. The running u128 sum cannot saturate: every addend is a u64. */
  method MinCoalition(powers: seq<nat>, target: nat, ghost hs: seq<Holder>) returns (k: nat)
    requires target > 0
    requires DistinctIds(hs) && PowersOf(hs) == powers
    ensures k > 0 ==> SmallestCoalition(hs, target, k)
    ensures k == 0 ==> forall who :: who <= Ids(hs) ==> Weight(hs, who) < target
  {
    var sorted := SortBy(powers, Negated);
    ghost var sortedHs := SortBy(hs, Descending);
    SortPowers(hs);
    k := GreedyWalk(sorted, target, sortedHs);
    if k > 0 {
      GreedyIsSmallest(hs, sortedHs, target, k);
    } else {
      NoneReaches(hs, sortedHs, target);
    }
  }

  /** How many of the first powers it takes to reach the target; zero when all together fall short. */
  method GreedyWalk(sorted: seq<nat>, target: nat, ghost hs: seq<Holder>) returns (k: nat)
    requires target > 0 && PowersOf(hs) == sorted
    ensures k <= |hs|
    ensures k > 0 ==> TopSum(hs, k) >= target > TopSum(hs, k - 1)
    ensures k == 0 ==> TopSum(hs, |hs|) < target
  {
    var sum: nat := 0;
    var index := 0;
    while index < |sorted|
      invariant 0 <= index <= |sorted|
      invariant sum == TopSum(hs, index) < target
    {
      sum := sum + sorted[index];
      if sum >= target {
        return index + 1;
      }
      index := index + 1;
    }
    return 0;
  }

  lemma NoneReaches(hs: seq<Holder>, sorted: seq<Holder>, target: nat)
    requires DistinctIds(hs) && sorted == SortBy(hs, Descending)
    requires TopSum(sorted, |sorted|) < target
    ensures forall who :: who <= Ids(hs) ==> Weight(hs, who) < target
  {
    SortedHolders(hs);
    forall who | who <= Ids(hs) ensures Weight(hs, who) < target {
      LargestAreStrongest(sorted, who);
      TopSumGrows(sorted, |who|, |sorted|);
    }
  }

  lemma GreedyIsSmallest(hs: seq<Holder>, sorted: seq<Holder>, target: nat, k: nat)
    requires DistinctIds(hs) && sorted == SortBy(hs, Descending)
    requires 1 <= k <= |sorted| && TopSum(sorted, k) >= target > TopSum(sorted, k - 1)
    ensures SmallestCoalition(hs, target, k)
  {
    SortedHolders(hs);
    PrefixCoalition(sorted, k);
    assert Ids(sorted[..k]) <= Ids(hs) && |Ids(sorted[..k])| == k && Weight(hs, Ids(sorted[..k])) >= target;
    forall who | who <= Ids(hs) && Weight(hs, who) >= target ensures |who| >= k {
      LargestAreStrongest(sorted, who);
      if |who| < k {
        TopSumGrows(sorted, |who|, k - 1);
      }
    }
  }

  // -- power by country -----------------------------------------------------

  /** The validators of `vals` that operate in one of `countries`. */
  ghost function InCountries(vals: seq<Validator>, countries: set<nat>): set<Address> {
    set v | v in vals && v.country in countries :: v.address
  }

  ghost function CountryPower(vals: seq<Validator>, countries: set<nat>): nat {
    if vals == [] then 0
    else CountryPower(vals[..|vals| - 1], countries)
         + (if vals[|vals| - 1].country in countries then vals[|vals| - 1].power else 0)
  }

  ghost function Countries(vals: seq<Validator>): set<nat> {
    set v | v in vals :: v.country
  }

  /** Totals are right for every group of countries at once. */
  ghost predicate Aggregates(hs: seq<Holder>, vals: seq<Validator>) {
    && DistinctIds(hs) && Ids(hs) == Countries(vals)
    && forall cs :: Weight(hs, cs) == CountryPower(vals, cs)
  }

  lemma {:induction false} WeightOfBump(hs: seq<Holder>, at: nat, extra: nat, who: set<nat>)
    requires at < |hs|
    ensures Weight(hs[at := Holder(hs[at].id, hs[at].power + extra)], who) ==
            Weight(hs, who) + (if hs[at].id in who then extra else 0)
  {
    var hs' := hs[at := Holder(hs[at].id, hs[at].power + extra)];
    var n := |hs| - 1;
    if at < n {
      assert hs'[..n] == hs[..n][at := Holder(hs[at].id, hs[at].power + extra)];
      WeightOfBump(hs[..n], at, extra, who);
    } else {
      assert hs'[..n] == hs[..n];
    }
  }

  lemma BumpKeepsAggregates(hs: seq<Holder>, vals: seq<Validator>, at: nat, v: Validator)
    requires Aggregates(hs, vals) && at < |hs| && hs[at].id == v.country
    ensures Aggregates(hs[at := Holder(hs[at].id, hs[at].power + v.power)], vals + [v])
  {
    var hs' := hs[at := Holder(hs[at].id, hs[at].power + v.power)];
    assert (vals + [v])[..|vals|] == vals;
    assert forall i :: 0 <= i < |hs| ==> hs'[i].id == hs[i].id;
    assert Ids(hs') == Ids(hs) by {
      forall h | h in hs ensures h.id in Ids(hs') {
        var i :| 0 <= i < |hs| && hs[i] == h;
        assert hs'[i] in hs';
      }
      forall h | h in hs' ensures h.id in Ids(hs) {
        var i :| 0 <= i < |hs'| && hs'[i] == h;
        assert hs[i] in hs;
      }
    }
    assert hs[at] in hs;
    assert Countries(vals + [v]) == Countries(vals) by {
      assert v.country in Countries(vals);
    }
    forall cs ensures Weight(hs', cs) == CountryPower(vals + [v], cs) {
      WeightOfBump(hs, at, v.power, cs);
    }
  }

  lemma AppendKeepsAggregates(hs: seq<Holder>, vals: seq<Validator>, v: Validator)
    requires Aggregates(hs, vals) && forall i :: 0 <= i < |hs| ==> hs[i].id != v.country
    ensures Aggregates(hs + [Holder(v.country, v.power)], vals + [v])
  {
    var hs' := hs + [Holder(v.country, v.power)];
    assert (vals + [v])[..|vals|] == vals;
    assert hs'[..|hs|] == hs;
    assert forall h :: h in hs' <==> h in hs || h == Holder(v.country, v.power);
    assert Ids(hs') == Ids(hs) + {v.country} by {
      assert Holder(v.country, v.power) in hs';
    }
    assert Countries(vals + [v]) == Countries(vals) + {v.country} by {
      assert v in vals + [v];
    }
  }

  /** Adds up voting power by country. No total saturates, because all of them
      together are a validator set's total. */
  method PowerByCountry(vs: ValidatorSet) returns (hs: seq<Holder>)
    requires vs.Valid()
    ensures Aggregates(hs, vs.validators)
  {
    var vals := vs.validators;
    hs := [];
    assert vals[..0] == [];
    for n := 0 to |vals|
      invariant Aggregates(hs, vals[..n])
    {
      var v := vals[n];
      assert vals[..n + 1] == vals[..n] + [v];
      var at := 0;
      while at < |hs| && hs[at].id != v.country
        invariant 0 <= at <= |hs|
        invariant forall i :: 0 <= i < at ==> hs[i].id != v.country
      {
        at := at + 1;
      }
      if at < |hs| {
        BumpKeepsAggregates(hs, vals[..n], at, v);
        hs := hs[at := Holder(hs[at].id, hs[at].power + v.power)];
      } else {
        AppendKeepsAggregates(hs, vals[..n], v);
        hs := hs + [Holder(v.country, v.power)];
      }
    }
    assert vals[..|vals|] == vals;
  }

  // -- what the figures mean ------------------------------------------------

  function AsHolders(vals: seq<Validator>): (hs: seq<Holder>)
    ensures |hs| == |vals| && forall i :: 0 <= i < |vals| ==> hs[i] == Holder(vals[i].address, vals[i].power)
  {
    seq(|vals|, i requires 0 <= i < |vals| => Holder(vals[i].address, vals[i].power))
  }

  lemma {:induction false} PowerOfSnoc(vals: seq<Validator>, v: Validator, who: set<Address>)
    ensures PowerOf(vals + [v], who) == PowerOf(vals, who) + (if v.address in who then v.power else 0)
  {
    if vals == [] {
      assert vals + [v] == [v];
      assert [v][1..] == [];
    } else {
      assert (vals + [v])[1..] == vals[1..] + [v];
      PowerOfSnoc(vals[1..], v, who);
    }
  }

  lemma {:induction false} WeightIsPower(vals: seq<Validator>, who: set<Address>)
    ensures Weight(AsHolders(vals), who) == PowerOf(vals, who)
  {
    if vals != [] {
      var front, last := vals[..|vals| - 1], vals[|vals| - 1];
      assert vals == front + [last];
      assert AsHolders(vals)[..|vals| - 1] == AsHolders(front);
      WeightIsPower(front, who);
      PowerOfSnoc(front, last, who);
    }
  }

  lemma InCountriesSnoc(front: seq<Validator>, last: Validator, cs: set<nat>)
    requires Distinct(front + [last])
    ensures forall a :: a in Members(front) ==>
      (a in InCountries(front + [last], cs) <==> a in InCountries(front, cs))
    ensures last.address in InCountries(front + [last], cs) <==> last.country in cs
  {
    var vals := front + [last];
    assert forall v :: v in vals <==> v in front || v == last;
    forall v | v in front ensures v.address != last.address {
      var i :| 0 <= i < |front| && front[i] == v;
      assert vals[i].address != vals[|front|].address;
    }
  }

  lemma {:induction false} CountryPowerIsPower(vals: seq<Validator>, cs: set<nat>)
    requires Distinct(vals)
    ensures CountryPower(vals, cs) == PowerOf(vals, InCountries(vals, cs))
  {
    if vals != [] {
      var front, last := vals[..|vals| - 1], vals[|vals| - 1];
      assert vals == front + [last];
      CountryPowerIsPower(front, cs);
      PowerOfSnoc(front, last, InCountries(vals, cs));
      InCountriesSnoc(front, last, cs);
      PowerOfMonotone(front, InCountries(front, cs), InCountries(vals, cs));
      PowerOfMonotone(front, InCountries(vals, cs), InCountries(front, cs));
    }
  }

  /** Without the coalition, what is left is no quorum. */
  ghost predicate Halts(vs: ValidatorSet, who: set<Address>) {
    !vs.HasQuorum(vs.Power(Members(vs.validators) - who))
  }

  /** The coalition is a quorum by itself. */
  ghost predicate Controls(vs: ValidatorSet, who: set<Address>) {
    vs.HasQuorum(vs.Power(who))
  }

  lemma HaltingPower(vs: ValidatorSet, who: set<Address>)
    requires vs.Valid()
    ensures Halts(vs, who) <==> vs.Power(who) >= vs.MaxByzantinePower() + 1
  {
    var all := Members(vs.validators);
    QuorumSplitsTotal(vs);
    PowerOfUpTo(vs.validators, all);
    PowerOfUnion(vs.validators, all - who, all * who);
    PowerOfNone(vs.validators, {});
    assert all - who + all * who == all && (all - who) * (all * who) == {};
    PowerOfMonotone(vs.validators, who, all * who);
    PowerOfMonotone(vs.validators, all * who, who);
  }

  /** The fewest validators that together can do something. */
  ghost predicate FewestValidators(vs: ValidatorSet, k: nat, can: set<Address> -> bool) {
    && (exists who :: who <= Members(vs.validators) && |who| == k && can(who))
    && (forall who :: who <= Members(vs.validators) && can(who) ==> |who| >= k)
  }

  /** The fewest countries whose validators together can do something. */
  ghost predicate FewestCountries(vs: ValidatorSet, k: nat, can: set<Address> -> bool) {
    && (exists cs :: cs <= Countries(vs.validators) && |cs| == k && can(InCountries(vs.validators, cs)))
    && (forall cs :: cs <= Countries(vs.validators) && can(InCountries(vs.validators, cs)) ==> |cs| >= k)
  }

  /** The figures are figures: there is one answer to each question. */
  lemma FewestIsOne(vs: ValidatorSet, can: set<Address> -> bool, j: nat, k: nat)
    ensures FewestValidators(vs, j, can) && FewestValidators(vs, k, can) ==> j == k
    ensures FewestCountries(vs, j, can) && FewestCountries(vs, k, can) ==> j == k
  {
  }

  /** A coalition can do it exactly when it holds `target`. */
  ghost predicate Needs(vs: ValidatorSet, target: nat, can: set<Address> -> bool) {
    forall who :: can(who) <==> vs.Power(who) >= target
  }

  lemma ValidatorHolders(vs: ValidatorSet)
    requires vs.Valid()
    ensures DistinctIds(AsHolders(vs.validators)) && Ids(AsHolders(vs.validators)) == Members(vs.validators)
    ensures forall who :: Weight(AsHolders(vs.validators), who) == vs.Power(who)
  {
    AscendingMeansDistinct(vs.validators);
    var hs := AsHolders(vs.validators);
    forall v | v in vs.validators ensures v.address in Ids(hs) {
      var i :| 0 <= i < |vs.validators| && vs.validators[i] == v;
      assert hs[i] in hs;
    }
    forall h | h in hs ensures h.id in Members(vs.validators) {
      var i :| 0 <= i < |hs| && hs[i] == h;
      assert vs.validators[i] in vs.validators;
    }
    forall who ensures Weight(hs, who) == vs.Power(who) {
      WeightIsPower(vs.validators, who);
    }
  }

  lemma ValidatorFigure(vs: ValidatorSet, target: nat, k: nat, can: set<Address> -> bool)
    requires vs.Valid() && Needs(vs, target, can) && SmallestCoalition(AsHolders(vs.validators), target, k)
    ensures FewestValidators(vs, k, can)
  {
    ValidatorHolders(vs);
    var hs := AsHolders(vs.validators);
    var who :| who <= Ids(hs) && |who| == k && Weight(hs, who) >= target;
    assert who <= Members(vs.validators) && |who| == k && can(who);
    forall w | w <= Members(vs.validators) && can(w) ensures |w| >= k {
      assert w <= Ids(hs) && Weight(hs, w) >= target;
    }
  }

  lemma CountryFigure(vs: ValidatorSet, hs: seq<Holder>, target: nat, k: nat, can: set<Address> -> bool)
    requires vs.Valid() && Needs(vs, target, can)
    requires Aggregates(hs, vs.validators) && SmallestCoalition(hs, target, k)
    ensures FewestCountries(vs, k, can)
  {
    AscendingMeansDistinct(vs.validators);
    forall cs ensures Weight(hs, cs) == vs.Power(InCountries(vs.validators, cs)) {
      CountryPowerIsPower(vs.validators, cs);
    }
    var cs :| cs <= Ids(hs) && |cs| == k && Weight(hs, cs) >= target;
    assert cs <= Countries(vs.validators) && |cs| == k && can(InCountries(vs.validators, cs));
    forall c | c <= Countries(vs.validators) && can(InCountries(vs.validators, c)) ensures |c| >= k {
      assert c <= Ids(hs) && Weight(hs, c) >= target;
    }
  }

  /** The countries of a coalition's members. */
  ghost function CountriesOf(vals: seq<Validator>, who: set<Address>): set<nat> {
    set v | v in vals && v.address in who :: v.country
  }

  /** However many validators it takes, no more countries than that. */
  lemma CountriesNeverExceedValidators(vs: ValidatorSet, target: nat, can: set<Address> -> bool, k: nat, c: nat)
    requires vs.Valid() && Needs(vs, target, can)
    requires FewestValidators(vs, k, can) && FewestCountries(vs, c, can)
    ensures c <= k
  {
    var who :| who <= Members(vs.validators) && |who| == k && can(who);
    var cs := CountriesOf(vs.validators, who);
    CoalitionWithinCountries(vs, who);
    assert can(InCountries(vs.validators, cs));
    AscendingMeansDistinct(vs.validators);
    CountriesOfCoalition(vs.validators, who);
  }

  lemma CoalitionWithinCountries(vs: ValidatorSet, who: set<Address>)
    ensures CountriesOf(vs.validators, who) <= Countries(vs.validators)
    ensures vs.Power(who) <= vs.Power(InCountries(vs.validators, CountriesOf(vs.validators, who)))
  {
    PowerOfMonotone(vs.validators, who, InCountries(vs.validators, CountriesOf(vs.validators, who)));
  }

  lemma SubsetCardinality<T>(a: set<T>, b: set<T>)
    requires a <= b
    ensures |a| <= |b|
  {
    assert b == a + (b - a);
  }

  lemma CountriesOfFirst(vals: seq<Validator>, who: set<Address>)
    requires vals != [] && Distinct(vals) && who <= Members(vals)
    ensures CountriesOf(vals, who) <= CountriesOf(vals[1..], who - {vals[0].address}) + {vals[0].country}
    ensures vals[0].address !in who ==> CountriesOf(vals, who) <= CountriesOf(vals[1..], who - {vals[0].address})
    ensures who - {vals[0].address} <= Members(vals[1..])
  {
    var v, rest := vals[0], vals[1..];
    forall u | u in vals ensures u == v || (u in rest && u.address != v.address) {
      var i :| 0 <= i < |vals| && vals[i] == u;
      assert i > 0 ==> rest[i - 1] == u && vals[0].address != vals[i].address;
    }
  }

  lemma {:induction false} CountriesOfCoalition(vals: seq<Validator>, who: set<Address>)
    requires Distinct(vals) && who <= Members(vals)
    ensures |CountriesOf(vals, who)| <= |who|
  {
    if vals == [] {
      assert CountriesOf(vals, who) == {};
    } else {
      var v, rest := vals[0], vals[1..];
      var cs, cs' := CountriesOf(vals, who), CountriesOf(rest, who - {v.address});
      CountriesOfFirst(vals, who);
      CountriesOfCoalition(rest, who - {v.address});
      if v.address in who {
        SubsetCardinality(cs, cs' + {v.country});
      } else {
        SubsetCardinality(cs, cs');
        assert who - {v.address} == who;
      }
    }
  }

  datatype Decentralization = Decentralization(
    validators: nat, totalPower: nat, halt: nat, control: nat,
    countries: nat, countryHalt: nat, countryControl: nat)

  lemma WholeSetReaches(vs: ValidatorSet, hs: seq<Holder>, target: nat)
    requires vs.Valid() && 0 < target <= vs.totalPower
    requires hs == AsHolders(vs.validators) || Aggregates(hs, vs.validators)
    ensures DistinctIds(hs) && exists who :: who <= Ids(hs) && Weight(hs, who) >= target
  {
    ValidatorHolders(vs);
    PowerOfUpTo(vs.validators, Members(vs.validators));
    if Aggregates(hs, vs.validators) {
      AscendingMeansDistinct(vs.validators);
      CountryPowerIsPower(vs.validators, Countries(vs.validators));
      assert InCountries(vs.validators, Countries(vs.validators)) == Members(vs.validators);
      assert Ids(hs) <= Ids(hs) && Weight(hs, Ids(hs)) >= target;
    } else {
      assert Members(vs.validators) <= Ids(hs) && Weight(hs, Members(vs.validators)) >= target;
    }
  }

  /** The published figures are the true minima over every coalition of
      validators and of countries, and the country figure never flatters. */
  method Measure(vs: ValidatorSet) returns (d: Decentralization)
    requires vs.Valid()
    ensures d.validators == |vs.validators| && d.totalPower == vs.totalPower
    ensures d.countries == |Countries(vs.validators)|
    ensures FewestValidators(vs, d.halt, who => Halts(vs, who))
    ensures FewestValidators(vs, d.control, who => Controls(vs, who))
    ensures FewestCountries(vs, d.countryHalt, who => Halts(vs, who))
    ensures FewestCountries(vs, d.countryControl, who => Controls(vs, who))
    ensures d.countryHalt <= d.halt && d.countryControl <= d.control
  {
    ghost var halts, controls := who => Halts(vs, who), who => Controls(vs, who);
    var ceiling, quorum := vs.MaxByzantinePower(), vs.QuorumThreshold();
    QuorumSplitsTotal(vs);
    forall who ensures Halts(vs, who) <==> vs.Power(who) >= ceiling + 1 { HaltingPower(vs, who); }
    assert Needs(vs, ceiling + 1, halts) && Needs(vs, quorum, controls);
    ghost var vhs := AsHolders(vs.validators);
    var byValidator := seq(|vs.validators|, i requires 0 <= i < |vs.validators| => vs.validators[i].power);
    assert byValidator == PowersOf(vhs);
    var chs := PowerByCountry(vs);
    var byCountry := PowersOf(chs);
    WholeSetReaches(vs, vhs, ceiling + 1);
    WholeSetReaches(vs, vhs, quorum);
    WholeSetReaches(vs, chs, ceiling + 1);
    WholeSetReaches(vs, chs, quorum);
    var halt := MinCoalition(byValidator, ceiling + 1, vhs);
    var control := MinCoalition(byValidator, quorum, vhs);
    var countryHalt := MinCoalition(byCountry, ceiling + 1, chs);
    var countryControl := MinCoalition(byCountry, quorum, chs);
    ValidatorFigure(vs, ceiling + 1, halt, halts);
    ValidatorFigure(vs, quorum, control, controls);
    CountryFigure(vs, chs, ceiling + 1, countryHalt, halts);
    CountryFigure(vs, chs, quorum, countryControl, controls);
    CountriesNeverExceedValidators(vs, ceiling + 1, halts, halt, countryHalt);
    CountriesNeverExceedValidators(vs, quorum, controls, control, countryControl);
    CountIds(chs);
    d := Decentralization(|vs.validators|, vs.totalPower, halt, control, |byCountry|, countryHalt, countryControl);
  }
}
