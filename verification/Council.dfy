/** The council, its threshold and the jurisdiction cap
    (crates/gov/src/council.rs). */
module Council {
  import opened Base

  const MAX_SEATS: nat := 32
  const MIN_COUNCIL_THRESHOLD_BPS: nat := 6667
  const BPS: nat := 10000

  type Country = nat

  datatype Seat = Seat(holder: Address, weight: U32, country: Country)

  datatype CouncilRecord = CouncilRecord(seats: seq<Seat>, threshold: nat)

  datatype CouncilError =
    | Empty | TooManySeats | UnsortedSeats | ZeroWeight | Threshold
    | CountryConcentration(country: Country, found: nat)

  function Holders(seats: seq<Seat>): (ks: seq<nat>)
    ensures |ks| == |seats| && forall i :: 0 <= i < |seats| ==> ks[i] == seats[i].holder
  {
    seq(|seats|, i requires 0 <= i < |seats| => seats[i].holder)
  }

  /** What construction checks; a stored record has passed it. */
  ghost predicate Sound(c: CouncilRecord) {
    && 0 < |c.seats| <= MAX_SEATS
    && StrictlyAscending(Holders(c.seats))
    && (forall i :: 0 <= i < |c.seats| ==> c.seats[i].weight > 0)
    && MIN_COUNCIL_THRESHOLD_BPS <= c.threshold <= BPS
  }

  type Council = c: CouncilRecord | Sound(c) witness CouncilRecord([Seat(0, 1, 0)], BPS)

  method NewCouncil(seats: seq<Seat>, threshold: nat) returns (r: Result<CouncilRecord, CouncilError>)
    ensures r.Ok? <==> Sound(CouncilRecord(seats, threshold))
    ensures r.Ok? ==> r.value == CouncilRecord(seats, threshold)
  {
    if seats == [] {
      return Err(Empty);
    }
    if |seats| > MAX_SEATS {
      return Err(TooManySeats);
    }
    var i := 1;
    while i < |seats|
      invariant 1 <= i <= |seats| && StrictlyAscending(Holders(seats[..i]))
    {
      if seats[i - 1].holder >= seats[i].holder {
        assert Holders(seats)[i - 1] >= Holders(seats)[i];
        return Err(UnsortedSeats);
      }
      assert forall k :: 0 <= k < i ==> Holders(seats[..i])[k] == seats[k].holder;
      assert Holders(seats[..i])[i - 1] == seats[i - 1].holder;
      i := i + 1;
    }
    assert seats[..i] == seats;
    if exists k :: 0 <= k < |seats| && seats[k].weight == 0 {
      return Err(ZeroWeight);
    }
    if threshold < MIN_COUNCIL_THRESHOLD_BPS || threshold > BPS {
      return Err(Threshold);
    }
    return Ok(CouncilRecord(seats, threshold));
  }

  // -- weights --------------------------------------------------------------

  /** The weight of the seats that satisfy `f`. */
  function Weight(seats: seq<Seat>, f: Seat -> bool): nat {
    if seats == [] then 0
    else (if f(seats[0]) then seats[0].weight else 0) + Weight(seats[1..], f)
  }

  function TotalWeight(c: Council): nat { Weight(c.seats, (s: Seat) => true) }

  function HeldBy(c: Council, country: Country): nat { Weight(c.seats, (s: Seat) => s.country == country) }

  /** The weight of a body of voters. */
  function WeightOfVoters(c: Council, voters: set<Address>): nat { Weight(c.seats, (s: Seat) => s.holder in voters) }

  /** What one account votes with; zero without a seat. */
  function WeightOf(c: Council, a: Address): U32 {
    match Search(Holders(c.seats), a)
    case Found(at) => c.seats[at].weight
    case Missing(_) => 0
  }

  predicate IsSeated(c: Council, a: Address) { WeightOf(c, a) > 0 }

  predicate Reached(c: Council, weight: nat) { weight * BPS >= TotalWeight(c) * c.threshold }

  lemma {:induction false} WeightGrows(seats: seq<Seat>, f: Seat -> bool, g: Seat -> bool)
    requires forall s :: s in seats && f(s) ==> g(s)
    ensures Weight(seats, f) <= Weight(seats, g)
  {
    if seats != [] {
      assert seats[0] in seats;
      WeightGrows(seats[1..], f, g);
    }
  }

  lemma {:induction false} WeightOfUnion(seats: seq<Seat>, f: Seat -> bool, g: Seat -> bool, either: Seat -> bool)
    requires forall s :: s in seats && either(s) ==> f(s) || g(s)
    ensures Weight(seats, either) <= Weight(seats, f) + Weight(seats, g)
  {
    if seats != [] {
      assert seats[0] in seats;
      WeightOfUnion(seats[1..], f, g, either);
    }
  }

  lemma {:induction false} WeightSplits(seats: seq<Seat>, f: Seat -> bool, g: Seat -> bool, both: Seat -> bool)
    requires forall s :: s in seats ==> both(s) == (f(s) || g(s)) && !(f(s) && g(s))
    ensures Weight(seats, both) == Weight(seats, f) + Weight(seats, g)
  {
    if seats != [] {
      assert seats[0] in seats;
      WeightSplits(seats[1..], f, g, both);
    }
  }

  lemma {:induction false} NoWeight(seats: seq<Seat>, f: Seat -> bool)
    requires forall s :: s in seats ==> !f(s)
    ensures Weight(seats, f) == 0
  {
    if seats != [] {
      assert seats[0] in seats;
      NoWeight(seats[1..], f);
    }
  }

  lemma TotalIsPositive(c: Council)
    ensures TotalWeight(c) > 0
  {
    assert c.seats[0].weight > 0;
  }

  lemma {:induction false} WeightAt(seats: seq<Seat>, at: nat, f: Seat -> bool)
    requires at < |seats| && forall i :: 0 <= i < |seats| ==> f(seats[i]) == (i == at)
    ensures Weight(seats, f) == seats[at].weight
  {
    assert forall i :: 0 <= i < |seats[1..]| ==> seats[1..][i] == seats[i + 1];
    if at == 0 {
      assert f(seats[0]);
      NoWeight(seats[1..], f);
    } else {
      assert !f(seats[0]);
      WeightAt(seats[1..], at - 1, f);
    }
  }

  /** One account's weight is the weight of its seat. */
  lemma WeightOfOne(c: Council, a: Address, f: Seat -> bool)
    requires forall s :: s in c.seats ==> f(s) == (s.holder == a)
    ensures Weight(c.seats, f) == WeightOf(c, a)
  {
    var ks := Holders(c.seats);
    match Search(ks, a)
    case Found(at) =>
      forall i | 0 <= i < |c.seats| ensures f(c.seats[i]) == (i == at) {
        assert c.seats[i] in c.seats;
        assert i != at ==> ks[i] != ks[at];
      }
      WeightAt(c.seats, at, f);
    case Missing(at) =>
      forall s | s in c.seats ensures !f(s) {
        var i :| 0 <= i < |c.seats| && c.seats[i] == s;
        assert ks[i] != a;
      }
      NoWeight(c.seats, f);
  }

  /** The sum over a list of distinct voters is the weight of those voters. */
  function Tally(c: Council, votes: seq<Address>): nat {
    if votes == [] then 0 else Tally(c, votes[..|votes| - 1]) + WeightOf(c, votes[|votes| - 1])
  }

  function Voters(votes: seq<Address>): set<Address> { set a | a in votes }

  lemma {:induction false} TallyIsWeight(c: Council, votes: seq<Address>)
    requires StrictlyAscending(votes)
    ensures Tally(c, votes) == WeightOfVoters(c, Voters(votes))
    decreases |votes|
  {
    if votes == [] {
      NoWeight(c.seats, (s: Seat) => s.holder in Voters(votes));
    } else {
      var front, last := votes[..|votes| - 1], votes[|votes| - 1];
      assert votes == front + [last];
      TallyIsWeight(c, front);
      assert forall i :: 0 <= i < |front| ==> front[i] == votes[i] < last;
      WeightOfOne(c, last, (s: Seat) => s.holder == last);
      WeightSplits(c.seats, (s: Seat) => s.holder in Voters(front), (s: Seat) => s.holder == last,
                   (s: Seat) => s.holder in Voters(votes));
    }
  }

  method CountVotes(c: Council, votes: seq<Address>) returns (tally: nat)
    requires StrictlyAscending(votes)
    ensures tally == WeightOfVoters(c, Voters(votes))
  {
    tally := 0;
    var i := 0;
    while i < |votes|
      invariant 0 <= i <= |votes| && tally == Tally(c, votes[..i])
    {
      assert votes[..i + 1][..i] == votes[..i];
      tally := tally + WeightOf(c, votes[i]);
      i := i + 1;
    }
    assert votes[..i] == votes;
    TallyIsWeight(c, votes);
  }

  // -- concentration --------------------------------------------------------

  /** No jurisdiction's share is above the cap: exactly, with no rounding. */
  ghost predicate WithinCap(c: Council, cap: nat) {
    forall country :: HeldBy(c, country) * BPS <= cap * TotalWeight(c)
  }

  /** A share in basis points, rounded up. */
  function ShareBps(held: nat, total: nat): nat
    requires total > 0
  {
    (held * BPS + total - 1) / total
  }

  lemma ProductsOrdered(a: nat, b: nat, t: nat)
    requires a <= b
    ensures a * t <= b * t
  {
  }

  lemma ShareIsExact(held: nat, total: nat, cap: nat)
    requires total > 0
    ensures ShareBps(held, total) <= cap <==> held * BPS <= cap * total
  {
    var q, rest := ShareBps(held, total), (held * BPS + total - 1) % total;
    assert held * BPS + total - 1 == q * total + rest;
    if q <= cap {
      ProductsOrdered(q, cap, total);
    } else {
      ProductsOrdered(cap + 1, q, total);
      assert (cap + 1) * total == cap * total + total;
    }
  }

  function Countries(seats: seq<Seat>): (cs: seq<nat>)
    ensures |cs| == |seats| && forall i :: 0 <= i < |seats| ==> cs[i] == seats[i].country
  {
    seq(|seats|, i requires 0 <= i < |seats| => seats[i].country)
  }

  /** The heaviest jurisdiction decides: a council passes the check exactly when
      every jurisdiction is within the cap. */
  method CheckConcentration(c: Council, cap: nat) returns (r: Result<(), CouncilError>)
    ensures r.Ok? <==> WithinCap(c, cap)
    ensures r.Err? ==> r.error.CountryConcentration? && HeldBy(c, r.error.country) * BPS > cap * TotalWeight(c)
  {
    var total := TotalWeight(c);
    TotalIsPositive(c);
    var countries := SortedKeys(Countries(c.seats));
    assert Countries(c.seats)[0] in countries;
    var worst: Option<(Country, nat)> := None;
    var i := 0;
    while i < |countries|
      invariant 0 <= i <= |countries|
      invariant worst.None? <==> i == 0
      invariant worst.Some? ==> worst.value.1 == ShareBps(HeldBy(c, worst.value.0), total)
      invariant forall k :: 0 <= k < i ==> ShareBps(HeldBy(c, countries[k]), total) <= worst.value.1
    {
      var bps := ShareBps(HeldBy(c, countries[i]), total);
      if worst.None? || bps > worst.value.1 {
        worst := Some((countries[i], bps));
      }
      i := i + 1;
    }
    ShareIsExact(HeldBy(c, worst.value.0), total, cap);
    if worst.value.1 > cap {
      return Err(CountryConcentration(worst.value.0, worst.value.1));
    }
    forall country ensures HeldBy(c, country) * BPS <= cap * total {
      CountryWithin(c, countries, country, total, worst.value.1, cap);
    }
    return Ok(());
  }

  lemma {:induction false} CountryWithin(c: Council, countries: seq<nat>, country: Country, total: nat, worst: nat,
                                         cap: nat)
    requires total == TotalWeight(c) > 0 && worst <= cap
    requires forall x :: x in countries <==> x in Countries(c.seats)
    requires forall k :: 0 <= k < |countries| ==> ShareBps(HeldBy(c, countries[k]), total) <= worst
    ensures HeldBy(c, country) * BPS <= cap * total
  {
    if country in countries {
      ShareIsExact(HeldBy(c, country), total, cap);
    } else {
      forall s | s in c.seats ensures s.country != country {
        var k :| 0 <= k < |c.seats| && c.seats[k] == s;
        assert Countries(c.seats)[k] in countries;
      }
      NoWeight(c.seats, (s: Seat) => s.country == country);
    }
  }

  // -- what the cap guarantees ----------------------------------------------

  lemma TwoShares(x: nat, y: nat, w: nat, total: nat, cap: nat, threshold: nat)
    requires w <= x + y && x * BPS <= cap * total && y * BPS <= cap * total
    requires 2 * cap < threshold && total > 0
    ensures w * BPS < total * threshold
  {
    assert 2 * cap * total < threshold * total;
  }

  lemma OtherShares(x: nat, others: nat, w: nat, total: nat, cap: nat, threshold: nat)
    requires x + others == total && others <= w && x * BPS <= cap * total && cap + threshold <= BPS
    ensures w * BPS >= total * threshold
  {
    assert (cap + threshold) * total <= BPS * total;
  }

  /** If twice the cap is below the threshold, no two jurisdictions can pass a
      proposal by themselves. */
  lemma {:induction false} TwoCannotPass(c: Council, cap: nat, voters: set<Address>, x: Country, y: Country)
    requires WithinCap(c, cap) && 2 * cap < c.threshold
    requires forall s :: s in c.seats && s.holder in voters ==> s.country == x || s.country == y
    ensures !Reached(c, WeightOfVoters(c, voters))
  {
    WeightOfUnion(c.seats, (s: Seat) => s.country == x, (s: Seat) => s.country == y, (s: Seat) => s.holder in voters);
    TotalIsPositive(c);
    TwoShares(HeldBy(c, x), HeldBy(c, y), WeightOfVoters(c, voters), TotalWeight(c), cap, c.threshold);
  }

  /** If cap and threshold together are at most the whole, no single jurisdiction
      can block what all the others want. */
  lemma {:induction false} OneCannotBlock(c: Council, cap: nat, voters: set<Address>, x: Country)
    requires WithinCap(c, cap) && cap + c.threshold <= BPS
    requires forall s :: s in c.seats && s.country != x ==> s.holder in voters
    ensures Reached(c, WeightOfVoters(c, voters))
  {
    WeightSplits(c.seats, (s: Seat) => s.country == x, (s: Seat) => s.country != x, (s: Seat) => true);
    WeightGrows(c.seats, (s: Seat) => s.country != x, (s: Seat) => s.holder in voters);
    OtherShares(HeldBy(c, x), Weight(c.seats, (s: Seat) => s.country != x), WeightOfVoters(c, voters),
                TotalWeight(c), cap, c.threshold);
  }
}
