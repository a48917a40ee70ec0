/** The authority record of one sovereign denomination
    (crates/bank/src/issuer.rs). The record is a value of the store: it is
    loaded, changed and written back whole, and a record that breaks `Sound`
    does not decode. */
module Issuers {
  import opened Base

  type Amount = n: nat | n <= U128_MAX

  const MAX_MINTERS: nat := 16

  datatype Minter = Minter(address: Address, allowance: Amount)

  datatype IssuerRecord = IssuerRecord(
    authority: Address,
    pending: Option<Address>,
    minters: seq<Minter>,
    freezer: Option<Address>,
    maxSupply: Option<Amount>,
    paused: bool)

  datatype IssuerError = TooManyMinters | CapWouldRise | NotPendingAuthority | AuthorityUnchanged

  function Keys(ms: seq<Minter>): (ks: seq<nat>)
    ensures |ks| == |ms| && forall i :: 0 <= i < |ms| ==> ks[i] == ms[i].address
  {
    seq(|ms|, i requires 0 <= i < |ms| => ms[i].address)
  }

  /** What a stored record satisfies: the checks its decoder makes. */
  ghost predicate Sound(r: IssuerRecord) {
    && |r.minters| <= MAX_MINTERS
    && StrictlyAscending(Keys(r.minters))
    && (forall i :: 0 <= i < |r.minters| ==> r.minters[i].allowance > 0)
    && r.pending != Some(r.authority)
  }

  type Issuer = r: IssuerRecord | Sound(r) witness IssuerRecord(0, None, [], None, None, false)

  function NewIssuer(authority: Address): Issuer { IssuerRecord(authority, None, [], None, None, false) }

  predicate MayFreeze(issuer: Issuer, account: Address) {
    match issuer.freezer
    case None => issuer.authority == account
    case Some(f) => f == account
  }

  predicate IsMinter(issuer: Issuer, a: Address) { Search(Keys(issuer.minters), a).Found? }

  function AllowanceOf(issuer: Issuer, a: Address): (allowance: Amount)
    ensures IsMinter(issuer, a) <==> allowance > 0
  {
    match Search(Keys(issuer.minters), a)
    case Found(at) => issuer.minters[at].allowance
    case Missing(_) => 0
  }

  /** The list says who may mint how much: an entry is an address's allowance, and no entry is none. */
  ghost predicate Lists(ms: seq<Minter>, a: Address, allowance: Amount) {
    if allowance == 0 then forall m :: m in ms ==> m.address != a
    else Minter(a, allowance) in ms
  }

  lemma DistinctMinters(issuer: Issuer, i: nat, j: nat)
    requires i < |issuer.minters| && j < |issuer.minters| && i != j
    ensures issuer.minters[i].address != issuer.minters[j].address
  {
    assert Keys(issuer.minters)[i] != Keys(issuer.minters)[j];
  }

  lemma OneEntryEach(issuer: Issuer, m: Minter, n: Minter)
    requires m in issuer.minters && n in issuer.minters && m.address == n.address
    ensures m == n
  {
    var i: nat :| i < |issuer.minters| && issuer.minters[i] == m;
    var j: nat :| j < |issuer.minters| && issuer.minters[j] == n;
    assert Keys(issuer.minters)[i] == Keys(issuer.minters)[j];
  }

  lemma AllowanceIsListed(issuer: Issuer, a: Address, x: Amount)
    ensures Lists(issuer.minters, a, x) <==> x == AllowanceOf(issuer, a)
  {
    var ms := issuer.minters;
    match Search(Keys(ms), a)
    case Found(at) =>
      if Lists(ms, a, x) {
        assert ms[at] in ms;
        OneEntryEach(issuer, Minter(a, x), ms[at]);
      }
    case Missing(at) =>
      forall m | m in ms ensures m.address != a {
        var i :| 0 <= i < |ms| && ms[i] == m;
        assert Keys(ms)[i] != a;
      }
  }

  /** Authorise for exactly `x`, or remove at zero. */
  function SetMinter(issuer: Issuer, a: Address, x: Amount): (r: Result<Issuer, IssuerError>)
    ensures r.Err? <==> AllowanceOf(issuer, a) == 0 && x > 0 && |issuer.minters| >= MAX_MINTERS
    ensures r.Ok? ==> r.value == issuer.(minters := r.value.minters)
    ensures r.Ok? ==> forall b :: AllowanceOf(r.value, b) == if b == a then x else AllowanceOf(issuer, b)
  {
    var ms := issuer.minters;
    match Search(Keys(ms), a)
    case Found(at) =>
      WithoutStaysSound(issuer, at);
      ReplacedStaysSound(issuer, at, if x == 0 then 1 else x);
      if x == 0 then Ok(issuer.(minters := ms[..at] + ms[at + 1..]))
      else Ok(issuer.(minters := ms[at := Minter(a, x)]))
    case Missing(at) =>
      if x == 0 then Ok(issuer)
      else if |ms| >= MAX_MINTERS then Err(TooManyMinters)
      else
        InsertedStaysSound(issuer, at, a, x);
        Ok(issuer.(minters := ms[..at] + [Minter(a, x)] + ms[at..]))
  }

  /** Draw `x` against an allowance; `None` where the source answers false. */
  function SpendAllowance(issuer: Issuer, a: Address, x: Amount): (r: Option<Issuer>)
    ensures r.Some? <==> IsMinter(issuer, a) && x <= AllowanceOf(issuer, a)
    ensures r.Some? ==> r.value == issuer.(minters := r.value.minters)
    ensures r.Some? ==> forall b :: AllowanceOf(r.value, b) + (if b == a then x else 0) == AllowanceOf(issuer, b)
  {
    var ms := issuer.minters;
    match Search(Keys(ms), a)
    case Missing(_) => None
    case Found(at) =>
      if ms[at].allowance < x then None
      else
        var remaining := ms[at].allowance - x;
        WithoutStaysSound(issuer, at);
        ReplacedStaysSound(issuer, at, if remaining == 0 then 1 else remaining);
        if remaining == 0 then Some(issuer.(minters := ms[..at] + ms[at + 1..]))
        else Some(issuer.(minters := ms[at := Minter(a, remaining)]))
  }

  lemma WithoutStaysSound(issuer: Issuer, at: nat)
    requires at < |issuer.minters|
    ensures var r := issuer.(minters := issuer.minters[..at] + issuer.minters[at + 1..]);
      Sound(r) && forall b :: AllowanceOf(r, b) == if b == issuer.minters[at].address then 0 else AllowanceOf(issuer, b)
  {
    var ms := issuer.minters;
    var r := issuer.(minters := ms[..at] + ms[at + 1..]);
    AscendingWithout(Keys(ms), at);
    assert Keys(r.minters) == Keys(ms)[..at] + Keys(ms)[at + 1..];
    forall b ensures AllowanceOf(r, b) == if b == ms[at].address then 0 else AllowanceOf(issuer, b) {
      ListsWithout(issuer, at, b);
      AllowanceIsListed(r, b, if b == ms[at].address then 0 else AllowanceOf(issuer, b));
    }
  }

  lemma AscendingWithout(keys: seq<nat>, at: nat)
    requires StrictlyAscending(keys) && at < |keys|
    ensures StrictlyAscending(keys[..at] + keys[at + 1..])
  {
  }

  lemma AscendingWith(keys: seq<nat>, at: nat, key: nat)
    requires StrictlyAscending(keys) && Search(keys, key) == Missing(at)
    ensures StrictlyAscending(keys[..at] + [key] + keys[at..])
  {
  }

  lemma ListsWithout(issuer: Issuer, at: nat, b: Address)
    requires at < |issuer.minters|
    ensures Lists(issuer.minters[..at] + issuer.minters[at + 1..], b,
                  if b == issuer.minters[at].address then 0 else AllowanceOf(issuer, b))
  {
    var ms := issuer.minters;
    var ms' := ms[..at] + ms[at + 1..];
    if b == ms[at].address {
      forall m | m in ms' ensures m.address != b {
        var i :| 0 <= i < |ms'| && ms'[i] == m;
        DistinctMinters(issuer, if i < at then i else i + 1, at);
      }
    } else {
      AllowanceIsListed(issuer, b, AllowanceOf(issuer, b));
      assert ms == ms[..at] + [ms[at]] + ms[at + 1..];
    }
  }

  lemma ReplacedStaysSound(issuer: Issuer, at: nat, x: Amount)
    requires at < |issuer.minters| && x > 0
    ensures var a := issuer.minters[at].address;
      var r := issuer.(minters := issuer.minters[at := Minter(a, x)]);
      Sound(r) && forall b :: AllowanceOf(r, b) == if b == a then x else AllowanceOf(issuer, b)
  {
    var ms := issuer.minters;
    assert Keys(ms[at := Minter(ms[at].address, x)]) == Keys(ms);
  }

  lemma InsertedStaysSound(issuer: Issuer, at: nat, a: Address, x: Amount)
    requires Search(Keys(issuer.minters), a) == Missing(at) && |issuer.minters| < MAX_MINTERS && x > 0
    ensures var r := issuer.(minters := issuer.minters[..at] + [Minter(a, x)] + issuer.minters[at..]);
      Sound(r) && forall b :: AllowanceOf(r, b) == if b == a then x else AllowanceOf(issuer, b)
  {
    var ms := issuer.minters;
    var r := issuer.(minters := ms[..at] + [Minter(a, x)] + ms[at..]);
    AscendingWith(Keys(ms), at, a);
    assert Keys(r.minters) == Keys(ms)[..at] + [a] + Keys(ms)[at..];
    forall b ensures AllowanceOf(r, b) == if b == a then x else AllowanceOf(issuer, b) {
      ListsInserted(issuer, at, a, x, b);
      AllowanceIsListed(r, b, if b == a then x else AllowanceOf(issuer, b));
    }
  }

  lemma ListsInserted(issuer: Issuer, at: nat, a: Address, x: Amount, b: Address)
    requires Search(Keys(issuer.minters), a) == Missing(at) && x > 0
    ensures Lists(issuer.minters[..at] + [Minter(a, x)] + issuer.minters[at..], b,
                  if b == a then x else AllowanceOf(issuer, b))
  {
    var ms := issuer.minters;
    if b != a {
      AllowanceIsListed(issuer, b, AllowanceOf(issuer, b));
      assert ms == ms[..at] + ms[at..];
    }
  }

  function OfferAuthority(issuer: Issuer, to: Option<Address>): (r: Result<Issuer, IssuerError>)
    ensures r.Ok? ==> r.value.authority == issuer.authority && r.value.minters == issuer.minters
  {
    if to == Some(issuer.authority) then Err(AuthorityUnchanged) else Ok(issuer.(pending := to))
  }

  function AcceptAuthority(issuer: Issuer, caller: Address): (r: Result<Issuer, IssuerError>)
    ensures r.Ok? ==> issuer.pending == Some(caller) && r.value.minters == issuer.minters
  {
    if issuer.pending != Some(caller) then Err(NotPendingAuthority)
    else Ok(issuer.(authority := caller, pending := None))
  }

  /** A cap `now` that leaves no more room than `was`. */
  predicate NoLooser(was: Option<Amount>, now: Option<Amount>) {
    was.Some? ==> now.Some? && now.value <= was.value
  }

  function TightenCap(issuer: Issuer, cap: Amount): (r: Result<Issuer, IssuerError>)
    ensures r.Ok? <==> NoLooser(issuer.maxSupply, Some(cap))
    ensures r.Ok? ==> r.value == issuer.(maxSupply := Some(cap))
  {
    if issuer.maxSupply.Some? && cap > issuer.maxSupply.value then Err(CapWouldRise)
    else Ok(issuer.(maxSupply := Some(cap)))
  }
}
