/** Vocabulary shared by every part of the model: optional and fallible values,
    the machine integers of the source, and the two library routines (binary
    search, stable sort) whose results the source relies on. */
module Base {

  datatype Option<+T> = None | Some(value: T)

  datatype Result<+T, +E> = Ok(value: T) | Err(error: E)

  /** Addresses are compared as byte strings; only their total order matters. */
  type Address = nat

  /** A 32-byte digest, compared for equality only. */
  type Hash32 = nat

  const U32_MAX: nat := 0xFFFF_FFFF
  const U64_MAX: nat := 0xFFFF_FFFF_FFFF_FFFF
  const U128_MAX: nat := 0xFFFF_FFFF_FFFF_FFFF_FFFF_FFFF_FFFF_FFFF

  type U32 = n: nat | n <= U32_MAX
  type U64 = n: nat | n <= U64_MAX

  /** u64 addition that stops at the top instead of wrapping. */
  function SaturatingAdd64(a: U64, b: U64): U64 {
    if a + b <= U64_MAX then a + b else U64_MAX
  }

  /** u64 subtraction that stops at zero. */
  function SaturatingSub64(a: U64, b: U64): U64 {
    if b <= a then a - b else 0
  }

  // -- binary search over a sorted key list ---------------------------------

  ghost predicate StrictlyAscending(keys: seq<nat>) {
    forall i, j :: 0 <= i < j < |keys| ==> keys[i] < keys[j]
  }

  /** `Ok(at)` and `Err(at)` of a binary search: where the key is, or where it
      would have to be inserted. */
  datatype Slot = Found(at: nat) | Missing(at: nat)

  function Search(keys: seq<nat>, key: nat): (r: Slot)
    requires StrictlyAscending(keys)
    ensures r.Found? ==> r.at < |keys| && keys[r.at] == key
    ensures r.Missing? ==>
              && r.at <= |keys|
              && (forall i :: 0 <= i < r.at ==> keys[i] < key)
              && (forall i :: r.at <= i < |keys| ==> key < keys[i])
  {
    SearchBetween(keys, key, 0, |keys|)
  }

  function SearchBetween(keys: seq<nat>, key: nat, lo: nat, hi: nat): (r: Slot)
    requires StrictlyAscending(keys)
    requires lo <= hi <= |keys|
    requires forall i :: 0 <= i < lo ==> keys[i] < key
    requires forall i :: hi <= i < |keys| ==> key < keys[i]
    ensures r.Found? ==> r.at < |keys| && keys[r.at] == key
    ensures r.Missing? ==>
              && r.at <= |keys|
              && (forall i :: 0 <= i < r.at ==> keys[i] < key)
              && (forall i :: r.at <= i < |keys| ==> key < keys[i])
    decreases hi - lo
  {
    if lo == hi then Missing(lo)
    else
      var mid := (lo + hi) / 2;
      if keys[mid] == key then Found(mid)
      else if keys[mid] < key then SearchBetween(keys, key, mid + 1, hi)
      else SearchBetween(keys, key, lo, mid)
  }

  /** A sorted list with one key more. */
  function InsertKey(s: seq<nat>, key: nat): (t: seq<nat>)
    requires StrictlyAscending(s)
    ensures StrictlyAscending(t)
    ensures forall x :: x in t <==> x == key || x in s
  {
    match Search(s, key)
    case Found(_) => s
    case Missing(at) =>
      assert s == s[..at] + s[at..];
      s[..at] + [key] + s[at..]
  }

  /** Sorted, without repeats. */
  function SortedKeys(s: seq<nat>): (t: seq<nat>)
    ensures StrictlyAscending(t)
    ensures forall x :: x in t <==> x in s
  {
    if s == [] then [] else InsertKey(SortedKeys(s[1..]), s[0])
  }

  // -- stable sort by a key -------------------------------------------------

  ghost predicate Ascending<T>(s: seq<T>, key: T -> int) {
    forall i, j :: 0 <= i < j < |s| ==> key(s[i]) <= key(s[j])
  }

  function Insert<T>(x: T, s: seq<T>, key: T -> int): (r: seq<T>)
    requires Ascending(s, key)
    ensures |r| == |s| + 1
    ensures multiset(r) == multiset(s) + multiset{x}
    ensures Ascending(r, key)
  {
    if |s| == 0 || key(s[|s| - 1]) <= key(x) then
      s + [x]
    else
      var front := s[..|s| - 1];
      assert s == front + [s[|s| - 1]];
      var r0 := Insert(x, front, key);
      assert forall i | 0 <= i < |r0| :: key(r0[i]) <= key(s[|s| - 1]) by {
        forall i | 0 <= i < |r0| ensures key(r0[i]) <= key(s[|s| - 1]) {
          assert r0[i] in multiset(r0);
          assert r0[i] in multiset(front) || r0[i] == x;
        }
      }
      r0 + [s[|s| - 1]]
  }

  lemma {:induction false} InsertUnfolds<T>(x: T, s: seq<T>, key: T -> int)
    requires Ascending(s, key)
    ensures |s| == 0 || key(s[|s| - 1]) <= key(x) ==> Insert(x, s, key) == s + [x]
    ensures |s| > 0 && key(s[|s| - 1]) > key(x) ==> Insert(x, s, key) == Insert(x, s[..|s| - 1], key) + [s[|s| - 1]]
  {
  }

  function SortBy<T>(s: seq<T>, key: T -> int): (r: seq<T>)
    ensures |r| == |s|
    ensures multiset(r) == multiset(s)
    ensures Ascending(r, key)
  {
    if |s| == 0 then []
    else
      assert s == s[..|s| - 1] + [s[|s| - 1]];
      Insert(s[|s| - 1], SortBy(s[..|s| - 1], key), key)
  }
}
