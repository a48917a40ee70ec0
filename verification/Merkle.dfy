/** RFC 6962 Merkle trees (crates/crypto/src/merkle.rs). The node hash and the
    hash of the empty tree are arbitrary; nothing is assumed of them. Where the
    source relies on collision resistance, the statement here is that the claim
    holds or two of the pairs actually hashed collide. */
module Merkle {
  import opened Base

  datatype Hasher = Hasher(node: (Hash32, Hash32) -> Hash32, empty: Hash32)

  type Pair = (Hash32, Hash32)

  /** Two different pairs among those hashed have the same node hash. */
  ghost predicate CollisionAmong(h: Hasher, pairs: set<Pair>) {
    exists p, q :: p in pairs && q in pairs && p != q && h.node(p.0, p.1) == h.node(q.0, q.1)
  }

  lemma CollisionGrows(h: Hasher, pairs: set<Pair>, more: set<Pair>)
    requires pairs <= more && CollisionAmong(h, pairs)
    ensures CollisionAmong(h, more)
  {
  }

  // -- the split ------------------------------------------------------------

  ghost predicate IsPowerOfTwo(k: nat) {
    k == 1 || (k > 1 && k % 2 == 0 && IsPowerOfTwo(k / 2))
  }

  /** The largest power of two strictly below `n`. */
  function SplitPoint(n: nat): (k: nat)
    requires n >= 2
    ensures 0 < k < n <= 2 * k
  {
    if n == 2 then 1 else 2 * SplitPoint((n + 1) / 2)
  }

  lemma {:induction false} SplitPointIsPowerOfTwo(n: nat)
    requires n >= 2
    ensures IsPowerOfTwo(SplitPoint(n))
  {
    if n > 2 { SplitPointIsPowerOfTwo((n + 1) / 2); }
  }

  /** There is only one power of two in each such range. */
  lemma {:induction false} PowerOfTwoUnique(j: nat, k: nat, n: nat)
    requires IsPowerOfTwo(j) && IsPowerOfTwo(k)
    requires j < n <= 2 * j && k < n <= 2 * k
    ensures j == k
    decreases n
  {
    if j > 1 && k > 1 {
      PowerOfTwoUnique(j / 2, k / 2, (n + 1) / 2);
    }
  }

  /** Every size between the split and the next split has the same split. */
  lemma SameSplit(m: nat, n: nat)
    requires n >= 2 && SplitPoint(n) < m <= n
    ensures m >= 2 && SplitPoint(m) == SplitPoint(n)
  {
    SplitPointIsPowerOfTwo(n);
    SplitPointIsPowerOfTwo(m);
    PowerOfTwoUnique(SplitPoint(m), SplitPoint(n), m);
  }

  /** The doubling loop, with its saturating multiplication, on any usize. */
  method ComputeSplitPoint(n: nat) returns (k: nat)
    requires 2 <= n <= U64_MAX
    ensures k == SplitPoint(n)
  {
    k := 1;
    while SaturatingDouble(k) < n
      invariant IsPowerOfTwo(k) && 0 < k < n
      decreases n - k
    {
      k := SaturatingDouble(k);
    }
    SplitPointIsPowerOfTwo(n);
    PowerOfTwoUnique(k, SplitPoint(n), n);
  }

  function SaturatingDouble(k: nat): nat {
    if k * 2 <= U64_MAX then k * 2 else U64_MAX
  }

  // -- roots ----------------------------------------------------------------

  function RootOf(h: Hasher, leaves: seq<Hash32>): Hash32 {
    if |leaves| == 0 then h.empty
    else if |leaves| == 1 then leaves[0]
    else
      var k := SplitPoint(|leaves|);
      h.node(RootOf(h, leaves[..k]), RootOf(h, leaves[k..]))
  }

  /** Every pair hashed on the way to a root. */
  ghost function PairsOf(h: Hasher, leaves: seq<Hash32>): set<Pair> {
    if |leaves| <= 1 then {}
    else
      var k := SplitPoint(|leaves|);
      {(RootOf(h, leaves[..k]), RootOf(h, leaves[k..]))} + PairsOf(h, leaves[..k]) + PairsOf(h, leaves[k..])
  }

  /** A root of a known size commits to the whole list. */
  lemma {:induction false} RootCommits(h: Hasher, a: seq<Hash32>, b: seq<Hash32>)
    requires |a| == |b| && RootOf(h, a) == RootOf(h, b)
    ensures a == b || CollisionAmong(h, PairsOf(h, a) + PairsOf(h, b))
    decreases |a|
  {
    if |a| >= 2 {
      var k := SplitPoint(|a|);
      var pa, pb := (RootOf(h, a[..k]), RootOf(h, a[k..])), (RootOf(h, b[..k]), RootOf(h, b[k..]));
      var all := PairsOf(h, a) + PairsOf(h, b);
      assert pa in all && pb in all;
      if pa == pb {
        RootCommits(h, a[..k], b[..k]);
        RootCommits(h, a[k..], b[k..]);
        if a[..k] != b[..k] {
          CollisionGrows(h, PairsOf(h, a[..k]) + PairsOf(h, b[..k]), all);
        } else if a[k..] != b[k..] {
          CollisionGrows(h, PairsOf(h, a[k..]) + PairsOf(h, b[k..]), all);
        } else {
          assert a == a[..k] + a[k..] && b == b[..k] + b[k..];
        }
      } else {
        assert h.node(pa.0, pa.1) == h.node(pb.0, pb.1);
      }
    }
  }

  datatype ProofError = IndexOutOfRange | SizeOutOfRange | WrongPosition | WrongSiblingCount | RootMismatch
                      | RanOutOfNodes | SpareNodes | OldRootMismatch | NewRootMismatch | WrongSizes | NotEmpty

  // -- inclusion proofs: the prover -----------------------------------------

  datatype MerkleProof = MerkleProof(index: nat, total: nat, siblings: seq<Hash32>)

  /** The siblings on the path to `index`, from the root down. */
  function Siblings(h: Hasher, leaves: seq<Hash32>, index: nat): seq<Hash32>
    requires index < |leaves|
  {
    if |leaves| <= 1 then []
    else
      var k := SplitPoint(|leaves|);
      if index < k then [RootOf(h, leaves[k..])] + Siblings(h, leaves[..k], index)
      else [RootOf(h, leaves[..k])] + Siblings(h, leaves[k..], index - k)
  }

  method CollectSiblings(h: Hasher, leaves: seq<Hash32>, index: nat, out: seq<Hash32>) returns (out': seq<Hash32>)
    requires index < |leaves| <= U64_MAX
    ensures out' == out + Siblings(h, leaves, index)
    decreases |leaves|
  {
    if |leaves| <= 1 { return out; }
    var k := ComputeSplitPoint(|leaves|);
    if index < k {
      out' := out + [RootOf(h, leaves[k..])];
      out' := CollectSiblings(h, leaves[..k], index, out');
    } else {
      out' := out + [RootOf(h, leaves[..k])];
      out' := CollectSiblings(h, leaves[k..], index - k, out');
    }
  }

  method Prove(h: Hasher, leaves: seq<Hash32>, index: nat) returns (r: Result<MerkleProof, ProofError>)
    requires |leaves| <= U64_MAX
    ensures r.Ok? <==> index < |leaves|
    ensures r.Ok? ==> r.value == MerkleProof(index, |leaves|, Siblings(h, leaves, index))
  {
    if index >= |leaves| { return Err(IndexOutOfRange); }
    var siblings := CollectSiblings(h, leaves, index, []);
    return Ok(MerkleProof(index, |leaves|, siblings));
  }

  // -- inclusion proofs: the verifier ---------------------------------------

  /** Left and right turns from the root of a tree of `total` down to `index`. */
  function Turns(index: nat, total: nat): seq<bool>
    requires index < total
    decreases total
  {
    if total <= 1 then []
    else
      var k := SplitPoint(total);
      if index < k then [true] + Turns(index, k) else [false] + Turns(index - k, total - k)
  }

  /** Climbing from a leaf: the last turn and the last sibling are nearest to it. */
  function Climb(h: Hasher, leaf: Hash32, turns: seq<bool>, siblings: seq<Hash32>): Hash32
    requires |turns| == |siblings|
  {
    if turns == [] then leaf
    else
      var below := Climb(h, leaf, turns[1..], siblings[1..]);
      if turns[0] then h.node(below, siblings[0]) else h.node(siblings[0], below)
  }

  ghost function ClimbPairs(h: Hasher, leaf: Hash32, turns: seq<bool>, siblings: seq<Hash32>): set<Pair>
    requires |turns| == |siblings|
  {
    if turns == [] then {}
    else
      var below := Climb(h, leaf, turns[1..], siblings[1..]);
      {if turns[0] then (below, siblings[0]) else (siblings[0], below)}
      + ClimbPairs(h, leaf, turns[1..], siblings[1..])
  }

  /** A frame stack filled on the way down and emptied on the way up computes the
      same root as the recursion over the tree. */
  method ComputeRoot(h: Hasher, p: MerkleProof, leaf: Hash32) returns (r: Result<Hash32, ProofError>)
    requires p.total <= U64_MAX
    ensures p.index >= p.total <==> r == Err(IndexOutOfRange)
    ensures p.index < p.total ==> (r.Ok? <==> |p.siblings| == |Turns(p.index, p.total)|)
    ensures r.Ok? ==> r.value == Climb(h, leaf, Turns(p.index, p.total), p.siblings)
  {
    if p.total == 0 || p.index >= p.total { return Err(IndexOutOfRange); }
    ghost var turns := Turns(p.index, p.total);
    var frames: seq<bool> := [];
    var idx: nat, total: nat := p.index, p.total;
    while total > 1
      invariant idx < total <= U64_MAX
      invariant frames + Turns(idx, total) == turns
      decreases total
    {
      var k := ComputeSplitPoint(total);
      if idx < k {
        frames := frames + [true];
        total := k;
      } else {
        frames := frames + [false];
        idx, total := idx - k, total - k;
      }
    }
    assert frames == turns;
    if |frames| != |p.siblings| { return Err(WrongSiblingCount); }
    var acc := leaf;
    var n := |frames|;
    while n > 0
      invariant 0 <= n <= |frames|
      invariant acc == Climb(h, leaf, frames[n..], p.siblings[n..])
    {
      n := n - 1;
      assert frames[n..][1..] == frames[n + 1..] && p.siblings[n..][1..] == p.siblings[n + 1..];
      acc := if frames[n] then h.node(acc, p.siblings[n]) else h.node(p.siblings[n], acc);
    }
    assert frames[0..] == frames && p.siblings[0..] == p.siblings;
    return Ok(acc);
  }

  method VerifyInclusion(h: Hasher, p: MerkleProof, root: Hash32, leaf: Hash32, index: nat, total: nat)
    returns (r: Result<(), ProofError>)
    requires p.total <= U64_MAX
    ensures r.Ok? <==> Includes(h, p, root, leaf, index, total)
  {
    if p.index != index || p.total != total { return Err(WrongPosition); }
    var computed := ComputeRoot(h, p, leaf);
    if computed.Err? { return Err(computed.error); }
    if computed.value == root { return Ok(()); }
    return Err(RootMismatch);
  }

  /** What `verify` accepts. */
  ghost predicate Includes(h: Hasher, p: MerkleProof, root: Hash32, leaf: Hash32, index: nat, total: nat) {
    && p.index == index < total == p.total
    && |p.siblings| == |Turns(index, total)|
    && Climb(h, leaf, Turns(index, total), p.siblings) == root
  }

  /** The half of a list that holds an index, and the index in it. */
  function HalfWith(leaves: seq<Hash32>, index: nat, k: nat): (r: (seq<Hash32>, nat))
    requires index < |leaves| && 0 < k < |leaves|
    ensures r.1 < |r.0| < |leaves| && r.0[r.1] == leaves[index]
  {
    if index < k then (leaves[..k], index) else (leaves[k..], index - k)
  }

  lemma {:induction false} TurnsUnfold(leaves: seq<Hash32>, index: nat, k: nat)
    requires index < |leaves| && |leaves| >= 2 && k == SplitPoint(|leaves|)
    ensures var (half, i) := HalfWith(leaves, index, k);
      Turns(index, |leaves|) == [index < k] + Turns(i, |half|)
  {
  }

  lemma {:induction false} SiblingsUnfold(h: Hasher, leaves: seq<Hash32>, index: nat, k: nat)
    requires index < |leaves| && |leaves| >= 2 && k == SplitPoint(|leaves|)
    ensures var (half, i) := HalfWith(leaves, index, k);
      Siblings(h, leaves, index) == [RootOf(h, if index < k then leaves[k..] else leaves[..k])] + Siblings(h, half, i)
  {
  }

  lemma {:induction false} ClimbUnfolds(h: Hasher, leaf: Hash32, left: bool, turns: seq<bool>, sibling: Hash32,
                                        siblings: seq<Hash32>)
    requires |turns| == |siblings|
    ensures var below := Climb(h, leaf, turns, siblings);
      Climb(h, leaf, [left] + turns, [sibling] + siblings)
        == if left then h.node(below, sibling) else h.node(sibling, below)
  {
    assert ([left] + turns)[1..] == turns && ([sibling] + siblings)[1..] == siblings;
  }

  /** Completeness: the proof built for a leaf is accepted for that leaf. */
  lemma {:induction false} InclusionComplete(h: Hasher, leaves: seq<Hash32>, index: nat)
    requires index < |leaves|
    ensures Includes(h, MerkleProof(index, |leaves|, Siblings(h, leaves, index)),
                     RootOf(h, leaves), leaves[index], index, |leaves|)
    decreases |leaves|
  {
    if |leaves| >= 2 {
      var k := SplitPoint(|leaves|);
      var (half, i) := HalfWith(leaves, index, k);
      InclusionComplete(h, half, i);
      TurnsUnfold(leaves, index, k);
      SiblingsUnfold(h, leaves, index, k);
      ClimbUnfolds(h, leaves[index], index < k, Turns(i, |half|),
                   RootOf(h, if index < k then leaves[k..] else leaves[..k]), Siblings(h, half, i));
    }
  }

  /** The topmost pair a climb hashes. */
  function Top(h: Hasher, leaf: Hash32, turns: seq<bool>, siblings: seq<Hash32>): Pair
    requires |turns| == |siblings| && turns != []
  {
    var below := Climb(h, leaf, turns[1..], siblings[1..]);
    if turns[0] then (below, siblings[0]) else (siblings[0], below)
  }

  lemma {:induction false} TopFacts(h: Hasher, leaf: Hash32, turns: seq<bool>, siblings: seq<Hash32>)
    requires |turns| == |siblings| && turns != []
    ensures var top := Top(h, leaf, turns, siblings);
      && top in ClimbPairs(h, leaf, turns, siblings)
      && h.node(top.0, top.1) == Climb(h, leaf, turns, siblings)
      && ClimbPairs(h, leaf, turns[1..], siblings[1..]) <= ClimbPairs(h, leaf, turns, siblings)
  {
  }

  /** The pair at the root of a tree, and what its halves hash. */
  lemma {:induction false} TopOfTree(h: Hasher, leaves: seq<Hash32>, k: nat)
    requires |leaves| >= 2 && k == SplitPoint(|leaves|)
    ensures var top := (RootOf(h, leaves[..k]), RootOf(h, leaves[k..]));
      && top in PairsOf(h, leaves) && h.node(top.0, top.1) == RootOf(h, leaves)
      && PairsOf(h, leaves[..k]) <= PairsOf(h, leaves) && PairsOf(h, leaves[k..]) <= PairsOf(h, leaves)
  {
  }

  lemma {:induction false} CollisionAbove(h: Hasher, leaves: seq<Hash32>, k: nat, half: seq<Hash32>, leaf: Hash32,
                                          turns: seq<bool>, siblings: seq<Hash32>)
    requires |leaves| >= 2 && k == SplitPoint(|leaves|) && (half == leaves[..k] || half == leaves[k..])
    requires |turns| == |siblings| && turns != []
    requires CollisionAmong(h, PairsOf(h, half) + ClimbPairs(h, leaf, turns[1..], siblings[1..]))
    ensures CollisionAmong(h, PairsOf(h, leaves) + ClimbPairs(h, leaf, turns, siblings))
  {
    TopOfTree(h, leaves, k);
    TopFacts(h, leaf, turns, siblings);
    CollisionGrows(h, PairsOf(h, half) + ClimbPairs(h, leaf, turns[1..], siblings[1..]),
                   PairsOf(h, leaves) + ClimbPairs(h, leaf, turns, siblings));
  }

  /** Soundness: whatever siblings are offered, only the leaf at that index is
      accepted, or two hashed pairs collide. */
  lemma {:induction false} InclusionSound(h: Hasher, leaves: seq<Hash32>, p: MerkleProof, leaf: Hash32, index: nat)
    requires Includes(h, p, RootOf(h, leaves), leaf, index, |leaves|)
    ensures leaf == leaves[index]
            || CollisionAmong(h, PairsOf(h, leaves) + ClimbPairs(h, leaf, Turns(index, |leaves|), p.siblings))
    decreases |leaves|
  {
    if |leaves| >= 2 {
      var k := SplitPoint(|leaves|);
      var (half, i) := HalfWith(leaves, index, k);
      var turns := Turns(index, |leaves|);
      TurnsUnfold(leaves, index, k);
      assert turns[0] == (index < k) && turns[1..] == Turns(i, |half|);
      var mine, theirs := (RootOf(h, leaves[..k]), RootOf(h, leaves[k..])), Top(h, leaf, turns, p.siblings);
      TopOfTree(h, leaves, k);
      TopFacts(h, leaf, turns, p.siblings);
      if mine != theirs {
        var all := PairsOf(h, leaves) + ClimbPairs(h, leaf, turns, p.siblings);
        assert mine in all && theirs in all;
      } else {
        InclusionSound(h, half, MerkleProof(i, |half|, p.siblings[1..]), leaf, i);
        if leaf != leaves[index] {
          CollisionAbove(h, leaves, k, half, leaf, turns, p.siblings);
        }
      }
    }
  }
}
