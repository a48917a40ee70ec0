/** Consistency proofs of section 2.1.2 of RFC 6962 (crates/crypto/src/merkle.rs). */
module Consistency {
  import opened Base
  import opened Merkle

  datatype ConsistencyProof = ConsistencyProof(oldSize: nat, newSize: nat, nodes: seq<Hash32>)

  // -- the prover -----------------------------------------------------------

  /** The subtree hashes that complete both roots, in the order they are used. */
  function Subproof(h: Hasher, leaves: seq<Hash32>, m: nat, isTop: bool): seq<Hash32>
    requires 0 < m <= |leaves|
    decreases |leaves|
  {
    if m == |leaves| then
      if isTop then [] else [RootOf(h, leaves)]
    else
      var k := SplitPoint(|leaves|);
      if m <= k then Subproof(h, leaves[..k], m, isTop) + [RootOf(h, leaves[k..])]
      else Subproof(h, leaves[k..], m - k, false) + [RootOf(h, leaves[..k])]
  }

  method CollectConsistency(h: Hasher, leaves: seq<Hash32>, m: nat, isTop: bool, out: seq<Hash32>)
    returns (out': seq<Hash32>)
    requires 0 < m <= |leaves| <= U64_MAX
    ensures out' == out + Subproof(h, leaves, m, isTop)
    decreases |leaves|
  {
    var n := |leaves|;
    if m == n {
      return if isTop then out else out + [RootOf(h, leaves)];
    }
    var k := ComputeSplitPoint(n);
    if m <= k {
      out' := CollectConsistency(h, leaves[..k], m, isTop, out);
      out' := out' + [RootOf(h, leaves[k..])];
    } else {
      out' := CollectConsistency(h, leaves[k..], m - k, false, out);
      out' := out' + [RootOf(h, leaves[..k])];
    }
  }

  function ProofFor(h: Hasher, leaves: seq<Hash32>, oldSize: nat): ConsistencyProof
    requires oldSize <= |leaves|
  {
    ConsistencyProof(oldSize, |leaves|,
                     if oldSize == 0 || oldSize == |leaves| then [] else Subproof(h, leaves, oldSize, true))
  }

  method ProveConsistency(h: Hasher, leaves: seq<Hash32>, oldSize: nat)
    returns (r: Result<ConsistencyProof, ProofError>)
    requires |leaves| <= U64_MAX
    ensures r.Ok? <==> oldSize <= |leaves|
    ensures r.Ok? ==> r.value == ProofFor(h, leaves, oldSize)
  {
    if oldSize > |leaves| { return Err(SizeOutOfRange); }
    var nodes := [];
    if oldSize != 0 && oldSize != |leaves| {
      nodes := CollectConsistency(h, leaves, oldSize, true, nodes);
    }
    return Ok(ConsistencyProof(oldSize, |leaves|, nodes));
  }

  // -- the verifier ---------------------------------------------------------

  /** Both roots recomputed, and the nodes not yet consumed. */
  datatype Replayed = Replayed(before: Hash32, after: Hash32, rest: seq<Hash32>)

  function Replay(h: Hasher, m: nat, n: nat, isTop: bool, known: Hash32, nodes: seq<Hash32>): (r: Option<Replayed>)
    requires 0 < m <= n
    ensures r.Some? ==> |r.value.rest| <= |nodes|
    decreases n
  {
    if m == n then
      if isTop then Some(Replayed(known, known, nodes))
      else if nodes == [] then None
      else Some(Replayed(nodes[0], nodes[0], nodes[1..]))
    else
      var k := SplitPoint(n);
      if m <= k then
        match Replay(h, m, k, isTop, known, nodes)
        case None => None
        case Some(Replayed(older, left, rest)) =>
          if rest == [] then None
          else Some(Replayed(older, h.node(left, rest[0]), rest[1..]))
      else
        match Replay(h, m - k, n - k, false, known, nodes)
        case None => None
        case Some(Replayed(oldRight, newRight, rest)) =>
          if rest == [] then None
          else Some(Replayed(h.node(rest[0], oldRight), h.node(rest[0], newRight), rest[1..]))
  }

  /** Every pair hashed by a replay. */
  ghost function ReplayPairs(h: Hasher, m: nat, n: nat, isTop: bool, known: Hash32, nodes: seq<Hash32>): set<Pair>
    requires 0 < m <= n
    requires Replay(h, m, n, isTop, known, nodes).Some?
    decreases n
  {
    if m == n then {}
    else
      var k := SplitPoint(n);
      if m <= k then
        var below := Replay(h, m, k, isTop, known, nodes).value;
        {(below.after, below.rest[0])} + ReplayPairs(h, m, k, isTop, known, nodes)
      else
        var below := Replay(h, m - k, n - k, false, known, nodes).value;
        {(below.rest[0], below.before), (below.rest[0], below.after)}
        + ReplayPairs(h, m - k, n - k, false, known, nodes)
  }

  /** What `verify` accepts. */
  ghost predicate Accepts(h: Hasher, p: ConsistencyProof, oldRoot: Hash32, newRoot: Hash32, oldSize: nat,
                          newSize: nat) {
    && p.oldSize == oldSize <= newSize == p.newSize
    && (if oldSize == 0 || oldSize == newSize then
          p.nodes == [] && oldRoot == (if oldSize == 0 then h.empty else newRoot)
        else
          Replay(h, oldSize, newSize, true, oldRoot, p.nodes) == Some(Replayed(oldRoot, newRoot, [])))
  }

  method VerifyConsistency(h: Hasher, p: ConsistencyProof, oldRoot: Hash32, newRoot: Hash32, oldSize: nat, newSize: nat)
    returns (r: Result<(), ProofError>)
    ensures r.Ok? <==> Accepts(h, p, oldRoot, newRoot, oldSize, newSize)
  {
    if p.oldSize != oldSize || p.newSize != newSize { return Err(WrongSizes); }
    if p.oldSize > p.newSize { return Err(SizeOutOfRange); }
    if p.oldSize == 0 || p.oldSize == p.newSize {
      if p.nodes != [] { return Err(NotEmpty); }
      var expected := if p.oldSize == 0 then h.empty else newRoot;
      return if oldRoot == expected then Ok(()) else Err(OldRootMismatch);
    }
    var replayed := Replay(h, p.oldSize, p.newSize, true, oldRoot, p.nodes);
    if replayed.None? { return Err(RanOutOfNodes); }
    if replayed.value.rest != [] { return Err(SpareNodes); }
    if replayed.value.before != oldRoot { return Err(OldRootMismatch); }
    if replayed.value.after != newRoot { return Err(NewRootMismatch); }
    return Ok(());
  }

  // -- the two fit together -------------------------------------------------

  lemma SplitOfPrefix(h: Hasher, leaves: seq<Hash32>, m: nat)
    requires |leaves| >= 2 && SplitPoint(|leaves|) < m <= |leaves|
    ensures RootOf(h, leaves[..m]) ==
            (var k := SplitPoint(|leaves|); h.node(RootOf(h, leaves[..k]), RootOf(h, leaves[k..][..m - k])))
  {
    var k := SplitPoint(|leaves|);
    SameSplit(m, |leaves|);
    assert leaves[..m][..k] == leaves[..k];
    assert leaves[..m][k..] == leaves[k..][..m - k];
  }

  lemma {:induction false} ReplayLeft(h: Hasher, m: nat, n: nat, isTop: bool, known: Hash32, nodes: seq<Hash32>,
                                      b: Replayed)
    requires 0 < m < n && m <= SplitPoint(n)
    requires Replay(h, m, SplitPoint(n), isTop, known, nodes) == Some(b) && b.rest != []
    ensures Replay(h, m, n, isTop, known, nodes)
            == Some(Replayed(b.before, h.node(b.after, b.rest[0]), b.rest[1..]))
  {
  }

  lemma {:induction false} ReplayRight(h: Hasher, m: nat, n: nat, m': nat, n': nat, isTop: bool, known: Hash32,
                                       nodes: seq<Hash32>, b: Replayed)
    requires 0 < m < n && SplitPoint(n) < m && m' == m - SplitPoint(n) && n' == n - SplitPoint(n)
    requires Replay(h, m', n', false, known, nodes) == Some(b) && b.rest != []
    ensures Replay(h, m, n, isTop, known, nodes)
            == Some(Replayed(h.node(b.rest[0], b.before), h.node(b.rest[0], b.after), b.rest[1..]))
  {
  }

  /** Replaying a subproof consumes exactly it and reproduces both roots. */
  lemma {:induction false} SubproofReplays(h: Hasher, leaves: seq<Hash32>, m: nat, isTop: bool, known: Hash32,
                                           tail: seq<Hash32>)
    requires 0 < m <= |leaves|
    requires isTop ==> known == RootOf(h, leaves[..m])
    ensures Replay(h, m, |leaves|, isTop, known, Subproof(h, leaves, m, isTop) + tail)
            == Some(Replayed(RootOf(h, leaves[..m]), RootOf(h, leaves), tail))
    decreases |leaves|
  {
    var n := |leaves|;
    if m == n {
      assert leaves[..m] == leaves;
      if isTop {
        assert Subproof(h, leaves, m, isTop) + tail == tail;
      }
    } else if m <= SplitPoint(n) {
      SubproofReplaysLeft(h, leaves, m, isTop, known, tail);
    } else {
      SubproofReplaysRight(h, leaves, m, isTop, known, tail);
    }
  }

  lemma {:induction false} SubproofLeft(h: Hasher, leaves: seq<Hash32>, m: nat, isTop: bool, tail: seq<Hash32>)
    requires 0 < m < |leaves| && m <= SplitPoint(|leaves|)
    ensures var k := SplitPoint(|leaves|);
      Subproof(h, leaves, m, isTop) + tail == Subproof(h, leaves[..k], m, isTop) + ([RootOf(h, leaves[k..])] + tail)
  {
  }

  lemma {:induction false} SubproofReplaysLeft(h: Hasher, leaves: seq<Hash32>, m: nat, isTop: bool, known: Hash32,
                                               tail: seq<Hash32>)
    requires 0 < m < |leaves| && m <= SplitPoint(|leaves|)
    requires isTop ==> known == RootOf(h, leaves[..m])
    ensures Replay(h, m, |leaves|, isTop, known, Subproof(h, leaves, m, isTop) + tail)
            == Some(Replayed(RootOf(h, leaves[..m]), RootOf(h, leaves), tail))
    decreases |leaves|, 0
  {
    var k := SplitPoint(|leaves|);
    var right := RootOf(h, leaves[k..]);
    var sub, nodes := Subproof(h, leaves[..k], m, isTop), Subproof(h, leaves, m, isTop) + tail;
    assert leaves[..k][..m] == leaves[..m];
    SubproofReplays(h, leaves[..k], m, isTop, known, [right] + tail);
    SubproofLeft(h, leaves, m, isTop, tail);
    ReplayLeft(h, m, |leaves|, isTop, known, nodes,
               Replayed(RootOf(h, leaves[..m]), RootOf(h, leaves[..k]), [right] + tail));
  }

  lemma {:induction false} SubproofReplaysRight(h: Hasher, leaves: seq<Hash32>, m: nat, isTop: bool, known: Hash32,
                                                tail: seq<Hash32>)
    requires 0 < m < |leaves| && SplitPoint(|leaves|) < m
    ensures Replay(h, m, |leaves|, isTop, known, Subproof(h, leaves, m, isTop) + tail)
            == Some(Replayed(RootOf(h, leaves[..m]), RootOf(h, leaves), tail))
    decreases |leaves|, 0
  {
    var k := SplitPoint(|leaves|);
    var left := RootOf(h, leaves[..k]);
    var right, m' := leaves[k..], m - k;
    var sub, nodes := Subproof(h, right, m', false), Subproof(h, leaves, m, isTop) + tail;
    SubproofReplays(h, right, m', false, known, [left] + tail);
    assert nodes == sub + ([left] + tail);
    SplitOfPrefix(h, leaves, m);
    ReplayRight(h, m, |leaves|, m', |right|, isTop, known, nodes,
                Replayed(RootOf(h, right[..m']), RootOf(h, right), [left] + tail));
  }

  /** Completeness: an append-only log proves every earlier size. */
  lemma ConsistencyComplete(h: Hasher, leaves: seq<Hash32>, oldSize: nat)
    requires oldSize <= |leaves|
    ensures Accepts(h, ProofFor(h, leaves, oldSize), RootOf(h, leaves[..oldSize]), RootOf(h, leaves), oldSize, |leaves|)
  {
    if oldSize == |leaves| {
      assert leaves[..oldSize] == leaves;
    } else if oldSize > 0 {
      SubproofReplays(h, leaves, oldSize, true, RootOf(h, leaves[..oldSize]), []);
      assert Subproof(h, leaves, oldSize, true) + [] == Subproof(h, leaves, oldSize, true);
    }
  }

  /** A replay that reproduces the roots of two lists shows the older to be a
      prefix of the newer, or two hashed pairs collide. */
  lemma {:induction false} ReplaySound(h: Hasher, older: seq<Hash32>, newer: seq<Hash32>, isTop: bool, known: Hash32,
                                       nodes: seq<Hash32>)
    requires 0 < |older| <= |newer|
    requires Replay(h, |older|, |newer|, isTop, known, nodes).Some?
    requires Replay(h, |older|, |newer|, isTop, known, nodes).value.before == RootOf(h, older)
    requires Replay(h, |older|, |newer|, isTop, known, nodes).value.after == RootOf(h, newer)
    ensures older == newer[..|older|]
            || CollisionAmong(h, PairsOf(h, older) + PairsOf(h, newer)
                                 + ReplayPairs(h, |older|, |newer|, isTop, known, nodes))
    decreases |newer|
  {
    var m, n := |older|, |newer|;
    var all := PairsOf(h, older) + PairsOf(h, newer) + ReplayPairs(h, m, n, isTop, known, nodes);
    if m == n {
      assert newer[..m] == newer;
      RootCommits(h, older, newer);
      if older != newer {
        CollisionGrows(h, PairsOf(h, older) + PairsOf(h, newer), all);
      }
    } else if m <= SplitPoint(n) {
      ReplayLeftSound(h, older, newer, isTop, known, nodes, all);
    } else {
      ReplayRightSound(h, older, newer, isTop, known, nodes, all);
    }
  }

  lemma {:induction false} ReplayLeftSound(h: Hasher, older: seq<Hash32>, newer: seq<Hash32>, isTop: bool,
                                           known: Hash32, nodes: seq<Hash32>, all: set<Pair>)
    requires 0 < |older| < |newer| && |older| <= SplitPoint(|newer|)
    requires Replay(h, |older|, |newer|, isTop, known, nodes).Some?
    requires Replay(h, |older|, |newer|, isTop, known, nodes).value.before == RootOf(h, older)
    requires Replay(h, |older|, |newer|, isTop, known, nodes).value.after == RootOf(h, newer)
    requires all == PairsOf(h, older) + PairsOf(h, newer) + ReplayPairs(h, |older|, |newer|, isTop, known, nodes)
    ensures older == newer[..|older|] || CollisionAmong(h, all)
    decreases |newer|, 0
  {
    var m, n, k := |older|, |newer|, SplitPoint(|newer|);
    var below := Replay(h, m, k, isTop, known, nodes).value;
    var mine, theirs := (RootOf(h, newer[..k]), RootOf(h, newer[k..])), (below.after, below.rest[0]);
    assert mine in all && theirs in all;
    assert h.node(mine.0, mine.1) == h.node(theirs.0, theirs.1);
    if mine == theirs {
      ReplaySound(h, older, newer[..k], isTop, known, nodes);
      assert newer[..k][..m] == newer[..m];
      if older != newer[..m] {
        CollisionGrows(h, PairsOf(h, older) + PairsOf(h, newer[..k]) + ReplayPairs(h, m, k, isTop, known, nodes), all);
      }
    }
  }

  /** One step of a replay that passes to the right half, read backwards. */
  lemma {:induction false} ReplayRightInverse(h: Hasher, m: nat, n: nat, m': nat, n': nat, isTop: bool, known: Hash32,
                                              nodes: seq<Hash32>)
    requires 0 < m < n && SplitPoint(n) < m && m' == m - SplitPoint(n) && n' == n - SplitPoint(n)
    requires Replay(h, m, n, isTop, known, nodes).Some?
    ensures Replay(h, m', n', false, known, nodes).Some?
    ensures var b := Replay(h, m', n', false, known, nodes).value;
            && b.rest != []
            && Replay(h, m, n, isTop, known, nodes).value
               == Replayed(h.node(b.rest[0], b.before), h.node(b.rest[0], b.after), b.rest[1..])
            && ReplayPairs(h, m, n, isTop, known, nodes)
               == {(b.rest[0], b.before), (b.rest[0], b.after)} + ReplayPairs(h, m', n', false, known, nodes)
  {
  }

  lemma {:induction false} ReplayRightSound(h: Hasher, older: seq<Hash32>, newer: seq<Hash32>, isTop: bool,
                                            known: Hash32, nodes: seq<Hash32>, all: set<Pair>)
    requires 0 < |older| < |newer| && SplitPoint(|newer|) < |older|
    requires Replay(h, |older|, |newer|, isTop, known, nodes).Some?
    requires Replay(h, |older|, |newer|, isTop, known, nodes).value.before == RootOf(h, older)
    requires Replay(h, |older|, |newer|, isTop, known, nodes).value.after == RootOf(h, newer)
    requires all == PairsOf(h, older) + PairsOf(h, newer) + ReplayPairs(h, |older|, |newer|, isTop, known, nodes)
    ensures older == newer[..|older|] || CollisionAmong(h, all)
    decreases |newer|, 0
  {
    var m, n, k := |older|, |newer|, SplitPoint(|newer|);
    SameSplit(m, n);
    var older', newer' := older[k..], newer[k..];
    ReplayRightInverse(h, m, n, |older'|, |newer'|, isTop, known, nodes);
    var below := Replay(h, |older'|, |newer'|, false, known, nodes).value;
    var left := below.rest[0];
    var oldMine, oldTheirs := (RootOf(h, older[..k]), RootOf(h, older')), (left, below.before);
    var newMine, newTheirs := (RootOf(h, newer[..k]), RootOf(h, newer')), (left, below.after);
    assert oldMine in PairsOf(h, older) && newMine in PairsOf(h, newer);
    assert h.node(oldMine.0, oldMine.1) == h.node(oldTheirs.0, oldTheirs.1);
    assert h.node(newMine.0, newMine.1) == h.node(newTheirs.0, newTheirs.1);
    if oldMine == oldTheirs && newMine == newTheirs {
      RootCommits(h, older[..k], newer[..k]);
      ReplaySound(h, older', newer', false, known, nodes);
      RightHalves(h, older, newer, k, all,
                  PairsOf(h, older[..k]) + PairsOf(h, newer[..k]),
                  PairsOf(h, older') + PairsOf(h, newer')
                  + ReplayPairs(h, |older'|, |newer'|, false, known, nodes));
    }
  }

  lemma RightHalves(h: Hasher, older: seq<Hash32>, newer: seq<Hash32>, k: nat, all: set<Pair>,
                    leftPairs: set<Pair>, rightPairs: set<Pair>)
    requires k <= |older| <= |newer| && leftPairs <= all && rightPairs <= all
    requires older[..k] == newer[..k] || CollisionAmong(h, leftPairs)
    requires older[k..] == newer[k..][..|older| - k] || CollisionAmong(h, rightPairs)
    ensures older == newer[..|older|] || CollisionAmong(h, all)
  {
    if older[..k] == newer[..k] && older[k..] == newer[k..][..|older| - k] {
      assert older == older[..k] + older[k..] && newer[..|older|] == newer[..k] + newer[k..][..|older| - k];
    } else if CollisionAmong(h, leftPairs) {
      CollisionGrows(h, leftPairs, all);
    } else {
      CollisionGrows(h, rightPairs, all);
    }
  }

  /** The pairs hashed when checking a proof. */
  ghost function CheckPairs(h: Hasher, p: ConsistencyProof, oldRoot: Hash32): set<Pair>
  {
    if 0 < p.oldSize <= p.newSize && Replay(h, p.oldSize, p.newSize, true, oldRoot, p.nodes).Some?
    then ReplayPairs(h, p.oldSize, p.newSize, true, oldRoot, p.nodes) else {}
  }

  /** Soundness: an accepted proof between the roots of two logs shows that the old
      log is exactly the beginning of the new one, or two hashed pairs collide. */
  lemma ConsistencySound(h: Hasher, p: ConsistencyProof, older: seq<Hash32>, newer: seq<Hash32>)
    requires Accepts(h, p, RootOf(h, older), RootOf(h, newer), |older|, |newer|)
    ensures |older| <= |newer|
    ensures older == newer[..|older|]
            || CollisionAmong(h, PairsOf(h, older) + PairsOf(h, newer) + CheckPairs(h, p, RootOf(h, older)))
  {
    var all := PairsOf(h, older) + PairsOf(h, newer) + CheckPairs(h, p, RootOf(h, older));
    if |older| == |newer| {
      assert newer[..|older|] == newer;
      RootCommits(h, older, newer);
      if older != newer {
        CollisionGrows(h, PairsOf(h, older) + PairsOf(h, newer), all);
      }
    } else if |older| > 0 {
      ReplaySound(h, older, newer, true, RootOf(h, older), p.nodes);
    }
  }

  /** A rewritten log that still proves consistent with what was seen before hands
      over a collision: the two sides of the log's own contradiction. */
  lemma RewriteNeedsCollision(h: Hasher, p: ConsistencyProof, seen: seq<Hash32>, shown: seq<Hash32>, i: nat)
    requires Accepts(h, p, RootOf(h, seen), RootOf(h, shown), |seen|, |shown|)
    requires i < |seen| <= |shown| && seen[i] != shown[i]
    ensures CollisionAmong(h, PairsOf(h, seen) + PairsOf(h, shown) + CheckPairs(h, p, RootOf(h, seen)))
  {
    assert shown[..|seen|][i] == shown[i];
    ConsistencySound(h, p, seen, shown);
  }
}
