/** What a client learns from a transaction served with two inclusion proofs
    (crates/rpc/src/query.rs). The position and the size of the block are
    claimed by the server and never trusted: the client learns only that the
    transaction and the receipt stand at one place of the block. */
module ProvedTransactions {
  import opened Base
  import opened Merkle
  import opened Execution
  import opened History

  // -- inclusion with a claimed size ----------------------------------------

  /** Where a path of turns leads in a tree of `n` leaves, if it ends at a leaf. */
  function Locate(turns: seq<bool>, n: nat): (at: Option<nat>)
    requires n > 0
    ensures at.Some? ==> at.value < n
    decreases n
  {
    if n == 1 then if turns == [] then Some(0) else None
    else if turns == [] then None
    else
      var k := SplitPoint(n);
      if turns[0] then Locate(turns[1..], k)
      else
        var at := Locate(turns[1..], n - k);
        if at.Some? then Some(k + at.value) else None
  }

  function Values(s: seq<Hash32>): set<Hash32> { set x | x in s }

  /** A leaf hash that is also the hash of a pair, or of nothing: what tagging the two differently rules out. */
  ghost predicate Confused(h: Hasher, leaves: set<Hash32>, pairs: set<Pair>) {
    h.empty in leaves || (exists p :: p in pairs && (h.node(p.0, p.1) in leaves || h.node(p.0, p.1) == h.empty))
  }

  /** Some hash came out equal that should not have. */
  ghost predicate Broken(h: Hasher, leaves: set<Hash32>, pairs: set<Pair>) {
    CollisionAmong(h, pairs) || Confused(h, leaves, pairs)
  }

  lemma {:induction false} BrokenGrows(h: Hasher, leaves: set<Hash32>, pairs: set<Pair>,
                                       leaves': set<Hash32>, pairs': set<Pair>)
    requires Broken(h, leaves, pairs) && leaves <= leaves' && pairs <= pairs'
    ensures Broken(h, leaves', pairs')
  {
    if CollisionAmong(h, pairs) {
      CollisionGrows(h, pairs, pairs');
    }
  }

  /** What the halves of a tree hash, and hold. */
  lemma {:induction false} RootFacts(h: Hasher, leaves: seq<Hash32>, k: nat)
    requires |leaves| >= 2 && k == SplitPoint(|leaves|)
    ensures var top := (RootOf(h, leaves[..k]), RootOf(h, leaves[k..]));
      && top in PairsOf(h, leaves) && h.node(top.0, top.1) == RootOf(h, leaves)
      && PairsOf(h, leaves[..k]) <= PairsOf(h, leaves) && PairsOf(h, leaves[k..]) <= PairsOf(h, leaves)
      && Values(leaves[..k]) <= Values(leaves) && Values(leaves[k..]) <= Values(leaves)
  {
    TopOfTree(h, leaves, k);
  }

  lemma {:induction false} PathLeadsToLeaf(h: Hasher, leaves: seq<Hash32>, turns: seq<bool>, siblings: seq<Hash32>,
                                           leaf: Hash32)
    requires |leaves| > 0 && |turns| == |siblings| && Climb(h, leaf, turns, siblings) == RootOf(h, leaves)
    ensures (Locate(turns, |leaves|).Some? && leaves[Locate(turns, |leaves|).value] == leaf)
            || Broken(h, Values(leaves) + {leaf}, PairsOf(h, leaves) + ClimbPairs(h, leaf, turns, siblings))
    decreases |leaves|, 1
  {
    var all := PairsOf(h, leaves) + ClimbPairs(h, leaf, turns, siblings);
    var seen := Values(leaves) + {leaf};
    if |leaves| == 1 {
      if turns != [] {
        TopFacts(h, leaf, turns, siblings);
        assert Top(h, leaf, turns, siblings) in all && leaves[0] in seen;
      }
    } else {
      var k := SplitPoint(|leaves|);
      var mine := (RootOf(h, leaves[..k]), RootOf(h, leaves[k..]));
      RootFacts(h, leaves, k);
      assert mine in all && leaf in seen;
      if turns != [] {
        TopFacts(h, leaf, turns, siblings);
        assert Top(h, leaf, turns, siblings) in all;
        if mine == Top(h, leaf, turns, siblings) {
          PathInHalf(h, leaves, turns, siblings, leaf, if turns[0] then leaves[..k] else leaves[k..], k);
        }
      }
    }
  }

  lemma {:induction false} LocateUnfolds(turns: seq<bool>, n: nat, k: nat)
    requires n >= 2 && turns != [] && k == SplitPoint(n)
    ensures Locate(turns, n) ==
      if turns[0] then Locate(turns[1..], k)
      else if Locate(turns[1..], n - k).Some? then Some(k + Locate(turns[1..], n - k).value) else None
  {
  }

  /** Where a path that starts into one half ends in the whole. */
  lemma {:induction false} LocateInHalf(leaves: seq<Hash32>, turns: seq<bool>, half: seq<Hash32>, k: nat, i: nat)
    requires |leaves| >= 2 && turns != [] && k == SplitPoint(|leaves|) && i < |half|
    requires half == if turns[0] then leaves[..k] else leaves[k..]
    requires Locate(turns[1..], |half|) == Some(i)
    ensures Locate(turns, |leaves|) == Some(if turns[0] then i else k + i)
    ensures leaves[if turns[0] then i else k + i] == half[i]
  {
    LocateUnfolds(turns, |leaves|, k);
  }

  lemma {:induction false} BrokenInHalf(h: Hasher, leaves: seq<Hash32>, turns: seq<bool>, siblings: seq<Hash32>,
                                        leaf: Hash32, half: seq<Hash32>, k: nat)
    requires |leaves| >= 2 && |turns| == |siblings| && turns != [] && k == SplitPoint(|leaves|)
    requires half == if turns[0] then leaves[..k] else leaves[k..]
    requires Broken(h, Values(half) + {leaf}, PairsOf(h, half) + ClimbPairs(h, leaf, turns[1..], siblings[1..]))
    ensures Broken(h, Values(leaves) + {leaf}, PairsOf(h, leaves) + ClimbPairs(h, leaf, turns, siblings))
  {
    var below := PairsOf(h, half) + ClimbPairs(h, leaf, turns[1..], siblings[1..]);
    var all := PairsOf(h, leaves) + ClimbPairs(h, leaf, turns, siblings);
    RootFacts(h, leaves, k);
    TopFacts(h, leaf, turns, siblings);
    assert below <= all;
    BrokenGrows(h, Values(half) + {leaf}, below, Values(leaves) + {leaf}, all);
  }

  lemma {:induction false} PathInHalf(h: Hasher, leaves: seq<Hash32>, turns: seq<bool>, siblings: seq<Hash32>,
                                      leaf: Hash32, half: seq<Hash32>, k: nat)
    requires |leaves| >= 2 && |turns| == |siblings| && turns != [] && k == SplitPoint(|leaves|)
    requires half == if turns[0] then leaves[..k] else leaves[k..]
    requires Climb(h, leaf, turns[1..], siblings[1..]) == RootOf(h, half)
    ensures (Locate(turns, |leaves|).Some? && leaves[Locate(turns, |leaves|).value] == leaf)
            || Broken(h, Values(leaves) + {leaf}, PairsOf(h, leaves) + ClimbPairs(h, leaf, turns, siblings))
    decreases |leaves|, 0
  {
    PathLeadsToLeaf(h, half, turns[1..], siblings[1..], leaf);
    if Locate(turns[1..], |half|).Some? && half[Locate(turns[1..], |half|).value] == leaf {
      LocateInHalf(leaves, turns, half, k, Locate(turns[1..], |half|).value);
    } else {
      BrokenInHalf(h, leaves, turns, siblings, leaf, half, k);
    }
  }

  // -- a proved transaction -------------------------------------------------

  /** Leaf hashes of identifiers and of receipts. */
  datatype Leaves = Leaves(ofId: Hash32 -> Hash32, ofReceipt: Receipt -> Hash32)

  datatype Header = Header(height: nat, txRoot: Hash32, outcomeRoot: Hash32)

  datatype ProvedTransaction = ProvedTransaction(
    height: nat, index: U32, total: U32, tx: Tx, siblings: seq<Hash32>, receipt: Receipt, receiptSiblings: seq<Hash32>)

  /** The checks of `verify`. */
  ghost predicate Verifies(h: Hasher, hl: Leaves, r: Rules, p: ProvedTransaction, header: Header) {
    && header.height == p.height
    && Includes(h, MerkleProof(p.index, p.total, p.siblings), header.txRoot, hl.ofId(r.id(p.tx)), p.index, p.total)
    && Includes(h, MerkleProof(p.index, p.total, p.receiptSiblings), header.outcomeRoot, hl.ofReceipt(p.receipt),
                p.index, p.total)
    && p.receipt.txId == r.id(p.tx)
  }

  function IdLeaves(hl: Leaves, block: seq<Entry>): (s: seq<Hash32>)
    ensures |s| == |block| && forall i :: 0 <= i < |block| ==> s[i] == hl.ofId(block[i].receipt.txId)
  {
    seq<Hash32>(|block|, i requires 0 <= i < |block| => hl.ofId(block[i].receipt.txId))
  }

  function ReceiptLeaves(hl: Leaves, block: seq<Entry>): (s: seq<Hash32>)
    ensures |s| == |block| && forall i :: 0 <= i < |block| ==> s[i] == hl.ofReceipt(block[i].receipt)
  {
    seq<Hash32>(|block|, i requires 0 <= i < |block| => hl.ofReceipt(block[i].receipt))
  }

  /** The header commits to the transactions and the receipts of the block. */
  predicate Commits(h: Hasher, hl: Leaves, header: Header, height: nat, block: seq<Entry>) {
    && header == Header(height, RootOf(h, IdLeaves(hl, block)), RootOf(h, ReceiptLeaves(hl, block)))
    && forall i :: 0 <= i < |block| ==> block[i].height == height
  }

  /** Everything hashed by the block and by the client. */
  ghost predicate HashFails(h: Hasher, hl: Leaves, r: Rules, p: ProvedTransaction, block: seq<Entry>)
    requires p.index < p.total && |p.siblings| == |p.receiptSiblings| == |Turns(p.index, p.total)|
  {
    var turns := Turns(p.index, p.total);
    var id, receipt := hl.ofId(r.id(p.tx)), hl.ofReceipt(p.receipt);
    || Broken(h, Values(IdLeaves(hl, block)) + {id},
              PairsOf(h, IdLeaves(hl, block)) + ClimbPairs(h, id, turns, p.siblings))
    || Broken(h, Values(ReceiptLeaves(hl, block)) + {receipt},
              PairsOf(h, ReceiptLeaves(hl, block)) + ClimbPairs(h, receipt, turns, p.receiptSiblings))
    || (exists i :: 0 <= i < |block| && block[i].receipt != p.receipt && hl.ofReceipt(block[i].receipt) == receipt)
  }

  lemma {:induction false} NothingFromEmpty(h: Hasher, leaf: Hash32, turns: seq<bool>, siblings: seq<Hash32>)
    requires |turns| == |siblings| && Climb(h, leaf, turns, siblings) == h.empty
    ensures Broken(h, {leaf}, ClimbPairs(h, leaf, turns, siblings))
  {
    if turns != [] {
      TopFacts(h, leaf, turns, siblings);
    }
  }

  /** A path that leads to the root of a list ends at a place of the list, which
      depends on the turns and the length alone; or a hash came out equal that should not have. */
  lemma {:induction false} PathLeadsSomewhere(h: Hasher, leaves: seq<Hash32>, turns: seq<bool>, siblings: seq<Hash32>,
                                              leaf: Hash32)
    requires |turns| == |siblings| && Climb(h, leaf, turns, siblings) == RootOf(h, leaves)
    ensures Broken(h, Values(leaves) + {leaf}, PairsOf(h, leaves) + ClimbPairs(h, leaf, turns, siblings))
            || (leaves != [] && Locate(turns, |leaves|).Some? && leaves[Locate(turns, |leaves|).value] == leaf)
  {
    if leaves == [] {
      NothingFromEmpty(h, leaf, turns, siblings);
      BrokenGrows(h, {leaf}, ClimbPairs(h, leaf, turns, siblings),
                  Values(leaves) + {leaf}, PairsOf(h, leaves) + ClimbPairs(h, leaf, turns, siblings));
    } else {
      PathLeadsToLeaf(h, leaves, turns, siblings, leaf);
    }
  }

  /** A header whose two roots are over lists of one length, whatever they hold:
      the two proofs of an accepted answer end at one and the same place of both. */
  lemma {:induction false} ProvedAtOnePlace(h: Hasher, hl: Leaves, r: Rules, p: ProvedTransaction, header: Header,
                                            ids: seq<Hash32>, receipts: seq<Hash32>)
    requires |ids| == |receipts| && header.txRoot == RootOf(h, ids) && header.outcomeRoot == RootOf(h, receipts)
    requires Verifies(h, hl, r, p, header)
    ensures var turns := Turns(p.index, p.total);
      var id, receipt := hl.ofId(r.id(p.tx)), hl.ofReceipt(p.receipt);
      || Broken(h, Values(ids) + {id}, PairsOf(h, ids) + ClimbPairs(h, id, turns, p.siblings))
      || Broken(h, Values(receipts) + {receipt},
                PairsOf(h, receipts) + ClimbPairs(h, receipt, turns, p.receiptSiblings))
      || exists i :: 0 <= i < |ids| && ids[i] == id && receipts[i] == receipt
  {
    var turns := Turns(p.index, p.total);
    PathLeadsSomewhere(h, ids, turns, p.siblings, hl.ofId(r.id(p.tx)));
    PathLeadsSomewhere(h, receipts, turns, p.receiptSiblings, hl.ofReceipt(p.receipt));
  }

  /** Whatever position and size the server claims, an accepted receipt is one
      the block committed to, for the transaction it was served with; or a hash
      came out equal that should not have. */
  lemma {:induction false} ProvedIsEntry(h: Hasher, hl: Leaves, r: Rules, p: ProvedTransaction, header: Header,
                                         block: seq<Entry>)
    requires Commits(h, hl, header, p.height, block) && Verifies(h, hl, r, p, header)
    ensures HashFails(h, hl, r, p, block)
            || exists e :: e in block && e.receipt == p.receipt && e.receipt.txId == r.id(p.tx) && e.height == p.height
  {
    var turns := Turns(p.index, p.total);
    var receipt := hl.ofReceipt(p.receipt);
    var leaves := ReceiptLeaves(hl, block);
    PathLeadsSomewhere(h, leaves, turns, p.receiptSiblings, receipt);
    if block != [] {
      var at := Locate(turns, |block|);
      if at.Some? && block[at.value].receipt == p.receipt {
        assert block[at.value] in block;
      }
    }
  }
}
