/** A client walking one account's history with nothing but verified headers and
    whatever a server sends (crates/rpc/src/history.rs). */
module ClientHistory {
  import opened Base
  import opened Merkle
  import opened Execution
  import opened History
  import opened ProvedTransactions

  /** What a server sent for one step, and the verified header the client checks it against. */
  datatype Answer = Answer(proved: ProvedTransaction, header: Header)

  /** The entry an answer claims the chain holds. */
  function Claimed(x: Answer): Entry { Entry(x.proved.tx, x.proved.height, x.proved.receipt) }

  function Claims(answers: seq<Answer>): (s: seq<Entry>)
    ensures |s| == |answers| && forall i :: 0 <= i < |s| ==> s[i] == Claimed(answers[i])
  {
    seq(|answers|, i requires 0 <= i < |answers| => Claimed(answers[i]))
  }

  /** One step of the cursor: height, proofs, transaction, then the link. */
  ghost function ProvedStep(h: Hasher, hl: Leaves, r: Rules, next: Option<Pointer>, a: Address, x: Answer)
    : Result<Option<Pointer>, HistoryError>
  {
    if next.None? then Err(Finished)
    else if x.header.height != next.value.height then Err(WrongHeight)
    else if !Verifies(h, hl, r, x.proved, x.header) then Err(BadProof)
    else if r.id(x.proved.tx) != next.value.txId then Err(WrongTransaction)
    else
      match PreviousFor(x.proved.receipt.touched, a)
      case None => Err(BrokenChain)
      case Some(previous) => Ok(previous)
  }

  /** The cursor after a list of answers, all accepted. */
  ghost function ProvedWalk(h: Hasher, hl: Leaves, r: Rules, next: Option<Pointer>, a: Address, answers: seq<Answer>)
    : Result<Option<Pointer>, HistoryError>
    decreases |answers|
  {
    if answers == [] then Ok(next)
    else
      match ProvedStep(h, hl, r, next, a, answers[0])
      case Err(e) => Err(e)
      case Ok(previous) => ProvedWalk(h, hl, r, previous, a, answers[1..])
  }

  // -- blocks of the chain --------------------------------------------------

  /** The block at a height: the entries of that height, in order. */
  function BlockAt(log: seq<Entry>, height: nat): (block: seq<Entry>)
    ensures forall e :: e in block <==> e in log && e.height == height
  {
    if log == [] then []
    else
      var n := |log| - 1;
      assert log == log[..n] + [log[n]];
      BlockAt(log[..n], height) + (if log[n].height == height then [log[n]] else [])
  }

  /** The header that commits to a block, as `ProvedTransactions.Commits` demands. */
  function HeaderOf(h: Hasher, hl: Leaves, log: seq<Entry>, height: nat): (header: Header)
    ensures Commits(h, hl, header, height, BlockAt(log, height))
  {
    var block := BlockAt(log, height);
    assert forall i :: 0 <= i < |block| ==> block[i] in block;
    Header(height, RootOf(h, IdLeaves(hl, block)), RootOf(h, ReceiptLeaves(hl, block)))
  }

  /** Every header the client holds is the one the chain has at that height. */
  predicate HeadersOfChain(h: Hasher, hl: Leaves, log: seq<Entry>, answers: seq<Answer>) {
    forall x :: x in answers ==> x.header == HeaderOf(h, hl, log, x.header.height)
  }

  // -- what an accepted answer is -------------------------------------------

  /** A hash came out equal that should not have: in a proof, or for two transactions' identifiers. */
  ghost predicate AnswerCollides(h: Hasher, hl: Leaves, r: Rules, log: seq<Entry>, p: ProvedTransaction) {
    || (&& p.index < p.total && |p.siblings| == |p.receiptSiblings| == |Turns(p.index, p.total)|
        && HashFails(h, hl, r, p, BlockAt(log, p.height)))
    || (exists e :: e in log && e.tx != p.tx && r.id(e.tx) == r.id(p.tx))
  }

  lemma {:induction false} LogNamesIds(r: Rules, w: World, items: seq<Item>, e: Entry)
    requires e in Log(r, w, items)
    ensures e.receipt.txId == r.id(e.tx)
  {
    var k: nat :| k < |items| && Log(r, w, items)[k] == e;
    LogAt(r, w, items, k);
    StepRecords(r, Play(r, w, items[..k]), items[k].height, items[k].tx, 0);
  }

  /** An answer that verifies against the chain's header is the chain's own entry. */
  lemma {:induction false} VerifiedIsEntry(h: Hasher, hl: Leaves, r: Rules, w: World, items: seq<Item>, x: Answer)
    requires x.header == HeaderOf(h, hl, Log(r, w, items), x.header.height)
    requires Verifies(h, hl, r, x.proved, x.header)
    ensures Claimed(x) in Log(r, w, items) || AnswerCollides(h, hl, r, Log(r, w, items), x.proved)
  {
    var log := Log(r, w, items);
    var block := BlockAt(log, x.proved.height);
    ProvedIsEntry(h, hl, r, x.proved, x.header, block);
    if !HashFails(h, hl, r, x.proved, block) {
      var e :| e in block && e.receipt == x.proved.receipt
               && e.receipt.txId == r.id(x.proved.tx) && e.height == x.proved.height;
      LogNamesIds(r, w, items, e);
      if e.tx == x.proved.tx {
        assert e == Claimed(x);
      }
    }
  }

  /** An accepted proved step is the bare step on the entry it claims. */
  lemma AcceptedStep(h: Hasher, hl: Leaves, r: Rules, next: Option<Pointer>, a: Address, x: Answer)
    requires ProvedStep(h, hl, r, next, a, x).Ok?
    ensures CursorStep(r, next, a, Claimed(x)) == ProvedStep(h, hl, r, next, a, x)
    ensures Verifies(h, hl, r, x.proved, x.header)
  {
  }

  lemma {:induction false} AcceptedWalk(h: Hasher, hl: Leaves, r: Rules, next: Option<Pointer>, a: Address,
                                        answers: seq<Answer>)
    requires ProvedWalk(h, hl, r, next, a, answers).Ok?
    ensures Walk(r, next, a, Claims(answers)) == ProvedWalk(h, hl, r, next, a, answers)
    ensures forall i :: 0 <= i < |answers| ==> Verifies(h, hl, r, answers[i].proved, answers[i].header)
    decreases |answers|
  {
    if answers != [] {
      var rest := answers[1..];
      AcceptedStep(h, hl, r, next, a, answers[0]);
      AcceptedWalk(h, hl, r, ProvedStep(h, hl, r, next, a, answers[0]).value, a, rest);
      assert Claims(answers)[1..] == Claims(rest);
      forall i | 0 < i < |answers| ensures Verifies(h, hl, r, answers[i].proved, answers[i].header) {
        assert answers[i] == rest[i - 1];
      }
    }
  }

  /** The client's promise. Whatever a server sends, transactions whose proofs
      the cursor accepts are, with their receipts and heights, the newest that
      touched the account, in order, none skipped, repeated or invented; and the
      cursor reports completion exactly when it has been through all of them.
      The alternative is a hash that came out equal when it should not have. */
  lemma {:induction false} ProvedWalkIsHistory(h: Hasher, hl: Leaves, r: Rules, w: World, items: seq<Item>, a: Address,
                                               answers: seq<Answer>)
    requires Unvisited(r, w) && HeadersOfChain(h, hl, Log(r, w, items), answers)
    requires ProvedWalk(h, hl, r, LastOf(r, Play(r, w, items), a), a, answers).Ok?
    ensures
      || Collides(r, items)
      || (exists x :: x in answers && AnswerCollides(h, hl, r, Log(r, w, items), x.proved))
      || (&& Claims(answers) <= Visits(Log(r, w, items), a)
          && (ProvedWalk(h, hl, r, LastOf(r, Play(r, w, items), a), a, answers) == Ok(None)
              <==> Claims(answers) == Visits(Log(r, w, items), a)))
  {
    var log, start := Log(r, w, items), LastOf(r, Play(r, w, items), a);
    AcceptedWalk(h, hl, r, start, a, answers);
    if !(exists x :: x in answers && AnswerCollides(h, hl, r, log, x.proved)) {
      forall e | e in Claims(answers) ensures e in log {
        var i: nat :| i < |answers| && Claims(answers)[i] == e;
        assert answers[i] in answers;
        VerifiedIsEntry(h, hl, r, w, items, answers[i]);
      }
      WalkIsHistory(r, w, items, a, Claims(answers));
    }
  }

  // -- an honest server -----------------------------------------------------

  /** The answer an honest server builds for an entry at its place in its block. */
  function Honest(h: Hasher, hl: Leaves, log: seq<Entry>, height: nat, i: nat): Answer
    requires i < |BlockAt(log, height)| <= U32_MAX
  {
    var block := BlockAt(log, height);
    Answer(ProvedTransaction(height, i, |block|, block[i].tx, Siblings(h, IdLeaves(hl, block), i), block[i].receipt,
                             Siblings(h, ReceiptLeaves(hl, block), i)),
           HeaderOf(h, hl, log, height))
  }

  lemma {:induction false} HonestVerifies(h: Hasher, hl: Leaves, r: Rules, w: World, items: seq<Item>, height: nat,
                                          i: nat)
    requires i < |BlockAt(Log(r, w, items), height)| <= U32_MAX
    ensures var x := Honest(h, hl, Log(r, w, items), height, i);
      Verifies(h, hl, r, x.proved, x.header) && Claimed(x) == BlockAt(Log(r, w, items), height)[i]
  {
    var block := BlockAt(Log(r, w, items), height);
    assert block[i] in block;
    LogNamesIds(r, w, items, block[i]);
    InclusionComplete(h, IdLeaves(hl, block), i);
    InclusionComplete(h, ReceiptLeaves(hl, block), i);
  }

  /** The honest answer for an entry the cursor would accept takes the same step. */
  lemma {:induction false} HonestStep(h: Hasher, hl: Leaves, r: Rules, w: World, items: seq<Item>,
                                      next: Option<Pointer>, a: Address, e: Entry) returns (x: Answer)
    requires e in Log(r, w, items) && |BlockAt(Log(r, w, items), e.height)| <= U32_MAX
    requires CursorStep(r, next, a, e).Ok?
    ensures x.header == HeaderOf(h, hl, Log(r, w, items), x.header.height)
    ensures ProvedStep(h, hl, r, next, a, x) == CursorStep(r, next, a, e)
  {
    var block := BlockAt(Log(r, w, items), e.height);
    assert e in block;
    var i: nat :| i < |block| && block[i] == e;
    HonestVerifies(h, hl, r, w, items, e.height, i);
    x := Honest(h, hl, Log(r, w, items), e.height, i);
  }

  lemma ProvedWalkSteps(h: Hasher, hl: Leaves, r: Rules, next: Option<Pointer>, a: Address, x: Answer,
                        rest: seq<Answer>)
    requires ProvedStep(h, hl, r, next, a, x).Ok?
    ensures ProvedWalk(h, hl, r, next, a, [x] + rest)
         == ProvedWalk(h, hl, r, ProvedStep(h, hl, r, next, a, x).value, a, rest)
  {
    assert ([x] + rest)[1..] == rest;
  }

  /** Answers for any accepted list of entries of the chain. */
  lemma {:induction false} HonestAnswers(h: Hasher, hl: Leaves, r: Rules, w: World, items: seq<Item>,
                                         next: Option<Pointer>, a: Address, wanted: seq<Entry>)
    returns (answers: seq<Answer>)
    requires forall height :: |BlockAt(Log(r, w, items), height)| <= U32_MAX
    requires forall e :: e in wanted ==> e in Log(r, w, items)
    requires Walk(r, next, a, wanted).Ok?
    ensures HeadersOfChain(h, hl, Log(r, w, items), answers)
    ensures ProvedWalk(h, hl, r, next, a, answers) == Walk(r, next, a, wanted)
    decreases |wanted|
  {
    if wanted == [] {
      answers := [];
    } else {
      var x := HonestStep(h, hl, r, w, items, next, a, wanted[0]);
      var rest := HonestAnswers(h, hl, r, w, items, CursorStep(r, next, a, wanted[0]).value, a, wanted[1..]);
      ProvedWalkSteps(h, hl, r, next, a, x, rest);
      answers := [x] + rest;
    }
  }

  lemma {:induction false} VisitsAreEntries(log: seq<Entry>, a: Address)
    ensures forall e :: e in Visits(log, a) ==> e in log
  {
    if log != [] {
      VisitsAreEntries(log[..|log| - 1], a);
      assert log == log[..|log| - 1] + [log[|log| - 1]];
    }
  }

  /** And an honest server can always prove the whole history to its end. */
  lemma {:induction false} ProvedWalkCanFinish(h: Hasher, hl: Leaves, r: Rules, w: World, items: seq<Item>, a: Address)
    returns (answers: seq<Answer>)
    requires Unvisited(r, w) && forall height :: |BlockAt(Log(r, w, items), height)| <= U32_MAX
    ensures HeadersOfChain(h, hl, Log(r, w, items), answers)
    ensures ProvedWalk(h, hl, r, LastOf(r, Play(r, w, items), a), a, answers) == Ok(None)
  {
    WalkCanFinish(r, w, items, a);
    VisitsAreEntries(Log(r, w, items), a);
    answers := HonestAnswers(h, hl, r, w, items, LastOf(r, Play(r, w, items), a), a, Visits(Log(r, w, items), a));
  }

  // -- the cursor the client holds ------------------------------------------

  /** `ProvedTransaction::verify`. */
  method Verify(h: Hasher, hl: Leaves, r: Rules, p: ProvedTransaction, header: Header) returns (ok: bool)
    ensures ok <==> Verifies(h, hl, r, p, header)
  {
    if header.height != p.height {
      return false;
    }
    var tx := VerifyInclusion(h, MerkleProof(p.index, p.total, p.siblings), header.txRoot, hl.ofId(r.id(p.tx)),
                              p.index, p.total);
    if tx.Err? {
      return false;
    }
    var receipt := VerifyInclusion(h, MerkleProof(p.index, p.total, p.receiptSiblings), header.outcomeRoot,
                                   hl.ofReceipt(p.receipt), p.index, p.total);
    if receipt.Err? {
      return false;
    }
    return p.receipt.txId == r.id(p.tx);
  }

  class HistoryCursor {
    const address: Address
    var next: Option<Pointer>
    var seen: nat

    constructor (address: Address, last: Option<Pointer>)
      ensures this.address == address && next == last && seen == 0
    {
      this.address := address;
      next := last;
      seen := 0;
    }

    /** Step backwards over a proved transaction, or refuse it and stay. */
    method Step(h: Hasher, hl: Leaves, r: Rules, x: Answer) returns (answer: Result<Tx, HistoryError>)
      modifies this
      ensures match ProvedStep(h, hl, r, old(next), address, x)
              case Ok(previous) => answer == Ok(x.proved.tx) && next == previous && seen == old(seen) + 1
              case Err(error) => answer == Err(error) && next == old(next) && seen == old(seen)
    {
      if next.None? {
        return Err(Finished);
      }
      if x.header.height != next.value.height {
        return Err(WrongHeight);
      }
      var verified := Verify(h, hl, r, x.proved, x.header);
      if !verified {
        return Err(BadProof);
      }
      if r.id(x.proved.tx) != next.value.txId {
        return Err(WrongTransaction);
      }
      var previous := PreviousFor(x.proved.receipt.touched, address);
      if previous.None? {
        return Err(BrokenChain);
      }
      next, seen := previous.value, seen + 1;
      return Ok(x.proved.tx);
    }
  }

  /** A cursor fed a whole list of answers: it stops at the first it refuses. */
  method WalkAll(h: Hasher, hl: Leaves, r: Rules, cursor: HistoryCursor, answers: seq<Answer>)
    returns (walked: Result<(), HistoryError>)
    modifies cursor
    ensures match ProvedWalk(h, hl, r, old(cursor.next), cursor.address, answers)
            case Ok(last) => walked.Ok? && cursor.next == last && cursor.seen == old(cursor.seen) + |answers|
            case Err(error) => walked == Err(error)
  {
    var i := 0;
    while i < |answers|
      invariant 0 <= i <= |answers| && cursor.seen == old(cursor.seen) + i
      invariant ProvedWalk(h, hl, r, old(cursor.next), cursor.address, answers)
             == ProvedWalk(h, hl, r, cursor.next, cursor.address, answers[i..])
    {
      assert answers[i..][1..] == answers[i + 1..];
      var answer := cursor.Step(h, hl, r, answers[i]);
      if answer.Err? {
        return Err(answer.error);
      }
      i := i + 1;
    }
    return Ok(());
  }
}
