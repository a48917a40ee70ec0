/** Provable history: every account's last pointer and the previous pointers in
    receipts form one backwards chain through exactly the transactions that
    touched the account (crates/executor/src/lib.rs,
    crates/rpc/src/history.rs). */
module History {
  import opened Base
  import opened Ledger
  import opened Execution

  // -- what one transaction does to accounts --------------------------------

  lemma {:induction false} EffectKeepsRecords(r: Rules, w: World, e: Effect, a: Address)
    requires ApplyEffect(r, w, e).Some?
    ensures NonceOf(r, ApplyEffect(r, w, e).value, a) == NonceOf(r, w, a)
    ensures LastOf(r, ApplyEffect(r, w, e).value, a) == LastOf(r, w, a)
  {
  }

  lemma {:induction false} EffectsKeepRecords(r: Rules, w: World, effects: seq<Effect>, a: Address)
    requires ApplyEffects(r, w, effects).Some?
    ensures NonceOf(r, ApplyEffects(r, w, effects).value, a) == NonceOf(r, w, a)
    ensures LastOf(r, ApplyEffects(r, w, effects).value, a) == LastOf(r, w, a)
    decreases |effects|
  {
    if effects != [] {
      EffectKeepsRecords(r, w, effects[0], a);
      EffectsKeepRecords(r, ApplyEffect(r, w, effects[0]).value, effects[1..], a);
    }
  }

  lemma {:induction false} MessagesKeepRecords(r: Rules, w: World, height: nat, sender: Address, ms: seq<Message>,
                                               a: Address)
    requires ApplyMessages(r, w, height, sender, ms).Some?
    ensures NonceOf(r, ApplyMessages(r, w, height, sender, ms).value, a) == NonceOf(r, w, a)
    ensures LastOf(r, ApplyMessages(r, w, height, sender, ms).value, a) == LastOf(r, w, a)
    decreases |ms|
  {
    if ms != [] {
      var plan := Plan(r, w, height, sender, ms[0]);
      EffectsKeepRecords(r, w, plan, a);
      MessagesKeepRecords(r, ApplyEffects(r, w, plan).value, height, sender, ms[1..], a);
    }
  }

  lemma {:induction false} SettledRecords(r: Rules, paid: World, height: nat, tx: Tx, a: Address)
    ensures NonceOf(r, Settled(r, paid, height, tx), a) == NonceOf(r, paid, a) + (if a == tx.sender then 1 else 0)
    ensures LastOf(r, Settled(r, paid, height, tx), a) == LastOf(r, paid, a)
  {
    if ApplyMessages(r, paid, height, tx.sender, tx.messages).Some? {
      MessagesKeepRecords(r, paid, height, tx.sender, tx.messages, a);
    }
  }

  /** Moving distinct accounts' pointers records for each the pointer it had. */
  lemma {:induction false} PointersMoved(r: Rules, accounts: map<Address, Account>, addresses: seq<Address>, p: Pointer,
                                         a: Address)
    requires StrictlyAscending(addresses)
    ensures var moved := Load(r, MovePointers(r, accounts, addresses, p), a);
      moved == Load(r, accounts, a).(lastTxn := if a in addresses then Some(p) else Load(r, accounts, a).lastTxn)
    ensures PreviousFor(Previous(r, accounts, addresses, p), a)
         == if a in addresses then Some(Load(r, accounts, a).lastTxn) else None
    decreases |addresses|
  {
    if addresses != [] {
      var next := MovePointer(r, accounts, addresses[0], p);
      assert forall i :: 0 <= i < |addresses[1..]| ==> addresses[1..][i] == addresses[i + 1];
      PointersMoved(r, next, addresses[1..], p, a);
      var touched := Previous(r, accounts, addresses, p);
      assert touched[1..] == Previous(r, next, addresses[1..], p);
      assert addresses == [addresses[0]] + addresses[1..];
    }
  }

  predicate Effective(receipt: Receipt) { !receipt.verdict.Rejected? }

  /** What a transaction does to one account's nonce and pointer. */
  lemma {:induction false} StepRecords(r: Rules, w: World, height: nat, tx: Tx, a: Address)
    ensures var (w', receipt) := ExecuteTx(r, w, height, tx);
      && receipt.txId == r.id(tx)
      && (!Effective(receipt) ==> w' == w && receipt.touched == [])
      && (Effective(receipt) ==> tx.nonce == NonceOf(r, w, tx.sender))
      && NonceOf(r, w', a) == NonceOf(r, w, a) + (if Effective(receipt) && a == tx.sender then 1 else 0)
      && match PreviousFor(receipt.touched, a)
         case None => LastOf(r, w', a) == LastOf(r, w, a)
         case Some(previous) =>
           Effective(receipt) && previous == LastOf(r, w, a) && LastOf(r, w', a) == Some(Pointer(r.id(tx), height))
  {
    var admitted := Admission(r, w, height, tx);
    if admitted.Ok? {
      var paid := w.(ledger := admitted.value);
      var applied := ApplyMessages(r, paid, height, tx.sender, tx.messages).Some?;
      var settled := Settled(r, paid, height, tx);
      SettledRecords(r, paid, height, tx, a);
      PointersMoved(r, settled.accounts, TouchedBy(tx, applied), Pointer(r.id(tx), height), a);
    }
  }

  // -- runs -----------------------------------------------------------------

  /** A transaction at its place in the chain. */
  datatype Item = Item(height: nat, tx: Tx)

  datatype Entry = Entry(tx: Tx, height: nat, receipt: Receipt)

  function Play(r: Rules, w: World, items: seq<Item>): World {
    if items == [] then w
    else
      var n := |items| - 1;
      ExecuteTx(r, Play(r, w, items[..n]), items[n].height, items[n].tx).0
  }

  function Log(r: Rules, w: World, items: seq<Item>): (log: seq<Entry>)
    ensures |log| == |items|
  {
    if items == [] then []
    else
      var n := |items| - 1;
      Log(r, w, items[..n])
      + [Entry(items[n].tx, items[n].height, ExecuteTx(r, Play(r, w, items[..n]), items[n].height, items[n].tx).1)]
  }

  lemma {:induction false} LogPrefix(r: Rules, w: World, items: seq<Item>, k: nat)
    requires k <= |items|
    ensures Log(r, w, items)[..k] == Log(r, w, items[..k])
    decreases |items|
  {
    if k < |items| {
      var n := |items| - 1;
      LogPrefix(r, w, items[..n], k);
      assert items[..n][..k] == items[..k];
      assert Log(r, w, items)[..n] == Log(r, w, items[..n]);
      assert Log(r, w, items)[..k] == Log(r, w, items)[..n][..k];
    } else {
      assert items[..k] == items;
    }
  }

  lemma {:induction false} LogAt(r: Rules, w: World, items: seq<Item>, k: nat)
    requires k < |items|
    ensures Log(r, w, items)[k]
         == Entry(items[k].tx, items[k].height, ExecuteTx(r, Play(r, w, items[..k]), items[k].height, items[k].tx).1)
  {
    LogPrefix(r, w, items, k + 1);
    assert items[..k + 1][..k] == items[..k];
    assert Log(r, w, items)[k] == Log(r, w, items[..k + 1])[k];
  }

  // -- a transaction takes effect at most once ------------------------------

  lemma {:induction false} NonceStep(r: Rules, w: World, height: nat, tx: Tx, a: Address)
    ensures NonceOf(r, w, a) <= NonceOf(r, ExecuteTx(r, w, height, tx).0, a)
    ensures Effective(ExecuteTx(r, w, height, tx).1) && a == tx.sender ==>
              tx.nonce == NonceOf(r, w, a) < NonceOf(r, ExecuteTx(r, w, height, tx).0, a)
  {
    StepRecords(r, w, height, tx, a);
  }

  lemma {:induction false} NoncesNeverFall(r: Rules, w: World, items: seq<Item>, k: nat, a: Address)
    requires k <= |items|
    ensures NonceOf(r, Play(r, w, items[..k]), a) <= NonceOf(r, Play(r, w, items), a)
    decreases |items|
  {
    if k < |items| {
      var n := |items| - 1;
      var front := items[..n];
      assert front[..k] == items[..k];
      NoncesNeverFall(r, w, front, k, a);
      NonceStep(r, Play(r, w, front), items[n].height, items[n].tx, a);
      assert items[..n + 1] == items;
      PlayStep(r, w, items, n);
    } else {
      assert items[..k] == items;
    }
  }

  lemma {:induction false} PlayStep(r: Rules, w: World, items: seq<Item>, i: nat)
    requires i < |items|
    ensures Play(r, w, items[..i + 1]) == ExecuteTx(r, Play(r, w, items[..i]), items[i].height, items[i].tx).0
  {
    assert items[..i + 1][..i] == items[..i];
  }

  lemma {:induction false} NoncesPass(r: Rules, w: World, items: seq<Item>, i: nat)
    requires i < |items| && Effective(Log(r, w, items)[i].receipt)
    ensures items[i].tx.nonce < NonceOf(r, Play(r, w, items), items[i].tx.sender)
  {
    LogAt(r, w, items, i);
    PlayStep(r, w, items, i);
    NonceStep(r, Play(r, w, items[..i]), items[i].height, items[i].tx, items[i].tx.sender);
    NoncesNeverFall(r, w, items, i + 1, items[i].tx.sender);
  }

  /** A sender's effective transactions have ever larger nonces. */
  lemma {:induction false} NoncesGrow(r: Rules, w: World, items: seq<Item>, i: nat, j: nat)
    requires i < j < |items| && items[i].tx.sender == items[j].tx.sender
    requires Effective(Log(r, w, items)[i].receipt) && Effective(Log(r, w, items)[j].receipt)
    ensures items[i].tx.nonce < items[j].tx.nonce
  {
    LogAt(r, w, items, j);
    LogPrefix(r, w, items, j);
    assert Log(r, w, items)[i] == Log(r, w, items[..j])[i];
    NoncesPass(r, w, items[..j], i);
    StepRecords(r, Play(r, w, items[..j]), items[j].height, items[j].tx, items[j].tx.sender);
  }

  /** Two different transactions of the chain with one identifier. */
  ghost predicate Collides(r: Rules, items: seq<Item>) {
    exists i, j :: 0 <= i < |items| && 0 <= j < |items| && items[i].tx != items[j].tx
      && r.id(items[i].tx) == r.id(items[j].tx)
  }

  lemma {:induction false} OneEffect(r: Rules, w: World, items: seq<Item>, i: nat, j: nat)
    requires i < |items| && j < |items| && r.id(items[i].tx) == r.id(items[j].tx)
    requires Effective(Log(r, w, items)[i].receipt) && Effective(Log(r, w, items)[j].receipt)
    ensures i == j || Collides(r, items)
  {
    if items[i].tx == items[j].tx {
      if i < j {
        NoncesGrow(r, w, items, i, j);
      } else if j < i {
        NoncesGrow(r, w, items, j, i);
      }
    }
  }

  // -- the chain of pointers ------------------------------------------------

  predicate Names(e: Entry, a: Address) { PreviousFor(e.receipt.touched, a).Some? }

  function PointerOf(e: Entry): Pointer { Pointer(e.receipt.txId, e.height) }

  /** The transactions that touched an account, newest first. */
  function Visits(log: seq<Entry>, a: Address): seq<Entry> {
    if log == [] then []
    else
      var n := |log| - 1;
      (if Names(log[n], a) then [log[n]] else []) + Visits(log[..n], a)
  }

  function Newest(log: seq<Entry>, a: Address): Option<Pointer> {
    if Visits(log, a) == [] then None else Some(PointerOf(Visits(log, a)[0]))
  }

  /** A store in which no account has a history. */
  ghost predicate Unvisited(r: Rules, w: World) { forall a :: LastOf(r, w, a).None? }

  /** The account's pointer names the newest transaction that touched it. */
  lemma {:induction false} LastIsNewest(r: Rules, w: World, items: seq<Item>, a: Address)
    requires LastOf(r, w, a).None?
    ensures LastOf(r, Play(r, w, items), a) == Newest(Log(r, w, items), a)
    decreases |items|
  {
    if items != [] {
      var n := |items| - 1;
      LastIsNewest(r, w, items[..n], a);
      StepRecords(r, Play(r, w, items[..n]), items[n].height, items[n].tx, a);
      assert Log(r, w, items)[..n] == Log(r, w, items[..n]);
    }
  }

  /** A receipt's previous pointer names the newest transaction before it that touched the account. */
  lemma {:induction false} PreviousIsNewest(r: Rules, w: World, items: seq<Item>, i: nat, a: Address)
    requires LastOf(r, w, a).None? && i < |items| && Names(Log(r, w, items)[i], a)
    ensures PreviousFor(Log(r, w, items)[i].receipt.touched, a) == Some(Newest(Log(r, w, items)[..i], a))
    ensures PointerOf(Log(r, w, items)[i]) == Pointer(r.id(items[i].tx), items[i].height)
    ensures Effective(Log(r, w, items)[i].receipt)
  {
    LogAt(r, w, items, i);
    LogPrefix(r, w, items, i);
    LastIsNewest(r, w, items[..i], a);
    StepRecords(r, Play(r, w, items[..i]), items[i].height, items[i].tx, a);
  }

  lemma {:induction false} VisitsSplit(log: seq<Entry>, a: Address) returns (i: nat)
    requires Visits(log, a) != []
    ensures i < |log| && Names(log[i], a) && Visits(log, a) == [log[i]] + Visits(log[..i], a)
    decreases |log|
  {
    var n := |log| - 1;
    if Names(log[n], a) {
      i := n;
    } else {
      i := VisitsSplit(log[..n], a);
      assert log[..n][..i] == log[..i];
    }
  }

  // -- the walk -------------------------------------------------------------

  datatype HistoryError = Finished | WrongHeight | BadProof | WrongTransaction | BrokenChain

  /** One step of the cursor on a proved transaction and receipt: the next pointer to follow. */
  function CursorStep(r: Rules, next: Option<Pointer>, a: Address, e: Entry): Result<Option<Pointer>, HistoryError> {
    if next.None? then Err(Finished)
    else if e.height != next.value.height then Err(WrongHeight)
    else if r.id(e.tx) != next.value.txId then Err(WrongTransaction)
    else
      match PreviousFor(e.receipt.touched, a)
      case None => Err(BrokenChain)
      case Some(previous) => Ok(previous)
  }

  /** The cursor after a list of answers, all accepted. */
  function Walk(r: Rules, next: Option<Pointer>, a: Address, answers: seq<Entry>): Result<Option<Pointer>, HistoryError>
    decreases |answers|
  {
    if answers == [] then Ok(next)
    else
      match CursorStep(r, next, a, answers[0])
      case Err(e) => Err(e)
      case Ok(previous) => Walk(r, previous, a, answers[1..])
  }

  /** A pointer to the entry at `i` leads to that entry only, and from it to the one before. */
  predicate LeadsOn(r: Rules, log: seq<Entry>, a: Address, i: nat, j: nat)
    requires i < |log| && j < |log|
  {
    var step := CursorStep(r, Some(PointerOf(log[i])), a, log[j]);
    Names(log[i], a) && step.Ok? ==> i == j && step == Ok(Newest(log[..i], a))
  }

  ghost predicate Linked(r: Rules, log: seq<Entry>, a: Address) {
    forall i: nat, j: nat :: i < |log| && j < |log| ==> LeadsOn(r, log, a, i, j)
  }

  /** Any answer a cursor accepts is the transaction it was looking for. */
  lemma {:induction false} AcceptedAnswer(r: Rules, w: World, items: seq<Item>, a: Address, log: seq<Entry>, i: nat,
                                          j: nat)
    requires LastOf(r, w, a).None? && log == Log(r, w, items) && i < |log| && j < |log| && !Collides(r, items)
    ensures LeadsOn(r, log, a, i, j)
  {
    if Names(log[i], a) && CursorStep(r, Some(PointerOf(log[i])), a, log[j]).Ok? {
      LogAt(r, w, items, j);
      PreviousIsNewest(r, w, items, i, a);
      PreviousIsNewest(r, w, items, j, a);
      OneEffect(r, w, items, i, j);
    }
  }

  lemma {:induction false} LogIsLinked(r: Rules, w: World, items: seq<Item>, a: Address, log: seq<Entry>)
    requires LastOf(r, w, a).None? && log == Log(r, w, items) && !Collides(r, items)
    ensures Linked(r, log, a)
  {
    forall i: nat, j: nat | i < |log| && j < |log| ensures LeadsOn(r, log, a, i, j) {
      AcceptedAnswer(r, w, items, a, log, i, j);
    }
  }

  lemma {:induction false} WalkFrom(r: Rules, log: seq<Entry>, a: Address, n: nat, answers: seq<Entry>) returns (m: nat)
    requires Linked(r, log, a) && n <= |log|
    requires forall e :: e in answers ==> e in log
    requires Walk(r, Newest(log[..n], a), a, answers).Ok?
    ensures m <= n && Visits(log[..n], a) == answers + Visits(log[..m], a)
    ensures Walk(r, Newest(log[..n], a), a, answers) == Ok(Newest(log[..m], a))
    decreases |answers|
  {
    if answers == [] {
      m := n;
    } else {
      var i := VisitsSplit(log[..n], a);
      assert log[..n][..i] == log[..i];
      assert answers[0] in log;
      var j: nat :| j < |log| && log[j] == answers[0];
      assert Newest(log[..n], a) == Some(PointerOf(log[i]));
      assert LeadsOn(r, log, a, i, j);
      m := WalkFrom(r, log, a, i, answers[1..]);
      assert answers == [answers[0]] + answers[1..];
    }
  }

  /** Whatever a server answers from the chain, a walk that accepts it visits
      the transactions that touched the account, newest first, with none skipped
      and none repeated; and the walk reports completion exactly when it has
      visited them all. The alternative is two transactions with one identifier. */
  lemma {:induction false} WalkIsHistory(r: Rules, w: World, items: seq<Item>, a: Address, answers: seq<Entry>)
    requires Unvisited(r, w)
    requires forall e :: e in answers ==> e in Log(r, w, items)
    requires Walk(r, LastOf(r, Play(r, w, items), a), a, answers).Ok?
    ensures Collides(r, items) || answers <= Visits(Log(r, w, items), a)
    ensures Collides(r, items)
            || (Walk(r, LastOf(r, Play(r, w, items), a), a, answers) == Ok(None)
                <==> answers == Visits(Log(r, w, items), a))
  {
    if !Collides(r, items) {
      var log := Log(r, w, items);
      LastIsNewest(r, w, items, a);
      assert log[..|log|] == log;
      LogIsLinked(r, w, items, a, log);
      var m := WalkFrom(r, log, a, |log|, answers);
    }
  }

  /** And an honest server can always take the walk to its end. */
  lemma {:induction false} WalkCanFinish(r: Rules, w: World, items: seq<Item>, a: Address)
    requires Unvisited(r, w)
    ensures Walk(r, LastOf(r, Play(r, w, items), a), a, Visits(Log(r, w, items), a)) == Ok(None)
  {
    var log := Log(r, w, items);
    LastIsNewest(r, w, items, a);
    assert log[..|log|] == log;
    FinishFrom(r, w, items, a, log, |log|);
  }

  lemma {:induction false} FinishFrom(r: Rules, w: World, items: seq<Item>, a: Address, log: seq<Entry>, n: nat)
    requires LastOf(r, w, a).None? && log == Log(r, w, items) && n <= |log|
    ensures Walk(r, Newest(log[..n], a), a, Visits(log[..n], a)) == Ok(None)
    decreases n
  {
    if Visits(log[..n], a) != [] {
      var i := VisitsSplit(log[..n], a);
      assert log[..n][..i] == log[..i];
      LogAt(r, w, items, i);
      PreviousIsNewest(r, w, items, i, a);
      assert Visits(log[..n], a)[1..] == Visits(log[..i], a);
      FinishFrom(r, w, items, a, log, i);
    }
  }
}
