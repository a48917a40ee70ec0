/** Execution as the source carries it out: a store changed in place, messages
    run on a clone that is kept or dropped, and pointers moved one account at a
    time (crates/executor/src/lib.rs). */
module Store {
  import opened Base
  import opened Ledger
  import opened Execution
  import opened History

  class Store {
    var ledger: Ledger
    var accounts: map<Address, Account>
    var modules: nat

    function View(): World
      reads this
    {
      World(ledger, accounts, modules)
    }

    constructor (w: World)
      ensures View() == w
    {
      ledger, accounts, modules := w.ledger, w.accounts, w.modules;
    }

    method BumpNonce(r: Rules, a: Address)
      modifies this
      ensures View() == Bump(r, old(View()), a)
    {
      var account := Load(r, accounts, a);
      accounts := accounts[a := account.(nonce := account.nonce + 1)];
    }

    method MoveHistoryPointer(r: Rules, a: Address, p: Pointer) returns (previous: Option<Pointer>)
      modifies this
      ensures previous == LastOf(r, old(View()), a)
      ensures View() == old(View()).(accounts := MovePointer(r, old(accounts), a, p))
    {
      var account := Load(r, accounts, a);
      previous := account.lastTxn;
      accounts := accounts[a := account.(lastTxn := Some(p))];
    }

    /** A refused message may leave earlier effects behind: only ever on a clone that is then dropped. */
    method ApplyMessage(r: Rules, height: nat, sender: Address, m: Message) returns (ok: bool)
      modifies this
      ensures ApplyEffects(r, old(View()), Plan(r, old(View()), height, sender, m))
           == if ok then Some(View()) else None
    {
      ghost var start := View();
      var plan := Plan(r, View(), height, sender, m);
      var i := 0;
      while i < |plan|
        invariant 0 <= i <= |plan|
        invariant ApplyEffects(r, start, plan) == ApplyEffects(r, View(), plan[i..])
      {
        assert plan[i..][1..] == plan[i + 1..];
        var next := ApplyEffect(r, View(), plan[i]);
        if next.None? {
          return false;
        }
        ledger, accounts, modules := next.value.ledger, next.value.accounts, next.value.modules;
        i := i + 1;
      }
      return true;
    }

    method RunMessages(r: Rules, height: nat, sender: Address, ms: seq<Message>) returns (ok: bool)
      modifies this
      ensures ApplyMessages(r, old(View()), height, sender, ms) == if ok then Some(View()) else None
    {
      ghost var start := View();
      var i := 0;
      while i < |ms|
        invariant 0 <= i <= |ms|
        invariant ApplyMessages(r, start, height, sender, ms) == ApplyMessages(r, View(), height, sender, ms[i..])
      {
        assert ms[i..][1..] == ms[i + 1..];
        var applied := ApplyMessage(r, height, sender, ms[i]);
        if !applied {
          return false;
        }
        i := i + 1;
      }
      return true;
    }

    method MoveAll(r: Rules, addresses: seq<Address>, p: Pointer) returns (touched: seq<TouchedAccount>)
      modifies this
      ensures View() == old(View()).(accounts := MovePointers(r, old(accounts), addresses, p))
      ensures touched == Previous(r, old(accounts), addresses, p)
    {
      ghost var start := accounts;
      touched := [];
      var i := 0;
      while i < |addresses|
        invariant 0 <= i <= |addresses|
        invariant View() == old(View()).(accounts := accounts)
        invariant MovePointers(r, start, addresses, p) == MovePointers(r, accounts, addresses[i..], p)
        invariant Previous(r, start, addresses, p) == touched + Previous(r, accounts, addresses[i..], p)
      {
        assert addresses[i..][1..] == addresses[i + 1..];
        var previous := MoveHistoryPointer(r, addresses[i], p);
        touched := touched + [TouchedAccount(addresses[i], previous)];
        i := i + 1;
      }
    }

    method Execute(r: Rules, height: nat, tx: Tx) returns (receipt: Receipt)
      modifies this
      ensures (View(), receipt) == ExecuteTx(r, old(View()), height, tx)
    {
      var admitted := Admission(r, View(), height, tx);
      if admitted.Err? {
        return Receipt(r.id(tx), Rejected(admitted.error), 0, []);
      }
      ledger := admitted.value;
      var sandbox := new Store(View());
      var applied := sandbox.RunMessages(r, height, tx.sender, tx.messages);
      if applied {
        ledger, accounts, modules := sandbox.ledger, sandbox.accounts, sandbox.modules;
      }
      BumpNonce(r, tx.sender);
      var touched := MoveAll(r, TouchedBy(tx, applied), Pointer(r.id(tx), height));
      return Receipt(r.id(tx), if applied then Applied else Failed, tx.fee.amount, touched);
    }

    method ExecuteBlock(r: Rules, height: nat, txs: seq<Tx>) returns (receipts: seq<Receipt>)
      modifies this
      ensures View() == Play(r, old(View()), Block(height, txs))
      ensures |receipts| == |txs|
      ensures forall i :: 0 <= i < |txs| ==>
        Log(r, old(View()), Block(height, txs))[i] == Entry(txs[i], height, receipts[i])
    {
      ghost var start := View();
      receipts := [];
      var i := 0;
      while i < |txs|
        invariant 0 <= i <= |txs| && |receipts| == i
        invariant View() == Play(r, start, Block(height, txs[..i]))
        invariant forall k :: 0 <= k < i ==>
          Log(r, start, Block(height, txs[..i]))[k] == Entry(txs[k], height, receipts[k])
      {
        BlockGrows(height, txs, i);
        var receipt := Execute(r, height, txs[i]);
        receipts := receipts + [receipt];
        i := i + 1;
      }
      assert txs[..i] == txs;
    }
  }

  /** The transactions of one block at their place in the chain. */
  function Block(height: nat, txs: seq<Tx>): (items: seq<Item>)
    ensures |items| == |txs|
    ensures forall i :: 0 <= i < |txs| ==> items[i] == Item(height, txs[i])
  {
    seq(|txs|, i requires 0 <= i < |txs| => Item(height, txs[i]))
  }

  lemma BlockGrows(height: nat, txs: seq<Tx>, i: nat)
    requires i < |txs|
    ensures Block(height, txs[..i + 1])[..i] == Block(height, txs[..i])
  {
  }
}
