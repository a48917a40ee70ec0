/** What executing transactions keeps: conservation from genesis on, failures
    that cost the fee and nothing else, and nobody's balance lowered but a
    signer's. */
module ExecutionLaws {
  import opened Base
  import opened Issuers
  import opened Ledger
  import opened Conservation
  import opened Effects
  import opened Execution
  import opened History

  // -- conservation ---------------------------------------------------------

  lemma EffectKeepsSolvent(r: Rules, w: World, e: Effect)
    requires Solvent(w.ledger) && ApplyEffect(r, w, e).Some?
    ensures Solvent(ApplyEffect(r, w, e).value.ledger)
  {
    if e.Banking? {
      ApplyKeepsSolvent(w.ledger, e.op);
    }
  }

  lemma {:induction false} EffectsKeepSolvent(r: Rules, w: World, effects: seq<Effect>)
    requires Solvent(w.ledger) && ApplyEffects(r, w, effects).Some?
    ensures Solvent(ApplyEffects(r, w, effects).value.ledger)
    decreases |effects|
  {
    if effects != [] {
      EffectKeepsSolvent(r, w, effects[0]);
      EffectsKeepSolvent(r, ApplyEffect(r, w, effects[0]).value, effects[1..]);
    }
  }

  lemma {:induction false} MessagesKeepSolvent(r: Rules, w: World, height: nat, sender: Address, ms: seq<Message>)
    requires Solvent(w.ledger) && ApplyMessages(r, w, height, sender, ms).Some?
    ensures Solvent(ApplyMessages(r, w, height, sender, ms).value.ledger)
    decreases |ms|
  {
    if ms != [] {
      var plan := Plan(r, w, height, sender, ms[0]);
      EffectsKeepSolvent(r, w, plan);
      MessagesKeepSolvent(r, ApplyEffects(r, w, plan).value, height, sender, ms[1..]);
    }
  }

  lemma {:induction false} AdmissionKeepsSolvent(r: Rules, w: World, height: nat, tx: Tx)
    requires Solvent(w.ledger) && Admission(r, w, height, tx).Ok?
    ensures Solvent(Admission(r, w, height, tx).value)
  {
    var fee := DoTransfer(PayerOf(tx), r.collector, tx.fee.denom, tx.fee.amount);
    if Apply(w.ledger, fee).Ok? {
      ApplyKeepsSolvent(w.ledger, fee);
    }
  }

  lemma {:induction false} TxKeepsSolvent(r: Rules, w: World, height: nat, tx: Tx)
    requires Solvent(w.ledger)
    ensures Solvent(ExecuteTx(r, w, height, tx).0.ledger)
  {
    var admitted := Admission(r, w, height, tx);
    if admitted.Ok? {
      AdmissionKeepsSolvent(r, w, height, tx);
      var paid := w.(ledger := admitted.value);
      if ApplyMessages(r, paid, height, tx.sender, tx.messages).Some? {
        MessagesKeepSolvent(r, paid, height, tx.sender, tx.messages);
      }
    }
  }

  /** Conservation over executed blocks: whatever transactions are executed, in
      every denomination the balances add up to the supply. */
  lemma {:induction false} BlocksKeepSolvent(r: Rules, w: World, items: seq<Item>)
    requires Solvent(w.ledger)
    ensures Solvent(Play(r, w, items).ledger)
    decreases |items|
  {
    if items != [] {
      var n := |items| - 1;
      BlocksKeepSolvent(r, w, items[..n]);
      TxKeepsSolvent(r, Play(r, w, items[..n]), items[n].height, items[n].tx);
    }
  }

  // -- failures -------------------------------------------------------------

  /** An admitted transaction whose messages all succeed. */
  predicate Succeeds(r: Rules, w: World, height: nat, tx: Tx) {
    var admitted := Admission(r, w, height, tx);
    admitted.Ok? && ApplyMessages(r, w.(ledger := admitted.value), height, tx.sender, tx.messages).Some?
  }

  /** One account after a transaction that cost its fee and a nonce and did nothing else. */
  function Charged(r: Rules, w: World, height: nat, tx: Tx, a: Address): Account {
    var before := Load(r, w.accounts, a);
    before.(nonce := before.nonce + (if a == tx.sender then 1 else 0),
            lastTxn := if a == tx.sender || a == PayerOf(tx) then Some(Pointer(r.id(tx), height)) else before.lastTxn)
  }

  lemma {:induction false} MovedKeys(r: Rules, accounts: map<Address, Account>, addresses: seq<Address>, p: Pointer)
    ensures MovePointers(r, accounts, addresses, p).Keys == accounts.Keys + (set a | a in addresses)
    decreases |addresses|
  {
    if addresses != [] {
      MovedKeys(r, MovePointer(r, accounts, addresses[0], p), addresses[1..], p);
      assert addresses == [addresses[0]] + addresses[1..];
    }
  }

  lemma MinimalTouched(tx: Tx, a: Address)
    ensures a in TouchedBy(tx, false) <==> a == tx.sender || a == PayerOf(tx)
  {
  }

  lemma {:induction false} ChargedAt(r: Rules, w: World, height: nat, tx: Tx, bumped: map<Address, Account>, a: Address)
    requires bumped == Bump(r, w, tx.sender).accounts
    ensures Load(r, MovePointers(r, bumped, TouchedBy(tx, false), Pointer(r.id(tx), height)), a)
         == Charged(r, w, height, tx, a)
  {
    PointersMoved(r, bumped, TouchedBy(tx, false), Pointer(r.id(tx), height), a);
    MinimalTouched(tx, a);
  }

  /** Moving the pointers of sender and payer, after the nonce, is exactly the charge. */
  lemma {:induction false} ChargedOnly(r: Rules, w: World, height: nat, tx: Tx, bumped: map<Address, Account>)
    requires bumped == Bump(r, w, tx.sender).accounts
    ensures var moved := MovePointers(r, bumped, TouchedBy(tx, false), Pointer(r.id(tx), height));
      && moved.Keys == w.accounts.Keys + {tx.sender, PayerOf(tx)}
      && forall a :: a in moved ==> moved[a] == Charged(r, w, height, tx, a)
  {
    var moved := MovePointers(r, bumped, TouchedBy(tx, false), Pointer(r.id(tx), height));
    MovedKeys(r, bumped, TouchedBy(tx, false), Pointer(r.id(tx), height));
    forall a ensures a in moved <==> a in w.accounts.Keys + {tx.sender, PayerOf(tx)} {
      MinimalTouched(tx, a);
    }
    forall a | a in moved ensures moved[a] == Charged(r, w, height, tx, a) {
      ChargedAt(r, w, height, tx, bumped, a);
    }
  }

  /** What is left of an admitted transaction whose messages were dropped. */
  lemma {:induction false} FailedStore(r: Rules, w: World, height: nat, tx: Tx)
    requires Admission(r, w, height, tx).Ok? && !Succeeds(r, w, height, tx)
    ensures ExecuteTx(r, w, height, tx).0
         == World(Admission(r, w, height, tx).value,
                  MovePointers(r, Bump(r, w, tx.sender).accounts, TouchedBy(tx, false), Pointer(r.id(tx), height)),
                  w.modules)
    ensures ExecuteTx(r, w, height, tx).1.feeCharged == tx.fee.amount && ExecuteTx(r, w, height, tx).1.verdict.Failed?
  {
  }

  lemma VerdictExactlyWhen(r: Rules, w: World, height: nat, tx: Tx)
    ensures var verdict := ExecuteTx(r, w, height, tx).1.verdict;
      && (verdict.Rejected? <==> Admission(r, w, height, tx).Err?)
      && (verdict.Applied? <==> Succeeds(r, w, height, tx))
  {
  }

  /** A transaction that is not admitted changes nothing. One that is admitted
      and does not succeed pays its fee, skipped only when it is zero, takes one
      nonce from its sender, and is filed under its sender and its payer; every
      other account, and everything else in the store, is as it was. */
  lemma {:induction false} FailureCostsTheFeeOnly(r: Rules, w: World, height: nat, tx: Tx)
    ensures var (w', receipt) := ExecuteTx(r, w, height, tx);
      && (receipt.verdict.Rejected? <==> Admission(r, w, height, tx).Err?)
      && (receipt.verdict.Applied? <==> Succeeds(r, w, height, tx))
      && (receipt.verdict.Rejected? ==> w' == w && receipt.feeCharged == 0)
      && (receipt.verdict.Failed? ==>
            && w'.modules == w.modules && receipt.feeCharged == tx.fee.amount
            && (if tx.fee.amount == 0 then w'.ledger == w.ledger
                else Transfer(w.ledger, PayerOf(tx), r.collector, tx.fee.denom, tx.fee.amount) == Ok(w'.ledger))
            && w'.accounts.Keys == w.accounts.Keys + {tx.sender, PayerOf(tx)}
            && forall a :: a in w'.accounts ==> w'.accounts[a] == Charged(r, w, height, tx, a))
  {
    VerdictExactlyWhen(r, w, height, tx);
    if Admission(r, w, height, tx).Ok? && !Succeeds(r, w, height, tx) {
      FailedStore(r, w, height, tx);
      ChargedOnly(r, w, height, tx, Bump(r, w, tx.sender).accounts);
    }
  }

  // -- whose money moves ----------------------------------------------------

  /** Messages whose arm the model spells out. */
  predicate Plain(ms: seq<Message>) { forall m :: m in ms ==> !m.Other? }

  /** An operation lowers no balance but `a`'s. */
  predicate DrawsOn(op: Op, a: Address) {
    match op
    case DoTransfer(from, _, _, _) => from == a
    case DoBurn(minter, _, _) => minter == a
    case DoSlash(_, _) => false
    case _ => true
  }

  lemma OpDrawsOn(l: Ledger, op: Op, payer: Address, a: Address, d: Denom)
    requires Apply(l, op).Ok? && DrawsOn(op, payer) && a != payer
    ensures Balance(Apply(l, op).value, a, d) >= Balance(l, a, d)
  {
    MovesExactly(l, op, a, d);
  }

  predicate EffectsDrawOn(effects: seq<Effect>, payer: Address) {
    forall e :: e in effects && e.Banking? ==> DrawsOn(e.op, payer)
  }

  lemma {:induction false} EffectsSpare(r: Rules, w: World, effects: seq<Effect>, payer: Address, a: Address, d: Denom)
    requires ApplyEffects(r, w, effects).Some? && EffectsDrawOn(effects, payer) && a != payer
    ensures Balance(ApplyEffects(r, w, effects).value.ledger, a, d) >= Balance(w.ledger, a, d)
    decreases |effects|
  {
    if effects != [] {
      var e := effects[0];
      assert e in effects;
      if e.Banking? {
        OpDrawsOn(w.ledger, e.op, payer, a, d);
      }
      EffectsSpare(r, ApplyEffect(r, w, e).value, effects[1..], payer, a, d);
    }
  }

  lemma PlanDrawsOnSender(r: Rules, w: World, height: nat, sender: Address, m: Message)
    requires !m.Other?
    ensures EffectsDrawOn(Plan(r, w, height, sender, m), sender)
  {
  }

  lemma {:induction false} MessagesSpare(r: Rules, w: World, height: nat, sender: Address, ms: seq<Message>, a: Address,
                                         d: Denom)
    requires ApplyMessages(r, w, height, sender, ms).Some? && Plain(ms) && a != sender
    ensures Balance(ApplyMessages(r, w, height, sender, ms).value.ledger, a, d) >= Balance(w.ledger, a, d)
    decreases |ms|
  {
    if ms != [] {
      assert ms[0] in ms;
      var plan := Plan(r, w, height, sender, ms[0]);
      PlanDrawsOnSender(r, w, height, sender, ms[0]);
      EffectsSpare(r, w, plan, sender, a, d);
      MessagesSpare(r, ApplyEffects(r, w, plan).value, height, sender, ms[1..], a, d);
    }
  }

  /** The keys that would have to sign for an account to pay in this transaction. */
  predicate SignedFor(r: Rules, w: World, tx: Tx, a: Address) {
    || (a == tx.sender && r.authorises(Load(r, w.accounts, a).profile, tx.keys))
    || (tx.fee.payer == Some(a) && r.authorises(Load(r, w.accounts, a).profile, tx.sponsorKeys))
  }

  /** A transaction of payments and issuance lowers an account's balance only with that account's own signature. */
  lemma {:induction false} OnlySignersPay(r: Rules, w: World, height: nat, tx: Tx, a: Address, d: Denom)
    requires Plain(tx.messages) && Balance(ExecuteTx(r, w, height, tx).0.ledger, a, d) < Balance(w.ledger, a, d)
    ensures SignedFor(r, w, tx, a)
  {
    if !SignedFor(r, w, tx, a) && Admission(r, w, height, tx).Ok? {
      AdmissionSpares(r, w, height, tx, a, d);
      var paid := w.(ledger := Admission(r, w, height, tx).value);
      if ApplyMessages(r, paid, height, tx.sender, tx.messages).Some? {
        MessagesSpare(r, paid, height, tx.sender, tx.messages, a, d);
      }
    }
  }

  lemma {:induction false} AdmissionSpares(r: Rules, w: World, height: nat, tx: Tx, a: Address, d: Denom)
    requires Admission(r, w, height, tx).Ok? && !SignedFor(r, w, tx, a)
    ensures a != tx.sender && Balance(Admission(r, w, height, tx).value, a, d) >= Balance(w.ledger, a, d)
  {
    var fee := DoTransfer(PayerOf(tx), r.collector, tx.fee.denom, tx.fee.amount);
    if Apply(w.ledger, fee).Ok? {
      OpDrawsOn(w.ledger, fee, PayerOf(tx), a, d);
    }
  }

  // -- who finds it in their history ----------------------------------------

  predicate NamedIn(ms: seq<Message>, a: Address) { exists m :: m in ms && a in Named(m) }

  /** A transaction that is not admitted is filed under nobody; one that
      succeeds under its sender and everyone its messages name; any other under
      its sender and its fee payer only. */
  lemma {:induction false} FiledUnder(r: Rules, w: World, height: nat, tx: Tx, a: Address)
    ensures PreviousFor(ExecuteTx(r, w, height, tx).1.touched, a).Some? <==>
      && Admission(r, w, height, tx).Ok?
      && (|| a == tx.sender
          || (if Succeeds(r, w, height, tx) then NamedIn(tx.messages, a) else a == PayerOf(tx)))
  {
    var admitted := Admission(r, w, height, tx);
    if admitted.Ok? {
      var paid := w.(ledger := admitted.value);
      var applied := ApplyMessages(r, paid, height, tx.sender, tx.messages).Some?;
      var settled := Settled(r, paid, height, tx);
      PointersMoved(r, settled.accounts, TouchedBy(tx, applied), Pointer(r.id(tx), height), a);
      NamedByMessages(tx.messages, a);
    }
  }

  /** Whoever pays for an admitted transaction finds it in their history, unless
      it succeeds, somebody else sent it and no message names them. */
  lemma PayerUnfiledExactlyWhen(r: Rules, w: World, height: nat, tx: Tx)
    requires Admission(r, w, height, tx).Ok?
    ensures PreviousFor(ExecuteTx(r, w, height, tx).1.touched, PayerOf(tx)).None? <==>
      Succeeds(r, w, height, tx) && PayerOf(tx) != tx.sender && !NamedIn(tx.messages, PayerOf(tx))
  {
    FiledUnder(r, w, height, tx, PayerOf(tx));
  }

  const PURSES: World := World(
    Ledger(map[(1, Native) := 5, (2, Native) := 5], map[Native := 10], {}, map[]), map[], 0)

  /** Account 2 pays the fee of account 1's payment to account 3. */
  const SPONSORED: Tx := Tx(1, 0, Fee(1, Native, Some(2)), [Pay(3, Native, 1, false)], 0, 0, 0)

  lemma SponsoredSucceeds(r: Rules, height: nat) returns (paid: World, moved: World)
    requires r.collector > 3 && r.stateless(SPONSORED, height) && !r.needsReference(r.individual(3))
    requires r.authorises(r.individual(1), 0) && r.authorises(r.individual(2), 0)
    ensures Admission(r, PURSES, height, SPONSORED) == Ok(paid.ledger) && paid == PURSES.(ledger := paid.ledger)
    ensures ApplyMessages(r, paid, height, 1, SPONSORED.messages) == Some(moved)
    ensures Balance(moved.ledger, 2, Native) == 4
  {
    paid := PURSES.(ledger := Transfer(PURSES.ledger, 2, r.collector, Native, 1).value);
    assert Balance(paid.ledger, 1, Native) == 5 && Balance(paid.ledger, 2, Native) == 4;
    var plan := [Banking(DoTransfer(1, 3, Native, 1)), Ensure(3)];
    assert Plan(r, paid, height, 1, SPONSORED.messages[0]) == plan;
    assert plan[1..] == [Ensure(3)] && plan[2..] == [] && SPONSORED.messages[1..] == [];
    var sent := ApplyEffect(r, paid, plan[0]).value;
    moved := ApplyEffect(r, sent, plan[1]).value;
    assert ApplyEffects(r, moved, []) == Some(moved) && ApplyEffects(r, sent, [Ensure(3)]) == Some(moved);
    assert ApplyEffects(r, paid, plan) == Some(moved) && ApplyMessages(r, moved, height, 1, []) == Some(moved);
  }

  /** Such a transaction exists: the sponsor paid, and its history does not say so. */
  lemma SponsorUnfiled(r: Rules, height: nat)
    requires r.collector > 3 && r.stateless(SPONSORED, height) && !r.needsReference(r.individual(3))
    requires r.authorises(r.individual(1), 0) && r.authorises(r.individual(2), 0)
    ensures var (w', receipt) := ExecuteTx(r, PURSES, height, SPONSORED);
      && receipt.verdict.Applied? && Balance(w'.ledger, 2, Native) < Balance(PURSES.ledger, 2, Native)
      && PreviousFor(receipt.touched, PayerOf(SPONSORED)).None? && LastOf(r, w', 2) == LastOf(r, PURSES, 2)
  {
    var paid, moved := SponsoredSucceeds(r, height);
    PayerUnfiledExactlyWhen(r, PURSES, height, SPONSORED);
    StepRecords(r, PURSES, height, SPONSORED, 2);
  }

  lemma {:induction false} NamedByMessages(ms: seq<Message>, a: Address)
    ensures a in AllNamed(ms) <==> NamedIn(ms, a)
  {
    if ms != [] {
      NamedByMessages(ms[1..], a);
      assert ms == [ms[0]] + ms[1..];
    }
  }

  /** What a transaction that is not rejected pays: exactly its fee, from its payer to the collector. */
  lemma {:induction false} FeeMovesExactly(r: Rules, w: World, height: nat, tx: Tx, a: Address, d: Denom)
    requires Admission(r, w, height, tx).Ok?
    ensures ExecuteTx(r, w, height, tx).1.feeCharged == tx.fee.amount
    ensures var fee := DoTransfer(PayerOf(tx), r.collector, tx.fee.denom, tx.fee.amount);
      Balance(Admission(r, w, height, tx).value, a, d) + Debit(fee, a, d) == Balance(w.ledger, a, d) + Credit(fee, a, d)
  {
    if Transfer(w.ledger, PayerOf(tx), r.collector, tx.fee.denom, tx.fee.amount).Ok? {
      TransferMoves(w.ledger, PayerOf(tx), r.collector, tx.fee.denom, tx.fee.amount, a, d);
    }
  }
}
