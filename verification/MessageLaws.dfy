/** What an applied transaction does, said of its messages' own fields: for each
    kind of message when it is allowed and everything it changes, and for a whole
    transaction the chain of stores in between and the money on every account. */
module MessageLaws {
  import opened Base
  import opened Issuers
  import opened Ledger
  import opened Conservation
  import opened Effects
  import opened Execution
  import opened History
  import opened ExecutionLaws

  // -- the table ------------------------------------------------------------

  /** What a message gives to one account in one denomination. */
  function Given(m: Message, a: Address, d: Denom): nat {
    match m
    case Pay(to, e, x, _) => if to == a && e == d then x else 0
    case MintUnits(e, to, x) => if to == a && e == d then x else 0
    case _ => 0
  }

  /** What it takes from one account. */
  function Taken(sender: Address, m: Message, a: Address, d: Denom): nat {
    match m
    case Pay(_, e, x, _) => if sender == a && e == d then x else 0
    case BurnUnits(e, x) => if sender == a && e == d then x else 0
    case _ => 0
  }

  ghost predicate MovesMoney(sender: Address, m: Message, l: Ledger, l': Ledger) {
    && (forall a, d :: Balance(l', a, d) + Taken(sender, m, a, d) == Balance(l, a, d) + Given(m, a, d))
    && (forall d :: Supply(l', d) + (if m.BurnUnits? && m.denom == d then m.amount else 0)
                 == Supply(l, d) + if m.MintUnits? && m.denom == d then m.amount else 0)
  }

  ghost predicate Freezes(m: Message, l: Ledger, l': Ledger) {
    forall a, d :: (a, d) in l'.frozen <==>
      if m.SetFrozenFor? && (m.account, m.denom) == (a, d) then m.on else (a, d) in l.frozen
  }

  /** What becomes of the record of the denomination a message names; no other changes. */
  ghost predicate RecordsAs(sender: Address, m: Message, l: Ledger, l': Ledger) {
    match m
    case MintUnits(d, _, x) =>
      && d in l.issuers && d in l'.issuers && l'.issuers == l.issuers[d := l'.issuers[d]]
      && l'.issuers[d] == l.issuers[d].(minters := l'.issuers[d].minters)
      && forall b :: AllowanceOf(l'.issuers[d], b) + (if b == sender then x else 0) == AllowanceOf(l.issuers[d], b)
    case SetIssuer(d, setting) =>
      && d in l.issuers && d in l'.issuers && l'.issuers == l.issuers[d := l'.issuers[d]]
      && IsSet(l.issuers[d], l'.issuers[d], setting)
    case AcceptAuthorityOf(d) =>
      && d in l.issuers && d in l'.issuers && l'.issuers == l.issuers[d := l'.issuers[d]]
      && l'.issuers[d] == l.issuers[d].(authority := sender, pending := None)
    case _ => l'.issuers == l.issuers
  }

  /** The accounts a message makes sure exist. */
  function Ensured(sender: Address, m: Message): set<Address> {
    match m
    case Pay(to, _, _, _) => {to}
    case SetIssuer(_, setting) =>
      if setting.PendingAuthority? && setting.to.Some? then {setting.to.value} else {}
    case ChangeAccount(_) => {sender}
    case _ => {}
  }

  /** Accounts: the named ones exist, the sender's signing arrangement is the one
      asked for, and nothing else is different. */
  ghost predicate AccountsAs(r: Rules, sender: Address, m: Message, w: World, w': World) {
    && w'.accounts.Keys == w.accounts.Keys + Ensured(sender, m)
    && forall a :: Load(r, w'.accounts, a)
         == if m.ChangeAccount? && a == sender
            then Load(r, w.accounts, a).(profile := ProfileAfter(r, w, sender, m)) else Load(r, w.accounts, a)
  }

  function ProfileAfter(r: Rules, w: World, sender: Address, m: Message): Profile
    requires m.ChangeAccount?
  {
    var profile := Load(r, w.accounts, sender).profile;
    if r.changed(profile, m.change).Some? then r.changed(profile, m.change).value else profile
  }

  /** Everything one message of the modelled kinds does. */
  ghost predicate Does(r: Rules, sender: Address, m: Message, w: World, w': World) {
    && w'.modules == w.modules && MovesMoney(sender, m, w.ledger, w'.ledger)
    && Freezes(m, w.ledger, w'.ledger) && RecordsAs(sender, m, w.ledger, w'.ledger) && AccountsAs(r, sender, m, w, w')
  }

  // -- one message ----------------------------------------------------------

  /** When a message is carried out: the rule of its kind, over the store it meets. */
  ghost predicate Allowed(r: Rules, w: World, sender: Address, m: Message) {
    var l := w.ledger;
    match m
    case Pay(to, d, x, referenced) =>
      && (r.needsReference(Load(r, w.accounts, to).profile) ==> referenced)
      && 0 < x <= Balance(l, sender, d) && (sender, d) !in l.frozen && (to, d) !in l.frozen
    case MintUnits(d, to, x) =>
      && x > 0 && d in l.issuers && !l.issuers[d].paused && x <= AllowanceOf(l.issuers[d], sender)
      && (to, d) !in l.frozen && Supply(l, d) + x <= U128_MAX
      && (l.issuers[d].maxSupply.Some? ==> Supply(l, d) + x <= l.issuers[d].maxSupply.value)
    case BurnUnits(d, x) =>
      && 0 < x <= Balance(l, sender, d) && (sender, d) !in l.frozen
      && d in l.issuers && AllowanceOf(l.issuers[d], sender) > 0
    case SetIssuer(d, setting) =>
      Issued(l, d) && l.issuers[d].authority == sender && MaySet(l.issuers[d], setting)
    case AcceptAuthorityOf(d) => Issued(l, d) && l.issuers[d].pending == Some(sender)
    case SetFrozenFor(d, _, _) =>
      && Issued(l, d)
      && sender == if l.issuers[d].freezer.Some? then l.issuers[d].freezer.value else l.issuers[d].authority
    case ChangeAccount(change) => r.changed(Load(r, w.accounts, sender).profile, change).Some?
    case Other(_, _) => false
  }

  /** The store after a message, if it is carried out. */
  function Carried(r: Rules, w: World, height: nat, sender: Address, m: Message): Option<World> {
    ApplyEffects(r, w, Plan(r, w, height, sender, m))
  }

  /** An effect reaches one part of the store: the ledger by one operation, one
      account's profile, or the records of the other modules; it is refused only as told, or by the bank. */
  lemma EffectDoes(r: Rules, w: World, e: Effect)
    ensures ApplyEffect(r, w, e).None? <==> e.Refuse? || (e.Banking? && Apply(w.ledger, e.op).Err?)
    ensures ApplyEffect(r, w, e).Some? ==>
      var t := ApplyEffect(r, w, e).value;
      && (if e.Banking? then Apply(w.ledger, e.op) == Ok(t.ledger) else t.ledger == w.ledger)
      && t.modules == (if e.Update? then e.modules else w.modules)
      && (forall a :: a in t.accounts <==> a in w.accounts || ((e.Ensure? || e.Rewrite?) && a == e.address))
      && forall a :: Load(r, t.accounts, a).nonce == Load(r, w.accounts, a).nonce
           && Load(r, t.accounts, a).lastTxn == Load(r, w.accounts, a).lastTxn
           && Load(r, t.accounts, a).profile
              == (if e.Rewrite? && a == e.address then e.profile else Load(r, w.accounts, a).profile)
  {
  }

  lemma OneEffect(r: Rules, w: World, e: Effect)
    ensures ApplyEffects(r, w, [e]) == ApplyEffect(r, w, e)
  {
    assert [e][1..] == [];
  }

  lemma TwoEffects(r: Rules, w: World, e: Effect, f: Effect)
    ensures ApplyEffects(r, w, [e, f])
         == if ApplyEffect(r, w, e).Some? then ApplyEffect(r, ApplyEffect(r, w, e).value, f) else None
  {
    assert [e, f][1..] == [f];
    if ApplyEffect(r, w, e).Some? {
      OneEffect(r, ApplyEffect(r, w, e).value, f);
    }
  }

  /** A ledger operation and nothing else. */
  lemma BankingOnly(r: Rules, w: World, op: LiveOp)
    ensures ApplyEffects(r, w, [Banking(op)])
         == if Apply(w.ledger, op).Ok? then Some(w.(ledger := Apply(w.ledger, op).value)) else None
  {
    OneEffect(r, w, Banking(op));
  }

  /** A ledger operation, then an account that has to exist. */
  lemma BankingThenEnsure(r: Rules, w: World, op: LiveOp, a: Address)
    ensures ApplyEffects(r, w, [Banking(op), Ensure(a)])
         == if Apply(w.ledger, op).Ok?
            then Some(World(Apply(w.ledger, op).value, w.accounts[a := Load(r, w.accounts, a)], w.modules)) else None
  {
    TwoEffects(r, w, Banking(op), Ensure(a));
  }

  lemma PayDoes(r: Rules, w: World, height: nat, sender: Address, m: Message)
    requires m.Pay? && Solvent(w.ledger)
    ensures Carried(r, w, height, sender, m).Some? <==> Allowed(r, w, sender, m)
    ensures Carried(r, w, height, sender, m).Some? ==> Does(r, sender, m, w, Carried(r, w, height, sender, m).value)
  {
    var op := DoTransfer(sender, m.to, m.denom, m.amount);
    TransferExactlyWhen(w.ledger, sender, m.to, m.denom, m.amount);
    if r.needsReference(Load(r, w.accounts, m.to).profile) && !m.referenced {
      OneEffect(r, w, Refuse);
    } else {
      BankingThenEnsure(r, w, op, m.to);
      if Apply(w.ledger, op).Ok? {
        PaymentMoves(w.ledger, sender, m, Apply(w.ledger, op).value);
      }
    }
  }

  lemma PaymentMoves(l: Ledger, sender: Address, m: Message, l': Ledger)
    requires m.Pay? && Transfer(l, sender, m.to, m.denom, m.amount) == Ok(l')
    ensures MovesMoney(sender, m, l, l') && l'.frozen == l.frozen && l'.issuers == l.issuers
  {
    forall a, d ensures Balance(l', a, d) + Taken(sender, m, a, d) == Balance(l, a, d) + Given(m, a, d) {
      TransferMoves(l, sender, m.to, m.denom, m.amount, a, d);
    }
  }

  lemma MintDoes(r: Rules, w: World, height: nat, sender: Address, m: Message)
    requires m.MintUnits? && Solvent(w.ledger)
    ensures Carried(r, w, height, sender, m).Some? <==> Allowed(r, w, sender, m)
    ensures Carried(r, w, height, sender, m).Some? ==> Does(r, sender, m, w, Carried(r, w, height, sender, m).value)
  {
    var op := DoMint(sender, m.to, m.denom, m.amount);
    MintExactlyWhen(w.ledger, sender, m.to, m.denom, m.amount);
    BankingOnly(r, w, op);
    if Apply(w.ledger, op).Ok? {
      MintedMoves(w.ledger, sender, m, Apply(w.ledger, op).value);
      MintDraws(w.ledger, sender, m.to, m.denom, m.amount);
    }
  }

  lemma MintedMoves(l: Ledger, sender: Address, m: Message, l': Ledger)
    requires m.MintUnits? && Mint(l, sender, m.to, m.denom, m.amount) == Ok(l')
    ensures MovesMoney(sender, m, l, l')
  {
    forall a, d ensures Balance(l', a, d) + Taken(sender, m, a, d) == Balance(l, a, d) + Given(m, a, d) {
      MintMoves(l, sender, m.to, m.denom, m.amount, a, d);
    }
  }

  lemma BurnDoes(r: Rules, w: World, height: nat, sender: Address, m: Message)
    requires m.BurnUnits? && Solvent(w.ledger)
    ensures Carried(r, w, height, sender, m).Some? <==> Allowed(r, w, sender, m)
    ensures Carried(r, w, height, sender, m).Some? ==> Does(r, sender, m, w, Carried(r, w, height, sender, m).value)
  {
    var op := DoBurn(sender, m.denom, m.amount);
    BurnExactlyWhen(w.ledger, sender, m.denom, m.amount);
    BankingOnly(r, w, op);
    if Apply(w.ledger, op).Ok? {
      BurnedMoves(w.ledger, sender, m, Apply(w.ledger, op).value);
    }
  }

  lemma BurnedMoves(l: Ledger, sender: Address, m: Message, l': Ledger)
    requires m.BurnUnits? && Burn(l, sender, m.denom, m.amount) == Ok(l')
    ensures MovesMoney(sender, m, l, l') && l'.frozen == l.frozen && l'.issuers == l.issuers
  {
    forall a, d ensures Balance(l', a, d) + Taken(sender, m, a, d) == Balance(l, a, d) + Given(m, a, d) {
      DestroyMoves(l, sender, m.denom, m.amount, a, d);
    }
  }

  lemma SettingDoes(r: Rules, w: World, height: nat, sender: Address, m: Message)
    requires m.SetIssuer?
    ensures Carried(r, w, height, sender, m).Some? <==> Allowed(r, w, sender, m)
    ensures Carried(r, w, height, sender, m).Some? ==> Does(r, sender, m, w, Carried(r, w, height, sender, m).value)
  {
    var op := DoConfigure(sender, m.denom, m.setting);
    ConfigureExactlyWhen(w.ledger, sender, m.denom, m.setting);
    if m.setting.PendingAuthority? && m.setting.to.Some? {
      BankingThenEnsure(r, w, op, m.setting.to.value);
      assert Plan(r, w, height, sender, m) == [Banking(op), Ensure(m.setting.to.value)];
    } else {
      BankingOnly(r, w, op);
      assert Plan(r, w, height, sender, m) == [Banking(op)];
    }
    if Apply(w.ledger, op).Ok? {
      SameMoney(sender, m, w.ledger, Apply(w.ledger, op).value);
    }
  }

  lemma SameMoney(sender: Address, m: Message, l: Ledger, l': Ledger)
    requires !m.Pay? && !m.MintUnits? && !m.BurnUnits? && l'.balances == l.balances && l'.supply == l.supply
    ensures MovesMoney(sender, m, l, l')
  {
  }

  lemma AcceptDoes(r: Rules, w: World, height: nat, sender: Address, m: Message)
    requires m.AcceptAuthorityOf?
    ensures Carried(r, w, height, sender, m).Some? <==> Allowed(r, w, sender, m)
    ensures Carried(r, w, height, sender, m).Some? ==> Does(r, sender, m, w, Carried(r, w, height, sender, m).value)
  {
    AcceptExactlyWhen(w.ledger, sender, m.denom);
    BankingOnly(r, w, DoAccept(sender, m.denom));
  }

  lemma FreezeDoes(r: Rules, w: World, height: nat, sender: Address, m: Message)
    requires m.SetFrozenFor?
    ensures Carried(r, w, height, sender, m).Some? <==> Allowed(r, w, sender, m)
    ensures Carried(r, w, height, sender, m).Some? ==> Does(r, sender, m, w, Carried(r, w, height, sender, m).value)
  {
    FreezeExactlyWhen(w.ledger, sender, m.account, m.denom, m.on);
    BankingOnly(r, w, DoFreeze(sender, m.account, m.denom, m.on));
  }

  lemma ChangeDoes(r: Rules, w: World, height: nat, sender: Address, m: Message)
    requires m.ChangeAccount?
    ensures Carried(r, w, height, sender, m).Some? <==> Allowed(r, w, sender, m)
    ensures Carried(r, w, height, sender, m).Some? ==> Does(r, sender, m, w, Carried(r, w, height, sender, m).value)
  {
    var changed := r.changed(Load(r, w.accounts, sender).profile, m.change);
    OneEffect(r, w, if changed.Some? then Rewrite(sender, changed.value) else Refuse);
  }

  /** A message is carried out exactly when it is allowed, and then does what it says and nothing else. */
  lemma MessageDoes(r: Rules, w: World, height: nat, sender: Address, m: Message)
    requires !m.Other? && Solvent(w.ledger)
    ensures Carried(r, w, height, sender, m).Some? <==> Allowed(r, w, sender, m)
    ensures Carried(r, w, height, sender, m).Some? ==> Does(r, sender, m, w, Carried(r, w, height, sender, m).value)
  {
    match m
    case Pay(_, _, _, _) => PayDoes(r, w, height, sender, m);
    case MintUnits(_, _, _) => MintDoes(r, w, height, sender, m);
    case BurnUnits(_, _) => BurnDoes(r, w, height, sender, m);
    case SetIssuer(_, _) => SettingDoes(r, w, height, sender, m);
    case AcceptAuthorityOf(_) => AcceptDoes(r, w, height, sender, m);
    case SetFrozenFor(_, _, _) => FreezeDoes(r, w, height, sender, m);
    case ChangeAccount(_) => ChangeDoes(r, w, height, sender, m);
  }

  // -- messages in order ----------------------------------------------------

  /** The stores between the messages of an applied list: each message was
      allowed in the store it met, and did what it says to it. */
  ghost predicate Chain(r: Rules, sender: Address, ms: seq<Message>, tr: seq<World>) {
    && |tr| == |ms| + 1
    && forall i :: 0 <= i < |ms| ==> Allowed(r, tr[i], sender, ms[i]) && Does(r, sender, ms[i], tr[i], tr[i + 1])
  }

  lemma {:induction false} MessagesDo(r: Rules, w: World, height: nat, sender: Address, ms: seq<Message>)
    returns (tr: seq<World>)
    requires Plain(ms) && Solvent(w.ledger) && ApplyMessages(r, w, height, sender, ms).Some?
    ensures Chain(r, sender, ms, tr) && tr[0] == w && tr[|ms|] == ApplyMessages(r, w, height, sender, ms).value
    decreases |ms|
  {
    if ms == [] {
      tr := [w];
    } else {
      assert ms[0] in ms;
      var next := Carried(r, w, height, sender, ms[0]).value;
      MessageDoes(r, w, height, sender, ms[0]);
      EffectsKeepSolvent(r, w, Plan(r, w, height, sender, ms[0]));
      var rest := MessagesDo(r, next, height, sender, ms[1..]);
      tr := [w] + rest;
    }
  }

  /** The messages before the `i`-th are carried out, and the `i`-th is not allowed in what they leave. */
  ghost predicate Stops(r: Rules, w: World, height: nat, sender: Address, ms: seq<Message>, i: nat)
    requires i < |ms|
  {
    var before := ApplyMessages(r, w, height, sender, ms[..i]);
    before.Some? && !Allowed(r, before.value, sender, ms[i])
  }

  lemma {:induction false} StopsLater(r: Rules, w: World, height: nat, sender: Address, ms: seq<Message>, next: World,
                                      i: nat)
    requires i + 1 < |ms| && Carried(r, w, height, sender, ms[0]) == Some(next)
    ensures Stops(r, w, height, sender, ms, i + 1) <==> Stops(r, next, height, sender, ms[1..], i)
  {
    assert ms[..i + 1][0] == ms[0] && ms[..i + 1][1..] == ms[1..][..i];
  }

  lemma {:induction false} StopsAtOnce(r: Rules, w: World, height: nat, sender: Address, ms: seq<Message>)
    requires ms != []
    ensures Stops(r, w, height, sender, ms, 0) <==> !Allowed(r, w, sender, ms[0])
  {
    assert ms[..0] == [];
  }

  /** A list is refused exactly when some message is not allowed in the store the ones before it leave. */
  lemma {:induction false} RefusedExactlyWhen(r: Rules, w: World, height: nat, sender: Address, ms: seq<Message>)
    requires Plain(ms) && Solvent(w.ledger)
    ensures ApplyMessages(r, w, height, sender, ms).None? <==>
      exists i: nat :: i < |ms| && Stops(r, w, height, sender, ms, i)
    decreases |ms|, 1
  {
    if ms != [] {
      assert ms[0] in ms;
      MessageDoes(r, w, height, sender, ms[0]);
      StopsAtOnce(r, w, height, sender, ms);
      if Carried(r, w, height, sender, ms[0]).Some? {
        RefusedLater(r, w, height, sender, ms, Carried(r, w, height, sender, ms[0]).value);
      }
    }
  }

  lemma {:induction false} RefusedLater(r: Rules, w: World, height: nat, sender: Address, ms: seq<Message>, next: World)
    requires ms != [] && Plain(ms) && Solvent(w.ledger) && Carried(r, w, height, sender, ms[0]) == Some(next)
    requires !Stops(r, w, height, sender, ms, 0)
    ensures ApplyMessages(r, next, height, sender, ms[1..]).None? <==>
      exists i: nat :: i < |ms| && Stops(r, w, height, sender, ms, i)
    decreases |ms|, 0
  {
    EffectsKeepSolvent(r, w, Plan(r, w, height, sender, ms[0]));
    RefusedExactlyWhen(r, next, height, sender, ms[1..]);
    if i: nat :| i < |ms| && Stops(r, w, height, sender, ms, i) {
      StopsLater(r, w, height, sender, ms, next, i - 1);
    }
    if i: nat :| i < |ms[1..]| && Stops(r, next, height, sender, ms[1..], i) {
      StopsLater(r, w, height, sender, ms, next, i);
    }
  }

  function GivenBy(ms: seq<Message>, a: Address, d: Denom): nat {
    if ms == [] then 0 else Given(ms[0], a, d) + GivenBy(ms[1..], a, d)
  }

  function TakenBy(sender: Address, ms: seq<Message>, a: Address, d: Denom): nat {
    if ms == [] then 0 else Taken(sender, ms[0], a, d) + TakenBy(sender, ms[1..], a, d)
  }

  lemma {:induction false} ChainMoves(r: Rules, sender: Address, ms: seq<Message>, tr: seq<World>, a: Address, d: Denom)
    requires Chain(r, sender, ms, tr)
    ensures Balance(tr[|ms|].ledger, a, d) + TakenBy(sender, ms, a, d)
         == Balance(tr[0].ledger, a, d) + GivenBy(ms, a, d)
    decreases |ms|
  {
    if ms != [] {
      var rest, later := ms[1..], tr[1..];
      assert Does(r, sender, ms[0], tr[0], tr[1]);
      forall i | 0 <= i < |rest|
        ensures Allowed(r, later[i], sender, rest[i]) && Does(r, sender, rest[i], later[i], later[i + 1])
      {
        assert rest[i] == ms[i + 1] && later[i] == tr[i + 1] && later[i + 1] == tr[i + 2];
      }
      ChainMoves(r, sender, rest, later, a, d);
    }
  }

  // -- a transaction --------------------------------------------------------

  /** Who pays the fee: the sponsor if there is one, else the sender. */
  function Payer(tx: Tx): Address { match tx.fee.payer case Some(a) => a case None => tx.sender }

  /** What an applied transaction does to the money of every account: what its
      messages give and take, and the fee from its payer to the collector. */
  lemma {:induction false} TransactionMoves(r: Rules, w: World, height: nat, tx: Tx, a: Address, d: Denom)
    requires Solvent(w.ledger) && Plain(tx.messages) && Succeeds(r, w, height, tx)
    ensures var fee := if d == tx.fee.denom then tx.fee.amount else 0;
      Balance(ExecuteTx(r, w, height, tx).0.ledger, a, d)
      + TakenBy(tx.sender, tx.messages, a, d) + (if a == Payer(tx) then fee else 0)
      == Balance(w.ledger, a, d) + GivenBy(tx.messages, a, d) + (if a == r.collector then fee else 0)
  {
    var paid := w.(ledger := Admission(r, w, height, tx).value);
    AdmissionKeepsSolvent(r, w, height, tx);
    FeeMovesExactly(r, w, height, tx, a, d);
    var tr := MessagesDo(r, paid, height, tx.sender, tx.messages);
    ChainMoves(r, tx.sender, tx.messages, tr, a, d);
    AppliedLedger(r, w, height, tx);
  }

  lemma AppliedLedger(r: Rules, w: World, height: nat, tx: Tx)
    requires Succeeds(r, w, height, tx)
    ensures var paid := w.(ledger := Admission(r, w, height, tx).value);
      var done := ApplyMessages(r, paid, height, tx.sender, tx.messages);
      var w' := ExecuteTx(r, w, height, tx).0;
      w'.ledger == done.value.ledger && w'.modules == done.value.modules
  {
  }

  /** A transaction is admitted exactly when it is well formed, its sender signed
      it and it carries the sender's next nonce, its sponsor if any signed too,
      its fee is in a coin the chain accepts, and the fee is zero or its payer
      has it, free to move to a collector free to take it. */
  lemma AdmittedExactlyWhen(r: Rules, w: World, height: nat, tx: Tx)
    requires Solvent(w.ledger)
    ensures Admission(r, w, height, tx).Ok? <==>
      && r.stateless(tx, height)
      && r.authorises(Load(r, w.accounts, tx.sender).profile, tx.keys)
      && tx.nonce == Load(r, w.accounts, tx.sender).nonce
      && (tx.fee.payer.Some? ==> r.authorises(Load(r, w.accounts, tx.fee.payer.value).profile, tx.sponsorKeys))
      && (tx.fee.denom.Native? || tx.fee.denom in w.ledger.issuers)
      && (|| tx.fee.amount == 0
          || (&& tx.fee.amount <= Balance(w.ledger, Payer(tx), tx.fee.denom)
              && (Payer(tx), tx.fee.denom) !in w.ledger.frozen && (r.collector, tx.fee.denom) !in w.ledger.frozen))
  {
    TransferExactlyWhen(w.ledger, Payer(tx), r.collector, tx.fee.denom, tx.fee.amount);
  }

  /** A rejection names a rule the transaction breaks. */
  lemma RejectionsAreTrue(r: Rules, w: World, height: nat, tx: Tx)
    requires Admission(r, w, height, tx).Err?
    ensures ExecuteTx(r, w, height, tx).1.verdict == Rejected(Admission(r, w, height, tx).error)
    ensures match Admission(r, w, height, tx).error
      case Invalid => !r.stateless(tx, height)
      case Unauthorised => !r.authorises(Load(r, w.accounts, tx.sender).profile, tx.keys)
      case WrongNonce => tx.nonce != Load(r, w.accounts, tx.sender).nonce
      case SponsorUnauthorised =>
        tx.fee.payer.Some? && !r.authorises(Load(r, w.accounts, tx.fee.payer.value).profile, tx.sponsorKeys)
      case FeeDenomNotAccepted => tx.fee.denom.Sovereign? && tx.fee.denom !in w.ledger.issuers
      case FeeUnpaid(cause) =>
        tx.fee.amount > 0 && Broken(w.ledger, DoTransfer(Payer(tx), r.collector, tx.fee.denom, tx.fee.amount), cause)
  {
    var fee := Transfer(w.ledger, Payer(tx), r.collector, tx.fee.denom, tx.fee.amount);
    if fee.Err? {
      TransferRefusalsAreTrue(w.ledger, Payer(tx), r.collector, tx.fee.denom, tx.fee.amount);
    }
  }

  // -- whoever it concerns finds it -----------------------------------------

  /** Nothing of `a` is different: money, freezes, allowances, signing arrangement, and no role is new to it. */
  ghost predicate Untouched(r: Rules, w: World, w': World, a: Address) {
    && (forall d :: Balance(w'.ledger, a, d) == Balance(w.ledger, a, d))
    && (forall d :: (a, d) in w'.ledger.frozen <==> (a, d) in w.ledger.frozen)
    && Load(r, w'.accounts, a).profile == Load(r, w.accounts, a).profile
    && w'.ledger.issuers.Keys == w.ledger.issuers.Keys
    && (forall d :: d in w.ledger.issuers ==> SameRoles(w.ledger.issuers[d], w'.ledger.issuers[d], a))
  }

  predicate SameRoles(was: Issuer, now: Issuer, a: Address) {
    && AllowanceOf(now, a) == AllowanceOf(was, a)
    && (now.authority == a ==> was.authority == a)
    && (now.pending == Some(a) ==> was.pending == Some(a))
    && (now.freezer == Some(a) ==> was.freezer == Some(a))
  }

  lemma MessageSpares(r: Rules, sender: Address, m: Message, w: World, w': World, a: Address)
    requires !m.Other? && Does(r, sender, m, w, w') && a != sender && a !in Named(m)
    ensures Untouched(r, w, w', a)
  {
    forall d ensures Balance(w'.ledger, a, d) == Balance(w.ledger, a, d) {
      assert Taken(sender, m, a, d) == 0 && Given(m, a, d) == 0;
    }
    forall d | d in w.ledger.issuers
      ensures d in w'.ledger.issuers && SameRoles(w.ledger.issuers[d], w'.ledger.issuers[d], a)
    {
      RolesSpared(sender, m, w.ledger, w'.ledger, a, d);
    }
  }

  lemma RolesSpared(sender: Address, m: Message, l: Ledger, l': Ledger, a: Address, d: Denom)
    requires !m.Other? && RecordsAs(sender, m, l, l') && a != sender && a !in Named(m) && d in l.issuers
    ensures d in l'.issuers && SameRoles(l.issuers[d], l'.issuers[d], a)
  {
  }

  lemma {:induction false} ChainSpares(r: Rules, sender: Address, ms: seq<Message>, tr: seq<World>, a: Address, n: nat)
    requires Plain(ms) && Chain(r, sender, ms, tr) && a != sender && !NamedIn(ms, a) && n <= |ms|
    ensures Untouched(r, tr[0], tr[n], a)
    decreases n
  {
    if n > 0 {
      ChainSpares(r, sender, ms, tr, a, n - 1);
      assert ms[n - 1] in ms && Does(r, sender, ms[n - 1], tr[n - 1], tr[n]);
      MessageSpares(r, sender, ms[n - 1], tr[n - 1], tr[n], a);
      SparedOn(r, tr[0], tr[n - 1], tr[n], a);
    }
  }

  lemma SparedOn(r: Rules, x: World, y: World, z: World, a: Address)
    requires Untouched(r, x, y, a) && Untouched(r, y, z, a)
    ensures Untouched(r, x, z, a)
  {
    forall d | d in x.ledger.issuers
      ensures d in z.ledger.issuers && SameRoles(x.ledger.issuers[d], z.ledger.issuers[d], a)
    {
      assert d in y.ledger.issuers.Keys && d in z.ledger.issuers.Keys;
      assert SameRoles(x.ledger.issuers[d], y.ledger.issuers[d], a);
      assert SameRoles(y.ledger.issuers[d], z.ledger.issuers[d], a);
    }
  }

  /** Whoever an applied transaction does anything to finds it in their history,
      but for its fee payer and the collector: an account under which it is not
      filed is as it was. */
  lemma {:induction false} UnfiledIsUntouched(r: Rules, w: World, height: nat, tx: Tx, a: Address)
    requires Solvent(w.ledger) && Plain(tx.messages) && Succeeds(r, w, height, tx)
    requires PreviousFor(ExecuteTx(r, w, height, tx).1.touched, a).None? && a != Payer(tx) && a != r.collector
    ensures Untouched(r, w, ExecuteTx(r, w, height, tx).0, a)
    ensures LastOf(r, ExecuteTx(r, w, height, tx).0, a) == LastOf(r, w, a)
    ensures NonceOf(r, ExecuteTx(r, w, height, tx).0, a) == NonceOf(r, w, a)
  {
    var paid := w.(ledger := Admission(r, w, height, tx).value);
    FiledUnder(r, w, height, tx, a);
    AdmissionKeepsSolvent(r, w, height, tx);
    FeeSpares(r, w, height, tx, a);
    var tr := MessagesDo(r, paid, height, tx.sender, tx.messages);
    ChainSpares(r, tx.sender, tx.messages, tr, a, |tx.messages|);
    SparedOn(r, w, paid, tr[|tx.messages|], a);
    SettlingSpares(r, w, height, tx, a);
    SparedOn(r, w, tr[|tx.messages|], ExecuteTx(r, w, height, tx).0, a);
    StepRecords(r, w, height, tx, a);
  }

  lemma FeeSpares(r: Rules, w: World, height: nat, tx: Tx, a: Address)
    requires Admission(r, w, height, tx).Ok? && a != Payer(tx) && a != r.collector
    ensures Untouched(r, w, w.(ledger := Admission(r, w, height, tx).value), a)
  {
    forall d ensures Balance(Admission(r, w, height, tx).value, a, d) == Balance(w.ledger, a, d) {
      FeeMovesExactly(r, w, height, tx, a, d);
    }
  }

  lemma {:induction false} SettlingSpares(r: Rules, w: World, height: nat, tx: Tx, a: Address)
    requires Succeeds(r, w, height, tx)
    ensures var paid := w.(ledger := Admission(r, w, height, tx).value);
      var done := ApplyMessages(r, paid, height, tx.sender, tx.messages);
      Untouched(r, done.value, ExecuteTx(r, w, height, tx).0, a)
  {
    var paid := w.(ledger := Admission(r, w, height, tx).value);
    AppliedLedger(r, w, height, tx);
    PointersMoved(r, Settled(r, paid, height, tx).accounts, TouchedBy(tx, true), Pointer(r.id(tx), height), a);
  }

  /** And nobody finds it there whom it does not mention. */
  lemma NamedAreMentioned(m: Message, a: Address)
    requires !m.Other?
    ensures a in Named(m) <==>
      || (m.Pay? && a == m.to) || (m.MintUnits? && a == m.to) || (m.SetFrozenFor? && a == m.account)
      || (m.SetIssuer? && m.setting.MinterAllowance? && a == m.setting.minter)
      || (m.SetIssuer? && m.setting.PendingAuthority? && m.setting.to == Some(a))
      || (m.SetIssuer? && m.setting.Freezer? && m.setting.freezer == Some(a))
  {
  }
}
