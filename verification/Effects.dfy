/** What each ledger operation does and when it is done, said without its
    code: one table of credits and debits for all operations, and the exact
    conditions under which money moves. */
module Effects {
  import opened Base
  import opened Issuers
  import opened Ledger
  import opened Conservation

  /** What an operation adds to one account's holding of one denomination. */
  function Credit(op: Op, a: Address, d: Denom): nat {
    match op
    case DoTransfer(_, to, e, x) => if to == a && e == d then x else 0
    case DoMint(_, to, e, x) => if to == a && e == d then x else 0
    case DoEmit(to, x) => if to == a && d.Native? then x else 0
    case DoAllocate(to, e, x) => if to == a && e == d then x else 0
    case _ => 0
  }

  /** What it takes away. */
  function Debit(op: Op, a: Address, d: Denom): nat {
    match op
    case DoTransfer(from, _, e, x) => if from == a && e == d then x else 0
    case DoBurn(minter, e, x) => if minter == a && e == d then x else 0
    case DoSlash(from, x) => if from == a && d.Native? then x else 0
    case _ => 0
  }

  lemma TransferMoves(l: Ledger, from: Address, to: Address, e: Denom, x: Amount, a: Address, d: Denom)
    requires Transfer(l, from, to, e, x).Ok?
    ensures Balance(Transfer(l, from, to, e, x).value, a, d) + Debit(DoTransfer(from, to, e, x), a, d)
         == Balance(l, a, d) + Credit(DoTransfer(from, to, e, x), a, d)
  {
  }

  lemma CreateMoves(l: Ledger, to: Address, e: Denom, x: Amount, a: Address, d: Denom)
    requires Supply(l, e) + x <= U128_MAX && Balance(l, to, e) + x <= U128_MAX
    ensures Balance(Create(l, to, e, x), a, d) == Balance(l, a, d) + if to == a && e == d then x else 0
  {
  }

  lemma DestroyMoves(l: Ledger, from: Address, e: Denom, x: Amount, a: Address, d: Denom)
    requires x <= Supply(l, e) && x <= Balance(l, from, e)
    ensures Balance(Destroy(l, from, e, x), a, d) + (if from == a && e == d then x else 0) == Balance(l, a, d)
  {
  }

  lemma MintMoves(l: Ledger, minter: Address, to: Address, e: Denom, x: Amount, a: Address, d: Denom)
    requires Mint(l, minter, to, e, x).Ok?
    ensures Balance(Mint(l, minter, to, e, x).value, a, d) == Balance(l, a, d) + if to == a && e == d then x else 0
  {
    CreateMoves(l, to, e, x, a, d);
  }

  /** Every successful operation moves exactly its credits and debits, on every account and in every denomination. */
  lemma MovesExactly(l: Ledger, op: Op, a: Address, d: Denom)
    requires Apply(l, op).Ok?
    ensures Balance(Apply(l, op).value, a, d) + Debit(op, a, d) == Balance(l, a, d) + Credit(op, a, d)
  {
    match op
    case DoTransfer(from, to, e, x) => TransferMoves(l, from, to, e, x, a, d);
    case DoMint(minter, to, e, x) => MintMoves(l, minter, to, e, x, a, d);
    case DoBurn(minter, e, x) => DestroyMoves(l, minter, e, x, a, d);
    case DoEmit(to, x) => CreateMoves(l, to, Native, x, a, d);
    case DoSlash(from, x) => DestroyMoves(l, from, Native, x, a, d);
    case DoAllocate(to, e, x) => CreateMoves(l, to, e, x, a, d);
    case _ => OthersKeepBalances(l, op);
  }

  lemma OthersKeepBalances(l: Ledger, op: Op)
    requires op.DoConfigure? || op.DoAccept? || op.DoRegister? || op.DoAdmit? || op.DoFreeze?
    ensures Apply(l, op).Ok? ==> Apply(l, op).value.balances == l.balances
  {
  }

  /** In a solvent ledger a transfer succeeds exactly when it moves something,
      both ends are free, and the payer has it. */
  lemma TransferExactlyWhen(l: Ledger, from: Address, to: Address, d: Denom, x: Amount)
    requires Solvent(l)
    ensures Transfer(l, from, to, d, x).Ok? <==>
      x > 0 && (from, d) !in l.frozen && (to, d) !in l.frozen && x <= Balance(l, from, d)
  {
    assert Balanced(l, d);
    CreditFits(l, from, to, d, x);
  }

  /** A mint succeeds exactly when an authorised, unpaused minter's allowance
      covers it, the recipient is free, and the new supply fits the cap. */
  lemma MintExactlyWhen(l: Ledger, minter: Address, to: Address, d: Denom, x: Amount)
    requires Solvent(l)
    ensures Mint(l, minter, to, d, x).Ok? <==>
      && x > 0 && d in l.issuers && !l.issuers[d].paused && x <= AllowanceOf(l.issuers[d], minter)
      && (to, d) !in l.frozen && Supply(l, d) + x <= U128_MAX
      && (l.issuers[d].maxSupply.Some? ==> Supply(l, d) + x <= l.issuers[d].maxSupply.value)
  {
    assert Balanced(l, d);
    BalanceWithinSupply(l, to, d);
  }

  /** A burn succeeds exactly when a minter whose holding is free has the amount. */
  lemma BurnExactlyWhen(l: Ledger, minter: Address, d: Denom, x: Amount)
    requires Solvent(l)
    ensures Burn(l, minter, d, x).Ok? <==>
      && x > 0 && d in l.issuers && AllowanceOf(l.issuers[d], minter) > 0
      && (minter, d) !in l.frozen && x <= Balance(l, minter, d)
  {
    assert Balanced(l, d);
    BalanceWithinSupply(l, minter, d);
  }

  lemma FreezingIsAsked(l: Ledger, op: Op)
    requires Apply(l, op).Ok? && Apply(l, op).value.frozen != l.frozen && !Founding(op)
    ensures op.DoFreeze? && op.denom in l.issuers && MayFreeze(l.issuers[op.denom], op.caller)
  {
  }

  /** Who must be asking for an issuer's record or a freeze to change. */
  lemma RolesAreRequired(l: Ledger, op: Op, d: Denom)
    requires Apply(l, op).Ok? && d in l.issuers && !Founding(op)
    ensures Apply(l, op).value.frozen != l.frozen
      ==> op.DoFreeze? && op.denom in l.issuers && MayFreeze(l.issuers[op.denom], op.caller)
    ensures d in Apply(l, op).value.issuers
    ensures Apply(l, op).value.issuers[d] != l.issuers[d] ==>
      || (op.DoMint? && op.denom == d && IsMinter(l.issuers[d], op.minter))
      || (op.DoConfigure? && op.denom == d && op.authority == l.issuers[d].authority)
      || (op.DoAccept? && op.denom == d && l.issuers[d].pending == Some(op.caller))
  {
    if Apply(l, op).value.frozen != l.frozen {
      FreezingIsAsked(l, op);
    }
  }

  /** The native coin is created while its supply fits, and destroyed where it is held. */
  lemma NativeExactlyWhen(l: Ledger, a: Address, x: Amount)
    requires Solvent(l)
    ensures EmitNative(l, a, x).Ok? <==> x > 0 && Supply(l, Native) + x <= U128_MAX
    ensures SlashNative(l, a, x).Ok? <==> 0 < x <= Balance(l, a, Native)
  {
    assert Balanced(l, Native);
    BalanceWithinSupply(l, a, Native);
  }

  // -- what becomes of a record ---------------------------------------------

  /** The record of a sovereign denomination that has one. */
  predicate Issued(l: Ledger, d: Denom) { d.Sovereign? && d in l.issuers }

  /** The rules a new setting has to keep. */
  predicate MaySet(was: Issuer, setting: Setting) {
    match setting
    case MinterAllowance(minter, x) => x == 0 || AllowanceOf(was, minter) > 0 || |was.minters| < MAX_MINTERS
    case PendingAuthority(to) => to != Some(was.authority)
    case SupplyCap(cap) => was.maxSupply.None? || cap <= was.maxSupply.value
    case _ => true
  }

  /** A record with one setting changed and every other as it was. */
  ghost predicate IsSet(was: Issuer, now: Issuer, setting: Setting) {
    && now.authority == was.authority
    && now.pending == (if setting.PendingAuthority? then setting.to else was.pending)
    && now.freezer == (if setting.Freezer? then setting.freezer else was.freezer)
    && now.paused == (if setting.Paused? then setting.paused else was.paused)
    && now.maxSupply == (if setting.SupplyCap? then Some(setting.cap) else was.maxSupply)
    && forall b :: AllowanceOf(now, b)
         == if setting.MinterAllowance? && setting.minter == b then setting.allowance else AllowanceOf(was, b)
  }

  lemma AmendExactlyWhen(issuer: Issuer, setting: Setting)
    ensures Amend(issuer, setting).Ok? <==> MaySet(issuer, setting)
    ensures Amend(issuer, setting).Ok? ==> IsSet(issuer, Amend(issuer, setting).value, setting)
  {
  }

  /** A setting is changed exactly at the authority's word and within its rule;
      it then is what was asked, and nothing else in the ledger is different. */
  lemma ConfigureExactlyWhen(l: Ledger, caller: Address, d: Denom, setting: Setting)
    ensures Configure(l, caller, d, setting).Ok? <==>
      Issued(l, d) && l.issuers[d].authority == caller && MaySet(l.issuers[d], setting)
    ensures Configure(l, caller, d, setting).Ok? ==>
      var l' := Configure(l, caller, d, setting).value;
      && l' == l.(issuers := l'.issuers) && d in l'.issuers && l'.issuers == l.issuers[d := l'.issuers[d]]
      && IsSet(l.issuers[d], l'.issuers[d], setting)
  {
    if d in l.issuers {
      AmendExactlyWhen(l.issuers[d], setting);
    }
  }

  /** The authority over a denomination passes to whoever takes up the offer made to them, and to nobody else. */
  lemma AcceptExactlyWhen(l: Ledger, caller: Address, d: Denom)
    ensures AcceptIssuerAuthority(l, caller, d).Ok? <==> Issued(l, d) && l.issuers[d].pending == Some(caller)
    ensures AcceptIssuerAuthority(l, caller, d).Ok? ==>
      var l' := AcceptIssuerAuthority(l, caller, d).value;
      && l' == l.(issuers := l'.issuers) && d in l'.issuers && l'.issuers == l.issuers[d := l'.issuers[d]]
      && l'.issuers[d] == l.issuers[d].(authority := caller, pending := None)
  {
  }

  /** A holding is frozen or freed at the word of the freezer, or of the authority
      where no freezer is set; that holding and no other. */
  lemma FreezeExactlyWhen(l: Ledger, caller: Address, a: Address, d: Denom, on: bool)
    ensures SetFrozen(l, caller, a, d, on).Ok? <==>
      && Issued(l, d)
      && caller == if l.issuers[d].freezer.Some? then l.issuers[d].freezer.value else l.issuers[d].authority
    ensures SetFrozen(l, caller, a, d, on).Ok? ==>
      var l' := SetFrozen(l, caller, a, d, on).value;
      l' == l.(frozen := l'.frozen) && forall k :: k in l'.frozen <==> if k == (a, d) then on else k in l.frozen
  {
  }

  /** A sovereign denomination is admitted once, under an authority with no
      offer, no minter, no freezer and no cap, not paused. */
  lemma AdmitExactlyWhen(l: Ledger, d: Denom, authority: Address)
    ensures AdmitIssuer(l, d, authority).Ok? <==> d.Sovereign? && d !in l.issuers
    ensures AdmitIssuer(l, d, authority).Ok? ==>
      var l' := AdmitIssuer(l, d, authority).value;
      && l' == l.(issuers := l'.issuers) && d in l'.issuers && l'.issuers == l.issuers[d := l'.issuers[d]]
      && l'.issuers[d].authority == authority && l'.issuers[d].pending.None? && l'.issuers[d].freezer.None?
      && l'.issuers[d].maxSupply.None? && !l'.issuers[d].paused
      && forall b :: AllowanceOf(l'.issuers[d], b) == 0
  {
  }

  /** Minting draws the amount from the minter's allowance and changes nothing else in the record. */
  lemma MintDraws(l: Ledger, minter: Address, to: Address, d: Denom, x: Amount)
    requires Mint(l, minter, to, d, x).Ok?
    ensures var l' := Mint(l, minter, to, d, x).value;
      && l'.frozen == l.frozen && Issued(l, d) && d in l'.issuers && l'.issuers == l.issuers[d := l'.issuers[d]]
      && l'.issuers[d] == l.issuers[d].(minters := l'.issuers[d].minters)
      && forall b :: AllowanceOf(l'.issuers[d], b) + (if b == minter then x else 0) == AllowanceOf(l.issuers[d], b)
  {
  }

  // -- refusals -------------------------------------------------------------

  /** The rule an error names is broken. */
  ghost predicate Broken(l: Ledger, op: Op, e: BankError) {
    match e
    case ZeroAmount => (op.DoTransfer? || op.DoMint? || op.DoBurn? || op.DoEmit? || op.DoSlash? || op.DoAllocate?)
                       && op.amount == 0
    case AccountFrozen =>
      || (op.DoTransfer? && ((op.from, op.denom) in l.frozen || (op.to, op.denom) in l.frozen))
      || (op.DoMint? && (op.to, op.denom) in l.frozen)
      || (op.DoBurn? && (op.minter, op.denom) in l.frozen)
    case InsufficientFunds =>
      || (op.DoTransfer? && Balance(l, op.from, op.denom) < op.amount)
      || (op.DoBurn? && Balance(l, op.minter, op.denom) < op.amount)
      || (op.DoSlash? && Balance(l, op.from, Native) < op.amount)
    case NativeNotIssuable => OfRecord(op) && op.denom.Native?
    case NoIssuer => OfRecord(op) && op.denom !in l.issuers
    case IssuerExists => op.DoAdmit? && op.denom in l.issuers
    case NotIssuer => op.DoConfigure? && Issued(l, op.denom) && l.issuers[op.denom].authority != op.authority
    case NotMinter =>
      (op.DoMint? || op.DoBurn?) && Issued(l, op.denom) && AllowanceOf(l.issuers[op.denom], op.minter) == 0
    case IssuerPaused => op.DoMint? && Issued(l, op.denom) && l.issuers[op.denom].paused
    case MintAllowanceExceeded =>
      op.DoMint? && Issued(l, op.denom) && 0 < AllowanceOf(l.issuers[op.denom], op.minter) < op.amount
    case SupplyCapExceeded =>
      && op.DoMint? && Issued(l, op.denom) && l.issuers[op.denom].maxSupply.Some?
      && Supply(l, op.denom) + op.amount > l.issuers[op.denom].maxSupply.value
    case NotFreezer => op.DoFreeze? && Issued(l, op.denom) && !MayFreeze(l.issuers[op.denom], op.caller)
    case BadIssuer(cause) =>
      || (cause == NotPendingAuthority && op.DoAccept? && Issued(l, op.denom)
          && l.issuers[op.denom].pending != Some(op.caller))
      || (cause != NotPendingAuthority && op.DoConfigure? && Issued(l, op.denom)
          && !MaySet(l.issuers[op.denom], op.setting) && cause == CauseOf(op.setting))
    case Overflow(_) => true
  }

  /** Operations on the record of a denomination. */
  predicate OfRecord(op: Op) {
    op.DoMint? || op.DoBurn? || op.DoConfigure? || op.DoAccept? || op.DoFreeze? || op.DoRegister? || op.DoAdmit?
  }

  function CauseOf(setting: Setting): IssuerError {
    match setting
    case MinterAllowance(_, _) => TooManyMinters
    case PendingAuthority(_) => AuthorityUnchanged
    case _ => CapWouldRise
  }

  lemma MintRefusalsAreTrue(l: Ledger, minter: Address, to: Address, d: Denom, x: Amount)
    requires Mint(l, minter, to, d, x).Err?
    ensures Broken(l, DoMint(minter, to, d, x), Mint(l, minter, to, d, x).error)
  {
  }

  lemma BurnRefusalsAreTrue(l: Ledger, minter: Address, d: Denom, x: Amount)
    requires Burn(l, minter, d, x).Err?
    ensures Broken(l, DoBurn(minter, d, x), Burn(l, minter, d, x).error)
  {
  }

  lemma TransferRefusalsAreTrue(l: Ledger, from: Address, to: Address, d: Denom, x: Amount)
    requires Transfer(l, from, to, d, x).Err?
    ensures Broken(l, DoTransfer(from, to, d, x), Transfer(l, from, to, d, x).error)
  {
  }

  lemma ConfigureRefusalsAreTrue(l: Ledger, caller: Address, d: Denom, setting: Setting)
    requires Configure(l, caller, d, setting).Err?
    ensures Broken(l, DoConfigure(caller, d, setting), Configure(l, caller, d, setting).error)
  {
    if d in l.issuers {
      AmendExactlyWhen(l.issuers[d], setting);
    }
  }

  /** Every refusal names a rule that is broken. */
  lemma RefusalsAreTrue(l: Ledger, op: Op)
    requires Apply(l, op).Err?
    ensures Broken(l, op, Apply(l, op).error)
  {
    match op
    case DoTransfer(from, to, d, x) => TransferRefusalsAreTrue(l, from, to, d, x);
    case DoMint(minter, to, d, x) => MintRefusalsAreTrue(l, minter, to, d, x);
    case DoBurn(minter, d, x) => BurnRefusalsAreTrue(l, minter, d, x);
    case DoConfigure(caller, d, setting) => ConfigureRefusalsAreTrue(l, caller, d, setting);
    case _ =>
  }
}
