/** Balances, supply and issuance (crates/bank/src/lib.rs) as operations on the
    value of the store. An operation that fails answers an error and there is no
    new ledger. */
module Ledger {
  import opened Base
  import opened Issuers

  datatype Denom = Native | Sovereign(code: nat)

  type Key = (Address, Denom)

  /** The part of the store the bank reads and writes. */
  datatype Ledger = Ledger(
    balances: map<Key, Amount>,
    supply: map<Denom, Amount>,
    frozen: set<Key>,
    issuers: map<Denom, Issuer>)

  /** The additions and subtractions that answer an overflow error. */
  datatype Site =
    | TransferCredit | MintSupply | MintCredit | BurnSupply | EmitSupply
    | EmitCredit | SlashSupply | GenesisSupply | GenesisCredit

  datatype BankError =
    | InsufficientFunds | ZeroAmount | Overflow(site: Site) | NotIssuer | NotMinter
    | MintAllowanceExceeded | NotFreezer | BadIssuer(cause: IssuerError) | NoIssuer | IssuerExists
    | IssuerPaused | SupplyCapExceeded | AccountFrozen | NativeNotIssuable

  type Outcome = Result<Ledger, BankError>

  const EMPTY: Ledger := Ledger(map[], map[], {}, map[])

  // -- reads and writes -----------------------------------------------------

  /** Absent keys read as zero. */
  function Balance(l: Ledger, a: Address, d: Denom): Amount {
    if (a, d) in l.balances then l.balances[(a, d)] else 0
  }

  function Supply(l: Ledger, d: Denom): Amount {
    if d in l.supply then l.supply[d] else 0
  }

  /** A write of zero deletes the key. */
  function Write<K>(m: map<K, Amount>, k: K, x: Amount): map<K, Amount> {
    if x == 0 then m - {k} else m[k := x]
  }

  function WithBalance(l: Ledger, a: Address, d: Denom, x: Amount): Ledger {
    l.(balances := Write(l.balances, (a, d), x))
  }

  function WithSupply(l: Ledger, d: Denom, x: Amount): Ledger {
    l.(supply := Write(l.supply, d, x))
  }

  function WithIssuer(l: Ledger, d: Denom, issuer: Issuer): Ledger {
    l.(issuers := l.issuers[d := issuer])
  }

  // -- operations -----------------------------------------------------------

  function Transfer(l: Ledger, from: Address, to: Address, d: Denom, amount: Amount): Outcome {
    if amount == 0 then Err(ZeroAmount)
    else if (from, d) in l.frozen || (to, d) in l.frozen then Err(AccountFrozen)
    else if from == to then
      if Balance(l, from, d) < amount then Err(InsufficientFunds) else Ok(l)
    else if Balance(l, from, d) < amount then Err(InsufficientFunds)
    else if Balance(l, to, d) + amount > U128_MAX then Err(Overflow(TransferCredit))
    else
      var debited := WithBalance(l, from, d, Balance(l, from, d) - amount);
      Ok(WithBalance(debited, to, d, Balance(l, to, d) + amount))
  }

  function RequireIssuer(l: Ledger, d: Denom): Result<Issuer, BankError> {
    if d.Native? then Err(NativeNotIssuable)
    else if d !in l.issuers then Err(NoIssuer)
    else Ok(l.issuers[d])
  }

  function RequireAuthority(l: Ledger, authority: Address, d: Denom): Result<Issuer, BankError> {
    var r := RequireIssuer(l, d);
    if r.Ok? && r.value.authority != authority then Err(NotIssuer) else r
  }

  /** Credit new units, raising supply. */
  function Create(l: Ledger, to: Address, d: Denom, amount: Amount): Ledger
    requires Supply(l, d) + amount <= U128_MAX && Balance(l, to, d) + amount <= U128_MAX
  {
    WithSupply(WithBalance(l, to, d, Balance(l, to, d) + amount), d, Supply(l, d) + amount)
  }

  /** Debit units, lowering supply. */
  function Destroy(l: Ledger, from: Address, d: Denom, amount: Amount): Ledger
    requires amount <= Supply(l, d) && amount <= Balance(l, from, d)
  {
    WithSupply(WithBalance(l, from, d, Balance(l, from, d) - amount), d, Supply(l, d) - amount)
  }

  function Mint(l: Ledger, minter: Address, to: Address, d: Denom, amount: Amount): Outcome {
    if amount == 0 then Err(ZeroAmount)
    else
      match RequireIssuer(l, d)
      case Err(e) => Err(e)
      case Ok(issuer) =>
        if !IsMinter(issuer, minter) then Err(NotMinter)
        else if issuer.paused then Err(IssuerPaused)
        else if (to, d) in l.frozen then Err(AccountFrozen)
        else if Supply(l, d) + amount > U128_MAX then Err(Overflow(MintSupply))
        else if issuer.maxSupply.Some? && Supply(l, d) + amount > issuer.maxSupply.value then Err(SupplyCapExceeded)
        else if Balance(l, to, d) + amount > U128_MAX then Err(Overflow(MintCredit))
        else
          match SpendAllowance(issuer, minter, amount)
          case None => Err(MintAllowanceExceeded)
          case Some(spent) => Ok(WithIssuer(Create(l, to, d, amount), d, spent))
  }

  function Burn(l: Ledger, minter: Address, d: Denom, amount: Amount): Outcome {
    if amount == 0 then Err(ZeroAmount)
    else
      match RequireIssuer(l, d)
      case Err(e) => Err(e)
      case Ok(issuer) =>
        if !IsMinter(issuer, minter) then Err(NotMinter)
        else if (minter, d) in l.frozen then Err(AccountFrozen)
        else if Balance(l, minter, d) < amount then Err(InsufficientFunds)
        else if Supply(l, d) < amount then Err(Overflow(BurnSupply))
        else Ok(Destroy(l, minter, d, amount))
  }

  /** What an authority may set on its record. */
  datatype Setting =
    | MinterAllowance(minter: Address, allowance: Amount)
    | PendingAuthority(to: Option<Address>)
    | Freezer(freezer: Option<Address>)
    | Paused(paused: bool)
    | SupplyCap(cap: Amount)

  function Amend(issuer: Issuer, setting: Setting): Result<Issuer, IssuerError> {
    match setting
    case MinterAllowance(minter, allowance) => SetMinter(issuer, minter, allowance)
    case PendingAuthority(to) => OfferAuthority(issuer, to)
    case Freezer(freezer) => Ok(issuer.(freezer := freezer))
    case Paused(paused) => Ok(issuer.(paused := paused))
    case SupplyCap(cap) => TightenCap(issuer, cap)
  }

  /** `set_minter_allowance`, `transfer_issuer_authority`, `set_freezer`,
      `set_paused` and `tighten_supply_cap`: load a record the caller governs,
      change it, write it back. */
  function Configure(l: Ledger, authority: Address, d: Denom, setting: Setting): Outcome {
    match RequireAuthority(l, authority, d)
    case Err(e) => Err(e)
    case Ok(issuer) =>
      match Amend(issuer, setting)
      case Err(e) => Err(BadIssuer(e))
      case Ok(changed) => Ok(WithIssuer(l, d, changed))
  }

  function AcceptIssuerAuthority(l: Ledger, caller: Address, d: Denom): Outcome {
    match RequireIssuer(l, d)
    case Err(e) => Err(e)
    case Ok(issuer) =>
      match AcceptAuthority(issuer, caller)
      case Err(e) => Err(BadIssuer(e))
      case Ok(changed) => Ok(WithIssuer(l, d, changed))
  }

  function EmitNative(l: Ledger, to: Address, amount: Amount): Outcome {
    if amount == 0 then Err(ZeroAmount)
    else if Supply(l, Native) + amount > U128_MAX then Err(Overflow(EmitSupply))
    else if Balance(l, to, Native) + amount > U128_MAX then Err(Overflow(EmitCredit))
    else Ok(Create(l, to, Native, amount))
  }

  function SlashNative(l: Ledger, from: Address, amount: Amount): Outcome {
    if amount == 0 then Err(ZeroAmount)
    else if Balance(l, from, Native) < amount then Err(InsufficientFunds)
    else if Supply(l, Native) < amount then Err(Overflow(SlashSupply))
    else Ok(Destroy(l, from, Native, amount))
  }

  function GenesisAllocate(l: Ledger, to: Address, d: Denom, amount: Amount): Outcome {
    if amount == 0 then Err(ZeroAmount)
    else if Supply(l, d) + amount > U128_MAX then Err(Overflow(GenesisSupply))
    else if Balance(l, to, d) + amount > U128_MAX then Err(Overflow(GenesisCredit))
    else Ok(Create(l, to, d, amount))
  }

  function RegisterIssuer(l: Ledger, d: Denom, issuer: Issuer): Outcome {
    if d.Native? then Err(NativeNotIssuable) else Ok(WithIssuer(l, d, issuer))
  }

  function AdmitIssuer(l: Ledger, d: Denom, authority: Address): Outcome {
    if d in l.issuers then Err(IssuerExists) else RegisterIssuer(l, d, NewIssuer(authority))
  }

  /** `freeze` and `unfreeze`. */
  function SetFrozen(l: Ledger, caller: Address, a: Address, d: Denom, on: bool): Outcome {
    match RequireIssuer(l, d)
    case Err(e) => Err(e)
    case Ok(issuer) =>
      if !MayFreeze(issuer, caller) then Err(NotFreezer)
      else Ok(l.(frozen := if on then l.frozen + {(a, d)} else l.frozen - {(a, d)}))
  }

  /** Every operation, as a value. */
  datatype Op =
    | DoTransfer(from: Address, to: Address, denom: Denom, amount: Amount)
    | DoMint(minter: Address, to: Address, denom: Denom, amount: Amount)
    | DoBurn(minter: Address, denom: Denom, amount: Amount)
    | DoConfigure(authority: Address, denom: Denom, setting: Setting)
    | DoAccept(caller: Address, denom: Denom)
    | DoEmit(to: Address, amount: Amount)
    | DoSlash(from: Address, amount: Amount)
    | DoAllocate(to: Address, denom: Denom, amount: Amount)
    | DoRegister(denom: Denom, issuer: Issuer)
    | DoAdmit(denom: Denom, authority: Address)
    | DoFreeze(caller: Address, account: Address, denom: Denom, on: bool)

  function Apply(l: Ledger, op: Op): Outcome {
    match op
    case DoTransfer(from, to, d, x) => Transfer(l, from, to, d, x)
    case DoMint(minter, to, d, x) => Mint(l, minter, to, d, x)
    case DoBurn(minter, d, x) => Burn(l, minter, d, x)
    case DoConfigure(authority, d, setting) => Configure(l, authority, d, setting)
    case DoAccept(caller, d) => AcceptIssuerAuthority(l, caller, d)
    case DoEmit(to, x) => EmitNative(l, to, x)
    case DoSlash(from, x) => SlashNative(l, from, x)
    case DoAllocate(to, d, x) => GenesisAllocate(l, to, d, x)
    case DoRegister(d, issuer) => RegisterIssuer(l, d, issuer)
    case DoAdmit(d, authority) => AdmitIssuer(l, d, authority)
    case DoFreeze(caller, a, d, on) => SetFrozen(l, caller, a, d, on)
  }

  /** The operations only a genesis file may cause. */
  predicate Founding(op: Op) { op.DoAllocate? || op.DoRegister? }

  /** The ledger after attempting an operation: a failure changes nothing. */
  function After(l: Ledger, op: Op): Ledger {
    match Apply(l, op)
    case Ok(next) => next
    case Err(_) => l
  }

  function Run(l: Ledger, ops: seq<Op>): Ledger
    decreases |ops|
  {
    if ops == [] then l else Run(After(l, ops[0]), ops[1..])
  }
}
