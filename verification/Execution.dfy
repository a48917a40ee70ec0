/** Execution of transactions (crates/executor/src/lib.rs). The store is the
    ledger, the account records and, as one opaque value, the records of the
    other modules. What the model does not interpret (signatures, stateless
    checks, the rules of groups, staking, names, contacts and governance) is
    given as functions. */
module Execution {
  import opened Base
  import opened Issuers
  import opened Ledger

  /** Signing arrangement, flags and kind of an account. */
  type Profile = nat

  /** The keys that signed. */
  type Keys = nat

  datatype Pointer = Pointer(txId: Hash32, height: nat)

  datatype Account = Account(nonce: nat, lastTxn: Option<Pointer>, profile: Profile)

  datatype World = World(ledger: Ledger, accounts: map<Address, Account>, modules: nat)

  /** A ledger operation a message can cause. */
  type LiveOp = op: Op | !Founding(op) witness DoEmit(0, 0)

  /** What the arm of a message does, in order. Account records are loaded,
      changed and written back: no arm reaches a nonce or a history pointer. */
  datatype Effect =
    | Banking(op: LiveOp)
    | Ensure(address: Address)
    | Rewrite(address: Address, profile: Profile)
    | Update(modules: nat)
    | Refuse

  datatype Message =
    | Pay(to: Address, denom: Denom, amount: Amount, referenced: bool)
    | MintUnits(denom: Denom, to: Address, amount: Amount)
    | BurnUnits(denom: Denom, amount: Amount)
    | SetIssuer(denom: Denom, setting: Setting)
    | AcceptAuthorityOf(denom: Denom)
    | SetFrozenFor(denom: Denom, account: Address, on: bool)
    | ChangeAccount(change: nat)
    | Other(kind: nat, named: seq<Address>)

  datatype Fee = Fee(amount: Amount, denom: Denom, payer: Option<Address>)

  datatype Tx = Tx(sender: Address, nonce: nat, fee: Fee, messages: seq<Message>, keys: Keys, sponsorKeys: Keys,
                   extra: nat)

  datatype Rules = Rules(
    id: Tx -> Hash32,
    stateless: (Tx, nat) -> bool,
    individual: Address -> Profile,
    authorises: (Profile, Keys) -> bool,
    needsReference: Profile -> bool,
    changed: (Profile, nat) -> Option<Profile>,
    arm: (World, Address, nat, nat) -> seq<Effect>,
    collector: Address)

  datatype ExecError =
    | Invalid | Unauthorised | WrongNonce | SponsorUnauthorised | FeeDenomNotAccepted | FeeUnpaid(cause: BankError)

  datatype Verdict = Rejected(why: ExecError) | Failed | Applied

  datatype TouchedAccount = TouchedAccount(address: Address, previous: Option<Pointer>)

  datatype Receipt = Receipt(txId: Hash32, verdict: Verdict, feeCharged: Amount, touched: seq<TouchedAccount>)

  // -- accounts -------------------------------------------------------------

  /** The record, or a fresh one for an address never seen. */
  function Load(r: Rules, accounts: map<Address, Account>, a: Address): Account {
    if a in accounts then accounts[a] else Account(0, None, r.individual(a))
  }

  function NonceOf(r: Rules, w: World, a: Address): nat { Load(r, w.accounts, a).nonce }

  function LastOf(r: Rules, w: World, a: Address): Option<Pointer> { Load(r, w.accounts, a).lastTxn }

  function Bump(r: Rules, w: World, a: Address): World {
    var account := Load(r, w.accounts, a);
    w.(accounts := w.accounts[a := account.(nonce := account.nonce + 1)])
  }

  // -- messages -------------------------------------------------------------

  function Plan(r: Rules, w: World, height: nat, sender: Address, m: Message): seq<Effect> {
    match m
    case Pay(to, d, x, referenced) =>
      if r.needsReference(Load(r, w.accounts, to).profile) && !referenced then [Refuse]
      else [Banking(DoTransfer(sender, to, d, x)), Ensure(to)]
    case MintUnits(d, to, x) => [Banking(DoMint(sender, to, d, x))]
    case BurnUnits(d, x) => [Banking(DoBurn(sender, d, x))]
    case SetIssuer(d, setting) =>
      [Banking(DoConfigure(sender, d, setting))]
      + (if setting.PendingAuthority? && setting.to.Some? then [Ensure(setting.to.value)] else [])
    case AcceptAuthorityOf(d) => [Banking(DoAccept(sender, d))]
    case SetFrozenFor(d, account, on) => [Banking(DoFreeze(sender, account, d, on))]
    case ChangeAccount(change) =>
      (match r.changed(Load(r, w.accounts, sender).profile, change)
       case None => [Refuse]
       case Some(profile) => [Rewrite(sender, profile)])
    case Other(kind, _) => r.arm(w, sender, height, kind)
  }

  function ApplyEffect(r: Rules, w: World, e: Effect): Option<World> {
    match e
    case Banking(op) =>
      (match Apply(w.ledger, op)
       case Ok(l) => Some(w.(ledger := l))
       case Err(_) => None)
    case Ensure(a) => Some(w.(accounts := w.accounts[a := Load(r, w.accounts, a)]))
    case Rewrite(a, profile) => Some(w.(accounts := w.accounts[a := Load(r, w.accounts, a).(profile := profile)]))
    case Update(modules) => Some(w.(modules := modules))
    case Refuse => None
  }

  function ApplyEffects(r: Rules, w: World, effects: seq<Effect>): Option<World>
    decreases |effects|
  {
    if effects == [] then Some(w)
    else
      match ApplyEffect(r, w, effects[0])
      case None => None
      case Some(next) => ApplyEffects(r, next, effects[1..])
  }

  function ApplyMessages(r: Rules, w: World, height: nat, sender: Address, ms: seq<Message>): Option<World>
    decreases |ms|
  {
    if ms == [] then Some(w)
    else
      match ApplyEffects(r, w, Plan(r, w, height, sender, ms[0]))
      case None => None
      case Some(next) => ApplyMessages(r, next, height, sender, ms[1..])
  }

  // -- whose history moves --------------------------------------------------

  function Named(m: Message): seq<Address> {
    match m
    case Pay(to, _, _, _) => [to]
    case MintUnits(_, to, _) => [to]
    case BurnUnits(_, _) => []
    case SetIssuer(_, setting) =>
      (match setting
       case MinterAllowance(minter, _) => [minter]
       case PendingAuthority(to) => (if to.Some? then [to.value] else [])
       case Freezer(freezer) => (if freezer.Some? then [freezer.value] else [])
       case _ => [])
    case AcceptAuthorityOf(_) => []
    case SetFrozenFor(_, account, _) => [account]
    case ChangeAccount(_) => []
    case Other(_, named) => named
  }

  function AllNamed(ms: seq<Message>): seq<Address> {
    if ms == [] then [] else Named(ms[0]) + AllNamed(ms[1..])
  }

  function PayerOf(tx: Tx): Address { if tx.fee.payer.Some? then tx.fee.payer.value else tx.sender }

  function TouchedBy(tx: Tx, applied: bool): seq<Address> {
    if applied then SortedKeys([tx.sender] + AllNamed(tx.messages))
    else SortedKeys([tx.sender, PayerOf(tx)])
  }

  /** The pointers the moved accounts had, in the order they are moved. */
  function Previous(r: Rules, accounts: map<Address, Account>, addresses: seq<Address>, p: Pointer): seq<TouchedAccount>
    decreases |addresses|
  {
    if addresses == [] then []
    else
      [TouchedAccount(addresses[0], Load(r, accounts, addresses[0]).lastTxn)]
      + Previous(r, MovePointer(r, accounts, addresses[0], p), addresses[1..], p)
  }

  function MovePointer(r: Rules, accounts: map<Address, Account>, a: Address, p: Pointer): map<Address, Account> {
    accounts[a := Load(r, accounts, a).(lastTxn := Some(p))]
  }

  function MovePointers(r: Rules, accounts: map<Address, Account>, addresses: seq<Address>,
                        p: Pointer): map<Address, Account>
    decreases |addresses|
  {
    if addresses == [] then accounts else MovePointers(r, MovePointer(r, accounts, addresses[0], p), addresses[1..], p)
  }

  // -- one transaction ------------------------------------------------------

  predicate AcceptsAsFee(l: Ledger, d: Denom) { d.Native? || d in l.issuers }

  /** Everything that is checked before a transaction costs anything: an error, or the ledger with the fee paid. */
  function Admission(r: Rules, w: World, height: nat, tx: Tx): Result<Ledger, ExecError> {
    var account := Load(r, w.accounts, tx.sender);
    if !r.stateless(tx, height) then Err(Invalid)
    else if !r.authorises(account.profile, tx.keys) then Err(Unauthorised)
    else if account.nonce != tx.nonce then Err(WrongNonce)
    else if tx.fee.payer.Some? && !r.authorises(Load(r, w.accounts, PayerOf(tx)).profile, tx.sponsorKeys) then
      Err(SponsorUnauthorised)
    else if !AcceptsAsFee(w.ledger, tx.fee.denom) then Err(FeeDenomNotAccepted)
    else
      match Transfer(w.ledger, PayerOf(tx), r.collector, tx.fee.denom, tx.fee.amount)
      case Ok(l) => Ok(l)
      case Err(e) => if tx.fee.amount == 0 then Ok(w.ledger) else Err(FeeUnpaid(e))
  }

  /** The store before pointers move: messages kept or dropped, nonce advanced. */
  function Settled(r: Rules, paid: World, height: nat, tx: Tx): World {
    var ran := ApplyMessages(r, paid, height, tx.sender, tx.messages);
    Bump(r, if ran.Some? then ran.value else paid, tx.sender)
  }

  function ExecuteTx(r: Rules, w: World, height: nat, tx: Tx): (World, Receipt) {
    match Admission(r, w, height, tx)
    case Err(e) => (w, Receipt(r.id(tx), Rejected(e), 0, []))
    case Ok(l) =>
      var paid := w.(ledger := l);
      var applied := ApplyMessages(r, paid, height, tx.sender, tx.messages).Some?;
      var settled := Settled(r, paid, height, tx);
      var addresses := TouchedBy(tx, applied);
      var p := Pointer(r.id(tx), height);
      (settled.(accounts := MovePointers(r, settled.accounts, addresses, p)),
       Receipt(r.id(tx), if applied then Applied else Failed, tx.fee.amount,
               Previous(r, settled.accounts, addresses, p)))
  }

  /** `previous_for`: nothing when the receipt does not name the account. */
  function PreviousFor(touched: seq<TouchedAccount>, a: Address): Option<Option<Pointer>> {
    if touched == [] then None
    else if touched[0].address == a then Some(touched[0].previous)
    else PreviousFor(touched[1..], a)
  }
}
