/** What runs of ledger operations can and cannot do to the money of one
    denomination: allowances are totals, caps only tighten, frozen holdings do
    not move, and every change of supply is a mint, a burn, an emission or a
    slash. Only the operations a genesis file causes are exempt. */
module Issuance {
  import opened Base
  import opened Issuers
  import opened Ledger
  import opened Conservation

  function Allowance(l: Ledger, d: Denom, m: Address): Amount {
    if d in l.issuers then AllowanceOf(l.issuers[d], m) else 0
  }

  function Cap(l: Ledger, d: Denom): Option<Amount> {
    if d in l.issuers then l.issuers[d].maxSupply else None
  }

  /** No operation is one that only a genesis file may cause. */
  predicate AfterGenesis(ops: seq<Op>) { forall op :: op in ops ==> !Founding(op) }

  // -- allowances -----------------------------------------------------------

  predicate SetsAllowance(op: Op, d: Denom, m: Address) {
    op.DoConfigure? && op.denom == d && op.setting.MinterAllowance? && op.setting.minter == m
  }

  /** What one operation mints on an allowance. */
  function DrawnBy(l: Ledger, op: Op, d: Denom, m: Address): nat {
    if op.DoMint? && op.denom == d && op.minter == m && Apply(l, op).Ok? then op.amount else 0
  }

  function Drawn(l: Ledger, ops: seq<Op>, d: Denom, m: Address): nat
    decreases |ops|
  {
    if ops == [] then 0 else DrawnBy(l, ops[0], d, m) + Drawn(After(l, ops[0]), ops[1..], d, m)
  }

  lemma MintSpends(l: Ledger, minter: Address, to: Address, e: Denom, x: Amount, d: Denom, m: Address)
    requires Mint(l, minter, to, e, x).Ok?
    ensures Allowance(Mint(l, minter, to, e, x).value, d, m) + (if e == d && minter == m then x else 0)
      == Allowance(l, d, m)
  {
  }

  lemma ConfigureKeepsAllowance(l: Ledger, authority: Address, e: Denom, setting: Setting, d: Denom, m: Address)
    requires Configure(l, authority, e, setting).Ok?
    requires !SetsAllowance(DoConfigure(authority, e, setting), d, m)
    ensures Allowance(Configure(l, authority, e, setting).value, d, m) == Allowance(l, d, m)
  {
  }

  lemma AcceptKeepsAllowance(l: Ledger, caller: Address, e: Denom, d: Denom, m: Address)
    requires AcceptIssuerAuthority(l, caller, e).Ok?
    ensures Allowance(AcceptIssuerAuthority(l, caller, e).value, d, m) == Allowance(l, d, m)
  {
  }

  lemma OthersKeepIssuers(l: Ledger, op: Op)
    requires !Founding(op) && !op.DoMint? && !op.DoConfigure? && !op.DoAccept? && !op.DoAdmit?
    ensures After(l, op).issuers == l.issuers
  {
  }

  lemma StepSpendsAllowance(l: Ledger, op: Op, d: Denom, m: Address)
    requires !Founding(op) && !SetsAllowance(op, d, m)
    ensures DrawnBy(l, op, d, m) + Allowance(After(l, op), d, m) == Allowance(l, d, m)
  {
    if Apply(l, op).Ok? {
      match op
      case DoMint(minter, to, e, x) => MintSpends(l, minter, to, e, x, d, m);
      case DoConfigure(authority, e, setting) => ConfigureKeepsAllowance(l, authority, e, setting, d, m);
      case DoAccept(caller, e) => AcceptKeepsAllowance(l, caller, e, d, m);
      case DoAdmit(_, _) =>
      case _ => OthersKeepIssuers(l, op);
    }
  }

  /** Between two settings an allowance is a total: what was minted on it and
      what is left add up to what was set, however the mints are split and
      whatever else is done meanwhile. */
  lemma {:induction false} AllowanceIsATotal(l: Ledger, ops: seq<Op>, d: Denom, m: Address)
    requires AfterGenesis(ops) && forall op :: op in ops ==> !SetsAllowance(op, d, m)
    ensures Drawn(l, ops, d, m) + Allowance(Run(l, ops), d, m) == Allowance(l, d, m)
    decreases |ops|
  {
    if ops != [] {
      StepSpendsAllowance(l, ops[0], d, m);
      AllowanceIsATotal(After(l, ops[0]), ops[1..], d, m);
    }
  }

  // -- caps -----------------------------------------------------------------

  lemma MintKeepsTerms(l: Ledger, minter: Address, to: Address, e: Denom, x: Amount)
    requires Mint(l, minter, to, e, x).Ok?
    ensures var issuers := Mint(l, minter, to, e, x).value.issuers;
      && e in l.issuers && e in issuers && issuers == l.issuers[e := issuers[e]]
      && issuers[e] == l.issuers[e].(minters := issuers[e].minters)
  {
  }

  lemma ConfigureKeepsCap(l: Ledger, authority: Address, e: Denom, setting: Setting, d: Denom)
    requires Configure(l, authority, e, setting).Ok?
    ensures NoLooser(Cap(l, d), Cap(Configure(l, authority, e, setting).value, d))
  {
  }

  lemma AcceptKeepsCap(l: Ledger, caller: Address, e: Denom, d: Denom)
    requires AcceptIssuerAuthority(l, caller, e).Ok?
    ensures NoLooser(Cap(l, d), Cap(AcceptIssuerAuthority(l, caller, e).value, d))
  {
  }

  lemma AdmitKeepsCap(l: Ledger, e: Denom, authority: Address, d: Denom)
    requires AdmitIssuer(l, e, authority).Ok?
    ensures NoLooser(Cap(l, d), Cap(AdmitIssuer(l, e, authority).value, d))
  {
  }

  lemma StepKeepsCap(l: Ledger, op: Op, d: Denom)
    requires !Founding(op)
    ensures NoLooser(Cap(l, d), Cap(After(l, op), d))
  {
    if Apply(l, op).Ok? {
      match op
      case DoMint(minter, to, e, x) => MintKeepsTerms(l, minter, to, e, x);
      case DoConfigure(authority, e, setting) => ConfigureKeepsCap(l, authority, e, setting, d);
      case DoAccept(caller, e) => AcceptKeepsCap(l, caller, e, d);
      case DoAdmit(e, authority) => AdmitKeepsCap(l, e, authority, d);
      case _ => OthersKeepIssuers(l, op);
    }
  }

  /** A step raises the supply of a capped denomination only as far as the cap. */
  lemma StepWithinCap(l: Ledger, op: Op, d: Denom)
    requires !Founding(op) && d.Sovereign? && Cap(l, d).Some?
    ensures Supply(After(l, op), d) <= Supply(l, d) || Supply(After(l, op), d) <= Cap(l, d).value
  {
  }

  /** A published cap binds forever: it never loosens, and supply never grows past it. */
  lemma {:induction false} CapBinds(l: Ledger, ops: seq<Op>, d: Denom)
    requires AfterGenesis(ops) && d.Sovereign?
    ensures NoLooser(Cap(l, d), Cap(Run(l, ops), d))
    ensures Cap(l, d).Some? && Supply(l, d) <= Cap(l, d).value ==> Supply(Run(l, ops), d) <= Cap(l, d).value
    ensures Cap(l, d).Some? && Supply(l, d) > Cap(l, d).value ==> Supply(Run(l, ops), d) <= Supply(l, d)
    decreases |ops|
  {
    if ops != [] {
      var next := After(l, ops[0]);
      StepKeepsCap(l, ops[0], d);
      if Cap(l, d).Some? {
        StepWithinCap(l, ops[0], d);
      }
      CapBinds(next, ops[1..], d);
    }
  }

  // -- supply ---------------------------------------------------------------

  function CreatedBy(l: Ledger, op: Op, d: Denom): nat {
    if Apply(l, op).Ok? && ((op.DoMint? && op.denom == d) || (op.DoEmit? && d.Native?)) then op.amount else 0
  }

  function DestroyedBy(l: Ledger, op: Op, d: Denom): nat {
    if Apply(l, op).Ok? && ((op.DoBurn? && op.denom == d) || (op.DoSlash? && d.Native?)) then op.amount else 0
  }

  function Created(l: Ledger, ops: seq<Op>, d: Denom): nat
    decreases |ops|
  {
    if ops == [] then 0 else CreatedBy(l, ops[0], d) + Created(After(l, ops[0]), ops[1..], d)
  }

  function Destroyed(l: Ledger, ops: seq<Op>, d: Denom): nat
    decreases |ops|
  {
    if ops == [] then 0 else DestroyedBy(l, ops[0], d) + Destroyed(After(l, ops[0]), ops[1..], d)
  }

  /** Operations that neither create nor destroy. */
  lemma OthersKeepSupply(l: Ledger, op: Op)
    requires !Founding(op) && !op.DoMint? && !op.DoBurn? && !op.DoEmit? && !op.DoSlash?
    ensures After(l, op).supply == l.supply
  {
  }

  lemma MintRaisesSupply(l: Ledger, minter: Address, to: Address, e: Denom, x: Amount, d: Denom)
    requires Mint(l, minter, to, e, x).Ok?
    ensures Supply(Mint(l, minter, to, e, x).value, d) == Supply(l, d) + if d == e then x else 0
  {
  }

  lemma BurnLowersSupply(l: Ledger, minter: Address, e: Denom, x: Amount, d: Denom)
    requires Burn(l, minter, e, x).Ok?
    ensures Supply(Burn(l, minter, e, x).value, d) + (if d == e then x else 0) == Supply(l, d)
  {
  }

  lemma StepAccountsSupply(l: Ledger, op: Op, d: Denom)
    requires !Founding(op)
    ensures Supply(After(l, op), d) + DestroyedBy(l, op, d) == Supply(l, d) + CreatedBy(l, op, d)
  {
    if Apply(l, op).Ok? {
      match op
      case DoMint(minter, to, e, x) => MintRaisesSupply(l, minter, to, e, x, d);
      case DoBurn(minter, e, x) => BurnLowersSupply(l, minter, e, x, d);
      case DoEmit(_, _) =>
      case DoSlash(_, _) =>
      case _ => OthersKeepSupply(l, op);
    }
  }

  /** All money is accounted for: balances now are balances then, plus what was
      created, less what was destroyed. */
  lemma {:induction false} MoneyIsAccountedFor(l: Ledger, ops: seq<Op>, d: Denom)
    requires Solvent(l) && AfterGenesis(ops)
    ensures Total(Run(l, ops).balances, d) + Destroyed(l, ops, d) == Total(l.balances, d) + Created(l, ops, d)
  {
    RunKeepsSolvent(l, ops);
    assert Balanced(l, d) && Balanced(Run(l, ops), d);
    SupplyIsAccountedFor(l, ops, d);
  }

  lemma {:induction false} SupplyIsAccountedFor(l: Ledger, ops: seq<Op>, d: Denom)
    requires AfterGenesis(ops)
    ensures Supply(Run(l, ops), d) + Destroyed(l, ops, d) == Supply(l, d) + Created(l, ops, d)
    decreases |ops|
  {
    if ops != [] {
      StepAccountsSupply(l, ops[0], d);
      SupplyIsAccountedFor(After(l, ops[0]), ops[1..], d);
    }
  }

  // -- freezes --------------------------------------------------------------

  predicate Thaws(op: Op, a: Address, d: Denom) {
    op.DoFreeze? && !op.on && op.account == a && op.denom == d
  }

  lemma StepKeepsFrozen(l: Ledger, op: Op, a: Address, d: Denom)
    requires !Founding(op) && !Thaws(op, a, d) && d.Sovereign? && (a, d) in l.frozen
    ensures (a, d) in After(l, op).frozen && Balance(After(l, op), a, d) == Balance(l, a, d)
  {
  }

  /** A frozen holding is immobile, in both directions, until it is unfrozen. */
  lemma {:induction false} FrozenIsImmobile(l: Ledger, ops: seq<Op>, a: Address, d: Denom)
    requires AfterGenesis(ops) && d.Sovereign? && (a, d) in l.frozen
    requires forall op :: op in ops ==> !Thaws(op, a, d)
    ensures (a, d) in Run(l, ops).frozen && Balance(Run(l, ops), a, d) == Balance(l, a, d)
    decreases |ops|
  {
    if ops != [] {
      StepKeepsFrozen(l, ops[0], a, d);
      FrozenIsImmobile(After(l, ops[0]), ops[1..], a, d);
    }
  }

  // -- authority ------------------------------------------------------------

  predicate Offers(op: Op, authority: Address, d: Denom) {
    op.DoConfigure? && op.authority == authority && op.denom == d && op.setting.PendingAuthority?
  }

  /** `a` governs `d`, and has offered the role to nobody. */
  predicate Governs(l: Ledger, a: Address, d: Denom) {
    d in l.issuers && l.issuers[d].authority == a && l.issuers[d].pending.None?
  }

  lemma ConfigureKeepsAuthority(l: Ledger, authority: Address, e: Denom, setting: Setting, a: Address, d: Denom)
    requires Configure(l, authority, e, setting).Ok? && Governs(l, a, d)
    requires !Offers(DoConfigure(authority, e, setting), a, d)
    ensures Governs(Configure(l, authority, e, setting).value, a, d)
  {
  }

  lemma StepKeepsAuthority(l: Ledger, op: Op, a: Address, d: Denom)
    requires !Founding(op) && !Offers(op, a, d) && Governs(l, a, d)
    ensures Governs(After(l, op), a, d)
  {
    if Apply(l, op).Ok? {
      match op
      case DoMint(minter, to, e, x) => MintKeepsTerms(l, minter, to, e, x);
      case DoConfigure(authority, e, setting) => ConfigureKeepsAuthority(l, authority, e, setting, a, d);
      case DoAccept(_, _) =>
      case DoAdmit(_, _) =>
      case _ => OthersKeepIssuers(l, op);
    }
  }

  /** Nothing but its own offer ever moves the authority over a denomination. */
  lemma {:induction false} AuthorityMovesByOfferOnly(l: Ledger, ops: seq<Op>, a: Address, d: Denom)
    requires AfterGenesis(ops) && Governs(l, a, d)
    requires forall op :: op in ops ==> !Offers(op, a, d)
    ensures Governs(Run(l, ops), a, d)
    decreases |ops|
  {
    if ops != [] {
      StepKeepsAuthority(l, ops[0], a, d);
      AuthorityMovesByOfferOnly(After(l, ops[0]), ops[1..], a, d);
    }
  }
}
