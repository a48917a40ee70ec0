/** The ledger and the accounts a genesis file founds
    (crates/executor/src/genesis.rs). */
module Genesis {
  import opened Base
  import opened Issuers
  import opened Ledger
  import opened Conservation
  import opened Execution
  import opened History
  import Validators
  import Council
  import Governance
  import GovernanceStore
  import Rebind
  import BankModule = Bank

  datatype Allocation = Allocation(address: Address, denom: Denom, amount: Amount)

  /** A licensed attestor and whether it is active. */
  type Attestor = (Address, bool)

  datatype Genesis = Genesis(
    validators: Validators.ValidatorSet, issuers: seq<(Denom, Issuer)>, attestors: seq<Attestor>,
    council: Council.Council, params: Governance.ChainParams, allocations: seq<Allocation>)

  datatype Limits = Limits(minCountries: nat, maxSingleShare: nat, councilCap: nat)

  datatype GenesisError =
    | NoAllocations | DuplicateAllocation | UnregisteredDenom | DuplicateAttestor | SuspendedAttestor
    | InsufficientDistribution | ExcessiveConcentration | BadParams(param: Governance.ParamError) | LooseCouncilCap
    | CouncilConcentrated | Refused(cause: BankError)

  // -- validation -----------------------------------------------------------

  ghost predicate Distinct(allocations: seq<Allocation>) {
    forall i, j :: 0 <= i < j < |allocations| ==>
      (allocations[i].address, allocations[i].denom) != (allocations[j].address, allocations[j].denom)
  }

  predicate Lists(issuers: seq<(Denom, Issuer)>, d: Denom) { exists i :: 0 <= i < |issuers| && issuers[i].0 == d }

  predicate Registered(g: Genesis, d: Denom) { Lists(g.issuers, d) }

  predicate AllRegistered(g: Genesis) {
    forall i :: 0 <= i < |g.allocations| ==> g.allocations[i].denom.Sovereign? ==> Registered(g, g.allocations[i].denom)
  }

  ghost predicate DistinctAttestors(attestors: seq<Attestor>) {
    forall i, j :: 0 <= i < j < |attestors| ==> attestors[i].0 != attestors[j].0
  }

  predicate AllActive(attestors: seq<Attestor>) { forall i :: 0 <= i < |attestors| ==> attestors[i].1 }

  function CountriesOf(vals: seq<Validators.Validator>): set<nat> { set v | v in vals :: v.country }

  /** No validator's share, in whole basis points, is above the cap. */
  ghost predicate WithinShare(vs: Validators.ValidatorSet, cap: nat) {
    forall v :: v in vs.validators ==> v.power * Council.BPS < (cap + 1) * vs.totalPower
  }

  ghost function Problem(g: Genesis, limits: Limits): Option<GenesisError> {
    if g.allocations == [] then Some(NoAllocations)
    else if !Distinct(g.allocations) then Some(DuplicateAllocation)
    else if !AllRegistered(g) then Some(UnregisteredDenom)
    else if !DistinctAttestors(g.attestors) then Some(DuplicateAttestor)
    else if !AllActive(g.attestors) then Some(SuspendedAttestor)
    else if |CountriesOf(g.validators.validators)| < limits.minCountries then Some(InsufficientDistribution)
    else if !WithinShare(g.validators, limits.maxSingleShare) then Some(ExcessiveConcentration)
    else if Governance.ValidateParams(g.params).Some? then Some(BadParams(Governance.ValidateParams(g.params).value))
    else if g.params.councilCap > limits.councilCap then Some(LooseCouncilCap)
    else if !Council.WithinCap(g.council, g.params.councilCap) then Some(CouncilConcentrated)
    else None
  }

  // -- founding the ledger --------------------------------------------------

  function RegisterAll(l: Ledger, issuers: seq<(Denom, Issuer)>): Outcome
    decreases |issuers|
  {
    if issuers == [] then Ok(l)
    else
      match RegisterIssuer(l, issuers[0].0, issuers[0].1)
      case Err(e) => Err(e)
      case Ok(next) => RegisterAll(next, issuers[1..])
  }

  function AllocateAll(l: Ledger, allocations: seq<Allocation>): Outcome
    decreases |allocations|
  {
    if allocations == [] then Ok(l)
    else
      match GenesisAllocate(l, allocations[0].address, allocations[0].denom, allocations[0].amount)
      case Err(e) => Err(e)
      case Ok(next) => AllocateAll(next, allocations[1..])
  }

  /** What a file founds: balances and issuers, the seated council with its parameters, the licensed attestors. */
  datatype Foundation = Foundation(ledger: Ledger, governance: Governance.GovState, bindings: Rebind.Bindings)

  function Named(attestors: seq<Attestor>): set<Address> { set x | x in attestors :: x.0 }

  function Licensed(attestors: seq<Attestor>): map<Address, bool> { map a | a in Named(attestors) :: true }

  ghost function Founded(g: Genesis, limits: Limits): Result<Foundation, GenesisError> {
    if Problem(g, limits).Some? then Err(Problem(g, limits).value)
    else
      match RegisterAll(EMPTY, g.issuers)
      case Err(e) => Err(Refused(e))
      case Ok(l) =>
        match AllocateAll(l, g.allocations)
        case Err(e) => Err(Refused(e))
        case Ok(founded) =>
          Ok(Foundation(founded, Governance.Install(g.council, g.params).value,
                        Rebind.Bindings(map[], Licensed(g.attestors))))
  }

  // -- what the file says ---------------------------------------------------

  function Allocated(allocations: seq<Allocation>, d: Denom): nat {
    if allocations == [] then 0
    else (if allocations[0].denom == d then allocations[0].amount else 0) + Allocated(allocations[1..], d)
  }

  function AllocatedTo(allocations: seq<Allocation>, a: Address, d: Denom): nat {
    if allocations == [] then 0
    else
      (if allocations[0].address == a && allocations[0].denom == d then allocations[0].amount else 0)
      + AllocatedTo(allocations[1..], a, d)
  }

  predicate AllSovereign(issuers: seq<(Denom, Issuer)>) {
    forall i :: 0 <= i < |issuers| ==> issuers[i].0.Sovereign?
  }

  lemma IssuersUnfold(issuers: seq<(Denom, Issuer)>, d: Denom)
    requires issuers != []
    ensures Lists(issuers, d) <==> issuers[0].0 == d || Lists(issuers[1..], d)
    ensures AllSovereign(issuers) <==> issuers[0].0.Sovereign? && AllSovereign(issuers[1..])
  {
    var rest := issuers[1..];
    assert issuers == [issuers[0]] + rest && forall i :: 0 <= i < |rest| ==> rest[i] == issuers[i + 1];
    if k :| 0 <= k < |rest| && rest[k].0 == d {
      assert issuers[k + 1].0 == d;
    }
  }

  lemma {:induction false} RegisterFacts(l: Ledger, issuers: seq<(Denom, Issuer)>)
    requires Solvent(l)
    ensures RegisterAll(l, issuers).Ok? <==> AllSovereign(issuers)
    ensures RegisterAll(l, issuers).Ok? ==>
      var founded := RegisterAll(l, issuers).value;
      && Solvent(founded) && founded == l.(issuers := founded.issuers)
      && (forall d :: d in founded.issuers <==> d in l.issuers || Lists(issuers, d))
    decreases |issuers|
  {
    if issuers != [] {
      forall d ensures Lists(issuers, d) <==> issuers[0].0 == d || Lists(issuers[1..], d) {
        IssuersUnfold(issuers, d);
      }
      IssuersUnfold(issuers, Native);
      if issuers[0].0.Sovereign? {
        var op := DoRegister(issuers[0].0, issuers[0].1);
        ApplyKeepsSolvent(l, op);
        RegisterFacts(Apply(l, op).value, issuers[1..]);
      }
    }
  }

  predicate NoZero(allocations: seq<Allocation>) { forall i :: 0 <= i < |allocations| ==> allocations[i].amount > 0 }

  /** Allocations that fit: none is zero and no denomination overflows. */
  ghost predicate Fit(l: Ledger, allocations: seq<Allocation>) {
    NoZero(allocations) && forall d :: FitsIn(l, allocations, d)
  }

  predicate FitsIn(l: Ledger, allocations: seq<Allocation>, d: Denom) {
    Supply(l, d) + Allocated(allocations, d) <= U128_MAX
  }

  lemma AllocateFacts(l: Ledger, x: Allocation)
    requires Solvent(l)
    ensures GenesisAllocate(l, x.address, x.denom, x.amount).Ok?
      <==> x.amount > 0 && Supply(l, x.denom) + x.amount <= U128_MAX
    ensures GenesisAllocate(l, x.address, x.denom, x.amount).Ok? ==>
      var l' := GenesisAllocate(l, x.address, x.denom, x.amount).value;
      && Solvent(l') && l'.issuers == l.issuers && l'.frozen == l.frozen
      && (forall d :: Supply(l', d) == Supply(l, d) + if d == x.denom then x.amount else 0)
      && (forall a, d :: Balance(l', a, d) == Balance(l, a, d) + if a == x.address && d == x.denom then x.amount else 0)
  {
    assert Balanced(l, x.denom);
    BalanceWithinSupply(l, x.address, x.denom);
    var op := DoAllocate(x.address, x.denom, x.amount);
    if Apply(l, op).Ok? {
      ApplyKeepsSolvent(l, op);
    }
  }

  lemma {:induction false} FitStep(l: Ledger, l': Ledger, allocations: seq<Allocation>)
    requires allocations != []
    requires forall d :: Supply(l', d) == Supply(l, d) + if d == allocations[0].denom then allocations[0].amount else 0
    ensures Fit(l, allocations) <==> allocations[0].amount > 0 && Fit(l', allocations[1..])
  {
    var rest := allocations[1..];
    assert forall i :: 0 <= i < |rest| ==> rest[i] == allocations[i + 1];
    assert allocations == [allocations[0]] + rest;
    forall d ensures FitsIn(l, allocations, d) <==> FitsIn(l', rest, d) {}
  }

  lemma {:induction false} AllocatedWithin(l: Ledger, allocations: seq<Allocation>)
    requires allocations != [] && Fit(l, allocations)
    ensures allocations[0].amount > 0 && Supply(l, allocations[0].denom) + allocations[0].amount <= U128_MAX
  {
    assert FitsIn(l, allocations, allocations[0].denom);
  }

  lemma {:induction false} AllocateAllFacts(l: Ledger, allocations: seq<Allocation>)
    requires Solvent(l)
    ensures AllocateAll(l, allocations).Ok? <==> Fit(l, allocations)
    ensures AllocateAll(l, allocations).Ok? ==>
      var founded := AllocateAll(l, allocations).value;
      && Solvent(founded) && founded.issuers == l.issuers && founded.frozen == l.frozen
      && (forall d :: Supply(founded, d) == Supply(l, d) + Allocated(allocations, d))
      && (forall a, d :: Balance(founded, a, d) == Balance(l, a, d) + AllocatedTo(allocations, a, d))
    decreases |allocations|
  {
    if allocations != [] {
      var x := allocations[0];
      AllocateFacts(l, x);
      if GenesisAllocate(l, x.address, x.denom, x.amount).Ok? {
        var next := GenesisAllocate(l, x.address, x.denom, x.amount).value;
        FitStep(l, next, allocations);
        AllocateAllFacts(next, allocations[1..]);
      } else if Fit(l, allocations) {
        AllocatedWithin(l, allocations);
      }
    }
  }

  lemma {:induction false} FitAlone(l: Ledger, allocations: seq<Allocation>)
    requires l.supply == map[]
    ensures Fit(l, allocations) <==> Fit(EMPTY, allocations)
  {
    forall d ensures FitsIn(l, allocations, d) <==> FitsIn(EMPTY, allocations, d) {}
  }

  /** A file is applied exactly when it passes every check of `validate`, names
      no issuer of the native coin, allocates no zero, and no denomination's
      allocations overflow: seating a council that was validated cannot fail. */
  lemma {:induction false} FoundedExactlyWhen(g: Genesis, limits: Limits)
    ensures Founded(g, limits).Ok? <==>
      && g.allocations != [] && Distinct(g.allocations) && AllRegistered(g)
      && DistinctAttestors(g.attestors) && AllActive(g.attestors)
      && |CountriesOf(g.validators.validators)| >= limits.minCountries
      && WithinShare(g.validators, limits.maxSingleShare)
      && Governance.ValidateParams(g.params).None? && g.params.councilCap <= limits.councilCap
      && Council.WithinCap(g.council, g.params.councilCap)
      && AllSovereign(g.issuers)
      && NoZero(g.allocations)
      && (forall d :: FitsIn(EMPTY, g.allocations, d))
  {
    EmptyIsSolvent();
    RegisterFacts(EMPTY, g.issuers);
    if RegisterAll(EMPTY, g.issuers).Ok? {
      var l := RegisterAll(EMPTY, g.issuers).value;
      AllocateAllFacts(l, g.allocations);
      FitAlone(l, g.allocations);
    }
  }

  /** What an accepted file founds: a solvent ledger whose supply is the sum of
      the allocations, each allocation credited to its address, nothing frozen,
      and an issuer for every sovereign currency in existence. */
  lemma {:induction false} FoundedLedger(g: Genesis, limits: Limits)
    requires Founded(g, limits).Ok?
    ensures var l := Founded(g, limits).value.ledger;
      && Solvent(l) && l.frozen == {}
      && (forall d :: Supply(l, d) == Allocated(g.allocations, d))
      && (forall a, d :: Balance(l, a, d) == AllocatedTo(g.allocations, a, d))
      && (forall d: Denom :: d.Sovereign? && Supply(l, d) > 0 ==> d in l.issuers)
  {
    LedgerFacts(g, Founded(g, limits).value.ledger);
  }

  lemma {:induction false} LedgerFacts(g: Genesis, l: Ledger)
    requires AllRegistered(g) && RegisterAll(EMPTY, g.issuers).Ok?
    requires AllocateAll(RegisterAll(EMPTY, g.issuers).value, g.allocations) == Ok(l)
    ensures Solvent(l) && l.frozen == {}
    ensures forall d :: Supply(l, d) == Allocated(g.allocations, d)
    ensures forall a, d :: Balance(l, a, d) == AllocatedTo(g.allocations, a, d)
    ensures forall d: Denom :: d.Sovereign? && Supply(l, d) > 0 ==> d in l.issuers
  {
    var registered := RegisterAll(EMPTY, g.issuers).value;
    EmptyIsSolvent();
    RegisterFacts(EMPTY, g.issuers);
    AllocateAllFacts(registered, g.allocations);
    forall d: Denom | d.Sovereign? && Supply(l, d) > 0 ensures d in l.issuers {
      HasIssuer(g, d);
    }
  }

  lemma HasIssuer(g: Genesis, d: Denom)
    requires AllRegistered(g) && d.Sovereign? && Allocated(g.allocations, d) > 0
    ensures Registered(g, d)
  {
    AllocatedIsNamed(g.allocations, d);
    var i :| 0 <= i < |g.allocations| && g.allocations[i].denom == d;
  }

  /** And the bodies it founds: a lawful council, whose cap no later change can
      loosen past the network's limit, and no attestor that is suspended. */
  lemma FoundedBodies(g: Genesis, limits: Limits)
    requires Founded(g, limits).Ok?
    ensures var f := Founded(g, limits).value;
      && Governance.Valid(f.governance) && f.governance.council == Some(g.council)
      && f.governance.params == g.params && f.governance.params.councilCap <= limits.councilCap
      && f.bindings.contacts == map[]
      && (forall a :: a in f.bindings.attestors <==> exists i :: 0 <= i < |g.attestors| && g.attestors[i].0 == a)
      && (forall a :: a in f.bindings.attestors ==> Rebind.AttestorProblem(f.bindings, a).None?)
  {
    Governance.InstallIsValid(g.council, g.params);
    var attestors := Licensed(g.attestors);
    forall a ensures a in attestors <==> exists i :: 0 <= i < |g.attestors| && g.attestors[i].0 == a {
      if i :| 0 <= i < |g.attestors| && g.attestors[i].0 == a {
        assert g.attestors[i] in g.attestors;
      }
    }
  }

  lemma NamedUnfolds(front: seq<Attestor>, last: Attestor)
    ensures Named(front + [last]) == Named(front) + {last.0}
  {
    assert last in front + [last];
  }

  lemma DistinctUnfolds(front: seq<Attestor>, last: Attestor)
    ensures DistinctAttestors(front + [last]) <==> DistinctAttestors(front) && last.0 !in Named(front)
  {
    var all := front + [last];
    if last.0 in Named(front) {
      var x :| x in front && x.0 == last.0;
      var i :| 0 <= i < |front| && front[i] == x;
      assert all[i].0 == all[|front|].0;
    } else if DistinctAttestors(front) {
      assert forall i :: 0 <= i < |front| ==> front[i] in front;
    } else {
      var i, j :| 0 <= i < j < |front| && front[i].0 == front[j].0;
      assert all[i].0 == all[j].0;
    }
  }

  lemma {:induction false} DistinctlyNamed(attestors: seq<Attestor>)
    ensures |Named(attestors)| <= |attestors|
    ensures DistinctAttestors(attestors) <==> |Named(attestors)| == |attestors|
    decreases |attestors|
  {
    if attestors != [] {
      var front, last := attestors[..|attestors| - 1], attestors[|attestors| - 1];
      assert attestors == front + [last];
      DistinctlyNamed(front);
      NamedUnfolds(front, last);
      DistinctUnfolds(front, last);
    }
  }

  /** No line of an accepted file is lost: each attestor it lists is listed
      active, and as many are licensed as there are lines. */
  lemma FoundedAttestors(g: Genesis, limits: Limits)
    requires Founded(g, limits).Ok?
    ensures |Founded(g, limits).value.bindings.attestors| == |g.attestors|
    ensures forall x :: x in g.attestors ==> x.1
  {
    DistinctlyNamed(g.attestors);
    assert Licensed(g.attestors).Keys == Named(g.attestors);
  }

  lemma {:induction false} AllocatedIsNamed(allocations: seq<Allocation>, d: Denom)
    requires Allocated(allocations, d) > 0
    ensures exists i: int :: 0 <= i < |allocations| && allocations[i].denom == d
  {
    if allocations[0].denom != d {
      AllocatedIsNamed(allocations[1..], d);
      var i :| 0 <= i < |allocations[1..]| && allocations[1..][i].denom == d;
      assert allocations[i + 1].denom == d;
    }
  }

  /** Without repeats each allocation is the whole balance of its address. */
  lemma {:induction false} AllocationIsBalance(allocations: seq<Allocation>, k: nat)
    requires Distinct(allocations) && k < |allocations|
    ensures AllocatedTo(allocations, allocations[k].address, allocations[k].denom) == allocations[k].amount
  {
    var x := allocations[k];
    var rest := allocations[1..];
    assert forall i :: 0 <= i < |rest| ==> rest[i] == allocations[i + 1];
    if k == 0 {
      NoneFor(rest, x.address, x.denom);
    } else {
      AllocationIsBalance(rest, k - 1);
    }
  }

  lemma {:induction false} NoneFor(allocations: seq<Allocation>, a: Address, d: Denom)
    requires forall i :: 0 <= i < |allocations| ==> (allocations[i].address, allocations[i].denom) != (a, d)
    ensures AllocatedTo(allocations, a, d) == 0
  {
    if allocations != [] {
      NoneFor(allocations[1..], a, d);
    }
  }

  // -- the first store ------------------------------------------------------

  function Accounts(r: Rules, g: Genesis): map<Address, Account> {
    map a | a in (set x | x in g.allocations :: x.address) :: Account(0, None, r.individual(a))
  }

  /** The store after genesis has no history and adds up, so everything proved of
      runs holds of the chain it starts. */
  lemma FirstWorld(r: Rules, g: Genesis, limits: Limits, modules: nat)
    requires Founded(g, limits).Ok?
    ensures var w := World(Founded(g, limits).value.ledger, Accounts(r, g), modules);
      Unvisited(r, w) && Solvent(w.ledger) && forall a :: NonceOf(r, w, a) == 0
  {
    FoundedLedger(g, limits);
  }

  // -- the procedure --------------------------------------------------------

  method CheckDistinct(allocations: seq<Allocation>) returns (ok: bool)
    ensures ok <==> Distinct(allocations)
  {
    var seen: set<Key> := {};
    var i := 0;
    while i < |allocations|
      invariant 0 <= i <= |allocations|
      invariant seen == set k | 0 <= k < i :: (allocations[k].address, allocations[k].denom)
      invariant Distinct(allocations[..i])
    {
      var key := (allocations[i].address, allocations[i].denom);
      if key in seen {
        return false;
      }
      seen := seen + {key};
      i := i + 1;
    }
    assert allocations[..i] == allocations;
    return true;
  }

  method CheckAttestors(attestors: seq<Attestor>) returns (ok: bool)
    ensures ok <==> DistinctAttestors(attestors)
  {
    var seen: set<Address> := {};
    var i := 0;
    while i < |attestors|
      invariant 0 <= i <= |attestors|
      invariant seen == set k | 0 <= k < i :: attestors[k].0
      invariant DistinctAttestors(attestors[..i])
    {
      if attestors[i].0 in seen {
        return false;
      }
      seen := seen + {attestors[i].0};
      i := i + 1;
    }
    assert attestors[..i] == attestors;
    return true;
  }

  /** The largest single share, in whole basis points: rounded down, so a cap of
      whole basis points is exceeded only by a whole one. */
  method MaxSingleShareBps(vs: Validators.ValidatorSet) returns (bps: nat)
    requires vs.Valid()
    ensures forall cap: nat :: bps <= cap <==> WithinShare(vs, cap)
  {
    var max, i := vs.validators[0].power, 1;
    while i < |vs.validators|
      invariant 1 <= i <= |vs.validators|
      invariant exists k :: 0 <= k < i && vs.validators[k].power == max
      invariant forall k :: 0 <= k < i ==> vs.validators[k].power <= max
    {
      if vs.validators[i].power > max {
        max := vs.validators[i].power;
      }
      i := i + 1;
    }
    HasPower(vs);
    bps := max * Council.BPS / vs.totalPower;
    forall cap: nat ensures bps <= cap <==> WithinShare(vs, cap) {
      ShareRoundsDown(max * Council.BPS, vs.totalPower, cap);
      MaxDecides(vs, max, cap);
    }
  }

  lemma HasPower(vs: Validators.ValidatorSet)
    requires vs.Valid()
    ensures vs.totalPower > 0
  {
    assert vs.validators[0] in vs.validators;
  }

  lemma ShareRoundsDown(n: nat, total: nat, cap: nat)
    requires total > 0
    ensures n / total <= cap <==> n < (cap + 1) * total
  {
    assert n == (n / total) * total + n % total;
    if n / total <= cap {
      assert (n / total) * total <= cap * total;
    } else {
      assert (n / total) * total >= (cap + 1) * total;
    }
  }

  lemma MaxDecides(vs: Validators.ValidatorSet, max: nat, cap: nat)
    requires exists k :: 0 <= k < |vs.validators| && vs.validators[k].power == max
    requires forall k :: 0 <= k < |vs.validators| ==> vs.validators[k].power <= max
    ensures WithinShare(vs, cap) <==> max * Council.BPS < (cap + 1) * vs.totalPower
  {
    var k :| 0 <= k < |vs.validators| && vs.validators[k].power == max;
    assert vs.validators[k] in vs.validators;
  }

  /** `validate`: the first check a file fails. */
  method Validate(g: Genesis, limits: Limits) returns (problem: Option<GenesisError>)
    requires g.validators.Valid()
    ensures problem == Problem(g, limits)
  {
    if g.allocations == [] {
      return Some(NoAllocations);
    }
    var distinct := CheckDistinct(g.allocations);
    if !distinct {
      return Some(DuplicateAllocation);
    }
    if !AllRegistered(g) {
      return Some(UnregisteredDenom);
    }
    distinct := CheckAttestors(g.attestors);
    if !distinct {
      return Some(DuplicateAttestor);
    }
    if !AllActive(g.attestors) {
      return Some(SuspendedAttestor);
    }
    if |CountriesOf(g.validators.validators)| < limits.minCountries {
      return Some(InsufficientDistribution);
    }
    var share := MaxSingleShareBps(g.validators);
    if share > limits.maxSingleShare {
      return Some(ExcessiveConcentration);
    }
    var param := Governance.ValidateParams(g.params);
    if param.Some? {
      return Some(BadParams(param.value));
    }
    if g.params.councilCap > limits.councilCap {
      return Some(LooseCouncilCap);
    }
    var checked := Council.CheckConcentration(g.council, g.params.councilCap);
    return if checked.Err? then Some(CouncilConcentrated) else None;
  }

  method FoundLedger(bank: BankModule.Bank, g: Genesis) returns (r: Result<(), BankError>)
    requires bank.View() == EMPTY
    modifies bank
    ensures match RegisterAll(EMPTY, g.issuers)
            case Err(e) => r == Err(e)
            case Ok(l) =>
              match AllocateAll(l, g.allocations)
              case Err(e) => r == Err(e)
              case Ok(founded) => r.Ok? && bank.View() == founded
  {
    var i := 0;
    while i < |g.issuers|
      invariant 0 <= i <= |g.issuers|
      invariant RegisterAll(EMPTY, g.issuers) == RegisterAll(bank.View(), g.issuers[i..])
    {
      assert g.issuers[i..][1..] == g.issuers[i + 1..];
      var answer := bank.Register(g.issuers[i].0, g.issuers[i].1);
      if answer.Err? {
        return Err(answer.error);
      }
      i := i + 1;
    }
    ghost var registered := bank.View();
    i := 0;
    while i < |g.allocations|
      invariant 0 <= i <= |g.allocations|
      invariant AllocateAll(registered, g.allocations) == AllocateAll(bank.View(), g.allocations[i..])
    {
      assert g.allocations[i..][1..] == g.allocations[i + 1..];
      var x := g.allocations[i];
      var answer := bank.Allocate(x.address, x.denom, x.amount);
      if answer.Err? {
        return Err(answer.error);
      }
      i := i + 1;
    }
    return Ok(());
  }

  method LicenseAll(bindings: Rebind.ContactBindings, attestors: seq<Attestor>)
    requires bindings.attestors == map[] && AllActive(attestors)
    modifies bindings
    ensures bindings.attestors == Licensed(attestors) && bindings.contacts == old(bindings.contacts)
  {
    var i := 0;
    while i < |attestors|
      invariant 0 <= i <= |attestors| && bindings.contacts == old(bindings.contacts)
      invariant bindings.attestors == Licensed(attestors[..i])
    {
      assert attestors[..i + 1] == attestors[..i] + [attestors[i]];
      bindings.RegisterAttestor(attestors[i].0, attestors[i].1);
      i := i + 1;
    }
    assert attestors[..i] == attestors;
  }

  /** `apply` on an empty store. */
  method Found(bank: BankModule.Bank, gov: GovernanceStore.GovernanceModule, bindings: Rebind.ContactBindings,
               g: Genesis, limits: Limits) returns (r: Result<(), GenesisError>)
    requires bank.View() == EMPTY && bindings.View() == Rebind.Bindings(map[], map[])
    requires gov.council.None? && gov.proposals == map[] && gov.nextId == 0 && gov.open == []
    requires g.validators.Valid()
    modifies bank, gov, bindings
    ensures match Founded(g, limits)
            case Ok(f) => r.Ok? && f == Foundation(bank.View(), gov.View(), bindings.View())
            case Err(e) => r == Err(e)
  {
    var problem := Validate(g, limits);
    if problem.Some? {
      return Err(problem.value);
    }
    var founded := FoundLedger(bank, g);
    if founded.Err? {
      return Err(Refused(founded.error));
    }
    var installed := gov.InstallFirst(g.council, g.params);
    assert installed.Ok?;
    LicenseAll(bindings, g.attestors);
    return Ok(());
  }
}
