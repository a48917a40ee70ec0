/** Human-readable names (crates/alias/src/registry.rs). Names are compared by
    a skeleton so that two that look alike are never both in force; how a
    skeleton is computed is given. */
module Registry {
  import opened Base

  type Name = nat
  type Skeleton = nat

  const REGISTRATION_BLOCKS: nat := 31_536_000
  const GRACE_BLOCKS: nat := 2_592_000

  datatype NameRecord = NameRecord(owner: Address, registeredAt: nat, expiresAt: nat) {
    predicate Claimable(now: nat) { now >= expiresAt + GRACE_BLOCKS }
  }

  datatype Names = Names(records: map<Name, NameRecord>, skeletons: map<Skeleton, Name>, primary: map<Address, Name>)

  datatype RegistryError = Taken | Confusable(holder: Name) | NotFound | NotOwner

  type Outcome = Result<Names, RegistryError>

  /** A name is in force until the end of its grace period. */
  predicate Live(s: Names, name: Name, now: nat) { name in s.records && !s.records[name].Claimable(now) }

  // -- operations -----------------------------------------------------------

  /** The live name that holds a skeleton another name wants. */
  function Blocker(skeleton: Name -> Skeleton, s: Names, name: Name, now: nat): Option<Name> {
    var k := skeleton(name);
    if k in s.skeletons && s.skeletons[k] != name && Live(s, s.skeletons[k], now) then Some(s.skeletons[k]) else None
  }

  function Register(skeleton: Name -> Skeleton, s: Names, name: Name, owner: Address, now: nat): Outcome {
    if Live(s, name, now) then Err(Taken)
    else if Blocker(skeleton, s, name, now).Some? then Err(Confusable(Blocker(skeleton, s, name, now).value))
    else
      Ok(s.(records := s.records[name := NameRecord(owner, now, now + REGISTRATION_BLOCKS)],
            skeletons := s.skeletons[skeleton(name) := name]))
  }

  function OwnedBy(s: Names, name: Name, caller: Address, now: nat): Result<NameRecord, RegistryError> {
    if name !in s.records then Err(NotFound)
    else if s.records[name].owner != caller then Err(NotOwner)
    else if s.records[name].Claimable(now) then Err(NotFound)
    else Ok(s.records[name])
  }

  function Renew(s: Names, name: Name, caller: Address, now: nat): Outcome {
    match OwnedBy(s, name, caller, now)
    case Err(e) => Err(e)
    case Ok(record) =>
      var base := if record.expiresAt > now then record.expiresAt else now;
      Ok(s.(records := s.records[name := record.(expiresAt := base + REGISTRATION_BLOCKS)]))
  }

  /** A display name that must not survive its owner's loss of the name. */
  function Undisplayed(primary: map<Address, Name>, a: Address, name: Name): map<Address, Name> {
    if a in primary && primary[a] == name then primary - {a} else primary
  }

  function Transfer(s: Names, name: Name, caller: Address, to: Address, now: nat): Outcome {
    match OwnedBy(s, name, caller, now)
    case Err(e) => Err(e)
    case Ok(record) =>
      Ok(s.(records := s.records[name := record.(owner := to)], primary := Undisplayed(s.primary, caller, name)))
  }

  function SetPrimary(s: Names, name: Name, caller: Address, now: nat): Outcome {
    match OwnedBy(s, name, caller, now)
    case Err(e) => Err(e)
    case Ok(_) => Ok(s.(primary := s.primary[caller := name]))
  }

  function ClearPrimary(s: Names, caller: Address): Names { s.(primary := s.primary - {caller}) }

  function Release(skeleton: Name -> Skeleton, s: Names, name: Name, caller: Address, now: nat): Outcome {
    match OwnedBy(s, name, caller, now)
    case Err(e) => Err(e)
    case Ok(_) =>
      Ok(s.(records := s.records - {name}, skeletons := s.skeletons - {skeleton(name)},
            primary := Undisplayed(s.primary, caller, name)))
  }

  // -- runs -----------------------------------------------------------------

  datatype Act =
    | Registers(name: Name, caller: Address, now: nat)
    | Renews(name: Name, caller: Address, now: nat)
    | Transfers(name: Name, caller: Address, to: Address, now: nat)
    | Displays(name: Name, caller: Address, now: nat)
    | Hides(caller: Address, now: nat)
    | Releases(name: Name, caller: Address, now: nat)

  function Attempt(skeleton: Name -> Skeleton, s: Names, act: Act): Outcome {
    match act
    case Registers(name, caller, now) => Register(skeleton, s, name, caller, now)
    case Renews(name, caller, now) => Renew(s, name, caller, now)
    case Transfers(name, caller, to, now) => Transfer(s, name, caller, to, now)
    case Displays(name, caller, now) => SetPrimary(s, name, caller, now)
    case Hides(caller, _) => Ok(ClearPrimary(s, caller))
    case Releases(name, caller, now) => Release(skeleton, s, name, caller, now)
  }

  function After(skeleton: Name -> Skeleton, s: Names, act: Act): Names {
    match Attempt(skeleton, s, act)
    case Ok(next) => next
    case Err(_) => s
  }

  function Run(skeleton: Name -> Skeleton, s: Names, acts: seq<Act>): Names
    decreases |acts|
  {
    if acts == [] then s else Run(skeleton, After(skeleton, s, acts[0]), acts[1..])
  }

  /** Heights never go back, from `from` on. */
  predicate Timed(acts: seq<Act>, from: nat)
    decreases |acts|
  {
    acts == [] || (from <= acts[0].now && Timed(acts[1..], acts[0].now))
  }

  function LastHeight(acts: seq<Act>, from: nat): nat { if acts == [] then from else acts[|acts| - 1].now }

  // -- the index agrees -----------------------------------------------------

  /** Each name in force is the one its skeleton entry points to, and entries point to names that look so. */
  ghost predicate Indexed(skeleton: Name -> Skeleton, s: Names, now: nat) {
    && (forall name :: Live(s, name, now) ==> skeleton(name) in s.skeletons && s.skeletons[skeleton(name)] == name)
    && (forall k :: k in s.skeletons ==> skeleton(s.skeletons[k]) == k)
  }

  lemma TimePasses(skeleton: Name -> Skeleton, s: Names, now: nat, later: nat)
    requires Indexed(skeleton, s, now) && now <= later
    ensures Indexed(skeleton, s, later)
  {
    assert forall name :: Live(s, name, later) ==> Live(s, name, now);
  }

  lemma StepKeepsIndexed(skeleton: Name -> Skeleton, s: Names, act: Act)
    requires Indexed(skeleton, s, act.now)
    ensures Indexed(skeleton, After(skeleton, s, act), act.now)
  {
    var next := After(skeleton, s, act);
    forall name | Live(next, name, act.now)
      ensures skeleton(name) in next.skeletons && next.skeletons[skeleton(name)] == name
    {
      assert !(act.Registers? && act.name == name) ==> Live(s, name, act.now);
    }
  }

  /** Over every run the index agrees with the names in force. */
  lemma {:induction false} RunKeepsIndexed(skeleton: Name -> Skeleton, s: Names, acts: seq<Act>, from: nat)
    requires Indexed(skeleton, s, from) && Timed(acts, from)
    ensures Indexed(skeleton, Run(skeleton, s, acts), LastHeight(acts, from))
    decreases |acts|
  {
    if acts != [] {
      TimePasses(skeleton, s, from, acts[0].now);
      StepKeepsIndexed(skeleton, s, acts[0]);
      RunKeepsIndexed(skeleton, After(skeleton, s, acts[0]), acts[1..], acts[0].now);
    }
  }

  /** So no two names that look alike are ever both in force. */
  lemma NoLookalikes(skeleton: Name -> Skeleton, acts: seq<Act>, x: Name, y: Name)
    requires Timed(acts, 0)
    requires var s := Run(skeleton, Names(map[], map[], map[]), acts);
      Live(s, x, LastHeight(acts, 0)) && Live(s, y, LastHeight(acts, 0)) && skeleton(x) == skeleton(y)
    ensures x == y
  {
    RunKeepsIndexed(skeleton, Names(map[], map[], map[]), acts, 0);
  }

  // -- ownership ------------------------------------------------------------

  /** The owner gives the name up. */
  predicate GivesUp(act: Act, name: Name, owner: Address) {
    (act.Transfers? || act.Releases?) && act.name == name && act.caller == owner
  }

  lemma StepKeepsOwner(skeleton: Name -> Skeleton, s: Names, act: Act, name: Name)
    requires Live(s, name, act.now) && !GivesUp(act, name, s.records[name].owner)
    ensures var next := After(skeleton, s, act);
      && name in next.records && next.records[name].owner == s.records[name].owner
      && next.records[name].expiresAt >= s.records[name].expiresAt
  {
  }

  /** A name in force changes hands only by its owner's own transfer or release. */
  lemma {:induction false} OwnerKeepsName(skeleton: Name -> Skeleton, s: Names, acts: seq<Act>, name: Name)
    requires name in s.records
    requires forall act :: act in acts ==>
      !s.records[name].Claimable(act.now) && !GivesUp(act, name, s.records[name].owner)
    ensures var last := Run(skeleton, s, acts);
      && name in last.records && last.records[name].owner == s.records[name].owner
      && last.records[name].expiresAt >= s.records[name].expiresAt
    decreases |acts|
  {
    if acts != [] {
      assert acts[0] in acts;
      StepKeepsOwner(skeleton, s, acts[0], name);
      OwnerKeepsName(skeleton, After(skeleton, s, acts[0]), acts[1..], name);
    }
  }

  /** A renewal never shortens: it adds a whole period to whichever is later, what was left or now. */
  lemma RenewalExtends(s: Names, name: Name, caller: Address, now: nat)
    requires Renew(s, name, caller, now).Ok?
    ensures var was, renewed := s.records[name], Renew(s, name, caller, now).value.records[name];
      && renewed.owner == was.owner == caller
      && renewed.expiresAt >= was.expiresAt + REGISTRATION_BLOCKS && renewed.expiresAt >= now + REGISTRATION_BLOCKS
      && (renewed.expiresAt == was.expiresAt + REGISTRATION_BLOCKS || renewed.expiresAt == now + REGISTRATION_BLOCKS)
  {
  }

  /** In an agreeing registry a name can be registered exactly when no live name has its skeleton. */
  lemma RegistrableExactlyWhen(skeleton: Name -> Skeleton, s: Names, name: Name, owner: Address, now: nat)
    requires Indexed(skeleton, s, now)
    ensures Register(skeleton, s, name, owner, now).Ok?
      <==> forall x :: Live(s, x, now) ==> skeleton(x) != skeleton(name)
    ensures Register(skeleton, s, name, owner, now).Ok? ==>
      Register(skeleton, s, name, owner, now).value.records
        == s.records[name := NameRecord(owner, now, now + REGISTRATION_BLOCKS)]
  {
    if Register(skeleton, s, name, owner, now).Err? {
      assert Live(s, name, now) || Live(s, s.skeletons[skeleton(name)], now);
    }
  }

  // -- what each act asks and does -------------------------------------------

  predicate Owns(s: Names, a: Address, name: Name, now: nat) { Live(s, name, now) && s.records[name].owner == a }

  predicate Shows(s: Names, a: Address, name: Name) { a in s.primary && s.primary[a] == name }

  /** Everything but a registration is for the owner of a name in force; hiding is for anyone. */
  lemma AdmittedExactlyWhen(skeleton: Name -> Skeleton, s: Names, act: Act)
    requires Indexed(skeleton, s, act.now)
    ensures Attempt(skeleton, s, act).Ok? <==>
      match act
      case Registers(name, _, now) => forall x :: Live(s, x, now) ==> skeleton(x) != skeleton(name)
      case Hides(_, _) => true
      case _ => Owns(s, act.caller, act.name, act.now)
    ensures match Attempt(skeleton, s, act)
            case Ok(_) => true
            case Err(Taken) => Live(s, act.name, act.now)
            case Err(Confusable(holder)) =>
              Live(s, holder, act.now) && holder != act.name && skeleton(holder) == skeleton(act.name)
            case Err(NotFound) => !Live(s, act.name, act.now)
            case Err(NotOwner) => act.name in s.records && s.records[act.name].owner != act.caller
  {
    if act.Registers? {
      RegistrableExactlyWhen(skeleton, s, act.name, act.caller, act.now);
    }
  }

  /** No record but that of `name` differs. */
  predicate OnlyName(s: Names, t: Names, name: Name) {
    && t.records.Keys - {name} == s.records.Keys - {name}
    && forall x :: x in s.records && x != name ==> x in t.records && t.records[x] == s.records[x]
  }

  /** Nobody's displayed name but that of `a` differs. */
  predicate OnlyDisplay(s: Names, t: Names, a: Address) {
    && t.primary.Keys - {a} == s.primary.Keys - {a}
    && forall b :: b in s.primary && b != a ==> b in t.primary && t.primary[b] == s.primary[b]
  }

  /** No entry of the index but that of `k` differs. */
  predicate OnlyEntry(s: Names, t: Names, k: Skeleton) {
    && t.skeletons.Keys - {k} == s.skeletons.Keys - {k}
    && forall x :: x in s.skeletons && x != k ==> x in t.skeletons && t.skeletons[x] == s.skeletons[x]
  }

  /** An owner who gives a name up stops displaying it, and goes on displaying any other. */
  ghost predicate StopsShowing(s: Names, t: Names, a: Address, name: Name) {
    OnlyDisplay(s, t, a) && !Shows(t, a, name) && forall x :: x != name ==> (Shows(t, a, x) <==> Shows(s, a, x))
  }

  /** What an admitted act leaves behind, and that it touches nothing else. */
  lemma AdmittedDoes(skeleton: Name -> Skeleton, s: Names, act: Act)
    requires Attempt(skeleton, s, act).Ok?
    ensures var t := After(skeleton, s, act);
      match act
      case Registers(name, caller, now) =>
        OnlyName(s, t, name) && t.primary == s.primary && Owns(t, caller, name, now)
        && t.records[name].registeredAt == now && t.records[name].expiresAt == now + REGISTRATION_BLOCKS
        && OnlyEntry(s, t, skeleton(name)) && skeleton(name) in t.skeletons && t.skeletons[skeleton(name)] == name
      case Renews(name, caller, now) =>
        OnlyName(s, t, name) && t.primary == s.primary && Owns(t, caller, name, now)
        && t.records[name].registeredAt == s.records[name].registeredAt
      case Transfers(name, caller, to, now) =>
        OnlyName(s, t, name) && StopsShowing(s, t, caller, name) && Owns(t, to, name, now)
        && t.records[name].registeredAt == s.records[name].registeredAt
        && t.records[name].expiresAt == s.records[name].expiresAt
      case Displays(name, caller, _) => t.records == s.records && OnlyDisplay(s, t, caller) && Shows(t, caller, name)
      case Hides(caller, _) => t.records == s.records && OnlyDisplay(s, t, caller) && caller !in t.primary
      case Releases(name, caller, _) =>
        OnlyName(s, t, name) && StopsShowing(s, t, caller, name) && name !in t.records
        && OnlyEntry(s, t, skeleton(name)) && skeleton(name) !in t.skeletons
  {
  }

  /** A transferred name answers to its new owner and, from someone else, no more to the old one. */
  lemma TransferHandsOver(skeleton: Name -> Skeleton, s: Names, name: Name, from: Address, to: Address, now: nat)
    requires Owns(s, from, name, now)
    ensures var t := After(skeleton, s, Transfers(name, from, to, now));
      forall a :: Owns(t, a, name, now) <==> a == to
  {
  }

  /** Left alone, a registered name is its owner's for a year and thirty days, in blocks of a second, and then free. */
  lemma InForceFor(skeleton: Name -> Skeleton, s: Names, name: Name, owner: Address, now: nat, later: nat)
    requires Register(skeleton, s, name, owner, now).Ok? && now <= later
    ensures Owns(After(skeleton, s, Registers(name, owner, now)), owner, name, later)
      <==> later < now + (365 + 30) * 24 * 60 * 60
  {
  }

  /** A released name is free at once: anyone can register it. */
  lemma ReleasedIsFree(skeleton: Name -> Skeleton, s: Names, name: Name, owner: Address, next: Address, now: nat)
    requires Indexed(skeleton, s, now) && Owns(s, owner, name, now)
    ensures Register(skeleton, After(skeleton, s, Releases(name, owner, now)), name, next, now).Ok?
  {
  }

  // -- displayed names ------------------------------------------------------

  /** Every account that displays a name owns it. */
  ghost predicate DisplaysOwned(s: Names) {
    forall a :: a in s.primary ==> s.primary[a] in s.records && s.records[s.primary[a]].owner == a
  }

  /** A lapsed name is registered anew while somebody else still displays it. */
  ghost predicate TakesDisplayed(skeleton: Name -> Skeleton, s: Names, act: Act) {
    && act.Registers? && Attempt(skeleton, s, act).Ok?
    && exists a :: a in s.primary && s.primary[a] == act.name && a != act.caller
  }

  /** One operation keeps displayed names owned exactly when it does not take one over after it lapsed. */
  lemma StepKeepsDisplaysOwned(skeleton: Name -> Skeleton, s: Names, act: Act)
    requires DisplaysOwned(s)
    ensures DisplaysOwned(After(skeleton, s, act)) <==> !TakesDisplayed(skeleton, s, act)
  {
    var next := After(skeleton, s, act);
    if TakesDisplayed(skeleton, s, act) {
      var a :| a in s.primary && s.primary[a] == act.name && a != act.caller;
      assert a in next.primary && next.records[next.primary[a]].owner == act.caller;
    }
  }

  /** A run without such a take-over displays owned names only. */
  lemma {:induction false} RunKeepsDisplaysOwned(skeleton: Name -> Skeleton, s: Names, acts: seq<Act>)
    requires DisplaysOwned(s)
    requires forall i :: 0 <= i < |acts| ==> !TakesDisplayed(skeleton, Run(skeleton, s, acts[..i]), acts[i])
    ensures DisplaysOwned(Run(skeleton, s, acts))
    decreases |acts|
  {
    if acts != [] {
      var next := After(skeleton, s, acts[0]);
      assert acts[..0] == [] && Run(skeleton, s, []) == s;
      StepKeepsDisplaysOwned(skeleton, s, acts[0]);
      forall i | 0 <= i < |acts| - 1
        ensures !TakesDisplayed(skeleton, Run(skeleton, next, acts[1..][..i]), acts[1..][i])
      {
        assert acts[..i + 1][1..] == acts[1..][..i];
        assert Run(skeleton, s, acts[..i + 1]) == Run(skeleton, next, acts[1..][..i]);
      }
      RunKeepsDisplaysOwned(skeleton, next, acts[1..]);
    }
  }

  /** It happens: a name displayed, left to lapse and taken by another is still displayed by the first. */
  lemma LapsedNameStaysDisplayed(skeleton: Name -> Skeleton, name: Name, a: Address, b: Address)
    requires a != b
    ensures var lapse := REGISTRATION_BLOCKS + GRACE_BLOCKS;
      var acts := [Registers(name, a, 0), Displays(name, a, 0), Registers(name, b, lapse)];
      && Timed(acts, 0)
      && var last := Run(skeleton, Names(map[], map[], map[]), acts);
         && a in last.primary && last.primary[a] == name
         && Live(last, name, lapse) && last.records[name].owner == b
  {
    var x, y, z := Registers(name, a, 0), Displays(name, a, 0), Registers(name, b, REGISTRATION_BLOCKS + GRACE_BLOCKS);
    var s1 := After(skeleton, Names(map[], map[], map[]), x);
    var s2 := After(skeleton, s1, y);
    var s3 := After(skeleton, s2, z);
    assert [x, y, z][1..] == [y, z] && [y, z][1..] == [z] && [z][1..] == [];
    assert Timed([z], 0) && Timed([y, z], 0);
    assert Run(skeleton, s3, []) == s3 && Run(skeleton, s2, [z]) == s3 && Run(skeleton, s1, [y, z]) == s3;
  }

  // -- the procedures -------------------------------------------------------

  class NameRegistry {
    const skeleton: Name -> Skeleton
    var records: map<Name, NameRecord>
    var skeletons: map<Skeleton, Name>
    var primary: map<Address, Name>

    function View(): Names
      reads this
    {
      Names(records, skeletons, primary)
    }

    predicate Carries(was: Names, answer: Result<(), RegistryError>, outcome: Outcome)
      reads this
    {
      match outcome
      case Ok(next) => answer.Ok? && View() == next
      case Err(e) => answer == Err(e) && View() == was
    }

    constructor (skeleton: Name -> Skeleton)
      ensures this.skeleton == skeleton && View() == Names(map[], map[], map[])
    {
      this.skeleton := skeleton;
      records, skeletons, primary := map[], map[], map[];
    }

    method RegisterName(name: Name, owner: Address, now: nat) returns (r: Result<(), RegistryError>)
      modifies this
      ensures Carries(old(View()), r, Register(skeleton, old(View()), name, owner, now))
    {
      if name in records && !records[name].Claimable(now) {
        return Err(Taken);
      }
      var k := skeleton(name);
      if k in skeletons && skeletons[k] != name {
        var holder := skeletons[k];
        if holder in records && !records[holder].Claimable(now) {
          return Err(Confusable(holder));
        }
      }
      records := records[name := NameRecord(owner, now, now + REGISTRATION_BLOCKS)];
      skeletons := skeletons[k := name];
      return Ok(());
    }

    method RenewName(name: Name, caller: Address, now: nat) returns (r: Result<(), RegistryError>)
      modifies this
      ensures Carries(old(View()), r, Renew(old(View()), name, caller, now))
    {
      var owned := OwnedBy(View(), name, caller, now);
      if owned.Err? {
        return Err(owned.error);
      }
      var base := if owned.value.expiresAt > now then owned.value.expiresAt else now;
      records := records[name := owned.value.(expiresAt := base + REGISTRATION_BLOCKS)];
      return Ok(());
    }

    method TransferName(name: Name, caller: Address, to: Address, now: nat) returns (r: Result<(), RegistryError>)
      modifies this
      ensures Carries(old(View()), r, Transfer(old(View()), name, caller, to, now))
    {
      var owned := OwnedBy(View(), name, caller, now);
      if owned.Err? {
        return Err(owned.error);
      }
      records := records[name := owned.value.(owner := to)];
      if caller in primary && primary[caller] == name {
        primary := primary - {caller};
      }
      return Ok(());
    }

    method DisplayName(name: Name, caller: Address, now: nat) returns (r: Result<(), RegistryError>)
      modifies this
      ensures Carries(old(View()), r, SetPrimary(old(View()), name, caller, now))
    {
      var owned := OwnedBy(View(), name, caller, now);
      if owned.Err? {
        return Err(owned.error);
      }
      primary := primary[caller := name];
      return Ok(());
    }

    method HideName(caller: Address) returns (shown: bool)
      modifies this
      ensures View() == ClearPrimary(old(View()), caller) && shown == (caller in old(primary))
    {
      shown := caller in primary;
      primary := primary - {caller};
    }

    method ReleaseName(name: Name, caller: Address, now: nat) returns (r: Result<(), RegistryError>)
      modifies this
      ensures Carries(old(View()), r, Release(skeleton, old(View()), name, caller, now))
    {
      var owned := OwnedBy(View(), name, caller, now);
      if owned.Err? {
        return Err(owned.error);
      }
      records := records - {name};
      skeletons := skeletons - {skeleton(name)};
      if caller in primary && primary[caller] == name {
        primary := primary - {caller};
      }
      return Ok(());
    }
  }
}
