/** Phone and email bindings and their delayed, vetoable rebinding
    (crates/alias/src/rebind.rs and the contact arms of
    crates/executor/src/lib.rs). */
module Rebind {
  import opened Base
  import opened Governance

  type Contact = Hash32

  datatype PendingRebind = PendingRebind(newAddress: Address, issuer: Address, effectiveAt: nat)

  datatype ContactRecord = ContactRecord(address: Address, issuer: Address, attestedAt: nat,
                                         rebind: Option<PendingRebind>)

  datatype Bindings = Bindings(contacts: map<Contact, ContactRecord>, attestors: map<Address, bool>)

  datatype BindError =
    | NotAnAttestor | AttestorSuspended | NotBound | AlreadyBound | NoPendingRebind | RebindPending | TooEarly
    | NotBoundAccount

  type Outcome = Result<Bindings, BindError>

  // -- operations -----------------------------------------------------------

  function AttestorProblem(s: Bindings, a: Address): Option<BindError> {
    if a !in s.attestors then Some(NotAnAttestor)
    else if !s.attestors[a] then Some(AttestorSuspended)
    else None
  }

  function WithContact(s: Bindings, c: Contact, record: ContactRecord): Bindings {
    s.(contacts := s.contacts[c := record])
  }

  function Attest(s: Bindings, c: Contact, address: Address, issuer: Address, now: nat): Outcome {
    if AttestorProblem(s, issuer).Some? then Err(AttestorProblem(s, issuer).value)
    else if c in s.contacts then Err(AlreadyBound)
    else Ok(WithContact(s, c, ContactRecord(address, issuer, now, None)))
  }

  function Request(s: Bindings, c: Contact, newAddress: Address, issuer: Address, now: nat, delay: nat): Outcome {
    if AttestorProblem(s, issuer).Some? then Err(AttestorProblem(s, issuer).value)
    else if c !in s.contacts then Err(NotBound)
    else if s.contacts[c].rebind.Some? then Err(RebindPending)
    else Ok(WithContact(s, c, s.contacts[c].(rebind := Some(PendingRebind(newAddress, issuer, now + delay)))))
  }

  function Veto(s: Bindings, c: Contact, caller: Address): Outcome {
    if c !in s.contacts then Err(NotBound)
    else if s.contacts[c].rebind.None? then Err(NoPendingRebind)
    else if s.contacts[c].address != caller then Err(NotBoundAccount)
    else Ok(WithContact(s, c, s.contacts[c].(rebind := None)))
  }

  function ApplyRebind(s: Bindings, c: Contact, now: nat): Outcome {
    if c !in s.contacts then Err(NotBound)
    else if s.contacts[c].rebind.None? then Err(NoPendingRebind)
    else
      var pending := s.contacts[c].rebind.value;
      if now < pending.effectiveAt then Err(TooEarly)
      else Ok(WithContact(s, c, ContactRecord(pending.newAddress, pending.issuer, now, None)))
  }

  function Revoke(s: Bindings, c: Contact, caller: Address): Outcome {
    if c !in s.contacts then Err(NotBound)
    else if s.contacts[c].address != caller then Err(NotBoundAccount)
    else Ok(s.(contacts := s.contacts - {c}))
  }

  function SetActive(s: Bindings, a: Address, active: bool): Outcome {
    if a !in s.attestors then Err(NotAnAttestor) else Ok(s.(attestors := s.attestors[a := active]))
  }

  // -- runs -----------------------------------------------------------------

  /** A message about contacts at its height; a request reads the parameters in force. */
  datatype Act =
    | Attests(contact: Contact, address: Address, caller: Address, now: nat)
    | Requests(contact: Contact, address: Address, caller: Address, now: nat, params: ChainParams)
    | Vetoes(contact: Contact, caller: Address, now: nat)
    | Applies(contact: Contact, now: nat)
    | Revokes(contact: Contact, caller: Address, now: nat)
    | Licenses(attestor: Address, active: bool, now: nat)
    | Suspends(attestor: Address, active: bool, now: nat)

  function Attempt(s: Bindings, act: Act): Outcome {
    match act
    case Attests(c, address, caller, now) => Attest(s, c, address, caller, now)
    case Requests(c, address, caller, now, params) => Request(s, c, address, caller, now, params.rebindDelay)
    case Vetoes(c, caller, _) => Veto(s, c, caller)
    case Applies(c, now) => ApplyRebind(s, c, now)
    case Revokes(c, caller, _) => Revoke(s, c, caller)
    case Licenses(a, active, _) => Ok(s.(attestors := s.attestors[a := active]))
    case Suspends(a, active, _) => SetActive(s, a, active)
  }

  function After(s: Bindings, act: Act): Bindings {
    match Attempt(s, act)
    case Ok(next) => next
    case Err(_) => s
  }

  /** A run from a store without bindings, under parameters that clear their floors. */
  ghost predicate Trace(tr: seq<Bindings>, acts: seq<Act>) {
    && |tr| == |acts| + 1 && tr[0].contacts == map[]
    && (forall i :: 0 <= i < |acts| ==> Next(tr, acts, i))
  }

  ghost predicate Next(tr: seq<Bindings>, acts: seq<Act>, i: int)
    requires |tr| == |acts| + 1 && 0 <= i < |acts|
  {
    tr[i + 1] == After(tr[i], acts[i]) && (acts[i].Requests? ==> ValidateParams(acts[i].params).None?)
  }

  predicate BoundTo(s: Bindings, c: Contact, a: Address) { c in s.contacts && s.contacts[c].address == a }

  predicate PendingIs(s: Bindings, c: Contact, a: Address, p: PendingRebind) {
    BoundTo(s, c, a) && s.contacts[c].rebind == Some(p)
  }

  /** `act` makes the request `p` for a contact. */
  predicate Makes(s: Bindings, act: Act, c: Contact, p: PendingRebind) {
    && act.Requests? && act.contact == c && Attempt(s, act).Ok?
    && p == PendingRebind(act.address, act.caller, act.now + act.params.rebindDelay)
  }

  lemma PendingStep(s: Bindings, act: Act, c: Contact, a: Address, p: PendingRebind)
    requires PendingIs(After(s, act), c, a, p)
    ensures PendingIs(s, c, a, p) || (Makes(s, act, c, p) && BoundTo(s, c, a))
  {
  }

  /** A pending request was made once, and has stood unchanged, against the same bound account, since. */
  lemma {:induction false} RequestOf(tr: seq<Bindings>, acts: seq<Act>, n: nat, c: Contact, a: Address,
                                     p: PendingRebind)
    returns (r: nat)
    requires Trace(tr, acts) && n < |tr| && PendingIs(tr[n], c, a, p)
    ensures r < n && Makes(tr[r], acts[r], c, p) && BoundTo(tr[r], c, a)
    ensures forall k :: r < k <= n ==> PendingIs(tr[k], c, a, p)
    decreases n
  {
    assert Next(tr, acts, n - 1);
    PendingStep(tr[n - 1], acts[n - 1], c, a, p);
    if PendingIs(tr[n - 1], c, a, p) {
      r := RequestOf(tr, acts, n - 1, c, a, p);
    } else {
      r := n - 1;
    }
  }

  lemma UnbindingStep(s: Bindings, act: Act, c: Contact, a: Address)
    requires BoundTo(s, c, a) && !BoundTo(After(s, act), c, a)
    ensures act.contact == c
    ensures (act.Revokes? && act.caller == a)
            || (act.Applies? && s.contacts[c].rebind.Some? && act.now >= s.contacts[c].rebind.value.effectiveAt
                && BoundTo(After(s, act), c, s.contacts[c].rebind.value.newAddress))
  {
  }

  lemma VetoSucceeds(s: Bindings, c: Contact, a: Address, p: PendingRebind)
    requires PendingIs(s, c, a, p)
    ensures Veto(s, c, a).Ok? && BoundTo(Veto(s, c, a).value, c, a) && Veto(s, c, a).value.contacts[c].rebind.None?
  {
  }

  /** Where the bound account does not revoke, a contact leaves it only by
      applying a request made at least the delay then in force earlier, which is
      never below the floor, by an attestor then licensed and active, and it goes
      to the account that request named; the request stood unchanged all that
      time, and at any moment of it a veto by the bound account would have succeeded. */
  lemma {:induction false} RebindSafety(tr: seq<Bindings>, acts: seq<Act>, m: nat, c: Contact, a: Address)
    returns (r: nat)
    requires Trace(tr, acts) && m < |acts| && BoundTo(tr[m], c, a) && !BoundTo(tr[m + 1], c, a)
    requires !(acts[m].Revokes? && acts[m].caller == a)
    ensures acts[m].Applies? && acts[m].contact == c && r < m
    ensures tr[m].contacts[c].rebind.Some?
    ensures Makes(tr[r], acts[r], c, tr[m].contacts[c].rebind.value) && BoundTo(tr[r], c, a)
    ensures BoundTo(tr[m + 1], c, acts[r].address)
    ensures acts[m].now >= acts[r].now + acts[r].params.rebindDelay
    ensures acts[r].params.rebindDelay >= MIN_REBIND_DELAY_BLOCKS
    ensures acts[r].caller in tr[r].attestors && tr[r].attestors[acts[r].caller]
    ensures forall k :: r < k <= m ==> PendingIs(tr[k], c, a, tr[m].contacts[c].rebind.value)
    ensures forall k :: r < k <= m ==> Veto(tr[k], c, a).Ok?
  {
    assert Next(tr, acts, m);
    UnbindingStep(tr[m], acts[m], c, a);
    var p := tr[m].contacts[c].rebind.value;
    r := RequestOf(tr, acts, m, c, a, p);
    assert Next(tr, acts, r);
    forall k | r < k <= m ensures Veto(tr[k], c, a).Ok? { VetoSucceeds(tr[k], c, a, p); }
  }

  /** A contact becomes bound, where it was not, only by an active attestor's word; nothing else binds it. */
  lemma FirstBinding(s: Bindings, act: Act, c: Contact)
    requires c !in s.contacts && c in After(s, act).contacts
    ensures act.Attests? && act.contact == c && act.caller in s.attestors && s.attestors[act.caller]
    ensures After(s, act).contacts[c] == ContactRecord(act.address, act.caller, act.now, None)
  {
  }

  // -- what each act asks and does -------------------------------------------

  predicate Vouches(s: Bindings, a: Address) { a in s.attestors && s.attestors[a] }

  predicate Awaits(s: Bindings, c: Contact) { c in s.contacts && s.contacts[c].rebind.Some? }

  /** What an act has to meet. */
  predicate May(s: Bindings, act: Act) {
    match act
    case Attests(c, _, caller, _) => Vouches(s, caller) && c !in s.contacts
    case Requests(c, _, caller, _, _) => Vouches(s, caller) && c in s.contacts && !Awaits(s, c)
    case Vetoes(c, caller, _) => Awaits(s, c) && BoundTo(s, c, caller)
    case Applies(c, now) => Awaits(s, c) && s.contacts[c].rebind.value.effectiveAt <= now
    case Revokes(c, caller, _) => BoundTo(s, c, caller)
    case Licenses(_, _, _) => true
    case Suspends(a, _, _) => a in s.attestors
  }

  /** Nothing about any other contact, and nothing about attestors, differs. */
  predicate OnlyContact(s: Bindings, t: Bindings, c: Contact) {
    && t.attestors == s.attestors && t.contacts.Keys - {c} == s.contacts.Keys - {c}
    && forall d :: d in s.contacts && d != c ==> d in t.contacts && t.contacts[d] == s.contacts[d]
  }

  predicate OnlyAttestor(s: Bindings, t: Bindings, a: Address, active: bool) {
    && t.contacts == s.contacts && t.attestors.Keys == s.attestors.Keys + {a} && Vouches(t, a) == active
    && forall b :: b in s.attestors && b != a ==> t.attestors[b] == s.attestors[b]
  }

  /** The binding is as it was, whatever is asked about it. */
  predicate SameBinding(s: Bindings, t: Bindings, c: Contact)
    requires c in s.contacts
  {
    && c in t.contacts && t.contacts[c].address == s.contacts[c].address
    && t.contacts[c].issuer == s.contacts[c].issuer && t.contacts[c].attestedAt == s.contacts[c].attestedAt
  }

  /** An act is admitted exactly when what it asks is met, and refused for a reason that holds. */
  lemma AdmittedExactlyWhen(s: Bindings, act: Act)
    ensures Attempt(s, act).Ok? <==> May(s, act)
    ensures match Attempt(s, act)
            case Ok(_) => true
            case Err(NotAnAttestor) => (if act.Suspends? then act.attestor else act.caller) !in s.attestors
            case Err(AttestorSuspended) => act.caller in s.attestors && !s.attestors[act.caller]
            case Err(NotBound) => act.contact !in s.contacts
            case Err(AlreadyBound) => act.contact in s.contacts
            case Err(NoPendingRebind) => !Awaits(s, act.contact)
            case Err(RebindPending) => Awaits(s, act.contact)
            case Err(TooEarly) => act.Applies? && Awaits(s, act.contact)
              && act.now < s.contacts[act.contact].rebind.value.effectiveAt
            case Err(NotBoundAccount) => !BoundTo(s, act.contact, act.caller)
  {
  }

  /** What an admitted act leaves behind, and that it touches nothing else. */
  lemma AdmittedDoes(s: Bindings, act: Act)
    requires May(s, act)
    ensures var t := After(s, act);
      match act
      case Attests(c, address, caller, now) =>
        OnlyContact(s, t, c) && BoundTo(t, c, address) && !Awaits(t, c)
        && t.contacts[c].issuer == caller && t.contacts[c].attestedAt == now
      case Requests(c, address, caller, now, params) =>
        OnlyContact(s, t, c) && SameBinding(s, t, c) && Awaits(t, c)
        && t.contacts[c].rebind.value.newAddress == address && t.contacts[c].rebind.value.issuer == caller
        && t.contacts[c].rebind.value.effectiveAt == now + params.rebindDelay
      case Vetoes(c, _, _) => OnlyContact(s, t, c) && SameBinding(s, t, c) && !Awaits(t, c)
      case Applies(c, now) =>
        OnlyContact(s, t, c) && !Awaits(t, c) && BoundTo(t, c, s.contacts[c].rebind.value.newAddress)
        && t.contacts[c].issuer == s.contacts[c].rebind.value.issuer && t.contacts[c].attestedAt == now
      case Revokes(c, _, _) => OnlyContact(s, t, c) && c !in t.contacts
      case Licenses(a, active, _) => OnlyAttestor(s, t, a, active)
      case Suspends(a, active, _) => OnlyAttestor(s, t, a, active)
  {
  }

  /** `act` is the word of `issuer`, then licensed and active, that a contact be bound to `address`. */
  predicate Attested(s: Bindings, act: Act, c: Contact, address: Address, issuer: Address) {
    && (act.Attests? || act.Requests?) && act.contact == c && act.address == address && act.caller == issuer
    && Vouches(s, issuer) && Attempt(s, act).Ok?
  }

  lemma BoundStep(s: Bindings, act: Act, c: Contact)
    requires c in After(s, act).contacts
    ensures var was, now' := s.contacts, After(s, act).contacts[c];
      || (c in was && SameBinding(s, After(s, act), c))
      || Attested(s, act, c, now'.address, now'.issuer)
      || (act.Applies? && Awaits(s, c) && s.contacts[c].rebind.value.newAddress == now'.address
          && s.contacts[c].rebind.value.issuer == now'.issuer)
  {
  }

  /** In every run, every binding rests on the word of the attestor it names, given while licensed and active. */
  lemma {:induction false} EveryBindingIsAttested(tr: seq<Bindings>, acts: seq<Act>, n: nat, c: Contact)
    returns (k: nat)
    requires Trace(tr, acts) && n < |tr| && c in tr[n].contacts
    ensures k < n && Attested(tr[k], acts[k], c, tr[n].contacts[c].address, tr[n].contacts[c].issuer)
    decreases n
  {
    assert Next(tr, acts, n - 1);
    var s, act := tr[n - 1], acts[n - 1];
    BoundStep(s, act, c);
    if c in s.contacts && SameBinding(s, tr[n], c) {
      k := EveryBindingIsAttested(tr, acts, n - 1, c);
    } else if Attested(s, act, c, tr[n].contacts[c].address, tr[n].contacts[c].issuer) {
      k := n - 1;
    } else {
      k := RequestOf(tr, acts, n - 1, c, s.contacts[c].address, s.contacts[c].rebind.value);
    }
  }

  // -- the procedures -------------------------------------------------------

  class ContactBindings {
    var contacts: map<Contact, ContactRecord>
    var attestors: map<Address, bool>

    function View(): Bindings
      reads this
    {
      Bindings(contacts, attestors)
    }

    predicate Carries(was: Bindings, answer: Result<(), BindError>, outcome: Outcome)
      reads this
    {
      match outcome
      case Ok(next) => answer.Ok? && View() == next
      case Err(e) => answer == Err(e) && View() == was
    }

    constructor (s: Bindings)
      ensures View() == s
    {
      contacts, attestors := s.contacts, s.attestors;
    }

    method RegisterAttestor(a: Address, active: bool)
      modifies this
      ensures View() == After(old(View()), Licenses(a, active, 0))
    {
      attestors := attestors[a := active];
    }

    method RequireActiveAttestor(a: Address) returns (r: Result<(), BindError>)
      ensures r == if AttestorProblem(View(), a).Some? then Err(AttestorProblem(View(), a).value) else Ok(())
    {
      if a !in attestors {
        return Err(NotAnAttestor);
      }
      if !attestors[a] {
        return Err(AttestorSuspended);
      }
      return Ok(());
    }

    method AttestContact(c: Contact, address: Address, issuer: Address, now: nat) returns (r: Result<(), BindError>)
      modifies this
      ensures Carries(old(View()), r, Attest(old(View()), c, address, issuer, now))
    {
      r := RequireActiveAttestor(issuer);
      if r.Err? {
        return;
      }
      if c in contacts {
        return Err(AlreadyBound);
      }
      contacts := contacts[c := ContactRecord(address, issuer, now, None)];
    }

    method RequestRebind(c: Contact, newAddress: Address, issuer: Address, now: nat, delay: nat)
      returns (r: Result<(), BindError>)
      modifies this
      ensures Carries(old(View()), r, Request(old(View()), c, newAddress, issuer, now, delay))
    {
      r := RequireActiveAttestor(issuer);
      if r.Err? {
        return;
      }
      if c !in contacts {
        return Err(NotBound);
      }
      var record := contacts[c];
      if record.rebind.Some? {
        return Err(RebindPending);
      }
      contacts := contacts[c := record.(rebind := Some(PendingRebind(newAddress, issuer, now + delay)))];
    }

    method VetoRebind(c: Contact, caller: Address) returns (r: Result<(), BindError>)
      modifies this
      ensures Carries(old(View()), r, Veto(old(View()), c, caller))
    {
      if c !in contacts {
        return Err(NotBound);
      }
      var record := contacts[c];
      if record.rebind.None? {
        return Err(NoPendingRebind);
      }
      if record.address != caller {
        return Err(NotBoundAccount);
      }
      contacts := contacts[c := record.(rebind := None)];
      return Ok(());
    }

    method FinishRebind(c: Contact, now: nat) returns (r: Result<(), BindError>)
      modifies this
      ensures Carries(old(View()), r, ApplyRebind(old(View()), c, now))
    {
      if c !in contacts {
        return Err(NotBound);
      }
      var record := contacts[c];
      if record.rebind.None? {
        return Err(NoPendingRebind);
      }
      var pending := record.rebind.value;
      if now < pending.effectiveAt {
        return Err(TooEarly);
      }
      contacts := contacts[c := ContactRecord(pending.newAddress, pending.issuer, now, None)];
      return Ok(());
    }

    method RevokeContact(c: Contact, caller: Address) returns (r: Result<(), BindError>)
      modifies this
      ensures Carries(old(View()), r, Revoke(old(View()), c, caller))
    {
      if c !in contacts {
        return Err(NotBound);
      }
      if contacts[c].address != caller {
        return Err(NotBoundAccount);
      }
      contacts := contacts - {c};
      return Ok(());
    }
  }
}
