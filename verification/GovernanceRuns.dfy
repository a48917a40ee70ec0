/** Governance over whole runs: nothing is executed that the council did not
    pass in time and leave on notice, and nothing is executed twice. */
module GovernanceRuns {
  import opened Base
  import opened Council
  import opened Governance

  /** A governance message at its height; `accepted` is what other modules answer to an execution. */
  datatype Act =
    | Proposes(sender: Address, action: Action, now: nat)
    | Votes(sender: Address, id: nat, now: nat)
    | Executes(id: nat, now: nat, accepted: bool)

  ghost function Attempt(s: GovState, act: Act): (r: Option<GovState>)
    requires Valid(s)
  {
    match act
    case Proposes(sender, action, now) =>
      (match Propose(s, sender, action, now)
       case Err(_) => None
       case Ok(next) => Some(next))
    case Votes(sender, id, now) =>
      (match Vote(s, sender, id, now)
       case Err(_) => None
       case Ok((next, _)) => Some(next))
    case Executes(id, now, accepted) =>
      (match Execute(s, id, now)
       case Err(_) => None
       case Ok((next, action)) =>
         match ApplyAction(next, action, accepted)
         case Err(_) => None
         case Ok(applied) => Some(applied))
  }

  lemma AttemptKeepsValid(s: GovState, act: Act)
    requires Valid(s) && Attempt(s, act).Some?
    ensures Valid(Attempt(s, act).value)
    ensures Attempt(s, act).value.params.councilCap <= s.params.councilCap
  {
    match act
    case Proposes(sender, action, now) => ProposeKeepsValid(s, sender, action, now);
    case Votes(sender, id, now) => VoteKeepsValid(s, sender, id, now);
    case Executes(id, now, accepted) => ExecuteKeepsValid(s, id, now, accepted);
  }

  /** A message that fails changes nothing: its transaction runs on a clone that is dropped. */
  ghost function After(s: GovState, act: Act): (next: GovState)
    requires Valid(s)
    ensures Valid(next) && next.params.councilCap <= s.params.councilCap
  {
    if Attempt(s, act).Some? then
      AttemptKeepsValid(s, act);
      Attempt(s, act).value
    else s
  }

  ghost predicate StepsTo(s: GovState, act: Act, t: GovState) { Valid(s) && t == After(s, act) }

  /** A run: `tr[n]` is the state before the `n`-th act. */
  ghost predicate Trace(tr: seq<GovState>, acts: seq<Act>) {
    && |tr| == |acts| + 1
    && (forall i :: 0 <= i < |tr| ==> Valid(tr[i]))
    && (forall i {:trigger StepsTo(tr[i], acts[i], tr[i + 1])} :: 0 <= i < |acts| ==>
          StepsTo(tr[i], acts[i], tr[i + 1]))
  }

  /** A run from a fresh start: no proposals yet. */
  ghost predicate FreshTrace(tr: seq<GovState>, acts: seq<Act>) {
    Trace(tr, acts) && tr[0].proposals == map[]
  }

  /** Every list of acts is a run. */
  ghost function Run(s: GovState, acts: seq<Act>): (tr: seq<GovState>)
    requires Valid(s)
    ensures Trace(tr, acts) && tr[0] == s
  {
    if acts == [] then [s]
    else
      var n := |acts| - 1;
      var before := Run(s, acts[..n]);
      var tr := before + [After(before[n], acts[n])];
      assert forall i :: 0 <= i < n ==> acts[..n][i] == acts[i];
      assert forall i {:trigger StepsTo(tr[i], acts[i], tr[i + 1])} :: 0 <= i < n ==>
        StepsTo(before[i], acts[..n][i], before[i + 1]);
      tr
  }

  ghost predicate Succeeds(tr: seq<GovState>, acts: seq<Act>, k: nat)
    requires Trace(tr, acts) && k < |acts|
  {
    Attempt(tr[k], acts[k]).Some?
  }

  /** Heights never go back. */
  ghost predicate Timed(acts: seq<Act>) {
    forall i, j :: 0 <= i <= j < |acts| ==> acts[i].now <= acts[j].now
  }

  // -- caps over runs -------------------------------------------------------

  lemma StepAt(tr: seq<GovState>, acts: seq<Act>, i: nat)
    requires Trace(tr, acts) && i < |acts|
    ensures tr[i + 1] == After(tr[i], acts[i]) && tr[i + 1].params.councilCap <= tr[i].params.councilCap
  {
    assert StepsTo(tr[i], acts[i], tr[i + 1]);
  }

  /** In every reachable state the parameters clear their floors and the seated
      council satisfies the cap in force; and the cap never rises. */
  lemma {:induction false} CapNeverRises(tr: seq<GovState>, acts: seq<Act>, i: nat, n: nat)
    requires Trace(tr, acts) && i <= n < |tr|
    ensures Lawful(tr[n]) && tr[n].params.councilCap <= tr[i].params.councilCap
    decreases n
  {
    assert Valid(tr[n]);
    if i < n {
      CapNeverRises(tr, acts, i, n - 1);
      StepAt(tr, acts, n - 1);
    }
  }

  // -- one step, one proposal -----------------------------------------------

  /** The parts of a record nothing changes. */
  predicate SameQuestion(p: Proposal, q: Proposal) {
    p.action == q.action && p.openedAt == q.openedAt && p.votingEnds == q.votingEnds && p.proposer == q.proposer
  }

  /** `act` opens proposal `id`. */
  ghost predicate Opens(s: GovState, act: Act, id: nat)
    requires Valid(s)
  {
    act.Proposes? && Attempt(s, act).Some? && s.nextId == id
  }

  /** `act` is the vote that passes proposal `id`. */
  ghost predicate Passes(s: GovState, act: Act, id: nat)
    requires Valid(s)
  {
    && act.Votes? && act.id == id && id in s.proposals
    && Vote(s, act.sender, id, act.now).Ok? && Vote(s, act.sender, id, act.now).value.1.Scheduled?
  }

  /** `act` is a vote of `a` that counts. */
  ghost predicate CountsVote(s: GovState, act: Act, id: nat, a: Address)
    requires Valid(s)
  {
    && act.Votes? && act.id == id && act.sender == a && Attempt(s, act).Some?
    && s.council.Some? && IsSeated(s.council.value, a)
  }

  lemma ProposeStep(s: GovState, sender: Address, action: Action, now: nat, id: nat)
    requires Valid(s) && Propose(s, sender, action, now).Ok? && id in Propose(s, sender, action, now).value.proposals
    ensures var next := Propose(s, sender, action, now).value;
      && next.nextId == s.nextId + 1
      && if id == s.nextId
         then next.proposals[id] == Proposal(sender, action, now, now + s.params.votingPeriod, [], None)
         else id in s.proposals && next.proposals[id] == s.proposals[id]
  {
    SweepKeepsValid(s, now);
  }

  lemma VoteStep(s: GovState, sender: Address, id: nat, now: nat, x: nat)
    requires Valid(s) && Vote(s, sender, id, now).Ok? && x in Vote(s, sender, id, now).value.0.proposals
    ensures var (next, outcome) := Vote(s, sender, id, now).value;
      && next.nextId == s.nextId && x in s.proposals && SameQuestion(s.proposals[x], next.proposals[x])
      && (x != id ==> next.proposals[x] == s.proposals[x])
      && (x == id ==>
            && s.proposals[x].scheduledFor.None?
            && Voters(next.proposals[x].votes) == Voters(s.proposals[x].votes) + {sender}
            && (next.proposals[x].scheduledFor.Some? <==> outcome.Scheduled?))
  {
    var p := s.proposals[id];
    var (next, outcome) := Vote(s, sender, id, now).value;
    if outcome.Withdrew? {
      assert next == Remove(Remove(s, p.action.proposal), id);
    } else {
      var votes := RecordVote(p.votes, sender).value;
      assert next == Rewritten(s, id, p.(votes := votes, scheduledFor := next.proposals[id].scheduledFor));
    }
  }

  lemma ExecuteStep(s: GovState, id: nat, now: nat, accepted: bool, x: nat)
    requires Valid(s) && Attempt(s, Executes(id, now, accepted)).Some?
    requires x in Attempt(s, Executes(id, now, accepted)).value.proposals
    ensures var next := Attempt(s, Executes(id, now, accepted)).value;
      next.nextId == s.nextId && x != id && x in s.proposals && next.proposals[x] == s.proposals[x]
  {
  }

  lemma VoteOrigin(s: GovState, sender: Address, x: nat, now: nat, id: nat)
    requires Valid(s) && Vote(s, sender, x, now).Ok? && id in Vote(s, sender, x, now).value.0.proposals
    ensures id in s.proposals
    ensures var p, q := s.proposals[id], Vote(s, sender, x, now).value.0.proposals[id];
      && SameQuestion(p, q)
      && (p.scheduledFor.Some? ==> p == q)
      && (p.scheduledFor.None? && q.scheduledFor.Some? ==> Passes(s, Votes(sender, x, now), id))
      && (forall a :: a in q.votes && a !in p.votes ==> CountsVote(s, Votes(sender, x, now), id, a))
  {
    VoteStep(s, sender, x, now, id);
    if id == x {
      OnlyNewVoter(s.proposals[id].votes, Vote(s, sender, x, now).value.0.proposals[id].votes, sender);
      assert CountsVote(s, Votes(sender, x, now), id, sender);
    }
  }

  lemma OnlyNewVoter(was: seq<Address>, votes: seq<Address>, sender: Address)
    requires Voters(votes) == Voters(was) + {sender}
    ensures forall a :: a in votes && a !in was ==> a == sender
  {
    forall a | a in votes && a !in was ensures a == sender {
      assert a in Voters(votes);
    }
  }

  /** Where a record in the next state comes from. */
  lemma StepOrigin(s: GovState, act: Act, id: nat)
    requires Valid(s) && id in After(s, act).proposals
    ensures id !in s.proposals ==> Opens(s, act, id)
    ensures Opens(s, act, id) ==>
      After(s, act).proposals[id]
        == Proposal(act.sender, act.action, act.now, act.now + s.params.votingPeriod, [], None)
    ensures id in s.proposals ==>
      var p, q := s.proposals[id], After(s, act).proposals[id];
      && SameQuestion(p, q)
      && (p.scheduledFor.Some? ==> p == q)
      && (p.scheduledFor.None? && q.scheduledFor.Some? ==> Passes(s, act, id))
      && (forall a :: a in q.votes && a !in p.votes ==> CountsVote(s, act, id, a))
  {
    if Attempt(s, act).Some? {
      match act
      case Proposes(sender, action, now) => ProposeStep(s, sender, action, now, id);
      case Votes(sender, x, now) => VoteOrigin(s, sender, x, now, id);
      case Executes(x, now, accepted) => ExecuteStep(s, x, now, accepted, id);
    }
  }

  lemma StepIds(s: GovState, act: Act)
    requires Valid(s)
    ensures s.nextId <= After(s, act).nextId <= s.nextId + 1
    ensures After(s, act).nextId == s.nextId + 1 <==> Opens(s, act, s.nextId)
  {
    match act
    case Proposes(sender, action, now) =>
    case Votes(sender, x, now) =>
    case Executes(x, now, accepted) =>
  }

  // -- where a proposal comes from ------------------------------------------

  lemma OriginAt(tr: seq<GovState>, acts: seq<Act>, n: nat, id: nat)
    requires Trace(tr, acts) && n < |acts| && id in tr[n + 1].proposals
    ensures Valid(tr[n])
    ensures id !in tr[n].proposals ==> Opens(tr[n], acts[n], id)
    ensures Opens(tr[n], acts[n], id) ==>
      tr[n + 1].proposals[id]
        == Proposal(acts[n].sender, acts[n].action, acts[n].now, acts[n].now + tr[n].params.votingPeriod, [], None)
    ensures id in tr[n].proposals ==>
      var p, q := tr[n].proposals[id], tr[n + 1].proposals[id];
      && SameQuestion(p, q)
      && (p.scheduledFor.Some? ==> p == q)
      && (p.scheduledFor.None? && q.scheduledFor.Some? ==> Passes(tr[n], acts[n], id))
      && (forall a :: a in q.votes && a !in p.votes ==> CountsVote(tr[n], acts[n], id, a))
  {
    StepAt(tr, acts, n);
    StepOrigin(tr[n], acts[n], id);
  }

  lemma {:induction false} Origin(tr: seq<GovState>, acts: seq<Act>, n: nat, id: nat) returns (i: nat)
    requires FreshTrace(tr, acts) && n < |tr| && id in tr[n].proposals
    ensures i < n && Opens(tr[i], acts[i], id)
    ensures var p := tr[n].proposals[id];
      && p.action == acts[i].action && p.openedAt == acts[i].now && p.proposer == acts[i].sender
      && p.votingEnds == acts[i].now + tr[i].params.votingPeriod
    decreases n
  {
    OriginAt(tr, acts, n - 1, id);
    if id in tr[n - 1].proposals {
      i := Origin(tr, acts, n - 1, id);
    } else {
      i := n - 1;
    }
  }

  lemma {:induction false} Passing(tr: seq<GovState>, acts: seq<Act>, n: nat, id: nat) returns (j: nat)
    requires FreshTrace(tr, acts) && n < |tr| && id in tr[n].proposals && tr[n].proposals[id].scheduledFor.Some?
    ensures j < n && Passes(tr[j], acts[j], id)
    ensures id in tr[j + 1].proposals && tr[j + 1].proposals[id] == tr[n].proposals[id]
    decreases n
  {
    OriginAt(tr, acts, n - 1, id);
    if id in tr[n - 1].proposals && tr[n - 1].proposals[id].scheduledFor.Some? {
      j := Passing(tr, acts, n - 1, id);
    } else {
      j := n - 1;
    }
  }

  lemma {:induction false} Voting(tr: seq<GovState>, acts: seq<Act>, n: nat, id: nat, a: Address) returns (m: nat)
    requires FreshTrace(tr, acts) && n < |tr| && id in tr[n].proposals && a in tr[n].proposals[id].votes
    ensures m < n && CountsVote(tr[m], acts[m], id, a)
    decreases n
  {
    OriginAt(tr, acts, n - 1, id);
    if id in tr[n - 1].proposals && a in tr[n - 1].proposals[id].votes {
      m := Voting(tr, acts, n - 1, id, a);
    } else {
      m := n - 1;
    }
  }

  /** What the passing vote establishes. */
  lemma PassingFacts(s: GovState, act: Act, id: nat)
    requires Valid(s) && Passes(s, act, id)
    ensures s.council.Some? && id in After(s, act).proposals
    ensures var q := After(s, act).proposals[id];
      && Reached(s.council.value, WeightOfVoters(s.council.value, Voters(q.votes)))
      && q.scheduledFor == Some(act.now + s.params.timelock)
      && act.now <= s.proposals[id].votingEnds && SameQuestion(s.proposals[id], q)
      && s.params.timelock >= MIN_TIMELOCK_BLOCKS
  {
    var votes := RecordVote(s.proposals[id].votes, act.sender).value;
    TallyIsWeight(s.council.value, votes);
  }

  lemma ExecutingFacts(s: GovState, act: Act)
    requires Valid(s) && act.Executes? && Attempt(s, act).Some?
    ensures act.id in s.proposals && act.id < s.nextId
    ensures s.proposals[act.id].scheduledFor.Some? && s.proposals[act.id].scheduledFor.value <= act.now
    ensures act.id !in After(s, act).proposals && After(s, act).nextId == s.nextId
  {
  }

  /** Every executed action was proposed by a seat, passed by distinct seats
      whose weight in the council then sitting reached its threshold within the
      voting period, and then waited out the timelock in force when it passed. */
  lemma {:induction false} ExecutionIsEarned(tr: seq<GovState>, acts: seq<Act>, k: nat) returns (i: nat, j: nat)
    requires FreshTrace(tr, acts) && k < |acts| && acts[k].Executes? && Succeeds(tr, acts, k)
    ensures i < k && j < k
    ensures var id := acts[k].id;
      && id in tr[k].proposals
      && Opens(tr[i], acts[i], id) && acts[i].action == tr[k].proposals[id].action
      && Passes(tr[j], acts[j], id)
      && acts[j].now <= acts[i].now + tr[i].params.votingPeriod
      && acts[k].now >= acts[j].now + tr[j].params.timelock
      && tr[j].params.timelock >= MIN_TIMELOCK_BLOCKS
      && tr[j].council.Some?
      && Reached(tr[j].council.value, WeightOfVoters(tr[j].council.value, Voters(tr[k].proposals[id].votes)))
  {
    var id := acts[k].id;
    ExecutingFacts(tr[k], acts[k]);
    j := Passing(tr, acts, k, id);
    StepAt(tr, acts, j);
    PassingFacts(tr[j], acts[j], id);
    i := Origin(tr, acts, j, id);
  }

  /** And every one of those voters cast that vote, from a seat, before. */
  lemma {:induction false} VotersVoted(tr: seq<GovState>, acts: seq<Act>, k: nat, a: Address) returns (m: nat)
    requires FreshTrace(tr, acts) && k < |acts| && acts[k].Executes? && Succeeds(tr, acts, k)
    requires acts[k].id in tr[k].proposals && a in Voters(tr[k].proposals[acts[k].id].votes)
    ensures m < k && CountsVote(tr[m], acts[m], acts[k].id, a)
  {
    m := Voting(tr, acts, k, acts[k].id, a);
  }

  // -- at most once ---------------------------------------------------------

  lemma IdsAt(tr: seq<GovState>, acts: seq<Act>, n: nat)
    requires Trace(tr, acts) && n < |acts|
    ensures tr[n].nextId <= tr[n + 1].nextId
    ensures forall id :: Opens(tr[n], acts[n], id) ==> id == tr[n].nextId < tr[n + 1].nextId
  {
    StepAt(tr, acts, n);
    StepIds(tr[n], acts[n]);
  }

  lemma {:induction false} IdsGrow(tr: seq<GovState>, acts: seq<Act>, i: nat, n: nat)
    requires Trace(tr, acts) && i <= n < |tr|
    ensures tr[i].nextId <= tr[n].nextId
    decreases n
  {
    if i < n {
      IdsGrow(tr, acts, i, n - 1);
      IdsAt(tr, acts, n - 1);
    }
  }

  /** An id once given out and gone never comes back. */
  lemma {:induction false} GoneForGood(tr: seq<GovState>, acts: seq<Act>, i: nat, n: nat, id: nat)
    requires Trace(tr, acts) && i <= n < |tr| && id < tr[i].nextId && id !in tr[i].proposals
    ensures id !in tr[n].proposals
    decreases n
  {
    if i < n {
      GoneForGood(tr, acts, i, n - 1, id);
      IdsGrow(tr, acts, i, n - 1);
      if id in tr[n].proposals {
        OriginAt(tr, acts, n - 1, id);
      }
    }
  }

  /** No proposal is executed twice. */
  lemma {:induction false} ExecutedOnce(tr: seq<GovState>, acts: seq<Act>, k: nat, m: nat)
    requires Trace(tr, acts) && k < m < |acts| && acts[k].Executes? && acts[m].Executes?
    requires Succeeds(tr, acts, k) && Succeeds(tr, acts, m)
    ensures acts[k].id != acts[m].id
  {
    ExecutingFacts(tr[k], acts[k]);
    ExecutingFacts(tr[m], acts[m]);
    StepAt(tr, acts, k);
    GoneForGood(tr, acts, k + 1, m, acts[k].id);
  }

  lemma {:induction false} OneOpening(tr: seq<GovState>, acts: seq<Act>, i: nat, k: nat, id: nat)
    requires Trace(tr, acts) && i < |acts| && k < |acts|
    requires tr[i].nextId == id < tr[i + 1].nextId && tr[k].nextId == id < tr[k + 1].nextId
    ensures i == k
  {
    if i < k {
      IdsGrow(tr, acts, i + 1, k);
    } else if k < i {
      IdsGrow(tr, acts, k + 1, i);
    }
  }

  /** No id is given to two proposals. */
  lemma {:induction false} IdsAreNeverReused(tr: seq<GovState>, acts: seq<Act>, i: nat, k: nat, id: nat)
    requires Trace(tr, acts) && i < |acts| && k < |acts|
    requires Opens(tr[i], acts[i], id) && Opens(tr[k], acts[k], id)
    ensures i == k
  {
    IdsAt(tr, acts, i);
    IdsAt(tr, acts, k);
    OneOpening(tr, acts, i, k, id);
  }

  // -- lapses ---------------------------------------------------------------

  lemma {:induction false} StillThere(tr: seq<GovState>, acts: seq<Act>, i: nat, m: nat, n: nat, id: nat)
    requires Trace(tr, acts) && i <= m <= n < |tr| && id in tr[i].proposals && id in tr[n].proposals
    ensures id in tr[m].proposals
  {
    assert Valid(tr[i]);
    IdsGrow(tr, acts, i, m);
    if id !in tr[m].proposals {
      GoneForGood(tr, acts, m, n, id);
    }
  }

  lemma SameAt(tr: seq<GovState>, acts: seq<Act>, n: nat, id: nat)
    requires Trace(tr, acts) && n < |acts| && id in tr[n].proposals && id in tr[n + 1].proposals
    ensures SameQuestion(tr[n].proposals[id], tr[n + 1].proposals[id])
    ensures tr[n].proposals[id].scheduledFor.Some? ==> tr[n + 1].proposals[id].scheduledFor.Some?
  {
    OriginAt(tr, acts, n, id);
  }

  /** While a proposal is there, its question and its deadline stay what they were, and passed it stays passed. */
  lemma {:induction false} SameLater(tr: seq<GovState>, acts: seq<Act>, i: nat, n: nat, id: nat)
    requires Trace(tr, acts) && i <= n < |tr| && id in tr[i].proposals && id in tr[n].proposals
    ensures SameQuestion(tr[i].proposals[id], tr[n].proposals[id])
    ensures tr[i].proposals[id].scheduledFor.Some? ==> tr[n].proposals[id].scheduledFor.Some?
    decreases n
  {
    if i < n {
      StillThere(tr, acts, i, n - 1, n, id);
      SameLater(tr, acts, i, n - 1, id);
      SameAt(tr, acts, n - 1, id);
    }
  }

  lemma {:induction false} PassedInTime(tr: seq<GovState>, acts: seq<Act>, k: nat, id: nat) returns (j: nat)
    requires FreshTrace(tr, acts) && k < |acts| && acts[k].Executes? && acts[k].id == id && Succeeds(tr, acts, k)
    ensures j < k && id in tr[j].proposals && acts[j].now <= tr[j].proposals[id].votingEnds
    ensures id in tr[j + 1].proposals && tr[j + 1].proposals[id].scheduledFor.Some?
  {
    ExecutingFacts(tr[k], acts[k]);
    j := Passing(tr, acts, k, id);
    StepAt(tr, acts, j);
    PassingFacts(tr[j], acts[j], id);
  }

  lemma {:induction false} LapsedStays(tr: seq<GovState>, acts: seq<Act>, n: nat, j: nat, id: nat)
    requires Trace(tr, acts) && Timed(acts) && n < |acts| && j < |acts|
    requires id in tr[n].proposals && Lapsed(tr[n].proposals[id], acts[n].now)
    requires id in tr[j].proposals && id in tr[j + 1].proposals && tr[j + 1].proposals[id].scheduledFor.Some?
    ensures acts[j].now > tr[j].proposals[id].votingEnds
  {
    if j < n {
      SameLater(tr, acts, j + 1, n, id);
    } else {
      SameLater(tr, acts, n, j, id);
    }
  }

  /** A proposal whose voting period ended before it passed is never executed. */
  lemma {:induction false} LapsedNeverExecutes(tr: seq<GovState>, acts: seq<Act>, n: nat, k: nat)
    requires FreshTrace(tr, acts) && Timed(acts) && n <= k < |acts|
    requires acts[k].Executes? && acts[k].id in tr[n].proposals && Lapsed(tr[n].proposals[acts[k].id], acts[n].now)
    ensures !Succeeds(tr, acts, k)
  {
    if Succeeds(tr, acts, k) {
      var j := PassedInTime(tr, acts, k, acts[k].id);
      LapsedStays(tr, acts, n, j, acts[k].id);
    }
  }

  // -- jurisdictions --------------------------------------------------------

  /** The cap a main network may not start above. */
  const MAX_COUNCIL_COUNTRY_SHARE_BPS: nat := 3333

  /** From a start within the network's cap, nothing is ever passed by the seats of two jurisdictions alone. */
  lemma {:induction false} PassingNeedsThree(tr: seq<GovState>, acts: seq<Act>, j: nat, id: nat, x: Country, y: Country)
    requires Trace(tr, acts) && j < |acts| && Passes(tr[j], acts[j], id)
    requires tr[0].params.councilCap <= MAX_COUNCIL_COUNTRY_SHARE_BPS
    ensures id in tr[j + 1].proposals && tr[j].council.Some?
    ensures exists s :: s in tr[j].council.value.seats && s.holder in Voters(tr[j + 1].proposals[id].votes)
                        && s.country != x && s.country != y
  {
    CapNeverRises(tr, acts, 0, j);
    StepAt(tr, acts, j);
    PassingFacts(tr[j], acts[j], id);
    var c, voters := tr[j].council.value, Voters(tr[j + 1].proposals[id].votes);
    if forall s :: s in c.seats && s.holder in voters ==> s.country == x || s.country == y {
      TwoCannotPass(c, tr[j].params.councilCap, voters, x, y);
    }
  }

  // -- what changes the rules -----------------------------------------------

  /** Council and parameters change only by executing the decision that says so, and then to exactly what it says. */
  lemma RulesStep(s: GovState, act: Act)
    requires Valid(s)
    ensures var next := After(s, act);
      (next.council != s.council || next.params != s.params) ==>
        && act.Executes? && Attempt(s, act).Some? && act.id in s.proposals
        && match s.proposals[act.id].action
           case SetCouncil(c) => next.council == Some(c) && next.params == s.params
           case SetParams(p) => next.params == p && next.council == s.council
           case _ => false
  {
    match act
    case Proposes(sender, action, now) => ProposeKeepsRules(s, sender, action, now);
    case Votes(sender, id, now) => VoteKeepsRules(s, sender, id, now);
    case Executes(id, now, accepted) =>
      if Execute(s, id, now).Ok? {
        ActionChangesRules(Execute(s, id, now).value.0, s.proposals[id].action, accepted);
      }
  }

  lemma ProposeKeepsRules(s: GovState, sender: Address, action: Action, now: nat)
    ensures Propose(s, sender, action, now).Ok? ==>
      Propose(s, sender, action, now).value.council == s.council
        && Propose(s, sender, action, now).value.params == s.params
  {
  }

  lemma VoteKeepsRules(s: GovState, sender: Address, id: nat, now: nat)
    requires SortedVotes(s)
    ensures Vote(s, sender, id, now).Ok? ==>
      Vote(s, sender, id, now).value.0.council == s.council && Vote(s, sender, id, now).value.0.params == s.params
  {
  }

  lemma ActionChangesRules(s: GovState, action: Action, accepted: bool)
    ensures ApplyAction(s, action, accepted).Ok? ==>
      var next := ApplyAction(s, action, accepted).value;
      match action
      case SetCouncil(c) => next.council == Some(c) && next.params == s.params
      case SetParams(p) => next.params == p && next.council == s.council
      case _ => next.council == s.council && next.params == s.params
  {
  }

  lemma RulesChangeByExecution(tr: seq<GovState>, acts: seq<Act>, k: nat)
    requires Trace(tr, acts) && k < |acts| && (tr[k + 1].council != tr[k].council || tr[k + 1].params != tr[k].params)
    ensures Valid(tr[k]) && acts[k].Executes? && Succeeds(tr, acts, k) && acts[k].id in tr[k].proposals
    ensures match tr[k].proposals[acts[k].id].action
            case SetCouncil(c) => tr[k + 1].council == Some(c) && tr[k + 1].params == tr[k].params
            case SetParams(p) => tr[k + 1].params == p && tr[k + 1].council == tr[k].council
            case _ => false
  {
    StepAt(tr, acts, k);
    RulesStep(tr[k], acts[k]);
  }

  /** `act` is the vote that passes a withdrawal of proposal `id`. */
  ghost predicate Withdraws(s: GovState, act: Act, id: nat)
    requires Valid(s)
  {
    && act.Votes? && act.id in s.proposals && s.proposals[act.id].action == Cancel(id)
    && Vote(s, act.sender, act.id, act.now).Ok? && Vote(s, act.sender, act.id, act.now).value.1 == Withdrew(id)
  }

  lemma VoteRemoves(s: GovState, sender: Address, x: nat, now: nat, id: nat)
    requires Valid(s) && Vote(s, sender, x, now).Ok? && id in s.proposals
      && id !in Vote(s, sender, x, now).value.0.proposals
    ensures id == x || Vote(s, sender, x, now).value.1 == Withdrew(id)
    ensures x in s.proposals && s.proposals[x].scheduledFor.None?
    ensures Vote(s, sender, x, now).value.1 == Withdrew(id) ==> s.proposals[x].action == Cancel(id)
  {
  }

  lemma ActionKeepsRecords(s: GovState, action: Action, accepted: bool)
    ensures ApplyAction(s, action, accepted).Ok? ==> ApplyAction(s, action, accepted).value.proposals == s.proposals
  {
  }

  lemma ProposeSpares(s: GovState, sender: Address, action: Action, now: nat, id: nat)
    requires Propose(s, sender, action, now).Ok? && id in s.proposals && s.proposals[id].scheduledFor.Some?
    ensures id in Propose(s, sender, action, now).value.proposals
  {
    assert id in Sweep(s, now).proposals;
  }

  lemma ProposalSparesPassed(s: GovState, act: Act, id: nat)
    requires Valid(s) && act.Proposes? && id in s.proposals && s.proposals[id].scheduledFor.Some?
    ensures id in After(s, act).proposals
  {
    if Propose(s, act.sender, act.action, act.now).Ok? {
      ProposeSpares(s, act.sender, act.action, act.now, id);
    }
  }

  lemma VoteSparesPassed(s: GovState, act: Act, id: nat)
    requires Valid(s) && act.Votes? && id in s.proposals && s.proposals[id].scheduledFor.Some?
    ensures id in After(s, act).proposals || Withdraws(s, act, id)
  {
    if Vote(s, act.sender, act.id, act.now).Ok? && id !in Vote(s, act.sender, act.id, act.now).value.0.proposals {
      VoteRemoves(s, act.sender, act.id, act.now, id);
    }
  }

  lemma ExecutionSparesPassed(s: GovState, act: Act, id: nat)
    requires Valid(s) && act.Executes? && id in s.proposals
    ensures id in After(s, act).proposals || (act.id == id && Attempt(s, act).Some?)
  {
    if Execute(s, act.id, act.now).Ok? {
      var (next, action) := Execute(s, act.id, act.now).value;
      ActionKeepsRecords(next, action, act.accepted);
    }
  }

  /** A passed proposal goes away only by being executed or by a withdrawal the council passed. */
  lemma PassedLeaves(s: GovState, act: Act, id: nat)
    requires Valid(s) && id in s.proposals && s.proposals[id].scheduledFor.Some?
    ensures id in After(s, act).proposals || (act.Executes? && act.id == id && Attempt(s, act).Some?)
      || Withdraws(s, act, id)
  {
    if act.Proposes? {
      ProposalSparesPassed(s, act, id);
    } else if act.Votes? {
      VoteSparesPassed(s, act, id);
    } else {
      ExecutionSparesPassed(s, act, id);
    }
  }

  /** A withdrawal, like anything else, takes the threshold of the council then seated. */
  lemma WithdrawalIsPassed(s: GovState, act: Act, id: nat)
    requires Valid(s) && Withdraws(s, act, id)
    ensures s.council.Some? && act.sender !in s.proposals[act.id].votes
    ensures Reached(s.council.value, WeightOfVoters(s.council.value, Voters(s.proposals[act.id].votes) + {act.sender}))
    ensures id !in After(s, act).proposals && act.id !in After(s, act).proposals
  {
    var votes := RecordVote(s.proposals[act.id].votes, act.sender).value;
    TallyIsWeight(s.council.value, votes);
  }
}
