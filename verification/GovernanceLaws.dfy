/** What each governance operation admits and what it does, in terms of the
    seats, the recorded voters and the clock, and what that leaves true of a
    proposal that has not passed. */
module GovernanceLaws {
  import opened Base
  import opened Council
  import opened Governance
  import opened GovernanceRuns

  // -- seats and weights ----------------------------------------------------

  ghost predicate HoldsSeat(c: Council, a: Address) { exists i :: 0 <= i < |c.seats| && c.seats[i].holder == a }

  lemma SeatedExactlyWhen(c: Council, a: Address)
    ensures IsSeated(c, a) <==> HoldsSeat(c, a)
  {
    var ks := Holders(c.seats);
    if i :| 0 <= i < |c.seats| && c.seats[i].holder == a {
      assert ks[i] == a;
    }
  }

  ghost predicate Sits(s: GovState, a: Address) { s.council.Some? && HoldsSeat(s.council.value, a) }

  /** Whether a body of voters carries the council's threshold. */
  ghost predicate Carries(c: Council, voters: set<Address>) {
    WeightOfVoters(c, voters) * 10_000 >= TotalWeight(c) * c.threshold
  }

  lemma TallyCarries(c: Council, votes: seq<Address>)
    requires StrictlyAscending(votes)
    ensures Reached(c, Tally(c, votes)) <==> Carries(c, Voters(votes))
  {
    TallyIsWeight(c, votes);
  }

  lemma NobodyCarriesNothing(c: Council, voters: set<Address>)
    requires voters == {}
    ensures !Carries(c, voters)
  {
    TotalIsPositive(c);
    NoWeight(c.seats, (s: Seat) => s.holder in voters);
    assert TotalWeight(c) * c.threshold > 0;
  }

  // -- votes ----------------------------------------------------------------

  /** A vote is in order: cast from a seat, once, on a question still open and in time. */
  ghost predicate MayVote(s: GovState, sender: Address, id: nat, now: nat) {
    && Sits(s, sender) && id in s.proposals && s.proposals[id].scheduledFor.None?
    && now <= s.proposals[id].votingEnds && sender !in s.proposals[id].votes
  }

  lemma VoteExactlyWhen(s: GovState, sender: Address, id: nat, now: nat)
    requires Valid(s)
    ensures Vote(s, sender, id, now).Ok? <==> MayVote(s, sender, id, now)
    ensures match Vote(s, sender, id, now)
            case Ok(_) => true
            case Err(NoCouncil) => s.council.None?
            case Err(NotSeated) => s.council.Some? && !Sits(s, sender)
            case Err(NoSuchProposal) => id !in s.proposals
            case Err(AlreadyPassed) => id in s.proposals && s.proposals[id].scheduledFor.Some?
            case Err(VotingClosed) => id in s.proposals && now > s.proposals[id].votingEnds
            case Err(AlreadyVoted) => id in s.proposals && sender in s.proposals[id].votes
            case Err(_) => false
  {
    if s.council.Some? {
      SeatedExactlyWhen(s.council.value, sender);
    }
  }

  /** The state `t` differs from `s` in the record of `id` alone. */
  ghost predicate OnlyRecord(s: GovState, t: GovState, id: nat) {
    && t.params == s.params && t.council == s.council && t.nextId == s.nextId && t.open == s.open
    && t.proposals.Keys == s.proposals.Keys
    && forall x :: x in s.proposals && x != id ==> t.proposals[x] == s.proposals[x]
  }

  /** The record after one more vote. */
  ghost predicate VotedBy(p: Proposal, q: Proposal, sender: Address, scheduled: Option<nat>) {
    && SameQuestion(p, q) && q.scheduledFor == scheduled
    && StrictlyAscending(q.votes) && Voters(q.votes) == Voters(p.votes) + {sender}
  }

  /** The state `t` is `s` without the records in `gone`. */
  ghost predicate Without(s: GovState, t: GovState, gone: set<nat>) {
    && t.params == s.params && t.council == s.council && t.nextId == s.nextId && t.proposals == s.proposals - gone
    && StrictlyAscending(t.open) && forall x :: x in t.open <==> x in s.open && x !in gone
  }

  lemma RemoveLeaves(s: GovState, id: nat)
    requires StrictlyAscending(s.open)
    ensures Without(s, Remove(s, id), {id})
  {
    FilterAscends(s.open, x => x != id);
  }

  lemma RewriteLeaves(s: GovState, id: nat, sender: Address, scheduled: Option<nat>)
    requires id in s.proposals && StrictlyAscending(s.proposals[id].votes) && sender !in s.proposals[id].votes
    ensures var p := s.proposals[id];
      var t := Rewritten(s, id, p.(votes := RecordVote(p.votes, sender).value, scheduledFor := scheduled));
      OnlyRecord(s, t, id) && VotedBy(p, t.proposals[id], sender, scheduled)
  {
  }

  lemma RemoveBothLeaves(s: GovState, id: nat, target: nat)
    requires StrictlyAscending(s.open)
    ensures Without(s, Remove(Remove(s, target), id), {target, id})
  {
    RemoveLeaves(s, target);
    RemoveLeaves(Remove(s, target), id);
  }

  lemma VoteComesTo(s: GovState, sender: Address, id: nat, now: nat)
    requires SortedVotes(s) && MayVote(s, sender, id, now)
    ensures var p := s.proposals[id];
      var votes, at := RecordVote(p.votes, sender).value, now + s.params.timelock;
      Vote(s, sender, id, now) == Ok(
        if !Carries(s.council.value, Voters(p.votes) + {sender}) then
          (Rewritten(s, id, p.(votes := votes, scheduledFor := None)), Recorded)
        else if p.action.Cancel? then (Remove(Remove(s, p.action.proposal), id), Withdrew(p.action.proposal))
        else (Rewritten(s, id, p.(votes := votes, scheduledFor := Some(at))), Scheduled(at)))
  {
    SeatedExactlyWhen(s.council.value, sender);
    TallyCarries(s.council.value, RecordVote(s.proposals[id].votes, sender).value);
  }

  /** A vote in order decides exactly when, with it, the voters carry the
      threshold: it then puts the question on notice for the timelock, or at
      once withdraws what it is about; otherwise it is recorded, and no more. */
  lemma VoteDoes(s: GovState, sender: Address, id: nat, now: nat)
    requires Valid(s) && MayVote(s, sender, id, now)
    ensures Vote(s, sender, id, now).Ok?
    ensures var (t, outcome) := Vote(s, sender, id, now).value;
      var p := s.proposals[id];
      if !Carries(s.council.value, Voters(p.votes) + {sender}) then
        outcome == Recorded && OnlyRecord(s, t, id) && VotedBy(p, t.proposals[id], sender, None)
      else if p.action.Cancel? then
        outcome == Withdrew(p.action.proposal) && Without(s, t, {p.action.proposal, id})
      else
        && outcome == Scheduled(now + s.params.timelock) && OnlyRecord(s, t, id)
        && VotedBy(p, t.proposals[id], sender, Some(now + s.params.timelock))
  {
    VoteComesTo(s, sender, id, now);
    var p := s.proposals[id];
    if !Carries(s.council.value, Voters(p.votes) + {sender}) {
      RewriteLeaves(s, id, sender, None);
    } else if p.action.Cancel? {
      RemoveBothLeaves(s, id, p.action.proposal);
    } else {
      RewriteLeaves(s, id, sender, Some(now + s.params.timelock));
    }
  }

  // -- proposals ------------------------------------------------------------

  /** The rules clear every floor. */
  ghost predicate AboveFloors(p: ChainParams) {
    && p.staking.unbondingMs >= 1_814_400_000 && p.rebindDelay >= 86_400 && p.votingPeriod >= 3_600
    && p.timelock >= 3_600 && 1 <= p.councilCap <= 10_000 && p.staking.minBond >= 1
    && p.staking.maxUnbondingEntries >= 1 && 4 <= p.staking.maxValidators <= p.staking.maxCandidates
    && 1 <= p.staking.maxSingleShareBps <= 10_000
  }

  /** Rules are accepted exactly when they clear the floors, and a change when it also does not loosen the cap. */
  lemma ParamsExactlyWhen(p: ChainParams, current: ChainParams)
    ensures ValidateParams(p).None? <==> AboveFloors(p)
    ensures ValidateChange(p, current).None? <==> AboveFloors(p) && p.councilCap <= current.councilCap
  {
  }

  /** What a proposal may ask for. */
  ghost predicate Proposable(s: GovState, action: Action) {
    match action
    case SetCouncil(c) => forall country :: HeldBy(c, country) * 10_000 <= s.params.councilCap * TotalWeight(c)
    case SetParams(p) => AboveFloors(p) && p.councilCap <= s.params.councilCap
    case Cancel(id) => id in s.proposals && s.proposals[id].scheduledFor.Some?
    case LicenseAttestor(_, active) => active
    case AdmitDenom(d, _) => d.Sovereign?
    case SetAttestorActive(_, _) => true
  }

  lemma ProposableExactlyWhen(s: GovState, action: Action)
    ensures CheckAction(s, action).None? <==> Proposable(s, action)
  {
    if action.SetParams? {
      ParamsExactlyWhen(action.params, s.params);
    }
  }

  /** Proposals that still hold a place: passed, or in time. */
  ghost function Standing(s: GovState, now: nat): set<nat> {
    set id | id in s.proposals && (s.proposals[id].scheduledFor.Some? || now <= s.proposals[id].votingEnds)
  }

  lemma {:induction false} AscendingSize(ids: seq<nat>, all: set<nat>)
    requires StrictlyAscending(ids) && forall x :: x in all <==> x in ids
    ensures |ids| == |all|
    decreases |ids|
  {
    if ids == [] {
      assert all == {};
    } else {
      var front, last := ids[..|ids| - 1], ids[|ids| - 1];
      assert ids == front + [last] && last in all;
      assert forall i :: 0 <= i < |front| ==> front[i] == ids[i] < last;
      AscendingSize(front, all - {last});
    }
  }

  lemma SweptSize(s: GovState, now: nat)
    requires Valid(s)
    ensures |Sweep(s, now).open| == |Standing(s, now)|
    ensures Sweep(s, now).proposals.Keys == Standing(s, now)
  {
    SweepKeepsValid(s, now);
    AscendingSize(Sweep(s, now).open, Standing(s, now));
  }

  ghost predicate MayPropose(s: GovState, sender: Address, action: Action, now: nat) {
    Sits(s, sender) && Proposable(s, action) && |Standing(s, now)| < 64
  }

  lemma ProposeExactlyWhen(s: GovState, sender: Address, action: Action, now: nat)
    requires Valid(s)
    ensures Propose(s, sender, action, now).Ok? <==> MayPropose(s, sender, action, now)
  {
    if s.council.Some? {
      SeatedExactlyWhen(s.council.value, sender);
    }
    ProposableExactlyWhen(s, action);
    SweptSize(s, now);
  }

  lemma SweepLeaves(s: GovState, now: nat)
    requires Valid(s)
    ensures var t := Sweep(s, now);
      && t.params == s.params && t.council == s.council && t.nextId == s.nextId
      && t.proposals.Keys == Standing(s, now)
      && forall id :: id in Standing(s, now) ==> t.proposals[id] == s.proposals[id] && id < s.nextId
  {
    SweptSize(s, now);
  }

  lemma ProposeComesTo(s: GovState, sender: Address, action: Action, now: nat)
    requires Valid(s) && MayPropose(s, sender, action, now)
    ensures Propose(s, sender, action, now) == Ok(Opened(Sweep(s, now), sender, action, now))
  {
    ProposeExactlyWhen(s, sender, action, now);
  }

  /** A proposal in order takes the next id, with no vote and a full voting
      period; the questions that lapsed are dropped and the standing ones kept. */
  lemma ProposeDoes(s: GovState, sender: Address, action: Action, now: nat)
    requires Valid(s) && MayPropose(s, sender, action, now)
    ensures Propose(s, sender, action, now).Ok?
    ensures var t := Propose(s, sender, action, now).value;
      && t.params == s.params && t.council == s.council && t.nextId == s.nextId + 1
      && t.proposals.Keys == Standing(s, now) + {s.nextId}
      && t.proposals[s.nextId] == Proposal(sender, action, now, now + s.params.votingPeriod, [], None)
      && (forall id :: id in Standing(s, now) ==> t.proposals[id] == s.proposals[id])
  {
    ProposeComesTo(s, sender, action, now);
    SweepLeaves(s, now);
    OpenedLeaves(Sweep(s, now), sender, action, now);
  }

  lemma OpenedLeaves(s: GovState, sender: Address, action: Action, now: nat)
    requires s.nextId !in s.proposals
    ensures var t := Opened(s, sender, action, now);
      && t.params == s.params && t.council == s.council && t.nextId == s.nextId + 1
      && t.proposals.Keys == s.proposals.Keys + {s.nextId}
      && t.proposals[s.nextId] == Proposal(sender, action, now, now + s.params.votingPeriod, [], None)
      && (forall id :: id in s.proposals ==> t.proposals[id] == s.proposals[id])
  {
  }

  // -- executions -----------------------------------------------------------

  /** What an execution asks of the decision it carries out. */
  ghost predicate Feasible(s: GovState, action: Action, accepted: bool) {
    match action
    case SetCouncil(c) => forall country :: HeldBy(c, country) * 10_000 <= s.params.councilCap * TotalWeight(c)
    case SetParams(p) =>
      && AboveFloors(p) && p.councilCap <= s.params.councilCap
      && (s.council.Some? ==>
            forall country :: HeldBy(s.council.value, country) * 10_000 <= p.councilCap * TotalWeight(s.council.value))
    case Cancel(_) => false
    case _ => accepted
  }

  ghost predicate MayExecute(s: GovState, id: nat, now: nat, accepted: bool) {
    && id in s.proposals && s.proposals[id].scheduledFor.Some? && s.proposals[id].scheduledFor.value <= now
    && Feasible(s, s.proposals[id].action, accepted)
  }

  lemma ApplyExactlyWhen(s: GovState, action: Action, accepted: bool)
    ensures ApplyAction(s, action, accepted).Ok? <==> Feasible(s, action, accepted)
  {
    if action.SetParams? {
      ParamsExactlyWhen(action.params, s.params);
    }
  }

  lemma FeasibleAnyhow(s: GovState, id: nat, action: Action, accepted: bool)
    ensures Feasible(Remove(s, id), action, accepted) == Feasible(s, action, accepted)
  {
  }

  /** An execution succeeds exactly when the decision's time has come and it can
      be carried out; it takes the decision off the books and puts into force what it says. */
  lemma ExecuteExactlyWhen(s: GovState, id: nat, now: nat, accepted: bool)
    requires Valid(s)
    ensures Attempt(s, Executes(id, now, accepted)).Some? <==> MayExecute(s, id, now, accepted)
    ensures MayExecute(s, id, now, accepted) ==>
      var t := After(s, Executes(id, now, accepted));
      var action := s.proposals[id].action;
      && Without(s.(council := t.council, params := t.params), t, {id})
      && t.council == (if action.SetCouncil? then Some(action.council) else s.council)
      && t.params == (if action.SetParams? then action.params else s.params)
  {
    if Execute(s, id, now).Ok? {
      var action := s.proposals[id].action;
      RemoveLeaves(s, id);
      ApplyExactlyWhen(Remove(s, id), action, accepted);
      FeasibleAnyhow(s, id, action, accepted);
      ActionChangesRules(Remove(s, id), action, accepted);
    }
  }

  // -- a question that has not passed ---------------------------------------

  /** Someone is still needed: the votes on record do not carry the threshold of this council. */
  ghost predicate Short(s: GovState, id: nat, c: Council)
    requires id in s.proposals
  {
    !Carries(c, Voters(s.proposals[id].votes))
  }

  lemma VoteLeavesShort(s: GovState, sender: Address, x: nat, now: nat, id: nat)
    requires Valid(s) && Vote(s, sender, x, now).Ok? && id in Vote(s, sender, x, now).value.0.proposals
    requires Vote(s, sender, x, now).value.0.proposals[id].scheduledFor.None?
    ensures id in s.proposals && s.council.Some?
    ensures Short(s, id, s.council.value) ==> Short(Vote(s, sender, x, now).value.0, id, s.council.value)
  {
    VoteExactlyWhen(s, sender, x, now);
    VoteDoes(s, sender, x, now);
  }

  lemma StepLeavesShort(s: GovState, act: Act, id: nat, c: Council)
    requires Valid(s) && s.council == Some(c)
    requires id in After(s, act).proposals && After(s, act).proposals[id].scheduledFor.None?
    requires id in s.proposals ==> Short(s, id, c)
    ensures Short(After(s, act), id, c)
  {
    StepOrigin(s, act, id);
    if id !in s.proposals {
      NobodyCarriesNothing(c, Voters(After(s, act).proposals[id].votes));
    } else if Attempt(s, act).Some? {
      match act
      case Proposes(sender, action, now) => ProposeStep(s, sender, action, now, id);
      case Votes(sender, x, now) => VoteLeavesShort(s, sender, x, now, id);
      case Executes(x, now, accepted) => ExecuteStep(s, x, now, accepted, id);
    }
  }

  lemma StepAtLeavesShort(tr: seq<GovState>, acts: seq<Act>, n: nat, id: nat, c: Council)
    requires Trace(tr, acts) && n < |acts| && tr[n].council == Some(c)
    requires id in tr[n + 1].proposals && tr[n + 1].proposals[id].scheduledFor.None?
    requires id in tr[n].proposals ==> !Carries(c, Voters(tr[n].proposals[id].votes))
    ensures !Carries(c, Voters(tr[n + 1].proposals[id].votes))
  {
    StepAt(tr, acts, n);
    StepLeavesShort(tr[n], acts[n], id, c);
  }

  lemma UnpassedBefore(tr: seq<GovState>, acts: seq<Act>, n: nat, id: nat)
    requires Trace(tr, acts) && n < |acts| && id in tr[n].proposals
    requires id in tr[n + 1].proposals && tr[n + 1].proposals[id].scheduledFor.None?
    ensures tr[n].proposals[id].scheduledFor.None?
  {
    SameAt(tr, acts, n, id);
  }

  /** In every run in which one council sits, no question the voters have carried
      is left waiting: the votes on record for a question that has not passed fall short. */
  lemma {:induction false} CarriedHasPassed(tr: seq<GovState>, acts: seq<Act>, n: nat, id: nat, c: Council)
    requires FreshTrace(tr, acts) && n < |tr| && id in tr[n].proposals && tr[n].proposals[id].scheduledFor.None?
    requires forall i :: 0 <= i <= n ==> tr[i].council == Some(c)
    ensures !Carries(c, Voters(tr[n].proposals[id].votes))
    decreases n
  {
    if n > 0 {
      if id in tr[n - 1].proposals {
        UnpassedBefore(tr, acts, n - 1, id);
        CarriedHasPassed(tr, acts, n - 1, id, c);
      }
      StepAtLeavesShort(tr, acts, n - 1, id, c);
    }
  }
}
