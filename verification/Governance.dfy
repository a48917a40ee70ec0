/** Governance: parameters, proposals, votes and their execution
    (crates/gov/src/lib.rs, params.rs, proposal.rs and the governance arms of
    crates/executor/src/lib.rs). */
module Governance {
  import opened Base
  import opened Ledger
  import opened Issuers
  import opened Council

  const MAX_OPEN_PROPOSALS: nat := 64

  // -- parameters -----------------------------------------------------------

  const UNBONDING_MS: nat := 21 * 24 * 60 * 60 * 1000
  const MIN_REBIND_DELAY_BLOCKS: nat := 86_400
  const MIN_VOTING_PERIOD_BLOCKS: nat := 3_600
  const MIN_TIMELOCK_BLOCKS: nat := 3_600
  const MIN_VALIDATORS: nat := 4

  datatype StakingParams = StakingParams(
    minBond: Amount, maxValidators: nat, maxSingleShareBps: nat, maxCandidates: nat, maxUnbondingEntries: nat,
    unbondingMs: nat)

  datatype ChainParams = ChainParams(
    staking: StakingParams, rebindDelay: nat, votingPeriod: nat, timelock: nat, councilCap: nat)

  datatype ParamError =
    | UnbondingTooShort | RebindDelayTooShort | VotingPeriodTooShort | TimelockTooShort | CouncilCapOutOfRange
    | ZeroBond | ZeroEntries | ValidatorSetTooSmall | CandidatesBelowValidators | ValidatorCapOutOfRange
    | CouncilCapWouldLoosen

  function ValidateParams(p: ChainParams): Option<ParamError> {
    if p.staking.unbondingMs < UNBONDING_MS then Some(UnbondingTooShort)
    else if p.rebindDelay < MIN_REBIND_DELAY_BLOCKS then Some(RebindDelayTooShort)
    else if p.votingPeriod < MIN_VOTING_PERIOD_BLOCKS then Some(VotingPeriodTooShort)
    else if p.timelock < MIN_TIMELOCK_BLOCKS then Some(TimelockTooShort)
    else if !(1 <= p.councilCap <= BPS) then Some(CouncilCapOutOfRange)
    else if p.staking.minBond == 0 then Some(ZeroBond)
    else if p.staking.maxUnbondingEntries == 0 then Some(ZeroEntries)
    else if p.staking.maxValidators < MIN_VALIDATORS then Some(ValidatorSetTooSmall)
    else if p.staking.maxCandidates < p.staking.maxValidators then Some(CandidatesBelowValidators)
    else if !(1 <= p.staking.maxSingleShareBps <= BPS) then Some(ValidatorCapOutOfRange)
    else None
  }

  function ValidateChange(p: ChainParams, current: ChainParams): Option<ParamError> {
    if ValidateParams(p).Some? then ValidateParams(p)
    else if p.councilCap > current.councilCap then Some(CouncilCapWouldLoosen)
    else None
  }

  // -- proposals ------------------------------------------------------------

  datatype Action =
    | SetCouncil(council: Council)
    | SetParams(params: ChainParams)
    | LicenseAttestor(address: Address, active: bool)
    | SetAttestorActive(address: Address, active: bool)
    | AdmitDenom(denom: Denom, authority: Address)
    | Cancel(proposal: nat)

  datatype Proposal = Proposal(
    proposer: Address, action: Action, openedAt: nat, votingEnds: nat, votes: seq<Address>, scheduledFor: Option<nat>)

  datatype GovState = GovState(
    params: ChainParams, council: Option<Council>, proposals: map<nat, Proposal>, nextId: nat, open: seq<nat>)

  datatype GovError =
    | NoCouncil | NotSeated | NoSuchProposal | AlreadyPassed | VotingClosed | AlreadyVoted | NotScheduled
    | Timelocked | TooManyProposals | LicensedSuspended | NotSovereign | NotCancellable
    | BadParams(cause: ParamError) | BadCouncil | ModuleRefused

  datatype VoteOutcome = Recorded | Scheduled(at: nat) | Withdrew(target: nat)

  /** A vote list with one more vote, if it is new: `record_vote`. */
  function RecordVote(votes: seq<Address>, a: Address): (r: Option<seq<Address>>)
    requires StrictlyAscending(votes)
    ensures r.Some? <==> a !in votes
    ensures r.Some? ==> StrictlyAscending(r.value) && Voters(r.value) == Voters(votes) + {a}
  {
    match Search(votes, a)
    case Found(_) => None
    case Missing(at) =>
      assert votes == votes[..at] + votes[at..];
      Some(votes[..at] + [a] + votes[at..])
  }

  /** A lapsed proposal: not passed, and its voting period over. */
  predicate Lapsed(p: Proposal, now: nat) { p.scheduledFor.None? && now > p.votingEnds }

  function Filter(s: seq<nat>, keep: nat -> bool): (r: seq<nat>)
    ensures forall x :: x in r <==> x in s && keep(x)
  {
    if s == [] then []
    else
      assert s == s[..|s| - 1] + [s[|s| - 1]];
      Filter(s[..|s| - 1], keep) + (if keep(s[|s| - 1]) then [s[|s| - 1]] else [])
  }

  lemma AscendsPast(s: seq<nat>, x: nat)
    requires StrictlyAscending(s) && forall y :: y in s ==> y < x
    ensures StrictlyAscending(s + [x])
  {
    assert forall i :: 0 <= i < |s| ==> s[i] in s;
  }

  lemma {:induction false} FilterAscends(s: seq<nat>, keep: nat -> bool)
    requires StrictlyAscending(s)
    ensures StrictlyAscending(Filter(s, keep)) && |Filter(s, keep)| <= |s|
  {
    if s != [] {
      var front, last := s[..|s| - 1], s[|s| - 1];
      FilterAscends(front, keep);
      forall y | y in Filter(front, keep) ensures y < last {
        var i :| 0 <= i < |front| && front[i] == y;
      }
      AscendsPast(Filter(front, keep), last);
    }
  }

  /** Proposals whose voting ended without passing, and ids without a record, are dropped. */
  function Sweep(s: GovState, now: nat): GovState {
    s.(open := Filter(s.open, id => id in s.proposals && !Lapsed(s.proposals[id], now)),
       proposals := map id | id in s.proposals && !(id in s.open && Lapsed(s.proposals[id], now)) :: s.proposals[id])
  }

  function Remove(s: GovState, id: nat): GovState {
    s.(proposals := s.proposals - {id}, open := Filter(s.open, x => x != id))
  }

  function Rewritten(s: GovState, id: nat, p: Proposal): GovState { s.(proposals := s.proposals[id := p]) }

  // -- operations -----------------------------------------------------------

  ghost function CheckAction(s: GovState, action: Action): Option<GovError> {
    match action
    case SetCouncil(c) => if WithinCap(c, s.params.councilCap) then None else Some(BadCouncil)
    case SetParams(p) =>
      (match ValidateChange(p, s.params)
       case Some(e) => Some(BadParams(e))
       case None => None)
    case Cancel(id) =>
      if id !in s.proposals then Some(NoSuchProposal)
      else if s.proposals[id].scheduledFor.None? then Some(NotCancellable)
      else None
    case LicenseAttestor(_, active) => if active then None else Some(LicensedSuspended)
    case AdmitDenom(d, _) => if d.Sovereign? then None else Some(NotSovereign)
    case SetAttestorActive(_, _) => None
  }

  /** The state with one more proposal. */
  function Opened(s: GovState, sender: Address, action: Action, now: nat): GovState {
    s.(proposals := s.proposals[s.nextId := Proposal(sender, action, now, now + s.params.votingPeriod, [], None)],
       nextId := s.nextId + 1,
       open := s.open + [s.nextId])
  }

  ghost function Propose(s: GovState, sender: Address, action: Action, now: nat): Result<GovState, GovError> {
    if s.council.None? then Err(NoCouncil)
    else if !IsSeated(s.council.value, sender) then Err(NotSeated)
    else if CheckAction(s, action).Some? then Err(CheckAction(s, action).value)
    else if |Sweep(s, now).open| >= MAX_OPEN_PROPOSALS then Err(TooManyProposals)
    else Ok(Opened(Sweep(s, now), sender, action, now))
  }

  /** Every stored vote list is sorted without repeats. */
  ghost predicate SortedVotes(s: GovState) {
    forall id :: id in s.proposals ==> StrictlyAscending(s.proposals[id].votes)
  }

  function Vote(s: GovState, sender: Address, id: nat, now: nat): Result<(GovState, VoteOutcome), GovError>
    requires SortedVotes(s)
  {
    if s.council.None? then Err(NoCouncil)
    else if !IsSeated(s.council.value, sender) then Err(NotSeated)
    else if id !in s.proposals then Err(NoSuchProposal)
    else
      var p := s.proposals[id];
      if p.scheduledFor.Some? then Err(AlreadyPassed)
      else if now > p.votingEnds then Err(VotingClosed)
      else
        match RecordVote(p.votes, sender)
        case None => Err(AlreadyVoted)
        case Some(votes) =>
          if !Reached(s.council.value, Tally(s.council.value, votes)) then
            Ok((Rewritten(s, id, p.(votes := votes)), Recorded))
          else if p.action.Cancel? then
            Ok((Remove(Remove(s, p.action.proposal), id), Withdrew(p.action.proposal)))
          else
            var at := now + s.params.timelock;
            Ok((Rewritten(s, id, p.(votes := votes, scheduledFor := Some(at))), Scheduled(at)))
  }

  function Execute(s: GovState, id: nat, now: nat): Result<(GovState, Action), GovError> {
    if id !in s.proposals then Err(NoSuchProposal)
    else
      var p := s.proposals[id];
      if p.scheduledFor.None? then Err(NotScheduled)
      else if now < p.scheduledFor.value then Err(Timelocked)
      else Ok((Remove(s, id), p.action))
  }

  /** Carrying out a decision; what other modules answer is given. */
  ghost function ApplyAction(s: GovState, action: Action, accepted: bool): Result<GovState, GovError> {
    match action
    case SetCouncil(c) => if WithinCap(c, s.params.councilCap) then Ok(s.(council := Some(c))) else Err(BadCouncil)
    case SetParams(p) =>
      (match ValidateChange(p, s.params)
       case Some(e) => Err(BadParams(e))
       case None =>
         if s.council.Some? && !WithinCap(s.council.value, p.councilCap) then Err(BadCouncil)
         else Ok(s.(params := p)))
    case Cancel(_) => Err(NotScheduled)
    case _ => if accepted then Ok(s) else Err(ModuleRefused)
  }

  /** Seating the first council, at genesis. */
  ghost function Install(council: Council, params: ChainParams): Result<GovState, GovError> {
    if ValidateParams(params).Some? then Err(BadParams(ValidateParams(params).value))
    else if !WithinCap(council, params.councilCap) then Err(BadCouncil)
    else Ok(GovState(params, Some(council), map[], 0, []))
  }

  // -- what every operation keeps -------------------------------------------

  /** Open ids and records are the same ids, in the order they were given out. */
  ghost predicate Agreeing(s: GovState) {
    && StrictlyAscending(s.open)
    && (forall id :: id in s.open <==> id in s.proposals)
    && (forall id :: id in s.proposals ==> id < s.nextId)
  }

  ghost predicate ProposalsSound(s: GovState) {
    forall id :: id in s.proposals ==> !(s.proposals[id].action.Cancel? && s.proposals[id].scheduledFor.Some?)
  }

  /** The rules in force are within their floors, and the seated council within the cap. */
  ghost predicate Lawful(s: GovState) {
    && ValidateParams(s.params).None?
    && (s.council.Some? ==> WithinCap(s.council.value, s.params.councilCap))
  }

  ghost predicate Valid(s: GovState) {
    Agreeing(s) && |s.open| <= MAX_OPEN_PROPOSALS && SortedVotes(s) && ProposalsSound(s) && Lawful(s)
  }

  lemma InstallIsValid(council: Council, params: ChainParams)
    requires Install(council, params).Ok?
    ensures Valid(Install(council, params).value)
  {
  }

  lemma SweepKeepsValid(s: GovState, now: nat)
    requires Valid(s)
    ensures Valid(Sweep(s, now))
    ensures forall id :: id in Sweep(s, now).proposals <==> id in s.proposals && !Lapsed(s.proposals[id], now)
  {
    FilterAscends(s.open, id => id in s.proposals && !Lapsed(s.proposals[id], now));
  }

  lemma RemoveKeepsValid(s: GovState, id: nat)
    requires Valid(s)
    ensures Valid(Remove(s, id))
  {
    FilterAscends(s.open, x => x != id);
  }

  lemma OpenedKeepsValid(s: GovState, sender: Address, action: Action, now: nat)
    requires Valid(s) && |s.open| < MAX_OPEN_PROPOSALS
    ensures Valid(Opened(s, sender, action, now))
  {
    assert forall i :: 0 <= i < |s.open| ==> s.open[i] in s.proposals;
  }

  lemma ProposeKeepsValid(s: GovState, sender: Address, action: Action, now: nat)
    requires Valid(s) && Propose(s, sender, action, now).Ok?
    ensures Valid(Propose(s, sender, action, now).value)
  {
    SweepKeepsValid(s, now);
    OpenedKeepsValid(Sweep(s, now), sender, action, now);
  }

  lemma RewriteKeepsValid(s: GovState, id: nat, p: Proposal)
    requires Valid(s) && id in s.proposals && StrictlyAscending(p.votes) && !(p.action.Cancel? && p.scheduledFor.Some?)
    ensures Valid(Rewritten(s, id, p))
  {
  }

  lemma VoteKeepsValid(s: GovState, sender: Address, id: nat, now: nat)
    requires Valid(s) && Vote(s, sender, id, now).Ok?
    ensures Valid(Vote(s, sender, id, now).value.0)
  {
    var p := s.proposals[id];
    var votes := RecordVote(p.votes, sender).value;
    match Vote(s, sender, id, now).value.1
    case Recorded => RewriteKeepsValid(s, id, p.(votes := votes));
    case Scheduled(at) => RewriteKeepsValid(s, id, p.(votes := votes, scheduledFor := Some(at)));
    case Withdrew(target) =>
      RemoveKeepsValid(s, target);
      RemoveKeepsValid(Remove(s, target), id);
  }

  lemma ExecuteKeepsValid(s: GovState, id: nat, now: nat, accepted: bool)
    requires Valid(s) && Execute(s, id, now).Ok?
    ensures Valid(Execute(s, id, now).value.0)
    ensures !Execute(s, id, now).value.1.Cancel?
    ensures var (next, action) := Execute(s, id, now).value;
      var applied := ApplyAction(next, action, accepted);
      applied.Ok? ==> Valid(applied.value) && applied.value.params.councilCap <= s.params.councilCap
  {
    RemoveKeepsValid(s, id);
  }
}
