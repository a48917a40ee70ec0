/** Governance as the source carries it out: records, queue, council and
    parameters rewritten in the store (crates/gov/src/lib.rs). */
module GovernanceStore {
  import opened Base
  import opened Council
  import opened Governance

  class GovernanceModule {
    var params: ChainParams
    var council: Option<Council>
    var proposals: map<nat, Proposal>
    var nextId: nat
    var open: seq<nat>

    function View(): GovState
      reads this
    {
      GovState(params, council, proposals, nextId, open)
    }

    constructor (s: GovState)
      ensures View() == s
    {
      params, council, proposals, nextId, open := s.params, s.council, s.proposals, s.nextId, s.open;
    }

    method InstallFirst(c: Council, p: ChainParams) returns (r: Result<(), GovError>)
      modifies this
      ensures match Install(c, p)
              case Ok(s) => r.Ok? && View() == old(View()).(params := s.params, council := s.council)
              case Err(e) => r == Err(e) && View() == old(View())
    {
      var problem := ValidateParams(p);
      if problem.Some? {
        return Err(BadParams(problem.value));
      }
      var checked := CheckConcentration(c, p.councilCap);
      if checked.Err? {
        return Err(BadCouncil);
      }
      params, council := p, Some(c);
      return Ok(());
    }

    method SeatCouncil(c: Council) returns (r: Result<(), GovError>)
      modifies this
      ensures r.Ok? <==> WithinCap(c, old(params).councilCap)
      ensures View() == if r.Ok? then old(View()).(council := Some(c)) else old(View())
    {
      var checked := CheckConcentration(c, params.councilCap);
      if checked.Err? {
        return Err(BadCouncil);
      }
      council := Some(c);
      return Ok(());
    }

    method ChangeParams(p: ChainParams) returns (r: Result<(), GovError>)
      modifies this
      ensures ApplyAction(old(View()), SetParams(p), true) == if r.Ok? then Ok(View()) else Err(r.error)
      ensures r.Err? ==> View() == old(View())
    {
      var problem := ValidateChange(p, params);
      if problem.Some? {
        return Err(BadParams(problem.value));
      }
      if council.Some? {
        var checked := CheckConcentration(council.value, p.councilCap);
        if checked.Err? {
          return Err(BadCouncil);
        }
      }
      params := p;
      return Ok(());
    }

    method Retain(id: nat)
      modifies this`open
      ensures open == Filter(old(open), x => x != id)
    {
      var kept: seq<nat>, i := [], 0;
      while i < |open|
        invariant 0 <= i <= |open| && open == old(open)
        invariant kept == Filter(open[..i], x => x != id)
      {
        assert open[..i + 1][..i] == open[..i];
        if open[i] != id {
          kept := kept + [open[i]];
        }
        i := i + 1;
      }
      assert open[..i] == open;
      open := kept;
    }

    method RemoveProposal(id: nat)
      modifies this
      ensures View() == Remove(old(View()), id)
    {
      proposals := proposals - {id};
      Retain(id);
    }

    method SweepLapsed(now: nat)
      modifies this
      ensures View() == Sweep(old(View()), now)
    {
      ghost var was := View();
      var kept: seq<nat>, i := [], 0;
      while i < |open|
        invariant 0 <= i <= |open| && View() == was.(proposals := proposals)
        invariant kept == Filter(was.open[..i], id => id in was.proposals && !Lapsed(was.proposals[id], now))
        invariant proposals == Unlapsed(was, was.open[..i], now)
      {
        var id := open[i];
        SweepOne(was, i, now);
        if id in proposals && !Lapsed(proposals[id], now) {
          kept := kept + [id];
        } else if id in proposals {
          proposals := proposals - {id};
        }
        i := i + 1;
      }
      assert was.open[..i] == was.open;
      open := kept;
    }

    method OpenProposal(sender: Address, action: Action, now: nat) returns (r: Result<nat, GovError>)
      modifies this
      ensures match Propose(old(View()), sender, action, now)
              case Ok(s) => r == Ok(old(nextId)) && View() == s
              case Err(e) =>
                r == Err(e) && (View() == old(View()) || (e == TooManyProposals && View() == Sweep(old(View()), now)))
    {
      if council.None? {
        return Err(NoCouncil);
      }
      if !IsSeated(council.value, sender) {
        return Err(NotSeated);
      }
      var problem := CheckProposed(action);
      if problem.Some? {
        return Err(problem.value);
      }
      SweepLapsed(now);
      if |open| >= MAX_OPEN_PROPOSALS {
        return Err(TooManyProposals);
      }
      var id := AddProposal(sender, action, now);
      return Ok(id);
    }

    method AddProposal(sender: Address, action: Action, now: nat) returns (id: nat)
      modifies this
      ensures View() == Opened(old(View()), sender, action, now) && id == old(nextId)
    {
      id := nextId;
      nextId := id + 1;
      open := open + [id];
      proposals := proposals[id := Proposal(sender, action, now, now + params.votingPeriod, [], None)];
    }

    method CheckProposed(action: Action) returns (problem: Option<GovError>)
      ensures problem == CheckAction(View(), action)
    {
      match action
      case SetCouncil(c) =>
        var checked := CheckConcentration(c, params.councilCap);
        problem := if checked.Ok? then None else Some(BadCouncil);
      case SetParams(p) =>
        var change := ValidateChange(p, params);
        problem := if change.Some? then Some(BadParams(change.value)) else None;
      case Cancel(id) =>
        problem := if id !in proposals then Some(NoSuchProposal)
                   else if proposals[id].scheduledFor.None? then Some(NotCancellable)
                   else None;
      case LicenseAttestor(_, active) => problem := if active then None else Some(LicensedSuspended);
      case AdmitDenom(d, _) => problem := if d.Sovereign? then None else Some(NotSovereign);
      case SetAttestorActive(_, _) => problem := None;
    }

    method CastVote(sender: Address, id: nat, now: nat) returns (r: Result<VoteOutcome, GovError>)
      requires SortedVotes(View())
      modifies this
      ensures match Vote(old(View()), sender, id, now)
              case Ok((s, outcome)) => r == Ok(outcome) && View() == s
              case Err(e) => r == Err(e) && View() == old(View())
    {
      if council.None? {
        return Err(NoCouncil);
      }
      if !IsSeated(council.value, sender) {
        return Err(NotSeated);
      }
      if id !in proposals {
        return Err(NoSuchProposal);
      }
      var p := proposals[id];
      if p.scheduledFor.Some? {
        return Err(AlreadyPassed);
      }
      if now > p.votingEnds {
        return Err(VotingClosed);
      }
      var votes := RecordVote(p.votes, sender);
      if votes.None? {
        return Err(AlreadyVoted);
      }
      var tally := CountVotes(council.value, votes.value);
      TallyIsWeight(council.value, votes.value);
      if !Reached(council.value, tally) {
        proposals := proposals[id := p.(votes := votes.value)];
        return Ok(Recorded);
      }
      if p.action.Cancel? {
        RemoveProposal(p.action.proposal);
        RemoveProposal(id);
        return Ok(Withdrew(p.action.proposal));
      }
      var at := now + params.timelock;
      proposals := proposals[id := p.(votes := votes.value, scheduledFor := Some(at))];
      return Ok(Scheduled(at));
    }

    method TakeDecision(id: nat, now: nat) returns (r: Result<Action, GovError>)
      modifies this
      ensures match Execute(old(View()), id, now)
              case Ok((s, action)) => r == Ok(action) && View() == s
              case Err(e) => r == Err(e) && View() == old(View())
    {
      if id !in proposals {
        return Err(NoSuchProposal);
      }
      var p := proposals[id];
      if p.scheduledFor.None? {
        return Err(NotScheduled);
      }
      if now < p.scheduledFor.value {
        return Err(Timelocked);
      }
      RemoveProposal(id);
      return Ok(p.action);
    }
  }

  /** The records left when the lapsed ones among `ids` are dropped. */
  ghost function Unlapsed(s: GovState, ids: seq<nat>, now: nat): map<nat, Proposal> {
    map id | id in s.proposals && !(id in ids && Lapsed(s.proposals[id], now)) :: s.proposals[id]
  }

  lemma {:induction false} SweepOne(s: GovState, i: nat, now: nat)
    requires i < |s.open|
    ensures var id := s.open[i];
      var before, now' := s.open[..i], s.open[..i + 1];
      && now' == before + [id]
      && Filter(now', x => x in s.proposals && !Lapsed(s.proposals[x], now))
         == Filter(before, x => x in s.proposals && !Lapsed(s.proposals[x], now))
            + (if id in s.proposals && !Lapsed(s.proposals[id], now) then [id] else [])
      && Unlapsed(s, now', now)
         == if id in s.proposals && Lapsed(s.proposals[id], now) then Unlapsed(s, before, now) - {id}
            else Unlapsed(s, before, now)
  {
    assert s.open[..i + 1][..i] == s.open[..i];
  }
}
