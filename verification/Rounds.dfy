/** The round state machine of one validator (crates/consensus/src/round.rs). */
module Rounds {
  import opened Base

  datatype Step = Propose | Prevoting | Precommitting

  datatype Decision =
    | CastPrevote(value: Option<Hash32>)
    | CastPrecommit(value: Option<Hash32>)
    | CommitBlock(block: Hash32)
    | NextRound(round: nat)

  /** A validator's state within one height, as a value. */
  datatype RoundView = RoundView(
    height: nat, round: nat, step: Step,
    lockedValue: Option<Hash32>, lockedRound: Option<nat>,
    validValue: Option<Hash32>, validRound: Option<nat>)

  function Fresh(height: nat): RoundView {
    RoundView(height, 0, Propose, None, None, None, None)
  }

  /** What to prevote for the round's proposal. */
  function DecidePrevote(rs: RoundView, proposal: Option<Hash32>, validRound: Option<nat>, isValid: bool): Decision {
    match proposal
    case None => CastPrevote(None)
    case Some(value) =>
      if !isValid then CastPrevote(None)
      else match (rs.lockedValue, rs.lockedRound)
        case (None, _) => CastPrevote(Some(value))
        case (Some(locked), lockedRound) =>
          if locked == value then CastPrevote(Some(value))
          else match (lockedRound, validRound)
            case (Some(lr), Some(pvr)) => if pvr > lr then CastPrevote(Some(value)) else CastPrevote(None)
            case _ => CastPrevote(None)
  }

  /** A quorum for a value locks onto it, a quorum for nil unlocks, no quorum
      leaves the lock alone. */
  function AfterPrevotes(rs: RoundView, quorum: Option<Option<Hash32>>): (RoundView, Decision) {
    match quorum
    case Some(Some(value)) =>
      (rs.(lockedValue := Some(value), lockedRound := Some(rs.round),
           validValue := Some(value), validRound := Some(rs.round), step := Precommitting),
       CastPrecommit(Some(value)))
    case Some(None) =>
      (rs.(lockedValue := None, lockedRound := None, step := Precommitting), CastPrecommit(None))
    case None =>
      (rs.(step := Precommitting), CastPrecommit(None))
  }

  function AdvancedTo(rs: RoundView, round: nat): RoundView {
    rs.(round := round, step := Propose)
  }

  function AfterPrecommits(rs: RoundView, quorum: Option<Option<Hash32>>): (RoundView, Decision) {
    match quorum
    case Some(Some(value)) => (rs, CommitBlock(value))
    case _ => (AdvancedTo(rs, rs.round + 1), NextRound(rs.round + 1))
  }

  /** A block is prevoted if and only if it is the round's proposal, it is
      valid, and the lock does not stand in its way: there is none, it is on this
      block, or the proposal claims a quorum newer than the lock. */
  lemma PrevotesExactlyWhen(rs: RoundView, proposal: Option<Hash32>, validRound: Option<nat>, isValid: bool, w: Hash32)
    ensures DecidePrevote(rs, proposal, validRound, isValid).CastPrevote?
    ensures DecidePrevote(rs, proposal, validRound, isValid).value == Some(w) <==>
      && proposal == Some(w) && isValid
      && (|| rs.lockedValue.None? || rs.lockedValue == Some(w)
          || (rs.lockedRound.Some? && validRound.Some? && validRound.value > rs.lockedRound.value))
  {
  }

  /** What a prevote step leaves: a validator precommits exactly what a quorum
      prevoted, is locked on it as of this round, and remembers the newest block
      that had a quorum; without a quorum it precommits nil and forgets nothing. */
  lemma PrevotesRemembered(rs: RoundView, quorum: Option<Option<Hash32>>)
    ensures var (next, d) := AfterPrevotes(rs, quorum);
      && d == CastPrecommit(if quorum.Some? then quorum.value else None)
      && (next.height, next.round, next.step) == (rs.height, rs.round, Precommitting)
      && next.lockedValue == (if quorum.Some? then quorum.value else rs.lockedValue)
      && next.lockedRound == (if quorum.None? then rs.lockedRound
                              else if quorum.value.Some? then Some(rs.round) else None)
      && (next.validValue, next.validRound)
         == (if quorum.Some? && quorum.value.Some? then (quorum.value, Some(rs.round))
             else (rs.validValue, rs.validRound))
  {
  }

  /** What a precommit step leaves: a block with a quorum is committed and nothing
      else changes; otherwise the next round starts, with lock and memory kept. */
  lemma PrecommitsConclude(rs: RoundView, quorum: Option<Option<Hash32>>)
    ensures var (next, d) := AfterPrecommits(rs, quorum);
      && (forall b: Hash32 :: d == CommitBlock(b) <==> quorum == Some(Some(b)))
      && (d.CommitBlock? ==> next == rs)
      && (!d.CommitBlock? ==> d == NextRound(rs.round + 1) && next.round == rs.round + 1 && next.step == Propose)
      && (next.height, next.lockedValue, next.lockedRound, next.validValue, next.validRound)
         == (rs.height, rs.lockedValue, rs.lockedRound, rs.validValue, rs.validRound)
  {
  }

  class RoundState {
    const height: nat
    var round: nat
    var step: Step
    var lockedValue: Option<Hash32>
    var lockedRound: Option<nat>
    var validValue: Option<Hash32>
    var validRound: Option<nat>

    function View(): RoundView
      reads this
    {
      RoundView(height, round, step, lockedValue, lockedRound, validValue, validRound)
    }

    /** Locked values and valid values carry the round they were seen in, and a
        lock is never newer than the value a proposer would repeat. */
    ghost predicate Valid()
      reads this
    {
      && (lockedValue.Some? <==> lockedRound.Some?)
      && (validValue.Some? <==> validRound.Some?)
      && (lockedRound.Some? ==> lockedRound.value <= round)
      && (validRound.Some? ==> validRound.value <= round)
      && (lockedRound.Some? ==> lockedRound == validRound && lockedValue == validValue)
    }

    constructor (height: nat)
      ensures View() == Fresh(height) && Valid()
    {
      this.height, round, step := height, 0, Propose;
      lockedValue, lockedRound, validValue, validRound := None, None, None, None;
    }

    method DecidePrecommit(quorum: Option<Option<Hash32>>) returns (d: Decision)
      modifies this
      ensures old(Valid()) ==> Valid()
      ensures (View(), d) == AfterPrevotes(old(View()), quorum)
    {
      match quorum
      case Some(Some(value)) =>
        lockedValue := Some(value);
        lockedRound := Some(round);
        validValue := Some(value);
        validRound := Some(round);
        step := Precommitting;
        d := CastPrecommit(Some(value));
      case Some(None) =>
        lockedValue := None;
        lockedRound := None;
        step := Precommitting;
        d := CastPrecommit(None);
      case None =>
        step := Precommitting;
        d := CastPrecommit(None);
    }

    method DecideCommit(quorum: Option<Option<Hash32>>) returns (d: Decision)
      modifies this
      ensures old(Valid()) ==> Valid()
      ensures (View(), d) == AfterPrecommits(old(View()), quorum)
    {
      match quorum
      case Some(Some(value)) =>
        d := CommitBlock(value);
      case _ =>
        var next := round + 1;
        AdvanceTo(next);
        d := NextRound(next);
    }

    /** Locks survive a change of round. */
    method AdvanceTo(to: nat)
      modifies this
      ensures old(Valid()) && old(round) <= to ==> Valid()
      ensures View() == AdvancedTo(old(View()), to)
    {
      round := to;
      step := Propose;
    }

    /** A locked validator re-proposes the value it is locked on, naming the round
        that saw its quorum. */
    function ValueToPropose(newBlock: Hash32): (r: (Hash32, Option<nat>))
      reads this
      ensures Valid() && lockedValue.Some? ==> r == (lockedValue.value, lockedRound)
      ensures validValue.None? ==> r == (newBlock, None)
    {
      match validValue
      case Some(v) => (v, validRound)
      case None => (newBlock, None)
    }
  }
}
