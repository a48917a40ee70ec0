/** Step timers over runs: whatever is heard, in whatever order, a timer ends at
    most one step (crates/node/src/lib.rs, `start_round`, `arm`, `on_timeout`). */
module Timers {
  import opened Base
  import opened Validators
  import opened Votes
  import opened Rounds
  import opened Signing
  import opened Nodes

  type Timer = (nat, Step)

  /** The node has asked for the timer: a proposal timer when it began the round, another when it armed it. */
  predicate Asked(n: Node, t: Timer) {
    if t.1 == Propose then n.begun.Some? && t.0 <= n.begun.value else t in n.waits
  }

  predicate Spent(n: Node, t: Timer) { Asked(n, t) && t !in n.timers }

  /** Timers that may fire were asked for, and no round is begun before it is reached. */
  predicate Tidy(n: Node) {
    (n.begun.Some? ==> n.begun.value <= n.rs.round) && forall t :: t in n.timers ==> Asked(n, t)
  }

  /** From `n` to `m` nothing but timers never asked for is added. */
  predicate Grows(n: Node, m: Node) {
    && m.begun == n.begun && n.rs.round <= m.rs.round && n.waits <= m.waits
    && forall t :: t in m.timers ==> t in n.timers || (t !in n.waits && t in m.waits && t.1 != Propose)
  }

  lemma GrowsKeeps(n: Node, m: Node, t: Timer)
    requires Grows(n, m) && Tidy(n)
    ensures Tidy(m) && (Spent(n, t) ==> Spent(m, t))
  {
  }

  // -- what a node does -----------------------------------------------------

  lemma ArmGrows(n: Node, step: Step)
    requires step != Propose
    ensures Grows(n, Arm(n, step))
  {
  }

  lemma PrecommitsGrow(cfg: Setup, n: Node)
    ensures Grows(n, CountPrecommits(cfg, n))
  {
    ArmGrows(n, Precommitting);
  }

  lemma PrecommitGrows(cfg: Setup, who: Address, n: Node, v: Option<Hash32>)
    ensures Grows(n, EmitPrecommit(cfg, who, n, v).0)
  {
    var signed := Sign(cfg, who, n, Precommit, v);
    if signed.Some? {
      PrecommitsGrow(cfg, signed.value.0);
    }
  }

  lemma PrevotesGrow(cfg: Setup, who: Address, n: Node)
    ensures Grows(n, CountPrevotes(cfg, who, n).0)
  {
    var quorum := QuorumIn(cfg.vs, Held(n.inbox, n.rs.round, Prevote));
    ArmGrows(n, Prevoting);
    if quorum.Some? {
      var (rs, d) := AfterPrevotes(n.rs, quorum);
      PrecommitGrows(cfg, who, n.(rs := rs), d.value);
    }
  }

  lemma PrevoteGrows(cfg: Setup, who: Address, n: Node, v: Option<Hash32>)
    ensures Grows(n, EmitPrevote(cfg, who, n, v).0)
  {
    var signed := Sign(cfg, who, n, Prevote, v);
    if signed.Some? {
      PrevotesGrow(cfg, who, signed.value.0);
    }
  }

  lemma HearingGrows(cfg: Setup, who: Address, n: Node, p: Proposal)
    ensures Grows(n, Hear(cfg, who, n, p).0)
  {
    if p.round == n.rs.round && cfg.proposer(p.round) == p.proposer {
      PrevoteGrows(cfg, who, n.(proposals := n.proposals[p.round := p], rs := n.rs.(step := Prevoting)),
                   DecidePrevote(n.rs, Some(p.block), p.validRound, cfg.executes(p.block)).value);
    }
  }

  /** A round is begun once, and the proposal timer asked for then was never asked for before. */
  lemma BeginningKeeps(cfg: Setup, who: Address, n: Node, built: Hash32, t: Timer)
    requires Tidy(n)
    ensures var m := Begin(cfg, who, n, built).0; Tidy(m) && (Spent(n, t) ==> Spent(m, t))
  {
    if n.begun != Some(n.rs.round) {
      var n1 := n.(begun := Some(n.rs.round), lastStamp := Stamp(n.rs.round, Propose));
      var p := Offer(n, who, built);
      assert Tidy(n1) && (Spent(n, t) ==> Spent(n1, t));
      HearingGrows(cfg, who, n1, p);
      GrowsKeeps(n1, Hear(cfg, who, n1, p).0, t);
    }
  }

  /** A timer that fires is spent, and whatever else was spent stays so. */
  lemma FiringSpends(cfg: Setup, who: Address, n: Node, asked: nat, step: Step, t: Timer)
    requires Tidy(n) && (asked, step) in n.timers
    ensures var m := Timeout(cfg, who, n, asked, step).0;
      Tidy(m) && Spent(m, (asked, step)) && (Spent(n, t) ==> Spent(m, t))
  {
    var n1 := n.(timers := n.timers - {(asked, step)});
    var m := Timeout(cfg, who, n, asked, step).0;
    PrevoteGrows(cfg, who, n1.(rs := n1.rs.(step := Prevoting)), None);
    PrecommitGrows(cfg, who, n1.(rs := n1.rs.(step := Precommitting)), None);
    assert Tidy(n1) && Grows(n1, m);
    GrowsKeeps(n1, m, t);
    GrowsKeeps(n1, m, (asked, step));
  }

  lemma EventKeeps(cfg: Setup, pool: set<SignedVote>, offers: set<Proposal>, who: Address, n: Node, event: Event,
                   t: Timer)
    requires Tidy(n) && CanHappen(cfg, pool, offers, n, event)
    ensures var m := React(cfg, who, n, event).0; Tidy(m) && (Spent(n, t) ==> Spent(m, t))
  {
    match event
    case Start(built) => BeginningKeeps(cfg, who, n, built, t);
    case Offered(p) =>
      HearingGrows(cfg, who, n, p);
      GrowsKeeps(n, Hear(cfg, who, n, p).0, t);
    case Delivered(s) =>
      var n1 := n.(inbox := n.inbox + {s});
      PrevotesGrow(cfg, who, n1);
      PrecommitsGrow(cfg, n1);
      GrowsKeeps(n, Receive(cfg, who, n, s).0, t);
    case TimedOut(asked, step) => FiringSpends(cfg, who, n, asked, step, t);
    case Synced(_, _) =>
  }

  // -- every run ------------------------------------------------------------

  ghost predicate AllTidy(net: Network) { forall a :: a in net.nodes ==> Tidy(net.nodes[a]) }

  lemma ActKeeps(cfg: Setup, net: Network, act: Act, who: Address, t: Timer)
    requires AllTidy(net) && Enabled(cfg, net, act) && who in net.nodes
    ensures var next := Apply(cfg, net, act);
      AllTidy(next) && who in next.nodes && (Spent(net.nodes[who], t) ==> Spent(next.nodes[who], t))
  {
    if act.Happens? {
      EventKeeps(cfg, net.pool, net.offers, act.who, net.nodes[act.who], act.event, t);
    }
  }

  lemma {:induction false} RunKeeps(cfg: Setup, net: Network, acts: seq<Act>, who: Address, t: Timer)
    requires AllTidy(net) && Legal(cfg, net, acts) && who in net.nodes
    ensures var last := RunFrom(cfg, net, acts);
      AllTidy(last) && who in last.nodes && (Spent(net.nodes[who], t) ==> Spent(last.nodes[who], t))
    decreases |acts|
  {
    if acts != [] {
      ActKeeps(cfg, net, acts[0], who, t);
      RunKeeps(cfg, Apply(cfg, net, acts[0]), acts[1..], who, t);
    }
  }

  lemma {:induction false} RunIsTidy(cfg: Setup, net: Network, acts: seq<Act>)
    requires AllTidy(net) && Legal(cfg, net, acts)
    ensures AllTidy(RunFrom(cfg, net, acts))
    decreases |acts|
  {
    if acts != [] {
      if acts[0].Happens? {
        ActKeeps(cfg, net, acts[0], acts[0].who, (0, Propose));
      }
      RunIsTidy(cfg, Apply(cfg, net, acts[0]), acts[1..]);
    }
  }

  /** In every run, once a node's timer for a round and step has fired it never fires again. */
  lemma {:induction false} TimersFireOnce(cfg: Setup, acts: seq<Act>, more: seq<Act>, who: Address, asked: nat,
                                          step: Step)
    requires Legal(cfg, Init(cfg), acts)
    requires Enabled(cfg, RunFrom(cfg, Init(cfg), acts), Happens(who, TimedOut(asked, step)))
    requires Legal(cfg, Apply(cfg, RunFrom(cfg, Init(cfg), acts), Happens(who, TimedOut(asked, step))), more)
    ensures var fired := Apply(cfg, RunFrom(cfg, Init(cfg), acts), Happens(who, TimedOut(asked, step)));
      !Enabled(cfg, RunFrom(cfg, fired, more), Happens(who, TimedOut(asked, step)))
  {
    var net := RunFrom(cfg, Init(cfg), acts);
    RunIsTidy(cfg, Init(cfg), acts);
    ActKeeps(cfg, net, Happens(who, TimedOut(asked, step)), who, (asked, step));
    FiringSpends(cfg, who, net.nodes[who], asked, step, (asked, step));
    RunKeeps(cfg, Apply(cfg, net, Happens(who, TimedOut(asked, step))), more, who, (asked, step));
  }
}
