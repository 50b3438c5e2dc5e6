/** The grace laws in the runs of the daemon: from a capture on, the timers of a
    run are those of the laws. */
module Timers {
  import opened Wrappers
  import opened Allowances
  import D = Daemon
  import opened Socket
  import opened Standing
  import G = Grace
  import opened Machine

  /** The step is not the capture of a re-arm; a reload captures only buses
      without a baseline. */
  predicate NoRearm(s: Sys, e: Event) {
    e.Poll? ==> !s.pc.Rebaselining?
  }

  /** A re-arm's capture resets every timer, and reads what it is watched for. */
  lemma RearmResets(s: Sys, o: Oracle)
    requires s.pc.Rebaselining?
    ensures var t := Next(s, Poll(o));
            && (s.cfg.power.watch ==> PowerIn(t) == G.Power(D.IDLE, false, Some(o.hw.power)))
            && (s.cfg.network.watch ==> NetworkIn(t) == G.Network(D.IDLE, Some(o.hw.network)))
            && (s.cfg.lid.watch ==> LidIn(t) == G.Lid(D.IDLE, Some(o.hw.lid)))
  {
  }

  /** Requests touch neither timers nor baselines. */
  lemma RequestsKeepTimers(s: Sys, e: Event)
    requires e.Request?
    ensures var t := Next(s, e);
            && PowerIn(t) == PowerIn(s) && NetworkIn(t) == NetworkIn(s) && LidIn(t) == LidIn(s)
  {
    ApplyKeepsTimers(s.st, e.call.req, Uid(e.call.creds), e.call.now, s.identity);
  }

  lemma ApplyKeepsTimers(st: D.State, req: Request, uid: Option<nat>, now: Time, identity: bool)
    ensures var t := Apply(st, req, uid, now, identity).0;
            && t.power == st.power && t.triggerOnceFired == st.triggerOnceFired
            && t.network == st.network && t.lid == st.lid
  {
    match req
    case AllowLast(_) =>
    case Pair(_, _) =>
    case Revoke(_) =>
    case _ =>
  }

  /** Nor does the poll thread outside its captures and checks. */
  lemma OthersKeepTimers(s: Sys, o: Oracle)
    requires !s.pc.Rebaselining? && !s.pc.CapturingMissing? && !s.pc.Checking?
    ensures var t := PollStep(s, o);
            && PowerIn(t) == PowerIn(s) && NetworkIn(t) == NetworkIn(s) && LidIn(t) == LidIn(s)
  {
    match s.pc
    case Draining =>
    case Admitting(_, _) =>
    case _ =>
  }

  /** A reload leaves the timed buses that have a baseline. */
  lemma ReloadKeepsTimers(s: Sys, o: Oracle)
    requires s.pc.CapturingMissing?
    ensures var t := PollStep(s, o);
            && (s.cfg.power.watch && s.bl.power.Some? ==> PowerIn(t) == PowerIn(s))
            && (s.cfg.network.watch && s.bl.network.Some? ==> NetworkIn(t) == NetworkIn(s))
            && (s.cfg.lid.watch && s.bl.lid.Some? ==> LidIn(t) == LidIn(s))
  {
  }

  // ----- power -------------------------------------------------------------------------------

  function PowerIn(s: Sys): G.Power {
    G.Power(s.st.power, s.st.triggerOnceFired, s.bl.power)
  }

  function PowerReadingOf(o: Oracle): G.PowerReading {
    G.PowerReading(o.hw.power, o.locked, o.clock)
  }

  predicate ChecksPower(s: Sys, e: Event) {
    e.Poll? && s.pc == Checking(OfPower)
  }

  /** One step, for the power timer alone: a check takes a step of the law, and
      anything else leaves the timer. */
  ghost predicate PowerMoves(s: Sys, e: Event, t: Sys) {
    s.cfg.power.watch && s.bl.power.Some? ==>
      if ChecksPower(s, e) then
        var (after, fires) := G.PowerStep(s.cfg.power, PowerIn(s), PowerReadingOf(e.o));
        && PowerIn(t) == after && (t.pc.Admitting? <==> fires)
      else PowerIn(t) == PowerIn(s)
  }

  lemma PowerMovesInItsCheck(s: Sys, o: Oracle, stage: Stage)
    ensures PowerIn(CheckStep(s, o, stage)) ==
              if stage.OfPower? then G.PowerStep(s.cfg.power, PowerIn(s), PowerReadingOf(o)).0 else PowerIn(s)
    ensures stage.OfPower? ==>
              (CheckStep(s, o, stage).pc.Admitting? <==> G.PowerStep(s.cfg.power, PowerIn(s), PowerReadingOf(o)).1)
  {
    match stage
    case OfPower =>
    case OfNetwork =>
    case OfLid =>
    case _ =>
  }

  lemma StepMovesPower(s: Sys, e: Event)
    requires NoRearm(s, e) && Enabled(s, e)
    ensures PowerMoves(s, e, Next(s, e))
  {
    if e.Request? {
      RequestsKeepTimers(s, e);
    } else if s.pc.Checking? {
      PowerMovesInItsCheck(s, e.o, s.pc.stage);
    } else if s.pc.CapturingMissing? {
      ReloadKeepsTimers(s, e.o);
    } else {
      OthersKeepTimers(s, e.o);
    }
  }

  /** What the power checker read from step `k` up to `i`. */
  function PowerReadings(states: seq<Sys>, events: seq<Event>, k: nat, i: nat): seq<G.PowerReading>
    requires |states| == |events| + 1 && k <= i <= |events|
  {
    if i == k then []
    else
      PowerReadings(states, events, k, i - 1) +
      if ChecksPower(states[i - 1], events[i - 1]) then [PowerReadingOf(events[i - 1].o)] else []
  }

  /** Step `l` moves the timer by the law, under the policy `cfg`. */
  ghost predicate PowerMovesAt(states: seq<Sys>, events: seq<Event>, l: nat, cfg: G.PowerConfig)
    requires |states| == |events| + 1
  {
    l < |events| && states[l].cfg.power == cfg && PowerMoves(states[l], events[l], states[l + 1])
  }

  lemma RunMovesPower(states: seq<Sys>, events: seq<Event>, l: nat, cfg: G.PowerConfig)
    requires IsRun(states, events) && l < |events| && states[l].cfg.power == cfg && NoRearm(states[l], events[l])
    ensures PowerMovesAt(states, events, l, cfg)
  {
    assert StepAt(states, events, l);
    StepMovesPower(states[l], events[l]);
  }

  lemma PowerAfterOneMore(cfg: G.PowerConfig, baseline: PowerState, rs: seq<G.PowerReading>, r: G.PowerReading)
    ensures G.PowerAfter(cfg, baseline, rs + [r]) == G.PowerStep(cfg, G.PowerAfter(cfg, baseline, rs), r).0
  {
    assert (rs + [r])[..|rs|] == rs;
  }

  lemma {:induction false} PowerBaselineStays(cfg: G.PowerConfig, baseline: PowerState, rs: seq<G.PowerReading>)
    ensures G.PowerAfter(cfg, baseline, rs).baseline.Some?
  {
    if rs != [] {
      PowerBaselineStays(cfg, baseline, rs[..|rs| - 1]);
    }
  }

  /** From a capture in state `k` on, as long as the policy stands and nothing
      re-arms, the timer is what the law folds the readings into. */
  lemma {:induction false} PowerTracksItsReadings(states: seq<Sys>, events: seq<Event>, k: nat, i: nat,
                                                  cfg: G.PowerConfig, baseline: PowerState)
    requires |states| == |events| + 1 && k <= i <= |events| && cfg.watch
    requires PowerIn(states[k]) == G.Power(D.IDLE, false, Some(baseline))
    requires forall l :: k <= l < i ==> PowerMovesAt(states, events, l, cfg)
    ensures PowerIn(states[i]) == G.PowerAfter(cfg, baseline, PowerReadings(states, events, k, i))
  {
    if i > k {
      var before := PowerReadings(states, events, k, i - 1);
      PowerTracksItsReadings(states, events, k, i - 1, cfg, baseline);
      PowerBaselineStays(cfg, baseline, before);
      assert PowerMovesAt(states, events, i - 1, cfg);
      if ChecksPower(states[i - 1], events[i - 1]) {
        PowerAfterOneMore(cfg, baseline, before, PowerReadingOf(events[i - 1].o));
      } else {
        assert PowerReadings(states, events, k, i) == before;
      }
    }
  }

  lemma PowerLawOfMoves(states: seq<Sys>, events: seq<Event>, k: nat, i: nat, cfg: G.PowerConfig, baseline: PowerState)
    requires |states| == |events| + 1 && k <= i < |events| && cfg.watch
    requires PowerIn(states[k]) == G.Power(D.IDLE, false, Some(baseline))
    requires forall l :: k <= l <= i ==> PowerMovesAt(states, events, l, cfg)
    requires ChecksPower(states[i], events[i])
    requires G.Monotonic(G.PowerCalls(cfg, PowerReadings(states, events, k, i + 1)))
    ensures var rs := PowerReadings(states, events, k, i + 1);
            var n := |rs| - 1;
            && n >= 0
            && (states[i + 1].pc.Admitting? <==>
                  && !cfg.policy.Monitor? && baseline != Battery && G.Unattended(cfg, rs, n)
                  && (cfg.policy.TriggerOnce? ==> !G.UnattendedBefore(cfg, rs, n)))
            && (states[i + 1].st.power.grace.Some? <==> G.PowerWaits(cfg, baseline, rs, n))
  {
    var rs := PowerReadings(states, events, k, i + 1);
    var n := |rs| - 1;
    PowerTracksItsReadings(states, events, k, i, cfg, baseline);
    PowerTracksItsReadings(states, events, k, i + 1, cfg, baseline);
    PowerBaselineStays(cfg, baseline, PowerReadings(states, events, k, i));
    assert rs[..n + 1] == rs;
    assert rs[..n] == PowerReadings(states, events, k, i);
    assert PowerMovesAt(states, events, i, cfg);
    G.PowerLaw(cfg, baseline, rs, n);
  }

  /** The law of the power checker in a run: check `i` raises a violation exactly
      when the readings since the capture are overdue by the law. */
  lemma PowerLawInRuns(states: seq<Sys>, events: seq<Event>, k: nat, i: nat, cfg: G.PowerConfig, baseline: PowerState)
    requires IsRun(states, events) && k <= i < |events| && cfg.watch
    requires PowerIn(states[k]) == G.Power(D.IDLE, false, Some(baseline))
    requires forall l :: k <= l <= i ==> states[l].cfg.power == cfg && NoRearm(states[l], events[l])
    requires ChecksPower(states[i], events[i])
    requires G.Monotonic(G.PowerCalls(cfg, PowerReadings(states, events, k, i + 1)))
    ensures var rs := PowerReadings(states, events, k, i + 1);
            var n := |rs| - 1;
            && n >= 0
            && (states[i + 1].pc.Admitting? <==>
                  && !cfg.policy.Monitor? && baseline != Battery && G.Unattended(cfg, rs, n)
                  && (cfg.policy.TriggerOnce? ==> !G.UnattendedBefore(cfg, rs, n)))
            && (states[i + 1].st.power.grace.Some? <==> G.PowerWaits(cfg, baseline, rs, n))
  {
    forall l: nat | k <= l <= i ensures PowerMovesAt(states, events, l, cfg) {
      RunMovesPower(states, events, l, cfg);
    }
    PowerLawOfMoves(states, events, k, i, cfg, baseline);
  }

  // ----- network -------------------------------------------------------------------------------

  function NetworkIn(s: Sys): G.Network {
    G.Network(s.st.network, s.bl.network)
  }

  function LinkReadingOf(o: Oracle): G.LinkReading {
    G.LinkReading(o.hw.network, o.linkDown, o.clock)
  }

  predicate ChecksNetwork(s: Sys, e: Event) {
    e.Poll? && s.pc == Checking(OfNetwork)
  }

  /** One step, for the network timer alone: a check takes a step of the law, and
      anything else leaves the timer. */
  ghost predicate NetworkMoves(s: Sys, e: Event, t: Sys) {
    s.cfg.network.watch && s.bl.network.Some? ==>
      if ChecksNetwork(s, e) then
        var (after, fires) := G.NetworkStep(s.cfg.network, NetworkIn(s), LinkReadingOf(e.o));
        && NetworkIn(t) == after && (t.pc.Admitting? <==> fires)
        && G.IsLinkReport(e.o.hw.network, s.bl.network.value, e.o.linkDown)
      else NetworkIn(t) == NetworkIn(s)
  }

  lemma NetworkMovesInItsCheck(s: Sys, o: Oracle, stage: Stage)
    ensures NetworkIn(CheckStep(s, o, stage)) ==
              if stage.OfNetwork? then G.NetworkStep(s.cfg.network, NetworkIn(s), LinkReadingOf(o)).0 else NetworkIn(s)
    ensures stage.OfNetwork? ==>
              (CheckStep(s, o, stage).pc.Admitting? <==> G.NetworkStep(s.cfg.network, NetworkIn(s), LinkReadingOf(o)).1)
  {
    match stage
    case OfPower =>
    case OfNetwork =>
    case OfLid =>
    case _ =>
  }

  lemma StepMovesNetwork(s: Sys, e: Event)
    requires NoRearm(s, e) && Enabled(s, e)
    ensures NetworkMoves(s, e, Next(s, e))
  {
    if e.Request? {
      RequestsKeepTimers(s, e);
    } else if s.pc.Checking? {
      NetworkMovesInItsCheck(s, e.o, s.pc.stage);
    } else if s.pc.CapturingMissing? {
      ReloadKeepsTimers(s, e.o);
    } else {
      OthersKeepTimers(s, e.o);
    }
  }

  /** What the network checker read from step `k` up to `i`. */
  function LinkReadings(states: seq<Sys>, events: seq<Event>, k: nat, i: nat): seq<G.LinkReading>
    requires |states| == |events| + 1 && k <= i <= |events|
  {
    if i == k then []
    else
      LinkReadings(states, events, k, i - 1) +
      if ChecksNetwork(states[i - 1], events[i - 1]) then [LinkReadingOf(events[i - 1].o)] else []
  }

  /** Step `l` moves the timer by the law, under the policy `cfg`. */
  ghost predicate NetworkMovesAt(states: seq<Sys>, events: seq<Event>, l: nat, cfg: G.EventConfig)
    requires |states| == |events| + 1
  {
    l < |events| && states[l].cfg.network == cfg && NetworkMoves(states[l], events[l], states[l + 1])
  }

  lemma RunMovesNetwork(states: seq<Sys>, events: seq<Event>, l: nat, cfg: G.EventConfig)
    requires IsRun(states, events) && l < |events| && states[l].cfg.network == cfg && NoRearm(states[l], events[l])
    ensures NetworkMovesAt(states, events, l, cfg)
  {
    assert StepAt(states, events, l);
    StepMovesNetwork(states[l], events[l]);
  }

  lemma NetworkAfterOneMore(cfg: G.EventConfig, baseline: Links, rs: seq<G.LinkReading>, r: G.LinkReading)
    ensures G.NetworkAfter(cfg, baseline, rs + [r]) == G.NetworkStep(cfg, G.NetworkAfter(cfg, baseline, rs), r).0
  {
    assert (rs + [r])[..|rs|] == rs;
  }

  /** From a capture in state `k` on, as long as the policy stands and nothing
      re-arms, the timer is what the law folds the readings into. */
  lemma {:induction false} NetworkTracksItsReadings(states: seq<Sys>, events: seq<Event>, k: nat, i: nat,
                                                  cfg: G.EventConfig, baseline: Links)
    requires |states| == |events| + 1 && k <= i <= |events| && cfg.watch && cfg.policy.Kill?
    requires NetworkIn(states[k]) == G.Network(D.IDLE, Some(baseline))
    requires forall l :: k <= l < i ==> NetworkMovesAt(states, events, l, cfg)
    ensures NetworkIn(states[i]) == G.NetworkAfter(cfg, baseline, LinkReadings(states, events, k, i))
  {
    if i > k {
      var before := LinkReadings(states, events, k, i - 1);
      NetworkTracksItsReadings(states, events, k, i - 1, cfg, baseline);
      G.NetworkIsATimer(cfg, baseline, before);
      assert NetworkMovesAt(states, events, i - 1, cfg);
      if ChecksNetwork(states[i - 1], events[i - 1]) {
        NetworkAfterOneMore(cfg, baseline, before, LinkReadingOf(events[i - 1].o));
      } else {
        assert LinkReadings(states, events, k, i) == before;
      }
    }
  }

  /** What each of those checks reports is a true report against the captured
      links. */
  lemma {:induction false} LinkReportsAreTrue(states: seq<Sys>, events: seq<Event>, k: nat, i: nat,
                                              cfg: G.EventConfig, baseline: Links)
    requires |states| == |events| + 1 && k <= i <= |events| && cfg.watch && cfg.policy.Kill?
    requires NetworkIn(states[k]) == G.Network(D.IDLE, Some(baseline))
    requires forall l :: k <= l < i ==> NetworkMovesAt(states, events, l, cfg)
    ensures forall r :: r in LinkReadings(states, events, k, i) ==> G.IsLinkReport(r.links, baseline, r.change)
  {
    if i > k {
      var before := LinkReadings(states, events, k, i - 1);
      LinkReportsAreTrue(states, events, k, i - 1, cfg, baseline);
      NetworkTracksItsReadings(states, events, k, i - 1, cfg, baseline);
      G.NetworkIsATimer(cfg, baseline, before);
      assert NetworkMovesAt(states, events, i - 1, cfg);
      if !ChecksNetwork(states[i - 1], events[i - 1]) {
        assert LinkReadings(states, events, k, i) == before;
      }
    }
  }

  lemma NetworkLawOfMoves(states: seq<Sys>, events: seq<Event>, k: nat, i: nat, cfg: G.EventConfig, baseline: Links)
    requires |states| == |events| + 1 && k <= i < |events| && cfg.watch && cfg.policy.Kill?
    requires NetworkIn(states[k]) == G.Network(D.IDLE, Some(baseline))
    requires forall l :: k <= l <= i ==> NetworkMovesAt(states, events, l, cfg)
    requires ChecksNetwork(states[i], events[i])
    requires G.Monotonic(G.LinkCalls(LinkReadings(states, events, k, i + 1)))
    ensures var rs := LinkReadings(states, events, k, i + 1);
            && rs != []
            && (states[i + 1].pc.Admitting? <==> G.Overdue(cfg.graceSecs * D.SECOND, G.LinkCalls(rs), |rs| - 1))
            && (states[i + 1].st.network.grace.Some? <==>
                  G.DownLinks(events[i].o.hw.network, baseline) != {} && !states[i + 1].pc.Admitting?)
  {
    var rs := LinkReadings(states, events, k, i + 1);
    var n := |rs| - 1;
    NetworkTracksItsReadings(states, events, k, i, cfg, baseline);
    NetworkTracksItsReadings(states, events, k, i + 1, cfg, baseline);
    LinkReportsAreTrue(states, events, k, i + 1, cfg, baseline);
    G.NetworkIsATimer(cfg, baseline, LinkReadings(states, events, k, i));
    assert rs[..n] == LinkReadings(states, events, k, i) && rs[..n + 1] == rs;
    assert NetworkMovesAt(states, events, i, cfg);
    G.NetworkLaw(cfg, baseline, rs, n);
  }

  /** The law of the network checker in a run, with its countdown. */
  lemma NetworkLawInRuns(states: seq<Sys>, events: seq<Event>, k: nat, i: nat, cfg: G.EventConfig, baseline: Links)
    requires IsRun(states, events) && k <= i < |events| && cfg.watch && cfg.policy.Kill?
    requires NetworkIn(states[k]) == G.Network(D.IDLE, Some(baseline))
    requires forall l :: k <= l <= i ==> states[l].cfg.network == cfg && NoRearm(states[l], events[l])
    requires ChecksNetwork(states[i], events[i])
    requires G.Monotonic(G.LinkCalls(LinkReadings(states, events, k, i + 1)))
    ensures var rs := LinkReadings(states, events, k, i + 1);
            && rs != []
            && (states[i + 1].pc.Admitting? <==> G.Overdue(cfg.graceSecs * D.SECOND, G.LinkCalls(rs), |rs| - 1))
            && (states[i + 1].st.network.grace.Some? <==>
                  G.DownLinks(events[i].o.hw.network, baseline) != {} && !states[i + 1].pc.Admitting?)
  {
    forall l: nat | k <= l <= i ensures NetworkMovesAt(states, events, l, cfg) {
      RunMovesNetwork(states, events, l, cfg);
    }
    NetworkLawOfMoves(states, events, k, i, cfg, baseline);
  }

  // ----- lid -------------------------------------------------------------------------------

  function LidIn(s: Sys): G.Lid {
    G.Lid(s.st.lid, s.bl.lid)
  }

  function LidReadingOf(o: Oracle): G.LidReading {
    G.LidReading(o.hw.lid, o.clock)
  }

  predicate ChecksLid(s: Sys, e: Event) {
    e.Poll? && s.pc == Checking(OfLid)
  }

  /** One step, for the lid timer alone: a check takes a step of the law, and
      anything else leaves the timer. */
  ghost predicate LidMoves(s: Sys, e: Event, t: Sys) {
    s.cfg.lid.watch && s.bl.lid.Some? ==>
      if ChecksLid(s, e) then
        var (after, fires) := G.LidStep(s.cfg.lid, LidIn(s), LidReadingOf(e.o));
        && LidIn(t) == after && (t.pc.Admitting? <==> fires)
      else LidIn(t) == LidIn(s)
  }

  lemma LidMovesInItsCheck(s: Sys, o: Oracle, stage: Stage)
    ensures LidIn(CheckStep(s, o, stage)) ==
              if stage.OfLid? then G.LidStep(s.cfg.lid, LidIn(s), LidReadingOf(o)).0 else LidIn(s)
    ensures stage.OfLid? ==>
              (CheckStep(s, o, stage).pc.Admitting? <==> G.LidStep(s.cfg.lid, LidIn(s), LidReadingOf(o)).1)
  {
    match stage
    case OfPower =>
    case OfNetwork =>
    case OfLid =>
    case _ =>
  }

  lemma StepMovesLid(s: Sys, e: Event)
    requires NoRearm(s, e) && Enabled(s, e)
    ensures LidMoves(s, e, Next(s, e))
  {
    if e.Request? {
      RequestsKeepTimers(s, e);
    } else if s.pc.Checking? {
      LidMovesInItsCheck(s, e.o, s.pc.stage);
    } else if s.pc.CapturingMissing? {
      ReloadKeepsTimers(s, e.o);
    } else {
      OthersKeepTimers(s, e.o);
    }
  }

  /** What the lid checker read from step `k` up to `i`. */
  function LidReadings(states: seq<Sys>, events: seq<Event>, k: nat, i: nat): seq<G.LidReading>
    requires |states| == |events| + 1 && k <= i <= |events|
  {
    if i == k then []
    else
      LidReadings(states, events, k, i - 1) +
      if ChecksLid(states[i - 1], events[i - 1]) then [LidReadingOf(events[i - 1].o)] else []
  }

  /** Step `l` moves the timer by the law, under the policy `cfg`. */
  ghost predicate LidMovesAt(states: seq<Sys>, events: seq<Event>, l: nat, cfg: G.EventConfig)
    requires |states| == |events| + 1
  {
    l < |events| && states[l].cfg.lid == cfg && LidMoves(states[l], events[l], states[l + 1])
  }

  lemma RunMovesLid(states: seq<Sys>, events: seq<Event>, l: nat, cfg: G.EventConfig)
    requires IsRun(states, events) && l < |events| && states[l].cfg.lid == cfg && NoRearm(states[l], events[l])
    ensures LidMovesAt(states, events, l, cfg)
  {
    assert StepAt(states, events, l);
    StepMovesLid(states[l], events[l]);
  }

  lemma LidAfterOneMore(cfg: G.EventConfig, baseline: LidState, rs: seq<G.LidReading>, r: G.LidReading)
    ensures G.LidAfter(cfg, baseline, rs + [r]) == G.LidStep(cfg, G.LidAfter(cfg, baseline, rs), r).0
  {
    assert (rs + [r])[..|rs|] == rs;
  }

  /** From a capture in state `k` on, as long as the policy stands and nothing
      re-arms, the timer is what the law folds the readings into. */
  lemma {:induction false} LidTracksItsReadings(states: seq<Sys>, events: seq<Event>, k: nat, i: nat,
                                                  cfg: G.EventConfig, baseline: LidState)
    requires |states| == |events| + 1 && k <= i <= |events| && cfg.watch && cfg.policy.Kill?
    requires LidIn(states[k]) == G.Lid(D.IDLE, Some(baseline))
    requires forall l :: k <= l < i ==> LidMovesAt(states, events, l, cfg)
    ensures LidIn(states[i]) == G.LidAfter(cfg, baseline, LidReadings(states, events, k, i))
  {
    if i > k {
      var before := LidReadings(states, events, k, i - 1);
      LidTracksItsReadings(states, events, k, i - 1, cfg, baseline);
      G.LidIsATimer(cfg, baseline, before);
      assert LidMovesAt(states, events, i - 1, cfg);
      if ChecksLid(states[i - 1], events[i - 1]) {
        LidAfterOneMore(cfg, baseline, before, LidReadingOf(events[i - 1].o));
      } else {
        assert LidReadings(states, events, k, i) == before;
      }
    }
  }

  lemma LidLawOfMoves(states: seq<Sys>, events: seq<Event>, k: nat, i: nat, cfg: G.EventConfig, baseline: LidState)
    requires |states| == |events| + 1 && k <= i < |events| && cfg.watch && cfg.policy.Kill?
    requires LidIn(states[k]) == G.Lid(D.IDLE, Some(baseline))
    requires forall l :: k <= l <= i ==> LidMovesAt(states, events, l, cfg)
    requires ChecksLid(states[i], events[i])
    requires G.Monotonic(G.LidCalls(LidReadings(states, events, k, i + 1)))
    ensures var rs := LidReadings(states, events, k, i + 1);
            && rs != []
            && (states[i + 1].pc.Admitting? <==>
                  baseline != Closed && G.Overdue(cfg.graceSecs * D.SECOND, G.LidCalls(rs), |rs| - 1))
            && (states[i + 1].st.lid.grace.Some? <==>
                  baseline != Closed && events[i].o.hw.lid.Closed? && !states[i + 1].pc.Admitting?)
  {
    var rs := LidReadings(states, events, k, i + 1);
    var n := |rs| - 1;
    LidTracksItsReadings(states, events, k, i, cfg, baseline);
    LidTracksItsReadings(states, events, k, i + 1, cfg, baseline);
    G.LidIsATimer(cfg, baseline, LidReadings(states, events, k, i));
    assert rs[..n] == LidReadings(states, events, k, i) && rs[..n + 1] == rs;
    assert LidMovesAt(states, events, i, cfg);
    G.LidLaw(cfg, baseline, rs, n);
  }

  /** The law of the lid checker in a run, with its countdown. */
  lemma LidLawInRuns(states: seq<Sys>, events: seq<Event>, k: nat, i: nat, cfg: G.EventConfig, baseline: LidState)
    requires IsRun(states, events) && k <= i < |events| && cfg.watch && cfg.policy.Kill?
    requires LidIn(states[k]) == G.Lid(D.IDLE, Some(baseline))
    requires forall l :: k <= l <= i ==> states[l].cfg.lid == cfg && NoRearm(states[l], events[l])
    requires ChecksLid(states[i], events[i])
    requires G.Monotonic(G.LidCalls(LidReadings(states, events, k, i + 1)))
    ensures var rs := LidReadings(states, events, k, i + 1);
            && rs != []
            && (states[i + 1].pc.Admitting? <==>
                  baseline != Closed && G.Overdue(cfg.graceSecs * D.SECOND, G.LidCalls(rs), |rs| - 1))
            && (states[i + 1].st.lid.grace.Some? <==>
                  baseline != Closed && events[i].o.hw.lid.Closed? && !states[i + 1].pc.Admitting?)
  {
    forall l: nat | k <= l <= i ensures LidMovesAt(states, events, l, cfg) {
      RunMovesLid(states, events, l, cfg);
    }
    LidLawOfMoves(states, events, k, i, cfg, baseline);
  }
}
