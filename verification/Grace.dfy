/** The three grace timers (crates/plugkill/src/main.rs:1278-1583) and link
    comparison (crates/plugkill-core/src/network.rs). */
module Grace {
  import opened Wrappers
  import opened Allowances
  import D = Daemon
  import opened Standing

  type Timer = D.Timer

  // ----- one timer -------------------------------------------------------------------

  /** One call of a checker: whether its condition holds, whether a lock
      requirement holds it back, and the clock. */
  datatype Call = Call(holds: bool, vetoed: bool, clock: Time, reason: string)

  function Elapsed(now: Time, since: Time): nat {
    if now > since then now - since else 0
  }

  /** The timer after a call, and whether the call fires. */
  function Step(t: Timer, grace: nat, c: Call): (Timer, bool) {
    if !c.holds then (D.IDLE, false)
    else
      var since := if t.since.Some? then t.since.value else c.clock;
      if !c.vetoed && Elapsed(c.clock, since) >= grace then (D.Timer(Some(since), None), true)
      else if c.vetoed then (D.Timer(Some(since), None), false)
      else (D.Timer(Some(since), Some(D.Grace(since + grace, c.reason))), false)
  }

  /** The timer after all of `calls`, from a fresh capture. */
  function After(grace: nat, calls: seq<Call>): Timer {
    if calls == [] then D.IDLE
    else Step(After(grace, calls[..|calls| - 1]), grace, calls[|calls| - 1]).0
  }

  predicate Fires(grace: nat, calls: seq<Call>, i: nat)
    requires i < |calls|
  {
    Step(After(grace, calls[..i]), grace, calls[i]).1
  }

  // ----- the law it obeys ------------------------------------------------------------

  ghost predicate Monotonic(calls: seq<Call>) {
    forall i, j :: 0 <= i <= j < |calls| ==> calls[i].clock <= calls[j].clock
  }

  /** The first call of the unbroken run that call `i` belongs to. */
  function RunStart(calls: seq<Call>, i: nat): (start: nat)
    requires i < |calls|
    ensures start <= i
    ensures calls[i].holds ==> forall k :: start <= k <= i ==> calls[k].holds
    ensures start > 0 ==> !calls[start - 1].holds
  {
    if i > 0 && calls[i - 1].holds then RunStart(calls, i - 1) else i
  }

  /** The condition has held without a break for the whole grace period, and
      nothing vetoes acting on it now. */
  predicate Overdue(grace: nat, calls: seq<Call>, i: nat)
    requires i < |calls|
  {
    calls[i].holds && !calls[i].vetoed && calls[i].clock - calls[RunStart(calls, i)].clock >= grace
  }

  lemma {:induction false} RunStartOfPrefix(calls: seq<Call>, n: nat, i: nat)
    requires i < n <= |calls|
    ensures RunStart(calls[..n], i) == RunStart(calls, i)
  {
  }

  /** The recorded start is the start of the run, through every veto. */
  lemma {:induction false} SinceIsRunStart(grace: nat, calls: seq<Call>)
    requires calls != []
    ensures var i := |calls| - 1;
            After(grace, calls).since == if calls[i].holds then Some(calls[RunStart(calls, i)].clock) else None
  {
    var i := |calls| - 1;
    if i > 0 {
      var before := calls[..i];
      SinceIsRunStart(grace, before);
      RunStartOfPrefix(calls, i, i - 1);
    }
  }

  /** The law: call `i` fires exactly when the condition has held, unbroken,
      for the grace period and no veto stands. A countdown stands exactly while
      an unvetoed run is younger than that; it ends at run start plus grace,
      which lies ahead. */
  lemma GraceLaw(grace: nat, calls: seq<Call>, i: nat)
    requires Monotonic(calls) && i < |calls|
    ensures Fires(grace, calls, i) <==> Overdue(grace, calls, i)
    ensures var t := After(grace, calls[..i + 1]);
            && (t.grace.Some? <==> calls[i].holds && !calls[i].vetoed && !Overdue(grace, calls, i))
            && (t.grace.Some? ==> calls[i].clock < t.grace.value.until == calls[RunStart(calls, i)].clock + grace)
  {
    var upto := calls[..i + 1];
    assert upto[..i] == calls[..i] && upto[i] == calls[i];
    SinceIsRunStart(grace, upto);
    RunStartOfPrefix(calls, i + 1, i);
    assert calls[RunStart(calls, i)].clock <= calls[i].clock;
    if i > 0 {
      SinceIsRunStart(grace, calls[..i]);
      RunStartOfPrefix(calls, i, i - 1);
    }
  }

  // ----- power ---------------------------------------------------------------------------

  datatype PowerPolicy = Monitor | TriggerOnce | AcRequired

  datatype PowerConfig = PowerConfig(watch: bool, policy: PowerPolicy, requireLocked: bool, graceSecs: nat)

  datatype Power = Power(timer: Timer, fired: bool, baseline: Option<PowerState>)

  /** A power reading, what is known of the session lock, and the clock. */
  datatype PowerReading = PowerReading(state: PowerState, locked: Option<bool>, clock: Time)

  function PowerCall(cfg: PowerConfig, r: PowerReading): Call {
    Call(r.state.Battery?, cfg.requireLocked && r.locked == Some(false), r.clock, "AC power removed")
  }

  function PowerStep(cfg: PowerConfig, p: Power, r: PowerReading): (Power, bool) {
    if !cfg.watch || p.baseline.None? then (p, false)
    else if cfg.policy.Monitor? then
      (p.(timer := p.timer.(grace := None), baseline := Some(r.state)), false)
    else if r.state.Battery? && ((cfg.policy.TriggerOnce? && p.fired) || p.baseline == Some(Battery)) then (p, false)
    else
      var (timer, fires) := Step(p.timer, cfg.graceSecs * D.SECOND, PowerCall(cfg, r));
      (p.(timer := timer, fired := p.fired || (fires && cfg.policy.TriggerOnce?)), fires)
  }

  /** The waiting part of a checker: whether the grace period is over. */
  method Wait(since: Option<Time>, graceSecs: nat, clock: Time, reason: string)
    returns (since': Option<Time>, grace: Option<D.Grace>, over: bool)
    ensures (D.Timer(since', grace), over)
            == Step(D.Timer(since, None), graceSecs * D.SECOND, Call(true, false, clock, reason))
  {
    since', grace, over := since, None, true;
    if graceSecs > 0 {
      match since
      case None =>
        since' := Some(clock);
        grace := Some(D.Grace(clock + graceSecs * D.SECOND, reason));
        over := false;
      case Some(start) =>
        if Elapsed(clock, start) < graceSecs * D.SECOND {
          grace := Some(D.Grace(start + graceSecs * D.SECOND, reason));
          over := false;
        }
    } else if since.None? {
      since' := Some(clock);
    }
  }

  ghost function PowerOf(st: D.DaemonState, bl: Baselines): Power
    reads st, bl
  {
    Power(D.Timer(st.powerUnplugAt, st.powerGrace), st.powerTriggerOnceFired, bl.power)
  }

  method CheckPower(st: D.DaemonState, bl: Baselines, cfg: PowerConfig, r: PowerReading) returns (fires: bool)
    modifies st`powerUnplugAt, st`powerGrace, st`powerTriggerOnceFired, bl`power
    ensures (PowerOf(st, bl), fires) == PowerStep(cfg, old(PowerOf(st, bl)), r)
  {
    if !cfg.watch || bl.power.None? {
      return false;
    }
    if cfg.policy.Monitor? {
      st.powerGrace := None;
      if r.state != bl.power.value {
        bl.power := Some(r.state);
      }
      return false;
    }
    if !r.state.Battery? {
      if st.powerUnplugAt.Some? {
        st.powerUnplugAt := None;
      }
      st.powerGrace := None;
      return false;
    }
    if cfg.policy.TriggerOnce? && st.powerTriggerOnceFired {
      return false;
    }
    if bl.power == Some(Battery) {
      return false;
    }
    if cfg.requireLocked && r.locked == Some(false) {
      if st.powerUnplugAt.None? {
        st.powerUnplugAt := Some(r.clock);
      }
      st.powerGrace := None;
      return false;
    }
    var over;
    st.powerUnplugAt, st.powerGrace, over := Wait(st.powerUnplugAt, cfg.graceSecs, r.clock, "AC power removed");
    if !over {
      return false;
    }
    if cfg.policy.TriggerOnce? {
      st.powerTriggerOnceFired := true;
    }
    fires := true;
  }

  function PowerCalls(cfg: PowerConfig, rs: seq<PowerReading>): seq<Call> {
    seq(|rs|, i requires 0 <= i < |rs| => PowerCall(cfg, rs[i]))
  }

  /** Power after all of `rs`, from a capture that read `baseline`. */
  function PowerAfter(cfg: PowerConfig, baseline: PowerState, rs: seq<PowerReading>): Power {
    if rs == [] then Power(D.IDLE, false, Some(baseline))
    else PowerStep(cfg, PowerAfter(cfg, baseline, rs[..|rs| - 1]), rs[|rs| - 1]).0
  }

  predicate PowerFires(cfg: PowerConfig, baseline: PowerState, rs: seq<PowerReading>, i: nat)
    requires i < |rs|
  {
    PowerStep(cfg, PowerAfter(cfg, baseline, rs[..i]), rs[i]).1
  }

  /** Battery for the whole grace period, with no session known to be open. */
  ghost predicate Unattended(cfg: PowerConfig, rs: seq<PowerReading>, i: nat)
    requires i < |rs|
  {
    Overdue(cfg.graceSecs * D.SECOND, PowerCalls(cfg, rs), i)
  }

  /** The power timer is the timer above until trigger-once has fired. */
  lemma {:induction false} PowerIsATimer(cfg: PowerConfig, baseline: PowerState, rs: seq<PowerReading>)
    requires cfg.watch && !cfg.policy.Monitor? && baseline != Battery
    ensures PowerAfter(cfg, baseline, rs).baseline == Some(baseline)
    ensures !PowerAfter(cfg, baseline, rs).fired ==>
              PowerAfter(cfg, baseline, rs).timer == After(cfg.graceSecs * D.SECOND, PowerCalls(cfg, rs))
    ensures PowerAfter(cfg, baseline, rs).fired <==>
              cfg.policy.TriggerOnce? && exists j {:trigger Fires(cfg.graceSecs * D.SECOND, PowerCalls(cfg, rs), j)} ::
                0 <= j < |rs| && Fires(cfg.graceSecs * D.SECOND, PowerCalls(cfg, rs), j)
    ensures PowerAfter(cfg, baseline, rs).fired ==> PowerAfter(cfg, baseline, rs).timer.grace.None?
  {
    if rs != [] {
      var n := |rs| - 1;
      PowerIsATimer(cfg, baseline, rs[..n]);
      var calls, before := PowerCalls(cfg, rs), PowerCalls(cfg, rs[..n]);
      assert calls[..n] == before;
      forall j: nat | j < n
        ensures Fires(cfg.graceSecs * D.SECOND, calls, j) == Fires(cfg.graceSecs * D.SECOND, before, j)
      {
        assert calls[..j] == before[..j];
      }
      assert Fires(cfg.graceSecs * D.SECOND, calls, n)
             == Step(After(cfg.graceSecs * D.SECOND, before), cfg.graceSecs * D.SECOND, calls[n]).1;
    }
  }

  /** Some call before the first `n` are over was overdue. */
  ghost predicate UnattendedBefore(cfg: PowerConfig, rs: seq<PowerReading>, n: nat)
    requires n <= |rs|
  {
    exists j {:trigger Unattended(cfg, rs, j)} :: 0 <= j < n && Unattended(cfg, rs, j)
  }

  /** Whether call `i` of the checker waits: on battery, with no session known to
      be open, on a bus that can fire, and not yet overdue. */
  ghost predicate PowerWaits(cfg: PowerConfig, baseline: PowerState, rs: seq<PowerReading>, i: nat)
    requires i < |rs|
  {
    && !cfg.policy.Monitor? && baseline != Battery
    && rs[i].state.Battery? && !(cfg.requireLocked && rs[i].locked == Some(false))
    && !Unattended(cfg, rs, i)
    && (cfg.policy.TriggerOnce? ==> !UnattendedBefore(cfg, rs, i))
  }

  /** With `ac-required` every overdue call fires; with `trigger-once` the first
      one only, until the next capture. A countdown stands after a call exactly
      while that call waits; it ends at run start plus grace, which lies ahead. */
  lemma PowerLaw(cfg: PowerConfig, baseline: PowerState, rs: seq<PowerReading>, i: nat)
    requires Monotonic(PowerCalls(cfg, rs)) && i < |rs| && cfg.watch
    ensures PowerFires(cfg, baseline, rs, i) <==>
              && !cfg.policy.Monitor? && baseline != Battery && Unattended(cfg, rs, i)
              && (cfg.policy.TriggerOnce? ==> !UnattendedBefore(cfg, rs, i))
    ensures var countdown := PowerAfter(cfg, baseline, rs[..i + 1]).timer.grace;
            && (countdown.Some? <==> PowerWaits(cfg, baseline, rs, i))
            && (countdown.Some? ==>
                  rs[i].clock < countdown.value.until
                  == rs[RunStart(PowerCalls(cfg, rs), i)].clock + cfg.graceSecs * D.SECOND)
  {
    if cfg.policy.Monitor? {
      MonitoredPowerIsIdle(cfg, baseline, rs[..i]);
      MonitoredPowerIsIdle(cfg, baseline, rs[..i + 1]);
    } else if baseline == Battery {
      CapturedOnBatteryNeverFires(cfg, rs[..i]);
      CapturedOnBatteryNeverFires(cfg, rs[..i + 1]);
    } else {
      UnattendedFires(cfg, baseline, rs, i);
      PowerCountdown(cfg, baseline, rs, i);
    }
  }

  /** Trigger-once has fired exactly when some call so far was overdue. */
  lemma FiredMeans(cfg: PowerConfig, baseline: PowerState, rs: seq<PowerReading>, n: nat)
    requires Monotonic(PowerCalls(cfg, rs)) && n <= |rs| && cfg.watch && !cfg.policy.Monitor? && baseline != Battery
    ensures PowerAfter(cfg, baseline, rs[..n]).fired <==> cfg.policy.TriggerOnce? && UnattendedBefore(cfg, rs, n)
    ensures PowerAfter(cfg, baseline, rs[..n]).baseline == Some(baseline)
    ensures if PowerAfter(cfg, baseline, rs[..n]).fired then PowerAfter(cfg, baseline, rs[..n]).timer.grace.None?
            else PowerAfter(cfg, baseline, rs[..n]).timer == After(cfg.graceSecs * D.SECOND, PowerCalls(cfg, rs)[..n])
  {
    var grace, calls, before := cfg.graceSecs * D.SECOND, PowerCalls(cfg, rs), PowerCalls(cfg, rs[..n]);
    assert calls[..n] == before;
    forall j: nat | j < n ensures Fires(grace, before, j) == Unattended(cfg, rs, j) {
      assert calls[..j] == before[..j];
      GraceLaw(grace, calls, j);
    }
    PowerIsATimer(cfg, baseline, rs[..n]);
  }

  lemma UnattendedFires(cfg: PowerConfig, baseline: PowerState, rs: seq<PowerReading>, i: nat)
    requires Monotonic(PowerCalls(cfg, rs)) && i < |rs| && cfg.watch && !cfg.policy.Monitor? && baseline != Battery
    ensures PowerFires(cfg, baseline, rs, i) <==>
              && Unattended(cfg, rs, i)
              && (cfg.policy.TriggerOnce? ==> !UnattendedBefore(cfg, rs, i))
  {
    FiredMeans(cfg, baseline, rs, i);
    GraceLaw(cfg.graceSecs * D.SECOND, PowerCalls(cfg, rs), i);
  }

  lemma PowerCountdown(cfg: PowerConfig, baseline: PowerState, rs: seq<PowerReading>, i: nat)
    requires Monotonic(PowerCalls(cfg, rs)) && i < |rs| && cfg.watch && !cfg.policy.Monitor? && baseline != Battery
    ensures var countdown := PowerAfter(cfg, baseline, rs[..i + 1]).timer.grace;
            && (countdown.Some? <==> PowerWaits(cfg, baseline, rs, i))
            && (countdown.Some? ==>
                  rs[i].clock < countdown.value.until
                  == rs[RunStart(PowerCalls(cfg, rs), i)].clock + cfg.graceSecs * D.SECOND)
  {
    FiredMeans(cfg, baseline, rs, i + 1);
    GraceLaw(cfg.graceSecs * D.SECOND, PowerCalls(cfg, rs), i);
    assert UnattendedBefore(cfg, rs, i + 1) <==> UnattendedBefore(cfg, rs, i) || Unattended(cfg, rs, i);
  }

  lemma {:induction false} CapturedOnBatteryNeverFires(cfg: PowerConfig, rs: seq<PowerReading>)
    requires cfg.watch && !cfg.policy.Monitor?
    ensures PowerAfter(cfg, Battery, rs) == Power(D.IDLE, false, Some(Battery))
  {
    if rs != [] {
      CapturedOnBatteryNeverFires(cfg, rs[..|rs| - 1]);
    }
  }

  lemma {:induction false} MonitoredPowerIsIdle(cfg: PowerConfig, baseline: PowerState, rs: seq<PowerReading>)
    requires cfg.watch && cfg.policy.Monitor?
    ensures PowerAfter(cfg, baseline, rs).baseline == Some(if rs == [] then baseline else rs[|rs| - 1].state)
    ensures PowerAfter(cfg, baseline, rs).timer.grace.None?
  {
    if rs != [] {
      MonitoredPowerIsIdle(cfg, baseline, rs[..|rs| - 1]);
    }
  }

  // ----- network ---------------------------------------------------------------------------

  datatype Policy = Kill | Watch

  datatype EventConfig = EventConfig(watch: bool, policy: Policy, graceSecs: nat)

  /** Up in the baseline, and down or gone now. */
  predicate WentDown(current: Links, baseline: Links, iface: string) {
    iface in baseline && baseline[iface].Up? && (iface !in current || current[iface].Down?)
  }

  function DownLinks(current: Links, baseline: Links): set<string> {
    set iface | iface in baseline && WentDown(current, baseline, iface)
  }

  /** What counts as lost: a link that was up at capture and now reads down, or
      is not there at all. One that was down at capture, or is new, or reads
      neither up nor down, does not count. */
  lemma LostLinksMean(current: Links, baseline: Links)
    ensures forall i :: i in baseline && baseline[i] == Up && i !in current ==> i in DownLinks(current, baseline)
    ensures forall i :: i in baseline && baseline[i] == Up && i in current && current[i] == Down ==>
              i in DownLinks(current, baseline)
    ensures forall i :: i in DownLinks(current, baseline) ==> i in baseline && baseline[i] == Up
    ensures forall i :: i in current && current[i] != Down ==> i !in DownLinks(current, baseline)
    ensures DownLinks(baseline, baseline) == {}
  {
  }

  /** `change` is a report the comparison may give. */
  predicate IsLinkReport(current: Links, baseline: Links, change: Option<string>) {
    match change
    case None => DownLinks(current, baseline) == {}
    case Some(iface) => iface in DownLinks(current, baseline)
  }

  method DetectLinkDown(current: Links, baseline: Links) returns (change: Option<string>)
    ensures IsLinkReport(current, baseline, change)
  {
    var left := baseline.Keys;
    while left != {}
      invariant left <= baseline.Keys
      invariant DownLinks(current, baseline) <= left
      decreases left
    {
      var iface :| iface in left;
      if baseline[iface].Up? && (iface !in current || current[iface].Down?) {
        return Some(iface);
      }
      left := left - {iface};
    }
    change := None;
  }

  /** The number `status` reports: it is above zero exactly when the checker has
      something to report. */
  method LinksDown(current: Links, baseline: Option<Links>) returns (count: nat)
    ensures count == if baseline.Some? then |DownLinks(current, baseline.value)| else 0
  {
    if baseline.None? {
      return 0;
    }
    var left := baseline.value.Keys;
    ghost var seen := {};
    count := 0;
    while left != {}
      invariant left <= baseline.value.Keys && count == |seen|
      invariant forall iface :: iface in seen <==> WentDown(current, baseline.value, iface) && iface !in left
      decreases left
    {
      var iface :| iface in left;
      left := left - {iface};
      if WentDown(current, baseline.value, iface) {
        count := count + 1;
        seen := seen + {iface};
      }
    }
    assert seen == DownLinks(current, baseline.value);
  }

  datatype Network = Network(timer: Timer, baseline: Option<Links>)

  datatype LinkReading = LinkReading(links: Links, change: Option<string>, clock: Time)

  function LinkCall(r: LinkReading): Call {
    Call(r.change.Some?, false, r.clock, "link down on " + if r.change.Some? then r.change.value else "")
  }

  function NetworkStep(cfg: EventConfig, n: Network, r: LinkReading): (Network, bool) {
    if !cfg.watch || n.baseline.None? then (n, false)
    else if r.change.Some? && cfg.policy.Watch? then
      (n.(timer := n.timer.(grace := None), baseline := Some(r.links)), false)
    else
      var (timer, fires) := Step(n.timer, cfg.graceSecs * D.SECOND, LinkCall(r));
      (n.(timer := timer), fires)
  }

  ghost function NetworkOf(st: D.DaemonState, bl: Baselines): Network
    reads st, bl
  {
    Network(D.Timer(st.networkLinkDownAt, st.networkGrace), bl.network)
  }

  method CheckNetwork(st: D.DaemonState, bl: Baselines, cfg: EventConfig, links: Links, clock: Time)
    returns (fires: bool, change: Option<string>)
    modifies st`networkLinkDownAt, st`networkGrace, bl`network
    ensures old(bl.network).Some? && cfg.watch ==> IsLinkReport(links, old(bl.network).value, change)
    ensures (NetworkOf(st, bl), fires) == NetworkStep(cfg, old(NetworkOf(st, bl)), LinkReading(links, change, clock))
  {
    if !cfg.watch || bl.network.None? {
      return false, None;
    }
    change := DetectLinkDown(links, bl.network.value);
    if change.None? {
      if st.networkLinkDownAt.Some? {
        st.networkLinkDownAt := None;
      }
      st.networkGrace := None;
      return false, None;
    }
    if cfg.policy.Watch? {
      st.networkGrace := None;
      bl.network := Some(links);
      return false, change;
    }
    st.networkLinkDownAt, st.networkGrace, fires :=
      Wait(st.networkLinkDownAt, cfg.graceSecs, clock, "link down on " + change.value);
  }

  function NetworkAfter(cfg: EventConfig, baseline: Links, rs: seq<LinkReading>): Network {
    if rs == [] then Network(D.IDLE, Some(baseline))
    else NetworkStep(cfg, NetworkAfter(cfg, baseline, rs[..|rs| - 1]), rs[|rs| - 1]).0
  }

  predicate NetworkFires(cfg: EventConfig, baseline: Links, rs: seq<LinkReading>, i: nat)
    requires i < |rs|
  {
    NetworkStep(cfg, NetworkAfter(cfg, baseline, rs[..i]), rs[i]).1
  }

  function LinkCalls(rs: seq<LinkReading>): seq<Call> {
    seq(|rs|, i requires 0 <= i < |rs| => LinkCall(rs[i]))
  }

  lemma {:induction false} NetworkIsATimer(cfg: EventConfig, baseline: Links, rs: seq<LinkReading>)
    requires cfg.watch && cfg.policy.Kill?
    ensures NetworkAfter(cfg, baseline, rs) == Network(After(cfg.graceSecs * D.SECOND, LinkCalls(rs)), Some(baseline))
  {
    if rs != [] {
      var n := |rs| - 1;
      NetworkIsATimer(cfg, baseline, rs[..n]);
      assert LinkCalls(rs)[..n] == LinkCalls(rs[..n]);
    }
  }

  /** A call fires exactly when in every call for the whole grace period some
      link that was up is down, not necessarily the same one each time; before
      that a countdown stands, from the first of those calls. */
  lemma NetworkLaw(cfg: EventConfig, baseline: Links, rs: seq<LinkReading>, i: nat)
    requires Monotonic(LinkCalls(rs)) && i < |rs| && cfg.watch && cfg.policy.Kill?
    requires forall k :: 0 <= k < |rs| ==> IsLinkReport(rs[k].links, baseline, rs[k].change)
    ensures NetworkFires(cfg, baseline, rs, i) <==> Overdue(cfg.graceSecs * D.SECOND, LinkCalls(rs), i)
    ensures forall k :: 0 <= k < |rs| ==> (LinkCalls(rs)[k].holds <==> DownLinks(rs[k].links, baseline) != {})
    ensures var countdown := NetworkAfter(cfg, baseline, rs[..i + 1]).timer.grace;
            && (countdown.Some? <==> DownLinks(rs[i].links, baseline) != {} && !NetworkFires(cfg, baseline, rs, i))
            && (countdown.Some? ==>
                  rs[i].clock < countdown.value.until
                  == rs[RunStart(LinkCalls(rs), i)].clock + cfg.graceSecs * D.SECOND)
  {
    NetworkIsATimer(cfg, baseline, rs[..i]);
    NetworkIsATimer(cfg, baseline, rs[..i + 1]);
    assert LinkCalls(rs)[..i] == LinkCalls(rs[..i]) && LinkCalls(rs)[..i + 1] == LinkCalls(rs[..i + 1]);
    GraceLaw(cfg.graceSecs * D.SECOND, LinkCalls(rs), i);
    forall k | 0 <= k < |rs| ensures LinkCalls(rs)[k].holds <==> DownLinks(rs[k].links, baseline) != {} {
      assert IsLinkReport(rs[k].links, baseline, rs[k].change);
    }
  }

  /** With one second of grace, a cable out for one call and the radio down for
      the next: the second call fires, although no link was down for longer
      than it took to see the other. */
  lemma TwoLinksShareATimer()
    ensures var cfg := EventConfig(true, Kill, 1);
            var baseline: Links := map["eth0" := Up, "wlan0" := Up];
            var cable := LinkReading(map["eth0" := Down, "wlan0" := Up], Some("eth0"), 0);
            var radio := LinkReading(map["eth0" := Up, "wlan0" := Down], Some("wlan0"), D.SECOND);
            && IsLinkReport(cable.links, baseline, cable.change) && IsLinkReport(radio.links, baseline, radio.change)
            && DownLinks(cable.links, baseline) !! DownLinks(radio.links, baseline)
            && NetworkFires(cfg, baseline, [cable, radio], 1)
  {
    var cfg := EventConfig(true, Kill, 1);
    var baseline: Links := map["eth0" := Up, "wlan0" := Up];
    var cable := LinkReading(map["eth0" := Down, "wlan0" := Up], Some("eth0"), 0);
    var radio := LinkReading(map["eth0" := Up, "wlan0" := Down], Some("wlan0"), D.SECOND);
    assert [cable, radio][..1] == [cable];
    assert NetworkAfter(cfg, baseline, [cable]).timer.since == Some(0);
  }

  /** In monitor mode the baseline moves, nothing fires and nothing counts down. */
  lemma {:induction false} MonitoredNetworkIsIdle(cfg: EventConfig, baseline: Links, rs: seq<LinkReading>)
    requires cfg.watch && cfg.policy.Watch?
    ensures NetworkAfter(cfg, baseline, rs).baseline.Some? && NetworkAfter(cfg, baseline, rs).timer.grace.None?
    ensures rs != [] ==> !NetworkFires(cfg, baseline, rs, |rs| - 1)
    ensures rs != [] && rs[|rs| - 1].change.Some? ==>
              NetworkAfter(cfg, baseline, rs).baseline == Some(rs[|rs| - 1].links)
  {
    if rs != [] {
      MonitoredNetworkIsIdle(cfg, baseline, rs[..|rs| - 1]);
    }
  }

  // ----- lid ---------------------------------------------------------------------------------

  datatype Lid = Lid(timer: Timer, baseline: Option<LidState>)

  datatype LidReading = LidReading(state: LidState, clock: Time)

  function LidCall(r: LidReading): Call {
    Call(r.state.Closed?, false, r.clock, "lid closed")
  }

  function LidStep(cfg: EventConfig, l: Lid, r: LidReading): (Lid, bool) {
    if !cfg.watch || l.baseline.None? then (l, false)
    else if r.state.Closed? && l.baseline == Some(Closed) then (l, false)
    else if r.state.Closed? && cfg.policy.Watch? then
      (l.(timer := l.timer.(grace := None), baseline := Some(Closed)), false)
    else
      var (timer, fires) := Step(l.timer, cfg.graceSecs * D.SECOND, LidCall(r));
      (l.(timer := timer), fires)
  }

  ghost function LidOf(st: D.DaemonState, bl: Baselines): Lid
    reads st, bl
  {
    Lid(D.Timer(st.lidCloseAt, st.lidGrace), bl.lid)
  }

  method CheckLid(st: D.DaemonState, bl: Baselines, cfg: EventConfig, r: LidReading) returns (fires: bool)
    modifies st`lidCloseAt, st`lidGrace, bl`lid
    ensures (LidOf(st, bl), fires) == LidStep(cfg, old(LidOf(st, bl)), r)
  {
    if !cfg.watch || bl.lid.None? {
      return false;
    }
    if !r.state.Closed? {
      if st.lidCloseAt.Some? {
        st.lidCloseAt := None;
      }
      st.lidGrace := None;
      return false;
    }
    if bl.lid == Some(Closed) {
      return false;
    }
    if cfg.policy.Watch? {
      st.lidGrace := None;
      bl.lid := Some(r.state);
      return false;
    }
    st.lidCloseAt, st.lidGrace, fires := Wait(st.lidCloseAt, cfg.graceSecs, r.clock, "lid closed");
  }

  function LidAfter(cfg: EventConfig, baseline: LidState, rs: seq<LidReading>): Lid {
    if rs == [] then Lid(D.IDLE, Some(baseline))
    else LidStep(cfg, LidAfter(cfg, baseline, rs[..|rs| - 1]), rs[|rs| - 1]).0
  }

  predicate LidFires(cfg: EventConfig, baseline: LidState, rs: seq<LidReading>, i: nat)
    requires i < |rs|
  {
    LidStep(cfg, LidAfter(cfg, baseline, rs[..i]), rs[i]).1
  }

  function LidCalls(rs: seq<LidReading>): seq<Call> {
    seq(|rs|, i requires 0 <= i < |rs| => LidCall(rs[i]))
  }

  lemma {:induction false} LidIsATimer(cfg: EventConfig, baseline: LidState, rs: seq<LidReading>)
    requires cfg.watch && cfg.policy.Kill?
    ensures baseline != Closed ==>
              LidAfter(cfg, baseline, rs) == Lid(After(cfg.graceSecs * D.SECOND, LidCalls(rs)), Some(baseline))
    ensures baseline == Closed ==> LidAfter(cfg, baseline, rs) == Lid(D.IDLE, Some(Closed))
  {
    if rs != [] {
      var n := |rs| - 1;
      LidIsATimer(cfg, baseline, rs[..n]);
      assert LidCalls(rs)[..n] == LidCalls(rs[..n]);
    }
  }

  /** A call fires exactly when the lid was not closed at capture and has read
      closed in every call for the whole grace period; before that a countdown
      stands, from the first of those calls. */
  lemma LidLaw(cfg: EventConfig, baseline: LidState, rs: seq<LidReading>, i: nat)
    requires Monotonic(LidCalls(rs)) && i < |rs| && cfg.watch && cfg.policy.Kill?
    ensures LidFires(cfg, baseline, rs, i) <==>
              baseline != Closed && Overdue(cfg.graceSecs * D.SECOND, LidCalls(rs), i)
    ensures var countdown := LidAfter(cfg, baseline, rs[..i + 1]).timer.grace;
            && (countdown.Some? <==> baseline != Closed && rs[i].state.Closed? && !LidFires(cfg, baseline, rs, i))
            && (countdown.Some? ==>
                  rs[i].clock < countdown.value.until == rs[RunStart(LidCalls(rs), i)].clock + cfg.graceSecs * D.SECOND)
  {
    LidIsATimer(cfg, baseline, rs[..i]);
    LidIsATimer(cfg, baseline, rs[..i + 1]);
    assert LidCalls(rs)[..i] == LidCalls(rs[..i]) && LidCalls(rs)[..i + 1] == LidCalls(rs[..i + 1]);
    GraceLaw(cfg.graceSecs * D.SECOND, LidCalls(rs), i);
  }

  /** In monitor mode nothing fires and nothing counts down; a closed lid becomes
      the baseline. */
  lemma {:induction false} MonitoredLidIsIdle(cfg: EventConfig, baseline: LidState, rs: seq<LidReading>)
    requires cfg.watch && cfg.policy.Watch?
    ensures LidAfter(cfg, baseline, rs).baseline
            == Some(if exists r :: r in rs && r.state.Closed? then Closed else baseline)
    ensures LidAfter(cfg, baseline, rs).timer.grace.None?
    ensures rs != [] ==> !LidFires(cfg, baseline, rs, |rs| - 1)
  {
    if rs != [] {
      MonitoredLidIsIdle(cfg, baseline, rs[..|rs| - 1]);
    }
  }
}
