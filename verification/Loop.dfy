/** The body of the poll loop (crates/plugkill/src/main.rs:674-856), shown to
    take the steps of the machine. */
module Loop {
  import opened Wrappers
  import opened Allowances
  import D = Daemon
  import Usb
  import opened Poll
  import opened Standing
  import opened Grace
  import opened Capture
  import opened Detect
  import opened Machine

  /** A run of the poll thread alone. */
  ghost function After(s: Sys, steps: seq<Oracle>): Sys {
    if steps == [] then s
    else Next(After(s, steps[..|steps| - 1]), Event.Poll(steps[|steps| - 1]))
  }

  ghost predicate Possible(s: Sys, steps: seq<Oracle>) {
    steps != [] ==>
      var n := |steps| - 1;
      Possible(s, steps[..n]) && Answers(After(s, steps[..n]), steps[n])
  }

  ghost predicate Matches(m: Sys, st: D.DaemonState, bl: Baselines, cfg: Config)
    reads st, st.allowances, bl
  {
    m.st == st.View() && m.bl == bl.View() && m.cfg == cfg
  }

  /** The program's state is where the machine is after `steps`. */
  ghost predicate Tracks(st: D.DaemonState, bl: Baselines, cfg: Config, start: Sys, steps: seq<Oracle>)
    reads st, st.allowances, bl
  {
    st.Valid() && Possible(start, steps) && Matches(After(start, steps), st, bl, cfg)
  }

  /** What the world answers in the course of one pass, each step of it asked
      anew. `idle` stands for the steps that ask nothing. */
  datatype World = World(
    drain: Oracle,
    capture: Oracle,
    load: Oracle,
    missing: Oracle,
    devices: Oracle,
    power: Oracle,
    network: Oracle,
    lid: Oracle,
    pci: Oracle,
    display: Oracle,
    record: Oracle,
    idle: Oracle
  )

  /** USB whitelist sums stay within 32 bits, whatever is allowed. */
  ghost predicate Sums(cfg: Config) {
    forall allowed :: Usb.Fits(cfg.usbListed, allowed)
  }

  lemma OneMore(start: Sys, steps: seq<Oracle>, o: Oracle)
    requires Possible(start, steps) && Answers(After(start, steps), o)
    ensures Possible(start, steps + [o])
    ensures After(start, steps + [o]) == PollStep(After(start, steps), o).(log := After(start, steps + [o]).log)
    ensures LastKill(start, steps + [o]) == KillIn(After(start, steps))
  {
  }

  /** The description the kill sequence is run with in this step, if it is. */
  ghost function KillIn(m: Sys): Option<string> {
    if m.pc.Handling? && m.st.mode.Enforce? then Some(m.pc.found.description) else None
  }

  ghost function LastKill(start: Sys, steps: seq<Oracle>): Option<string> {
    if steps == [] then None else KillIn(After(start, steps[..|steps| - 1]))
  }

  // ----- up to the decision ---------------------------------------------------------------

  method DrainPart(st: D.DaemonState, bl: Baselines, cfg: Config, o: Oracle, ghost m: Sys)
    returns (needsRebaseline: bool, armed: bool, kill: Option<string>)
    requires st.Valid() && Matches(m, st, bl, cfg) && m.pc.Draining?
    modifies st, st.allowances
    ensures st.Valid() && Matches(PollStep(m, o), st, bl, cfg)
    ensures PollStep(m, o).pass == Pass(o.now, armed, kill)
    ensures PollStep(m, o).pc == if needsRebaseline then Rebaselining else TakingReload
    ensures st.reloadPending == old(st.reloadPending)
  {
    needsRebaseline, armed, kill := DrainState(st, o.now, o.clock);
  }

  method CapturePart(st: D.DaemonState, bl: Baselines, cfg: Config, o: Oracle, now: Time, onlyMissing: bool,
                     ghost m: Sys)
    requires st.Valid() && Matches(m, st, bl, cfg) && m.pass.now == now
    requires m.pc == if onlyMissing then CapturingMissing else Rebaselining
    modifies st, bl
    ensures st.Valid() && Matches(PollStep(m, o), st, bl, cfg)
    ensures PollStep(m, o).pass == m.pass && PollStep(m, o).pc == if onlyMissing then Acting else TakingReload
    ensures st.reloadPending == old(st.reloadPending)
  {
    CaptureBaselines(cfg, bl, st, o.hw, onlyMissing, now);
  }

  /** Drain, re-capture after a re-arm, reload if asked to. */
  method Front(st: D.DaemonState, bl: Baselines, cfg: Config, w: World, ghost start: Sys)
    returns (cfg': Config, armed: bool, kill: Option<string>, ghost steps: seq<Oracle>)
    requires st.Valid() && Matches(start, st, bl, cfg) && start.pc.Draining?
    modifies st, st.allowances, bl
    ensures Tracks(st, bl, cfg', start, steps)
    ensures After(start, steps).pc.Acting? && After(start, steps).pass == Pass(w.drain.now, armed, kill)
    ensures cfg' == if old(st.reloadPending) && w.load.reload.Some? then w.load.reload.value else cfg
  {
    var needsRebaseline;
    OneMore(start, [], w.drain);
    needsRebaseline, armed, kill := DrainPart(st, bl, cfg, w.drain, start);
    steps := [] + [w.drain];
    if needsRebaseline {
      OneMore(start, steps, w.capture);
      CapturePart(st, bl, cfg, w.capture, w.drain.now, false, After(start, steps));
      steps := steps + [w.capture];
    }
    cfg', steps := ReloadPart(st, bl, cfg, w, start, steps);
  }

  method ReloadPart(st: D.DaemonState, bl: Baselines, cfg: Config, w: World, ghost start: Sys,
                    ghost before: seq<Oracle>)
    returns (cfg': Config, ghost steps: seq<Oracle>)
    requires Tracks(st, bl, cfg, start, before) && After(start, before).pc.TakingReload?
             && After(start, before).pass.now == w.drain.now
    modifies st, bl
    ensures Tracks(st, bl, cfg', start, steps)
    ensures After(start, steps).pc.Acting? && After(start, steps).pass == After(start, before).pass
    ensures cfg' == if old(st.reloadPending) && w.load.reload.Some? then w.load.reload.value else cfg
  {
    cfg', steps := cfg, before + [w.idle];
    OneMore(start, before, w.idle);
    if !st.reloadPending {
      return;
    }
    st.reloadPending := false;
    cfg', steps := LoadPart(st, bl, cfg, w, start, steps);
  }

  method LoadPart(st: D.DaemonState, bl: Baselines, cfg: Config, w: World, ghost start: Sys, ghost before: seq<Oracle>)
    returns (cfg': Config, ghost steps: seq<Oracle>)
    requires Tracks(st, bl, cfg, start, before) && After(start, before).pc.LoadingConfig?
             && After(start, before).pass.now == w.drain.now
    modifies st, bl
    ensures Tracks(st, bl, cfg', start, steps) && |before| < |steps|
    ensures After(start, steps).pc.Acting? && After(start, steps).pass == After(start, before).pass
    ensures cfg' == if w.load.reload.Some? then w.load.reload.value else cfg
  {
    cfg', steps := cfg, before + [w.load];
    OneMore(start, before, w.load);
    if w.load.reload.None? {
      return;
    }
    cfg' := w.load.reload.value;
    OneMore(start, steps, w.missing);
    CapturePart(st, bl, cfg', w.missing, w.drain.now, true, After(start, steps));
    steps := steps + [w.missing];
  }

  // ----- the checks -----------------------------------------------------------------------------

  method CheckPowerPart(st: D.DaemonState, bl: Baselines, cfg: Config, w: Oracle, ghost m: Sys)
    returns (violation: Option<D.Violation>)
    requires st.Valid() && Matches(m, st, bl, cfg) && m.pc == Checking(OfPower)
    modifies st`powerUnplugAt, st`powerGrace, st`powerTriggerOnceFired, bl`power
    ensures st.Valid() && Matches(PollStep(m, w), st, bl, cfg)
    ensures PollStep(m, w).pass == m.pass && PollStep(m, w).pc == Found(violation, Checking(OfNetwork))
  {
    var fires := CheckPower(st, bl, cfg.power, PowerReading(w.hw.power, w.locked, w.clock));
    violation := EventFound(fires, D.Bus.Power);
  }

  method CheckNetworkPart(st: D.DaemonState, bl: Baselines, cfg: Config, w: Oracle, ghost m: Sys)
    returns (violation: Option<D.Violation>, ghost o: Oracle)
    requires st.Valid() && Matches(m, st, bl, cfg) && m.pc == Checking(OfNetwork)
    modifies st`networkLinkDownAt, st`networkGrace, bl`network
    ensures Answers(m, o) && st.Valid() && Matches(PollStep(m, o), st, bl, cfg)
    ensures PollStep(m, o).pass == m.pass && PollStep(m, o).pc == Found(violation, Checking(OfLid))
  {
    var fires, change := CheckNetwork(st, bl, cfg.network, w.hw.network, w.clock);
    o := w.(linkDown := change);
    violation := EventFound(fires, D.Bus.Network);
  }

  method CheckLidPart(st: D.DaemonState, bl: Baselines, cfg: Config, w: Oracle, ghost m: Sys)
    returns (violation: Option<D.Violation>)
    requires st.Valid() && Matches(m, st, bl, cfg) && m.pc == Checking(OfLid)
    modifies st`lidCloseAt, st`lidGrace, bl`lid
    ensures st.Valid() && Matches(PollStep(m, w), st, bl, cfg)
    ensures PollStep(m, w).pass == m.pass && PollStep(m, w).pc == Found(violation, Checking(OfPci))
  {
    var fires := CheckLid(st, bl, cfg.lid, LidReading(w.hw.lid, w.clock));
    violation := EventFound(fires, D.Bus.Lid);
  }

  /** Power, network and lid, up to the first that fires. */
  method CheckTimers(st: D.DaemonState, bl: Baselines, cfg: Config, w: World, ghost start: Sys,
                     ghost before: seq<Oracle>)
    returns (violation: Option<D.Violation>, ghost steps: seq<Oracle>)
    requires Tracks(st, bl, cfg, start, before) && After(start, before).pc == Checking(OfPower)
    modifies st, bl
    ensures Tracks(st, bl, cfg, start, steps) && |before| < |steps|
    ensures After(start, steps).pc == Found(violation, Checking(OfPci))
            && After(start, steps).pass == After(start, before).pass
  {
    violation := CheckPowerPart(st, bl, cfg, w.power, After(start, before));
    OneMore(start, before, w.power);
    steps := before + [w.power];
    if violation.Some? {
      return;
    }
    ghost var o;
    violation, o := CheckNetworkPart(st, bl, cfg, w.network, After(start, steps));
    OneMore(start, steps, o);
    steps := steps + [o];
    if violation.Some? {
      return;
    }
    violation := CheckLidPart(st, bl, cfg, w.lid, After(start, steps));
    OneMore(start, steps, w.lid);
    steps := steps + [w.lid];
  }

  method CheckPciPart(st: D.DaemonState, bl: Baselines, cfg: Config, w: Oracle, now: Time, ghost m: Sys)
    returns (violation: Option<D.Violation>, ghost o: Oracle)
    requires st.Valid() && Matches(m, st, bl, cfg) && m.pc == Checking(OfPci) && m.pass.now == now
    modifies bl`pci
    ensures Answers(m, o) && st.Valid() && Matches(PollStep(m, o), st, bl, cfg)
    ensures PollStep(m, o).pass == m.pass && PollStep(m, o).pc == Found(violation, Checking(OfDisplay))
  {
    violation := CheckPci(cfg, bl, w.hw, Allowed(st.allowances.entries, now));
    o := w.(found := violation);
  }

  method CheckDisplayPart(st: D.DaemonState, bl: Baselines, cfg: Config, w: Oracle, now: Time, ghost m: Sys)
    returns (violation: Option<D.Violation>, ghost o: Oracle)
    requires st.Valid() && Matches(m, st, bl, cfg) && m.pc == Checking(OfDisplay) && m.pass.now == now
    modifies bl`display
    ensures Answers(m, o) && st.Valid() && Matches(PollStep(m, o), st, bl, cfg)
    ensures PollStep(m, o).pass == m.pass && PollStep(m, o).pc == Found(violation, Draining)
  {
    violation := CheckDisplay(cfg, bl, w.hw, Allowed(st.allowances.entries, now));
    o := w.(found := violation);
  }

  method CheckDevicesPart(st: D.DaemonState, bl: Baselines, cfg: Config, w: Oracle, now: Time, ghost m: Sys)
    returns (violation: Option<D.Violation>, ghost o: Oracle)
    requires st.Valid() && Matches(m, st, bl, cfg) && m.pc == Checking(OfDevices) && m.pass.now == now && Sums(cfg)
    ensures Answers(m, o) && st.Valid() && Matches(PollStep(m, o), st, bl, cfg)
    ensures PollStep(m, o).pass == m.pass && PollStep(m, o).pc == Found(violation, Checking(OfPower))
  {
    violation := DetectViolations(cfg, bl, w.hw, Allowed(st.allowances.entries, now));
    o := w.(found := violation);
  }

  /** Every bus in turn, up to the first violation. */
  method CheckBuses(st: D.DaemonState, bl: Baselines, cfg: Config, w: World, ghost start: Sys,
                    ghost before: seq<Oracle>)
    returns (violation: Option<D.Violation>, ghost steps: seq<Oracle>)
    requires Tracks(st, bl, cfg, start, before) && Sums(cfg)
    requires After(start, before).pc == Checking(OfDevices) && After(start, before).pass.now == w.drain.now
    modifies st, bl
    ensures Tracks(st, bl, cfg, start, steps) && |before| < |steps|
    ensures After(start, steps).pc == Found(violation, Draining)
            && After(start, steps).pass == After(start, before).pass
    ensures violation.None? ==> LastKill(start, steps).None?
  {
    ghost var o;
    violation, o := CheckDevicesPart(st, bl, cfg, w.devices, w.drain.now, After(start, before));
    OneMore(start, before, o);
    steps := before + [o];
    if violation.Some? {
      return;
    }
    violation, steps := CheckTimers(st, bl, cfg, w, start, steps);
    if violation.Some? {
      return;
    }
    violation, steps := CheckPorts(st, bl, cfg, w, start, steps);
  }

  /** PCI, then the displays. */
  method CheckPorts(st: D.DaemonState, bl: Baselines, cfg: Config, w: World, ghost start: Sys,
                    ghost before: seq<Oracle>)
    returns (violation: Option<D.Violation>, ghost steps: seq<Oracle>)
    requires Tracks(st, bl, cfg, start, before)
    requires After(start, before).pc == Checking(OfPci) && After(start, before).pass.now == w.drain.now
    modifies bl
    ensures Tracks(st, bl, cfg, start, steps) && |before| < |steps|
    ensures After(start, steps).pc == Found(violation, Draining)
            && After(start, steps).pass == After(start, before).pass
    ensures violation.None? ==> LastKill(start, steps).None?
  {
    ghost var o;
    violation, o := CheckPciPart(st, bl, cfg, w.pci, w.drain.now, After(start, before));
    OneMore(start, before, o);
    steps := before + [o];
    if violation.Some? {
      return;
    }
    violation, o := CheckDisplayPart(st, bl, cfg, w.display, w.drain.now, After(start, steps));
    OneMore(start, steps, o);
    steps := steps + [o];
  }

  // ----- acting on what was found -------------------------------------------------------------

  lemma {:induction false} IdentityStays(start: Sys, steps: seq<Oracle>)
    ensures After(start, steps).identity == start.identity
  {
    if steps != [] {
      IdentityStays(start, steps[..|steps| - 1]);
      NextKeepsIdentity(After(start, steps[..|steps| - 1]), steps[|steps| - 1]);
    }
  }

  lemma NextKeepsIdentity(s: Sys, o: Oracle)
    ensures PollStep(s, o).identity == s.identity
  {
  }

  method AdmitPart(st: D.DaemonState, bl: Baselines, cfg: Config, o: Oracle, now: Time, identity: bool,
                   found: D.Violation, remote: bool, ghost m: Sys)
    returns (kept: Option<D.Violation>)
    requires st.Valid() && Matches(m, st, bl, cfg) && m.pc == Admitting(found, remote) && m.pass.now == now
    requires m.identity == identity
    modifies st`pairing, st.allowances
    ensures st.Valid() && Matches(PollStep(m, o), st, bl, cfg)
    ensures PollStep(m, o).pc == if kept.Some? then Recording(found, remote) else Draining
    ensures kept.Some? ==> !Swallowed(found)
  {
    kept := AdmitOrKeep(st, found, now, identity);
  }

  method RecordPart(st: D.DaemonState, bl: Baselines, cfg: Config, w: Oracle, found: D.Violation, remote: bool,
                    ghost m: Sys)
    requires st.Valid() && Matches(m, st, bl, cfg) && m.pc == Recording(found, remote)
    requires !Swallowed(found)
    modifies st`violations
    ensures st.Valid() && Matches(PollStep(m, w), st, bl, cfg) && PollStep(m, w).pc == Handling(found, remote)
  {
    st.RecordViolation(found, w.wall);
  }

  method HandlePart(st: D.DaemonState, bl: Baselines, cfg: Config, w: Oracle, found: D.Violation, remote: bool,
                    ghost m: Sys)
    returns (proceed: bool)
    requires st.Valid() && Matches(m, st, bl, cfg) && m.pc == Handling(found, remote)
    modifies st`violationsLogged
    ensures st.Valid() && Matches(PollStep(m, w), st, bl, cfg) && PollStep(m, w).pc.Draining?
    ensures proceed <==> KillIn(m) == Some(found.description)
    ensures !proceed ==> KillIn(m).None?
  {
    proceed := HandleViolation(st);
  }

  /** Offer it to the pairing window, else record it and let the mode decide. */
  method Finish(st: D.DaemonState, bl: Baselines, cfg: Config, w: World, identity: bool, found: D.Violation,
                remote: bool,
                ghost start: Sys, ghost before: seq<Oracle>)
    returns (killed: Option<string>, ghost steps: seq<Oracle>)
    requires Tracks(st, bl, cfg, start, before) && start.identity == identity
    requires After(start, before).pc == Admitting(found, remote) && After(start, before).pass.now == w.drain.now
    modifies st, st.allowances
    ensures Tracks(st, bl, cfg, start, steps) && |before| < |steps| && After(start, steps).pc.Draining?
    ensures killed == LastKill(start, steps)
  {
    IdentityStays(start, before);
    OneMore(start, before, w.idle);
    var kept := AdmitPart(st, bl, cfg, w.idle, w.drain.now, identity, found, remote, After(start, before));
    steps := before + [w.idle];
    if kept.None? {
      return None, steps;
    }
    OneMore(start, steps, w.record);
    RecordPart(st, bl, cfg, w.record, found, remote, After(start, steps));
    steps := steps + [w.record];
    OneMore(start, steps, w.idle);
    var proceed := HandlePart(st, bl, cfg, w.idle, found, remote, After(start, steps));
    steps := steps + [w.idle];
    killed := if proceed then Some(found.description) else None;
  }

  /** Skip, kill or check. */
  method Decide(st: D.DaemonState, bl: Baselines, cfg: Config, w: World, identity: bool, armed: bool,
                kill: Option<string>,
                ghost start: Sys, ghost before: seq<Oracle>)
    returns (killed: Option<string>, ghost steps: seq<Oracle>)
    requires Tracks(st, bl, cfg, start, before) && start.identity == identity && Sums(cfg)
    requires After(start, before).pc.Acting? && After(start, before).pass == Pass(w.drain.now, armed, kill)
    modifies st, st.allowances, bl
    ensures Tracks(st, bl, cfg, start, steps) && |before| < |steps| && After(start, steps).pc.Draining?
    ensures killed == LastKill(start, steps)
  {
    OneMore(start, before, w.idle);
    steps := before + [w.idle];
    killed := None;
    match PollAction(kill, armed)
    case Skip =>
    case Kill(description) =>
      killed, steps := Finish(st, bl, cfg, w, identity, D.EventViolation(D.Bus.Relay, description), true, start, steps);
    case Check =>
      var violation;
      violation, steps := CheckBuses(st, bl, cfg, w, start, steps);
      if violation.Some? {
        killed, steps := Finish(st, bl, cfg, w, identity, violation.value, false, start, steps);
      }
  }

  /** One pass of the loop takes the machine from one drain to the next by
      steps it allows, and runs the kill sequence exactly when the machine
      does. */
  method PollPass(st: D.DaemonState, bl: Baselines, cfg: Config, w: World, identity: bool, ghost start: Sys)
    returns (cfg': Config, killed: Option<string>, ghost steps: seq<Oracle>)
    requires st.Valid() && Matches(start, st, bl, cfg) && start.pc.Draining? && start.identity == identity
    requires Sums(cfg) && (w.load.reload.Some? ==> Sums(w.load.reload.value))
    modifies st, st.allowances, bl
    ensures steps != [] && Tracks(st, bl, cfg', start, steps) && After(start, steps).pc.Draining?
    ensures killed == LastKill(start, steps)
    ensures cfg' == if old(st.reloadPending) && w.load.reload.Some? then w.load.reload.value else cfg
  {
    var armed, kill;
    cfg', armed, kill, steps := Front(st, bl, cfg, w, start);
    killed, steps := Decide(st, bl, cfg', w, identity, armed, kill, start, steps);
  }
}
