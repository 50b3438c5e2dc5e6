/** The poll thread as a program counter, interleaved with socket handlers
    (crates/plugkill/src/main.rs:670-862). Each step is what one thread does
    while it holds the locks it takes for it. */
module Machine {
  import opened Wrappers
  import opened Allowances
  import D = Daemon
  import opened Socket
  import opened Poll
  import opened Standing
  import opened Grace
  import opened Capture
  import opened Detect

  datatype Stage = OfDevices | OfPower | OfNetwork | OfLid | OfPci | OfDisplay

  datatype Pc =
    | Draining
    | Rebaselining
    | TakingReload
    | LoadingConfig
    | CapturingMissing
    | Acting
    | Checking(stage: Stage)
    | Admitting(found: D.Violation, remote: bool)
    | Recording(found: D.Violation, remote: bool)
    | Handling(found: D.Violation, remote: bool)

  /** What the drain handed to the rest of the pass. */
  datatype Pass = Pass(now: Time, armed: bool, kill: Option<string>)

  /** The step at which each baseline was last read from the machine. */
  datatype Taken = Taken(usb: nat, thunderbolt: nat, sdcard: nat, power: nat, network: nat, lid: nat, pci: nat,
                         display: nat)

  /** History: written by every step, read by none. */
  datatype Log = Log(
    step: nat,
    taken: Taken,
    pciFailed: nat,
    rearmed: nat,
    drainSaw: nat,
    disarmedAt: Time,
    windows: nat,
    admitted: nat,
    kills: nat
  )

  /** `identity`: whether the platform can identify monitors. */
  datatype Sys = Sys(st: D.State, cfg: Config, bl: Snapshots, pc: Pc, pass: Pass, identity: bool, log: Log)

  /** What the world answers in one step of the poll thread. */
  datatype Oracle = Oracle(
    now: Time,
    clock: Time,
    hw: Hardware,
    locked: Option<bool>,
    linkDown: Option<string>,
    found: Option<D.Violation>,
    reload: Option<Config>,
    wall: nat
  )

  datatype Event = Request(call: Socket.Call, requireAuth: bool) | Poll(o: Oracle)

  // ----- steps of the poll thread ------------------------------------------------------

  function AllowedNow(s: Sys): set<Selectors.DeviceRef> {
    Allowed(s.st.allowances, s.pass.now)
  }

  function DrainStep(s: Sys, o: Oracle): Sys {
    var d := Drained(s.st, o.now, o.clock);
    s.(st := d.state, pass := Pass(o.now, d.armed, d.kill),
       pc := if d.needsRebaseline then Rebaselining else TakingReload)
  }

  function CaptureStep(s: Sys, o: Oracle, onlyMissing: bool, next: Pc): Sys {
    s.(st := TimersReset(s.cfg, s.bl, s.st, onlyMissing),
       bl := Captured(s.cfg, s.bl, o.hw, AllowedNow(s), onlyMissing),
       pc := next)
  }

  function ActStep(s: Sys): Sys {
    match PollAction(s.pass.kill, s.pass.armed)
    case Skip => s.(pc := Draining)
    case Kill(description) => s.(pc := Admitting(D.EventViolation(D.Bus.Relay, description), true))
    case Check => s.(pc := Checking(OfDevices))
  }

  function Found(found: Option<D.Violation>, next: Pc): Pc {
    if found.Some? then Admitting(found.value, false) else next
  }

  function EventFound(fires: bool, bus: D.Bus): Option<D.Violation> {
    if fires then Some(D.EventViolation(bus, "VIOLATION")) else None
  }

  function PowerCheck(s: Sys, o: Oracle): Sys {
    var (p, fires) := PowerStep(s.cfg.power, Power(s.st.power, s.st.triggerOnceFired, s.bl.power),
                                PowerReading(o.hw.power, o.locked, o.clock));
    s.(st := s.st.(power := p.timer, triggerOnceFired := p.fired), bl := s.bl.(power := p.baseline),
       pc := Found(EventFound(fires, D.Bus.Power), Checking(OfNetwork)))
  }

  function NetworkCheck(s: Sys, o: Oracle): Sys {
    var (n, fires) := NetworkStep(s.cfg.network, Network(s.st.network, s.bl.network),
                                  LinkReading(o.hw.network, o.linkDown, o.clock));
    s.(st := s.st.(network := n.timer), bl := s.bl.(network := n.baseline),
       pc := Found(EventFound(fires, D.Bus.Network), Checking(OfLid)))
  }

  function LidCheck(s: Sys, o: Oracle): Sys {
    var (l, fires) := LidStep(s.cfg.lid, Lid(s.st.lid, s.bl.lid), LidReading(o.hw.lid, o.clock));
    s.(st := s.st.(lid := l.timer), bl := s.bl.(lid := l.baseline),
       pc := Found(EventFound(fires, D.Bus.Lid), Checking(OfPci)))
  }

  ghost function CheckStep(s: Sys, o: Oracle, stage: Stage): Sys {
    match stage
    case OfDevices => s.(pc := Found(o.found, Checking(OfPower)))
    case OfPower => PowerCheck(s, o)
    case OfNetwork => NetworkCheck(s, o)
    case OfLid => LidCheck(s, o)
    case OfPci =>
      s.(bl := s.bl.(pci := PciMoved(s.cfg, AllowedNow(s), o.hw, s.bl)), pc := Found(o.found, Checking(OfDisplay)))
    case OfDisplay =>
      s.(bl := s.bl.(display := DisplayMoved(s.cfg, AllowedNow(s), o.hw, s.bl)), pc := Found(o.found, Draining))
  }

  /** Whether the pass's window takes the violation in. */
  predicate TakesIn(s: Sys) {
    s.pc.Admitting? && Pairable(s.st, s.pc.found, s.pass.now, s.identity)
  }

  function AdmitStep(s: Sys): Sys
    requires s.pc.Admitting?
  {
    if TakesIn(s) then
      s.(st := D.Admitted(s.st, s.pc.found.id.value, s.pc.found.name, s.pass.now), pc := Draining)
    else if Swallowed(s.pc.found) then s.(pc := Draining)
    else s.(pc := Recording(s.pc.found, s.pc.remote))
  }

  ghost function PollStep(s: Sys, o: Oracle): Sys {
    match s.pc
    case Draining => DrainStep(s, o)
    case Rebaselining => CaptureStep(s, o, false, TakingReload)
    case TakingReload =>
      if s.st.reloadPending then s.(st := s.st.(reloadPending := false), pc := LoadingConfig) else s.(pc := Acting)
    case LoadingConfig =>
      if o.reload.Some? then s.(cfg := o.reload.value, pc := CapturingMissing) else s.(pc := Acting)
    case CapturingMissing => CaptureStep(s, o, true, Acting)
    case Acting => ActStep(s)
    case Checking(stage) => CheckStep(s, o, stage)
    case Admitting(_, _) => AdmitStep(s)
    case Recording(v, remote) =>
      s.(st := s.st.(violations := D.Recorded(s.st.violations, v, o.wall)), pc := Handling(v, remote))
    case Handling(_, _) => s.(st := Handled(s.st), pc := Draining)
  }

  /** The oracle answers as the checkers can. */
  ghost predicate Answers(s: Sys, o: Oracle) {
    match s.pc
    case Checking(OfDevices) => IsDeviceReport(s.cfg, AllowedNow(s), o.hw, s.bl, o.found)
    case Checking(OfPci) => IsPciReport(s.cfg, AllowedNow(s), o.hw, s.bl, o.found)
    case Checking(OfDisplay) => IsDisplayReport(s.cfg, AllowedNow(s), o.hw, s.bl, o.found)
    case Checking(OfNetwork) =>
      s.cfg.network.watch && s.bl.network.Some? ==> IsLinkReport(o.hw.network, s.bl.network.value, o.linkDown)
    case _ => true
  }

  // ----- history ---------------------------------------------------------------------------

  /** The step number where the bus is read again, the old one where it is not. */
  function Stamp<T>(watch: bool, onlyMissing: bool, standing: Option<T>, before: nat, step: nat): nat {
    if Recaptures(watch, onlyMissing, standing) then step else before
  }

  function Retaken(s: Sys, hw: Hardware, onlyMissing: bool): Taken {
    var (c, b, t, n) := (s.cfg, s.bl, s.log.taken, s.log.step);
    Taken(
      Stamp(c.watchUsb, onlyMissing, b.usb, t.usb, n),
      Stamp(c.watchThunderbolt, onlyMissing, b.thunderbolt, t.thunderbolt, n),
      Stamp(c.watchSdCard, onlyMissing, b.sdcard, t.sdcard, n),
      Stamp(c.power.watch, onlyMissing, b.power, t.power, n),
      Stamp(c.network.watch, onlyMissing, b.network, t.network, n),
      Stamp(c.lid.watch, onlyMissing, b.lid, t.lid, n),
      if hw.pci.Some? then Stamp(c.watchPci, onlyMissing, b.pci, t.pci, n) else t.pci,
      Stamp(c.watchDisplay, onlyMissing, b.display, t.display, n))
  }

  /** In watch mode a check moves its own baseline. */
  function Moved(s: Sys, bl: Snapshots): Taken {
    var (b, t, n) := (s.bl, s.log.taken, s.log.step);
    t.(power := if bl.power != b.power then n else t.power,
       network := if bl.network != b.network then n else t.network,
       lid := if bl.lid != b.lid then n else t.lid,
       pci := if bl.pci != b.pci then n else t.pci,
       display := if bl.display != b.display then n else t.display)
  }

  function TakenBy(s: Sys, e: Event, bl: Snapshots): Taken {
    if e.Request? then s.log.taken
    else
      match s.pc
      case Rebaselining => Retaken(s, e.o.hw, false)
      case CapturingMissing => Retaken(s, e.o.hw, true)
      case Checking(_) => Moved(s, bl)
      case _ => s.log.taken
  }

  predicate PciFails(s: Sys, e: Event) {
    e.Poll? && s.pc.Rebaselining? && s.cfg.watchPci && e.o.hw.pci.None?
  }

  function Answer(s: Sys, e: Event): (D.State, Response)
    requires e.Request?
  {
    Serve(s.st, e.call, e.requireAuth, s.identity)
  }

  /** A pair command that opened a window, and a disarm that was obeyed. */
  predicate Opens(s: Sys, e: Event) {
    e.Request? && e.call.req.Pair? && e.call.req.windowSecs != 0 && Answer(s, e).1.Done?
  }

  predicate Disarms(s: Sys, e: Event) {
    e.Request? && e.call.req.Disarm? && Answer(s, e).1.Done?
  }

  function Logged(s: Sys, e: Event, st: D.State, bl: Snapshots): Log {
    var l := s.log;
    var rearmed := if !s.st.armed && st.armed then l.step else l.rearmed;
    Log(l.step + 1,
        TakenBy(s, e, bl),
        if PciFails(s, e) then l.step else l.pciFailed,
        rearmed,
        if e.Poll? && s.pc.Draining? then rearmed else l.drainSaw,
        if Disarms(s, e) then e.call.now else l.disarmedAt,
        l.windows + (if Opens(s, e) then 1 else 0),
        l.admitted + (if e.Poll? && TakesIn(s) then 1 else 0),
        l.kills + (if e.Poll? && s.pc.Handling? && s.st.mode.Enforce? then 1 else 0))
  }

  // ----- runs ----------------------------------------------------------------------------------

  ghost function Next(s: Sys, e: Event): Sys {
    var t := if e.Request? then s.(st := Answer(s, e).0) else PollStep(s, e.o);
    t.(log := Logged(s, e, t.st, t.bl))
  }

  ghost predicate Enabled(s: Sys, e: Event) {
    e.Poll? ==> Answers(s, e.o)
  }

  /** After startup: armed, every baseline read at step 1, none re-armed yet. */
  ghost predicate Initially(s: Sys) {
    && s.st == D.Initial(s.st.mode) && s.pc.Draining?
    && s.log.step == 2 && s.log.taken == Taken(1, 1, 1, 1, 1, 1, 1, 1)
    && s.log.rearmed == 0 && s.log.drainSaw == 0 && s.log.pciFailed == 0
    && s.log.windows == 0 && s.log.admitted == 0
  }

  /** The states of a run, each the next of the one before. */
  ghost predicate IsRun(states: seq<Sys>, events: seq<Event>) {
    && |states| == |events| + 1
    && forall i {:trigger StepAt(states, events, i)} :: 0 <= i < |events| ==> StepAt(states, events, i)
  }

  ghost predicate StepAt(states: seq<Sys>, events: seq<Event>, i: nat)
    requires |states| == |events| + 1 && i < |events|
  {
    Enabled(states[i], events[i]) && states[i + 1] == Next(states[i], events[i])
  }
}
