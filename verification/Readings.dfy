/** Which readings of the machine the baselines of a run hold. */
module Readings {
  import opened Wrappers
  import opened Selectors
  import Usb
  import Displays
  import opened Capture
  import opened Detect
  import opened Machine
  import opened Runs

  // ----- a stamp means a reading --------------------------------------------------------

  ghost predicate StampsBelow(t: Taken, step: nat) {
    && t.usb < step && t.thunderbolt < step && t.sdcard < step && t.power < step
    && t.network < step && t.lid < step && t.pci < step && t.display < step
  }

  function UsbReading(hw: Hardware, allowed: set<DeviceRef>): Option<Usb.Counts> {
    if hw.usb.None? then None
    else Some(if allowed == {} then hw.usb.value else Usb.Stripped(hw.usb.value, allowed))
  }

  /** The stamps are honest, second half: a baseline that a step stamps is what
      the machine answered in that step, less what the allowances cover. */
  lemma StampedIsNew(s: Sys, e: Event)
    requires StampsBelow(s.log.taken, s.log.step)
    ensures var (b, t, n) := (Next(s, e).bl, Next(s, e).log.taken, s.log.step);
            && (t.usb == n ==> e.Poll? && b.usb == UsbReading(e.o.hw, AllowedNow(s)))
            && (t.thunderbolt == n ==>
                  e.Poll? && b.thunderbolt == StrippedSet(e.o.hw.thunderbolt, AllowedNow(s), OnThunderbolt))
            && (t.sdcard == n ==> e.Poll? && b.sdcard == StrippedSet(e.o.hw.sdcard, AllowedNow(s), OnSdCard))
            && (t.power == n ==> e.Poll? && b.power == Some(e.o.hw.power))
            && (t.network == n ==> e.Poll? && b.network == Some(e.o.hw.network))
            && (t.lid == n ==> e.Poll? && b.lid == Some(e.o.hw.lid))
            && (t.pci == n ==> e.Poll? && e.o.hw.pci.Some? && b.pci == PciReading(s.cfg, AllowedNow(s), e.o.hw))
            && (t.display == n ==> e.Poll? && b.display == Some(Displays.Blanked(e.o.hw.display, AllowedNow(s))))
  {
    if e.Poll? && s.pc.Checking? {
      MovedIsNew(s, e.o, s.pc.stage);
    } else if e.Poll? && (s.pc.Rebaselining? || s.pc.CapturingMissing?) {
      CapturedIsNew(s, e.o, s.pc.CapturingMissing?);
    } else {
      OthersKeepBaselines(s, e);
    }
  }

  lemma CapturedIsNew(s: Sys, o: Oracle, onlyMissing: bool)
    requires StampsBelow(s.log.taken, s.log.step)
    ensures var (b, t, n) := (Captured(s.cfg, s.bl, o.hw, AllowedNow(s), onlyMissing), Retaken(s, o.hw, onlyMissing),
                              s.log.step);
            && (t.usb == n ==> b.usb == UsbReading(o.hw, AllowedNow(s)))
            && (t.thunderbolt == n ==> b.thunderbolt == StrippedSet(o.hw.thunderbolt, AllowedNow(s), OnThunderbolt))
            && (t.sdcard == n ==> b.sdcard == StrippedSet(o.hw.sdcard, AllowedNow(s), OnSdCard))
            && (t.power == n ==> b.power == Some(o.hw.power))
            && (t.network == n ==> b.network == Some(o.hw.network))
            && (t.lid == n ==> b.lid == Some(o.hw.lid))
            && (t.pci == n ==> o.hw.pci.Some? && b.pci == PciReading(s.cfg, AllowedNow(s), o.hw))
            && (t.display == n ==> b.display == Some(Displays.Blanked(o.hw.display, AllowedNow(s))))
  {
  }

  lemma MovedIsNew(s: Sys, o: Oracle, stage: Stage)
    requires StampsBelow(s.log.taken, s.log.step)
    ensures var (b, n) := (CheckStep(s, o, stage).bl, s.log.step);
            var t := Moved(s, b);
            && t.usb < n && t.thunderbolt < n && t.sdcard < n
            && (t.power == n ==> b.power == Some(o.hw.power))
            && (t.network == n ==> b.network == Some(o.hw.network))
            && (t.lid == n ==> b.lid == Some(o.hw.lid))
            && (t.pci == n ==> o.hw.pci.Some? && b.pci == PciReading(s.cfg, AllowedNow(s), o.hw))
            && (t.display == n ==> b.display == Some(Displays.Blanked(o.hw.display, AllowedNow(s))))
  {
    match stage
    case OfDevices =>
    case OfPower =>
    case OfNetwork =>
    case OfLid =>
    case OfPci =>
    case OfDisplay =>
  }

  /** A step gives a bus its own number or leaves its stamp. */
  lemma StampsMove(s: Sys, e: Event)
    ensures var (t, u, n) := (s.log.taken, Next(s, e).log.taken, s.log.step);
            && (u.usb == n || u.usb == t.usb) && (u.thunderbolt == n || u.thunderbolt == t.thunderbolt)
            && (u.sdcard == n || u.sdcard == t.sdcard) && (u.power == n || u.power == t.power)
            && (u.network == n || u.network == t.network) && (u.lid == n || u.lid == t.lid)
            && (u.pci == n || u.pci == t.pci) && (u.display == n || u.display == t.display)
    ensures Next(s, e).log.pciFailed == if PciFails(s, e) then s.log.step else s.log.pciFailed
    ensures Next(s, e).log.step == s.log.step + 1
  {
  }

  // ----- where a baseline comes from ---------------------------------------------------------

  /** An allowance for the device was active in some step from `k` up to `i`. */
  ghost predicate AllowedIn(states: seq<Sys>, k: nat, i: nat, id: DeviceRef)
    requires i <= |states|
  {
    exists l {:trigger states[l]} :: k <= l < i && id in AllowedNow(states[l])
  }

  /** The set of step `k`'s reading, less devices that were allowed since. */
  ghost predicate SetFrom(states: seq<Sys>, value: set<string>, reading: Option<set<string>>,
                          bus: string -> DeviceRef, k: nat, i: nat)
    requires i <= |states|
  {
    && reading.Some? && value <= reading.value
    && forall d :: d in reading.value && d !in value ==> AllowedIn(states, k, i, bus(d))
  }

  /** The connector as it was read, or blanked for a monitor allowed since. */
  ghost predicate ConnectorFrom(states: seq<Sys>, value: Displays.Connector, reading: Displays.Connector, k: nat,
                                i: nat)
    requires i <= |states|
  {
    || value == reading
    || (reading.edid.Some? && value == Displays.Connector(reading.name, false, None)
        && AllowedIn(states, k, i, DeviceRef.Display(reading.edid.value.id)))
  }

  ghost predicate DisplayFrom(states: seq<Sys>, value: Displays.Snapshot, reading: Displays.Snapshot, k: nat, i: nat)
    requires i <= |states|
  {
    && value.generation == reading.generation && |value.connectors| == |reading.connectors|
    && forall n :: 0 <= n < |value.connectors| ==>
           ConnectorFrom(states, value.connectors[n], reading.connectors[n], k, i)
  }

  /** Step `k` is one of the poll thread's, before `i`. */
  ghost predicate Read(states: seq<Sys>, events: seq<Event>, k: nat, i: nat) {
    |states| == |events| + 1 && k < i < |states| && events[k].Poll?
  }

  ghost predicate UsbAt(states: seq<Sys>, events: seq<Event>, k: nat, i: nat) {
    Read(states, events, k, i) && states[i].bl.usb == UsbReading(events[k].o.hw, AllowedNow(states[k]))
  }

  ghost predicate ThunderboltAt(states: seq<Sys>, events: seq<Event>, k: nat, i: nat) {
    Read(states, events, k, i) && states[i].bl.thunderbolt.Some?
    && SetFrom(states, states[i].bl.thunderbolt.value, events[k].o.hw.thunderbolt, OnThunderbolt, k, i)
  }

  ghost predicate SdCardAt(states: seq<Sys>, events: seq<Event>, k: nat, i: nat) {
    Read(states, events, k, i) && states[i].bl.sdcard.Some?
    && SetFrom(states, states[i].bl.sdcard.value, events[k].o.hw.sdcard, OnSdCard, k, i)
  }

  ghost predicate PowerAt(states: seq<Sys>, events: seq<Event>, k: nat, i: nat) {
    Read(states, events, k, i) && states[i].bl.power == Some(events[k].o.hw.power)
  }

  ghost predicate NetworkAt(states: seq<Sys>, events: seq<Event>, k: nat, i: nat) {
    Read(states, events, k, i) && states[i].bl.network == Some(events[k].o.hw.network)
  }

  ghost predicate LidAt(states: seq<Sys>, events: seq<Event>, k: nat, i: nat) {
    Read(states, events, k, i) && states[i].bl.lid == Some(events[k].o.hw.lid)
  }

  ghost predicate PciAt(states: seq<Sys>, events: seq<Event>, k: nat, i: nat) {
    Read(states, events, k, i) && states[i].bl.pci == PciReading(states[k].cfg, AllowedNow(states[k]), events[k].o.hw)
  }

  ghost predicate PciFailedAt(states: seq<Sys>, events: seq<Event>, k: nat, i: nat) {
    Read(states, events, k, i) && PciFails(states[k], events[k])
  }

  ghost predicate DisplayAt(states: seq<Sys>, events: seq<Event>, k: nat, i: nat) {
    Read(states, events, k, i) && states[i].bl.display.Some?
    && DisplayFrom(states, states[i].bl.display.value, events[k].o.hw.display, k, i)
  }

  /** Each baseline with a stamp from inside the run is the reading of the step
      that has this number; state `k` has number `k + 2`. */
  ghost predicate Sourced(states: seq<Sys>, events: seq<Event>, i: nat)
    requires |states| == |events| + 1 && i < |states|
  {
    var (b, t) := (states[i].bl, states[i].log.taken);
    && (b.usb.Some? && t.usb >= 2 ==> UsbAt(states, events, t.usb - 2, i))
    && (b.thunderbolt.Some? && t.thunderbolt >= 2 ==> ThunderboltAt(states, events, t.thunderbolt - 2, i))
    && (b.sdcard.Some? && t.sdcard >= 2 ==> SdCardAt(states, events, t.sdcard - 2, i))
    && (b.power.Some? && t.power >= 2 ==> PowerAt(states, events, t.power - 2, i))
    && (b.network.Some? && t.network >= 2 ==> NetworkAt(states, events, t.network - 2, i))
    && (b.lid.Some? && t.lid >= 2 ==> LidAt(states, events, t.lid - 2, i))
    && (b.pci.Some? && t.pci >= 2 ==> PciAt(states, events, t.pci - 2, i))
    && (b.display.Some? && t.display >= 2 ==> DisplayAt(states, events, t.display - 2, i))
    && (states[i].log.pciFailed >= 2 ==> PciFailedAt(states, events, states[i].log.pciFailed - 2, i))
  }

  ghost predicate Numbered(states: seq<Sys>, i: nat)
    requires i < |states|
  {
    states[i].log.step == i + 2 && StampsBelow(states[i].log.taken, i + 2) && states[i].log.pciFailed < i + 2
  }

  // ----- step by step ---------------------------------------------------------------------------

  /** In one step each bus is read anew and stamped, or kept with its stamp. */
  ghost predicate Advances<T>(stamp: nat, stamp': nat, n: nat, isNew: bool, before: Option<T>, after: Option<T>,
                              isKept: bool) {
    if stamp' == n then isNew else stamp' == stamp && (after.Some? ==> before.Some? && isKept)
  }

  /** How the buses move that allowances are stripped from. */
  ghost predicate StrippedMove(s: Sys, e: Event, u: Sys) {
    var (b, c, t, v, n, poll, allowed) := (s.bl, u.bl, s.log.taken, u.log.taken, s.log.step, e.Poll?, AllowedNow(s));
    && Advances(t.usb, v.usb, n, poll && c.usb == UsbReading(e.o.hw, allowed), b.usb, c.usb, c.usb == b.usb)
    && Advances(t.thunderbolt, v.thunderbolt, n,
                poll && c.thunderbolt == StrippedSet(e.o.hw.thunderbolt, allowed, OnThunderbolt),
                b.thunderbolt, c.thunderbolt, KeptSet(s, c.thunderbolt, b.thunderbolt, OnThunderbolt))
    && Advances(t.sdcard, v.sdcard, n, poll && c.sdcard == StrippedSet(e.o.hw.sdcard, allowed, OnSdCard),
                b.sdcard, c.sdcard, KeptSet(s, c.sdcard, b.sdcard, OnSdCard))
    && Advances(t.display, v.display, n, poll && c.display == Some(Displays.Blanked(e.o.hw.display, allowed)),
                b.display, c.display, KeptDisplay(c.display, b.display, allowed))
  }

  /** And the others. */
  ghost predicate PlainMove(s: Sys, e: Event, u: Sys) {
    var (b, c, t, v, n, poll) := (s.bl, u.bl, s.log.taken, u.log.taken, s.log.step, e.Poll?);
    && Advances(t.power, v.power, n, poll && c.power == Some(e.o.hw.power), b.power, c.power, c.power == b.power)
    && Advances(t.network, v.network, n,
                poll && c.network == Some(e.o.hw.network), b.network, c.network, c.network == b.network)
    && Advances(t.lid, v.lid, n, poll && c.lid == Some(e.o.hw.lid), b.lid, c.lid, c.lid == b.lid)
    && Advances(t.pci, v.pci, n,
                poll && c.pci == PciReading(s.cfg, AllowedNow(s), e.o.hw), b.pci, c.pci, c.pci == b.pci)
    && u.log.pciFailed == (if PciFails(s, e) then n else s.log.pciFailed)
  }

  lemma NextMovesStripped(s: Sys, e: Event)
    requires StampsBelow(s.log.taken, s.log.step)
    ensures StrippedMove(s, e, Next(s, e))
  {
    StampedIsNew(s, e);
    StampsMove(s, e);
    UnstampedIsOld(s, e);
  }

  lemma NextMovesPlain(s: Sys, e: Event)
    requires StampsBelow(s.log.taken, s.log.step)
    ensures PlainMove(s, e, Next(s, e))
  {
    StampedIsNew(s, e);
    StampsMove(s, e);
    UnstampedIsOld(s, e);
  }

  lemma StepAdvances(states: seq<Sys>, events: seq<Event>, i: nat)
    requires IsRun(states, events) && i < |events| && Numbered(states, i)
    ensures Numbered(states, i + 1)
    ensures StrippedMove(states[i], events[i], states[i + 1]) && PlainMove(states[i], events[i], states[i + 1])
  {
    assert StepAt(states, events, i);
    NextMovesStripped(states[i], events[i]);
    NextMovesPlain(states[i], events[i]);
    StampsMove(states[i], events[i]);
  }

  ghost predicate KeptDisplay(after: Option<Displays.Snapshot>, before: Option<Displays.Snapshot>,
                              allowed: set<DeviceRef>) {
    && after.Some? && before.Some?
    && (after == before || after.value == Displays.Blanked(before.value, allowed))
  }

  lemma SetFromLonger(states: seq<Sys>, value: set<string>, value': set<string>, reading: Option<set<string>>,
                      bus: string -> DeviceRef, k: nat, i: nat)
    requires k <= i < |states| && SetFrom(states, value, reading, bus, k, i)
    requires KeptSet(states[i], Some(value'), Some(value), bus)
    ensures SetFrom(states, value', reading, bus, k, i + 1)
  {
    forall d | d in reading.value && d !in value' ensures AllowedIn(states, k, i + 1, bus(d)) {
      if d in value {
        assert bus(d) in AllowedNow(states[i]);
      } else {
        var l :| k <= l < i && bus(d) in AllowedNow(states[l]);
        assert k <= l < i + 1 && bus(d) in AllowedNow(states[l]);
      }
    }
  }

  lemma SetFromNew(states: seq<Sys>, reading: set<string>, bus: string -> DeviceRef, i: nat)
    requires i < |states|
    ensures SetFrom(states, StrippedSet(Some(reading), AllowedNow(states[i]), bus).value, Some(reading), bus, i, i + 1)
  {
    SetFromLonger(states, reading, StrippedSet(Some(reading), AllowedNow(states[i]), bus).value, Some(reading), bus,
                  i, i);
  }

  lemma DisplayFromLonger(states: seq<Sys>, value: Displays.Snapshot, value': Displays.Snapshot,
                          reading: Displays.Snapshot, k: nat, i: nat)
    requires k <= i < |states| && DisplayFrom(states, value, reading, k, i)
    requires KeptDisplay(Some(value'), Some(value), AllowedNow(states[i]))
    ensures DisplayFrom(states, value', reading, k, i + 1)
  {
    forall n | 0 <= n < |value'.connectors|
      ensures ConnectorFrom(states, value'.connectors[n], reading.connectors[n], k, i + 1)
    {
      var was, now, read := value.connectors[n], value'.connectors[n], reading.connectors[n];
      assert ConnectorFrom(states, was, read, k, i);
      if was != read {
        var l :| k <= l < i && DeviceRef.Display(read.edid.value.id) in AllowedNow(states[l]);
        assert k <= l < i + 1 && DeviceRef.Display(read.edid.value.id) in AllowedNow(states[l]);
      } else if now != read {
        assert DeviceRef.Display(read.edid.value.id) in AllowedNow(states[i]);
      }
    }
  }

  lemma SourcedNext(states: seq<Sys>, events: seq<Event>, i: nat)
    requires IsRun(states, events) && i < |events| && Numbered(states, i) && Sourced(states, events, i)
    ensures Sourced(states, events, i + 1)
  {
    StepAdvances(states, events, i);
    ThunderboltSourced(states, events, i);
    SdCardSourced(states, events, i);
    DisplaySourced(states, events, i);
    PlainSourced(states, events, i);
    UsbAndPciSourced(states, events, i);
  }

  /** The buses whose baselines are kept as they are. */
  lemma PlainSourced(states: seq<Sys>, events: seq<Event>, i: nat)
    requires IsRun(states, events) && i < |events| && Numbered(states, i) && Sourced(states, events, i)
    ensures var (b, t) := (states[i + 1].bl, states[i + 1].log.taken);
            && (b.power.Some? && t.power >= 2 ==> PowerAt(states, events, t.power - 2, i + 1))
            && (b.network.Some? && t.network >= 2 ==> NetworkAt(states, events, t.network - 2, i + 1))
            && (b.lid.Some? && t.lid >= 2 ==> LidAt(states, events, t.lid - 2, i + 1))
  {
    StepAdvances(states, events, i);
  }

  lemma UsbAndPciSourced(states: seq<Sys>, events: seq<Event>, i: nat)
    requires IsRun(states, events) && i < |events| && Numbered(states, i) && Sourced(states, events, i)
    ensures var (b, t) := (states[i + 1].bl, states[i + 1].log.taken);
            && (b.usb.Some? && t.usb >= 2 ==> UsbAt(states, events, t.usb - 2, i + 1))
            && (b.pci.Some? && t.pci >= 2 ==> PciAt(states, events, t.pci - 2, i + 1))
            && (states[i + 1].log.pciFailed >= 2 ==>
                   PciFailedAt(states, events, states[i + 1].log.pciFailed - 2, i + 1))
  {
    StepAdvances(states, events, i);
  }

  lemma ThunderboltSourced(states: seq<Sys>, events: seq<Event>, i: nat)
    requires IsRun(states, events) && i < |events| && Numbered(states, i) && Sourced(states, events, i)
    ensures var (b, t) := (states[i + 1].bl.thunderbolt, states[i + 1].log.taken.thunderbolt);
            b.Some? && t >= 2 ==> ThunderboltAt(states, events, t - 2, i + 1)
  {
    StepAdvances(states, events, i);
    var (b, t) := (states[i + 1].bl.thunderbolt, states[i + 1].log.taken.thunderbolt);
    if b.Some? && t == i + 2 {
      SetFromNew(states, events[i].o.hw.thunderbolt.value, OnThunderbolt, i);
    } else if b.Some? && t >= 2 {
      SetFromLonger(states, states[i].bl.thunderbolt.value, b.value, events[t - 2].o.hw.thunderbolt, OnThunderbolt,
                    t - 2, i);
    }
  }

  lemma SdCardSourced(states: seq<Sys>, events: seq<Event>, i: nat)
    requires IsRun(states, events) && i < |events| && Numbered(states, i) && Sourced(states, events, i)
    ensures var (b, t) := (states[i + 1].bl.sdcard, states[i + 1].log.taken.sdcard);
            b.Some? && t >= 2 ==> SdCardAt(states, events, t - 2, i + 1)
  {
    StepAdvances(states, events, i);
    var (b, t) := (states[i + 1].bl.sdcard, states[i + 1].log.taken.sdcard);
    if b.Some? && t == i + 2 {
      SetFromNew(states, events[i].o.hw.sdcard.value, OnSdCard, i);
    } else if b.Some? && t >= 2 {
      SetFromLonger(states, states[i].bl.sdcard.value, b.value, events[t - 2].o.hw.sdcard, OnSdCard, t - 2, i);
    }
  }

  lemma DisplaySourced(states: seq<Sys>, events: seq<Event>, i: nat)
    requires IsRun(states, events) && i < |events| && Numbered(states, i) && Sourced(states, events, i)
    ensures var (b, t) := (states[i + 1].bl.display, states[i + 1].log.taken.display);
            b.Some? && t >= 2 ==> DisplayAt(states, events, t - 2, i + 1)
  {
    StepAdvances(states, events, i);
    var (b, t) := (states[i + 1].bl.display, states[i + 1].log.taken.display);
    if b.Some? && t == i + 2 {
      DisplayFromLonger(states, events[i].o.hw.display, b.value, events[i].o.hw.display, i, i);
    } else if b.Some? && t >= 2 {
      DisplayFromLonger(states, states[i].bl.display.value, b.value, events[t - 2].o.hw.display, t - 2, i);
    }
  }

  lemma {:induction false} RunsAreSourced(states: seq<Sys>, events: seq<Event>, i: nat)
    requires IsRun(states, events) && Initially(states[0]) && i < |states|
    ensures Numbered(states, i) && Sourced(states, events, i)
  {
    if i > 0 {
      RunsAreSourced(states, events, i - 1);
      StepAdvances(states, events, i - 1);
      SourcedNext(states, events, i - 1);
    }
  }

  // ----- the result --------------------------------------------------------------------------------

  /** Every baseline of state `i` is, up to stripping and blanking, what the
      machine answered in a step after step `j`; for PCI, or it failed to answer
      a re-capture after that step. */
  ghost predicate ReadSince(states: seq<Sys>, events: seq<Event>, j: nat, i: nat)
    requires i < |states|
  {
    var b := states[i].bl;
    && (b.usb.Some? ==> exists k: nat {:trigger UsbAt(states, events, k, i)} :: j < k && UsbAt(states, events, k, i))
    && (b.thunderbolt.Some? ==>
          exists k: nat {:trigger ThunderboltAt(states, events, k, i)} :: j < k && ThunderboltAt(states, events, k, i))
    && (b.sdcard.Some? ==>
          exists k: nat {:trigger SdCardAt(states, events, k, i)} :: j < k && SdCardAt(states, events, k, i))
    && (b.power.Some? ==>
          exists k: nat {:trigger PowerAt(states, events, k, i)} :: j < k && PowerAt(states, events, k, i))
    && (b.network.Some? ==>
          exists k: nat {:trigger NetworkAt(states, events, k, i)} :: j < k && NetworkAt(states, events, k, i))
    && (b.lid.Some? ==> exists k: nat {:trigger LidAt(states, events, k, i)} :: j < k && LidAt(states, events, k, i))
    && (b.pci.Some? ==>
          || (exists k: nat {:trigger PciAt(states, events, k, i)} :: j < k && PciAt(states, events, k, i))
          || (exists k: nat {:trigger PciFailedAt(states, events, k, i)} :: j < k && PciFailedAt(states, events, k, i)))
    && (b.display.Some? ==>
          exists k: nat {:trigger DisplayAt(states, events, k, i)} :: j < k && DisplayAt(states, events, k, i))
  }

  /** The main result of the poll loop. Whatever requests arrive in between, a
      bus is only ever checked by a pass whose drain found the daemon armed, and
      every baseline it can compare with was read from the machine after each
      re-arm that came before that drain. */
  lemma ChecksUseFreshReadings(states: seq<Sys>, events: seq<Event>, j: nat, d: nat, i: nat)
    requires IsRun(states, events) && Initially(states[0])
    requires i < |states| && states[i].pc.Checking?
    ensures states[i].pass.armed
    ensures j <= d < i && Rearms(states, j) && IsDrain(states, events, d) ==> ReadSince(states, events, j, i)
  {
    ChecksRunOnFreshBaselines(states, events, j, d, i);
    if j <= d < i && Rearms(states, j) && IsDrain(states, events, d) {
      RunsAreSourced(states, events, j);
      RunsAreSourced(states, events, i);
      FreshIsRead(states, events, j, i);
    }
  }

  lemma FreshIsRead(states: seq<Sys>, events: seq<Event>, j: nat, i: nat)
    requires |states| == |events| + 1 && i < |states| && Sourced(states, events, i) && Fresh(states[i], j + 2)
    ensures ReadSince(states, events, j, i)
  {
  }
}
