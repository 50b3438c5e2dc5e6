/** One check of every bus (crates/plugkill/src/main.rs:792-862, 926-1276). */
module Detect {
  import opened Wrappers
  import opened Selectors
  import D = Daemon
  import Usb
  import DeviceSets
  import Displays
  import opened Standing
  import opened Capture

  lemma AnyWhitelistWillDo(cfg: Config, allowed: set<DeviceRef>, current: Usb.Counts, baseline: Usb.Counts,
                           list: Usb.Counts)
    requires Usb.IsWhitelist(list, cfg.usbListed, allowed)
    ensures UsbAccepts(cfg, allowed, current, baseline) <==> Usb.Accepts(current, baseline, list)
  {
    forall other | Usb.IsWhitelist(other, cfg.usbListed, allowed) && Usb.Accepts(current, baseline, list)
      ensures Usb.Accepts(current, baseline, other)
    {
      forall id ensures !Usb.Over(current, baseline, other, id) && !Usb.Under(current, baseline, id) {
        assert !Usb.Over(current, baseline, list, id);
        assert Usb.CountOf(other, id) == Usb.CountOf(list, id);
      }
    }
  }

  /** The whitelist of a set bus, as far as the attached devices go. */
  function SetList(listed: set<string>, allowed: set<DeviceRef>, bus: string -> DeviceRef,
                   devices: set<string>): set<string> {
    listed + DeviceSets.AllowedOn(allowed, bus, devices)
  }

  // ----- what quiet means ------------------------------------------------------------------------

  /** A watched USB bus with a baseline is quiet exactly when it could be read and
      of every device there is at least what the baseline has and at most that,
      the configured count and one per allowance together. */
  lemma UsbQuietMeans(cfg: Config, allowed: set<DeviceRef>, hw: Hardware, baseline: Option<Usb.Counts>)
    requires cfg.watchUsb && baseline.Some? && Usb.Fits(cfg.usbListed, allowed)
    ensures UsbQuiet(cfg, allowed, hw, baseline) <==>
            && hw.usb.Some?
            && forall id :: CountIsFine(cfg, allowed, hw.usb.value, baseline.value, id)
  {
    if hw.usb.Some? {
      var list := Usb.ListOf(cfg.usbListed, allowed);
      AnyWhitelistWillDo(cfg, allowed, hw.usb.value, baseline.value, list);
      Usb.AcceptsMeans(hw.usb.value, baseline.value, list);
      forall id | Usb.Accepts(hw.usb.value, baseline.value, list)
        ensures CountIsFine(cfg, allowed, hw.usb.value, baseline.value, id)
      {
        assert Usb.CountOf(list, id) == Usb.Whitelisted(cfg.usbListed, allowed, id);
        assert Usb.CountOf(baseline.value, id) <= Usb.CountOf(hw.usb.value, id);
      }
      if forall id :: CountIsFine(cfg, allowed, hw.usb.value, baseline.value, id) {
        forall id
          ensures !Usb.Over(hw.usb.value, baseline.value, list, id) && !Usb.Under(hw.usb.value, baseline.value, id)
        {
          assert CountIsFine(cfg, allowed, hw.usb.value, baseline.value, id);
          assert Usb.CountOf(list, id) == Usb.Whitelisted(cfg.usbListed, allowed, id);
        }
      }
    }
  }

  ghost predicate CountIsFine(cfg: Config, allowed: set<DeviceRef>, current: Usb.Counts, baseline: Usb.Counts,
                              id: Selectors.UsbId) {
    var (n, b) := (Usb.CountOf(current, id), Usb.CountOf(baseline, id));
    var more := Usb.Listed(cfg.usbListed, id) + if DeviceRef.Usb(id) in allowed then 1 else 0;
    && b <= n <= b + more
    && (id in current ==> b + more > 0) && (id in baseline ==> n > 0)
  }

  /** A watched set bus with a baseline is quiet exactly when it could be read,
      nothing of the baseline is gone, and all else is listed or allowed. */
  lemma SetQuietMeans(listed: set<string>, allowed: set<DeviceRef>, bus: string -> DeviceRef,
                      reading: Option<set<string>>, baseline: Option<set<string>>)
    requires baseline.Some?
    ensures SetQuiet(true, listed, allowed, bus, reading, baseline) <==>
            && reading.Some?
            && (forall d :: d in baseline.value ==> d in reading.value)
            && forall d :: d in reading.value && d !in baseline.value ==> d in listed || bus(d) in allowed
  {
  }

  /** A watched PCI bus with a baseline is quiet exactly when it could not be read
      or the selectors left by the filters are those of the baseline. */
  lemma PciQuietMeans(cfg: Config, allowed: set<DeviceRef>, hw: Hardware, baseline: Option<set<string>>)
    requires cfg.watchPci && baseline.Some?
    ensures PciQuiet(cfg, allowed, hw, baseline) <==>
            hw.pci.None? || PciReading(cfg, allowed, hw) == baseline
  {
    if hw.pci.Some? {
      var current := PciReading(cfg, allowed, hw).value;
      assert DeviceSets.Accepts(current, baseline.value, {}) <==> current == baseline.value;
    }
  }

  /** A watched display bus is quiet exactly when both sides, blanked, have the
      same connector names and event counter and read the same on each. */
  lemma DisplayQuietMeans(cfg: Config, allowed: set<DeviceRef>, hw: Hardware, baseline: Option<Displays.Snapshot>)
    requires cfg.watchDisplay && baseline.Some?
    requires Displays.UniqueNames(hw.display.connectors) && Displays.UniqueNames(baseline.value.connectors)
    ensures DisplayQuiet(cfg, allowed, hw, baseline) <==>
            && hw.display.generation == baseline.value.generation
            && Displays.Names(hw.display.connectors) == Displays.Names(baseline.value.connectors)
            && forall c, d {:trigger Displays.Blank(c, allowed), Displays.Blank(d, allowed)} ::
                 c in hw.display.connectors && d in baseline.value.connectors && c.name == d.name
                 ==> Displays.Read(Displays.Blank(c, allowed)) == Displays.Read(Displays.Blank(d, allowed))
  {
    Displays.BlankedAgreeMeans(hw.display, baseline.value, allowed);
  }

  /** A bus that is not watched, or has no baseline, has nothing to report. */
  lemma UncheckedIsQuiet(cfg: Config, allowed: set<DeviceRef>, hw: Hardware, s: Snapshots)
    ensures !cfg.watchUsb || s.usb.None? ==> UsbQuiet(cfg, allowed, hw, s.usb)
    ensures !cfg.watchThunderbolt || s.thunderbolt.None? ==>
              SetQuiet(cfg.watchThunderbolt, cfg.thunderboltListed, allowed, OnThunderbolt, hw.thunderbolt,
                       s.thunderbolt)
    ensures !cfg.watchSdCard || s.sdcard.None? ==>
              SetQuiet(cfg.watchSdCard, cfg.sdCardListed, allowed, OnSdCard, hw.sdcard, s.sdcard)
    ensures !cfg.watchPci || s.pci.None? ==> PciQuiet(cfg, allowed, hw, s.pci)
    ensures !cfg.watchDisplay || s.display.None? ==> DisplayQuiet(cfg, allowed, hw, s.display)
  {
  }

  // ----- what a report may say ---------------------------------------------------------------

  /** A device report names what the comparison found; an event names nobody. */
  predicate Names(v: D.Violation, bus: D.Bus, id: Option<DeviceRef>, appeared: bool) {
    v.bus == bus && v.id == id && v.appeared == appeared
  }

  ghost predicate IsUsbReport(cfg: Config, allowed: set<DeviceRef>, hw: Hardware, baseline: Option<Usb.Counts>,
                              v: D.Violation) {
    if hw.usb.None? then Names(v, D.Bus.Usb, None, false)
    else baseline.Some? && exists list, c {:trigger Usb.IsChange(hw.usb.value, baseline.value, list, c)} ::
      && Usb.IsWhitelist(list, cfg.usbListed, allowed) && Usb.IsChange(hw.usb.value, baseline.value, list, c)
      && Names(v, D.Bus.Usb, Some(DeviceRef.Usb(c.device)), c.Added? || c.CountIncreased?)
  }

  ghost predicate IsSetReport(listed: set<string>, allowed: set<DeviceRef>, bus: string -> DeviceRef,
                              reading: Option<set<string>>, baseline: Option<set<string>>, on: D.Bus, v: D.Violation) {
    if reading.None? then Names(v, on, None, false)
    else baseline.Some? && exists c ::
      && DeviceSets.IsChange(reading.value, baseline.value, SetList(listed, allowed, bus, reading.value), c)
      && Names(v, on, Some(bus(c.device)), c.Added?)
  }

  /** What the first three buses have to say: nothing exactly when all are
      quiet, else what the first that is not has found. */
  ghost predicate IsDeviceReport(cfg: Config, allowed: set<DeviceRef>, hw: Hardware, s: Snapshots,
                                 found: Option<D.Violation>) {
    var usb := UsbQuiet(cfg, allowed, hw, s.usb);
    var thunderbolt := SetQuiet(cfg.watchThunderbolt, cfg.thunderboltListed, allowed, OnThunderbolt, hw.thunderbolt,
                                s.thunderbolt);
    var sdcard := SetQuiet(cfg.watchSdCard, cfg.sdCardListed, allowed, OnSdCard, hw.sdcard, s.sdcard);
    match found
    case None => usb && thunderbolt && sdcard
    case Some(v) =>
      if !usb then IsUsbReport(cfg, allowed, hw, s.usb, v)
      else if !thunderbolt then
        IsSetReport(cfg.thunderboltListed, allowed, OnThunderbolt, hw.thunderbolt, s.thunderbolt, D.Bus.Thunderbolt, v)
      else !sdcard && IsSetReport(cfg.sdCardListed, allowed, OnSdCard, hw.sdcard, s.sdcard, D.Bus.SdCard, v)
  }

  function PciReading(cfg: Config, allowed: set<DeviceRef>, hw: Hardware): Option<set<string>> {
    if hw.pci.None? then None
    else Some(DeviceSets.Enumerated(hw.pci.value, DeviceSets.PciIgnore(cfg.pciIgnore, allowed)))
  }

  /** A removal names nobody to allow. */
  ghost predicate IsPciReport(cfg: Config, allowed: set<DeviceRef>, hw: Hardware, s: Snapshots,
                              found: Option<D.Violation>) {
    match found
    case None => PciQuiet(cfg, allowed, hw, s.pci) || cfg.pciPolicy.Watch?
    case Some(v) =>
      && !PciQuiet(cfg, allowed, hw, s.pci) && cfg.pciPolicy.Kill?
      && exists c :: DeviceSets.IsChange(PciReading(cfg, allowed, hw).value, s.pci.value, {}, c)
           && Names(v, D.Bus.Pci, if c.Added? then Some(DeviceRef.Pci(c.device)) else None, c.Added?)
  }

  /** The monitor a change names, if it names one. */
  function DisplayIdentity(change: Displays.Change, current: Displays.Snapshot): Option<Displays.Edid> {
    match change
    case Replaced(_, now) => now
    case Appeared(c) => MonitorOn(current, c)
    case Connected(c) => MonitorOn(current, c)
    case _ => None
  }

  function MonitorOn(current: Displays.Snapshot, connector: string): Option<Displays.Edid> {
    var found := Displays.Get(current.connectors, connector);
    if found.Some? then found.value.edid else None
  }

  /** A change that names a monitor is an appearance of it; any other is an event. */
  ghost predicate IsDisplayReport(cfg: Config, allowed: set<DeviceRef>, hw: Hardware, s: Snapshots,
                                  found: Option<D.Violation>) {
    match found
    case None => DisplayQuiet(cfg, allowed, hw, s.display) || cfg.displayPolicy.Watch?
    case Some(v) =>
      && !DisplayQuiet(cfg, allowed, hw, s.display) && cfg.displayPolicy.Kill?
      && var current := Displays.Blanked(hw.display, allowed);
         exists c :: Displays.IsChange(current, Displays.Blanked(s.display.value, allowed), c)
           && var edid := DisplayIdentity(c, current);
              Names(v, D.Bus.Display, if edid.Some? then Some(DeviceRef.Display(edid.value.id)) else None, edid.Some?)
  }

  // ----- an appearance is a device nothing covers ------------------------------------------------

  /** More instances attached than baseline, listing and allowance account for. */
  ghost predicate UsbUncovered(cfg: Config, allowed: set<DeviceRef>, hw: Hardware, s: Snapshots, id: Selectors.UsbId) {
    && hw.usb.Some? && s.usb.Some? && id in hw.usb.value
    && var covered := Usb.CountOf(s.usb.value, id) + Usb.Whitelisted(cfg.usbListed, allowed, id);
       covered == 0 || hw.usb.value[id] > covered
  }

  ghost predicate SetUncovered(listed: set<string>, allowed: set<DeviceRef>, bus: string -> DeviceRef,
                               reading: Option<set<string>>, baseline: Option<set<string>>, device: string) {
    && reading.Some? && device in reading.value
    && baseline.Some? && device !in baseline.value
    && device !in listed && bus(device) !in allowed
  }

  /** On some connector the monitor is attached, and the baseline has not got it
      there. */
  ghost predicate DisplayUncovered(allowed: set<DeviceRef>, hw: Hardware, s: Snapshots, monitor: Selectors.MonitorId) {
    && s.display.Some? && DeviceRef.Display(monitor) !in allowed
    && exists c {:trigger c in hw.display.connectors} ::
         && c in hw.display.connectors && c.edid.Some? && c.edid.value.id == monitor
         && (Displays.Wired(hw.display) ==> c.connected)
         && (Displays.Wired(hw.display) ==>
               Displays.Difference(c, Displays.Blanked(s.display.value, allowed).connectors).Some?)
  }

  /** The device is attached and neither the baseline nor the configuration nor
      an allowance accounts for it. */
  ghost predicate Uncovered(cfg: Config, allowed: set<DeviceRef>, hw: Hardware, s: Snapshots, id: DeviceRef) {
    match id
    case Usb(usb) => UsbUncovered(cfg, allowed, hw, s, usb)
    case Thunderbolt(d) => SetUncovered(cfg.thunderboltListed, allowed, OnThunderbolt, hw.thunderbolt, s.thunderbolt, d)
    case SdCard(d) => SetUncovered(cfg.sdCardListed, allowed, OnSdCard, hw.sdcard, s.sdcard, d)
    case Pci(d) =>
      PciReading(cfg, allowed, hw).Some? && d in PciReading(cfg, allowed, hw).value && s.pci.Some? && d !in s.pci.value
    case Display(monitor) => DisplayUncovered(allowed, hw, s, monitor)
  }

  ghost predicate AppearedUncovered(cfg: Config, allowed: set<DeviceRef>, hw: Hardware, s: Snapshots, v: D.Violation) {
    v.appeared ==> v.id.Some? && Uncovered(cfg, allowed, hw, s, v.id.value)
  }

  lemma UsbAppearanceIsUncovered(cfg: Config, allowed: set<DeviceRef>, hw: Hardware, s: Snapshots, v: D.Violation)
    requires IsUsbReport(cfg, allowed, hw, s.usb, v)
    ensures AppearedUncovered(cfg, allowed, hw, s, v)
  {
    if v.appeared {
      var list, c :| && Usb.IsWhitelist(list, cfg.usbListed, allowed)
                     && Usb.IsChange(hw.usb.value, s.usb.value, list, c)
                     && Names(v, D.Bus.Usb, Some(DeviceRef.Usb(c.device)), c.Added? || c.CountIncreased?);
      assert Usb.CountOf(list, c.device) == Usb.Whitelisted(cfg.usbListed, allowed, c.device);
      assert Usb.Over(hw.usb.value, s.usb.value, list, c.device);
    }
  }

  lemma SetAppearanceIsUncovered(listed: set<string>, allowed: set<DeviceRef>, bus: string -> DeviceRef,
                                 reading: Option<set<string>>, baseline: Option<set<string>>, on: D.Bus, v: D.Violation)
    requires IsSetReport(listed, allowed, bus, reading, baseline, on, v) && v.appeared
    ensures exists d :: v.id == Some(bus(d)) && SetUncovered(listed, allowed, bus, reading, baseline, d)
  {
    var c :| DeviceSets.IsChange(reading.value, baseline.value, SetList(listed, allowed, bus, reading.value), c)
             && Names(v, on, Some(bus(c.device)), c.Added?);
    assert SetUncovered(listed, allowed, bus, reading, baseline, c.device);
  }

  lemma DeviceAppearanceIsUncovered(cfg: Config, allowed: set<DeviceRef>, hw: Hardware, s: Snapshots, v: D.Violation)
    requires IsDeviceReport(cfg, allowed, hw, s, Some(v))
    ensures AppearedUncovered(cfg, allowed, hw, s, v)
  {
    if !UsbQuiet(cfg, allowed, hw, s.usb) {
      UsbAppearanceIsUncovered(cfg, allowed, hw, s, v);
    } else if v.appeared {
      if !SetQuiet(cfg.watchThunderbolt, cfg.thunderboltListed, allowed, OnThunderbolt, hw.thunderbolt, s.thunderbolt) {
        SetAppearanceIsUncovered(cfg.thunderboltListed, allowed, OnThunderbolt, hw.thunderbolt, s.thunderbolt,
                                 D.Bus.Thunderbolt, v);
      } else {
        SetAppearanceIsUncovered(cfg.sdCardListed, allowed, OnSdCard, hw.sdcard, s.sdcard, D.Bus.SdCard, v);
      }
    }
  }

  lemma PciAppearanceIsUncovered(cfg: Config, allowed: set<DeviceRef>, hw: Hardware, s: Snapshots, v: D.Violation)
    requires IsPciReport(cfg, allowed, hw, s, Some(v))
    ensures AppearedUncovered(cfg, allowed, hw, s, v)
  {
  }

  lemma DisplayAppearanceIsUncovered(cfg: Config, allowed: set<DeviceRef>, hw: Hardware, s: Snapshots, v: D.Violation)
    requires IsDisplayReport(cfg, allowed, hw, s, Some(v))
    ensures AppearedUncovered(cfg, allowed, hw, s, v)
  {
    if v.appeared {
      var current, base := Displays.Blanked(hw.display, allowed), Displays.Blanked(s.display.value, allowed);
      var change :| Displays.IsChange(current, base, change)
        && var edid := DisplayIdentity(change, current);
           Names(v, D.Bus.Display, if edid.Some? then Some(DeviceRef.Display(edid.value.id)) else None, edid.Some?);
      var i := ReportedConnector(hw.display, allowed, base, change);
      assert hw.display.connectors[i] in hw.display.connectors;
    }
  }

  /** The connector whose monitor a change names: it is not blanked, so its
      monitor is not allowed, and it differs from the baseline itself. */
  lemma ReportedConnector(s: Displays.Snapshot, allowed: set<DeviceRef>, base: Displays.Snapshot,
                          change: Displays.Change)
    returns (i: nat)
    requires Displays.IsChange(Displays.Blanked(s, allowed), base, change)
    requires DisplayIdentity(change, Displays.Blanked(s, allowed)).Some?
    ensures i < |s.connectors| && s.connectors[i].edid == DisplayIdentity(change, Displays.Blanked(s, allowed))
    ensures DeviceRef.Display(s.connectors[i].edid.value.id) !in allowed
    ensures Displays.Wired(s) ==>
              s.connectors[i].connected && Displays.Difference(s.connectors[i], base.connectors).Some?
  {
    var current := Displays.Blanked(s, allowed);
    var first :| Displays.FirstDifference(current.connectors, base.connectors, first)
      && Displays.Difference(current.connectors[first], base.connectors) == Some(change);
    if change.Replaced? {
      i := first;
    } else {
      var c := Displays.Get(current.connectors, change.connector).value;
      i :| 0 <= i < |current.connectors| && current.connectors[i] == c;
      ShownIsThere(s, allowed, i);
      if c.connected {
        Displays.NamesakeDiffers(current.connectors[first], c, base.connectors);
      }
    }
    ShownIsThere(s, allowed, i);
  }

  /** A connector that still shows a monitor after blanking is as it was. */
  lemma ShownIsThere(s: Displays.Snapshot, allowed: set<DeviceRef>, i: nat)
    requires i < |s.connectors| && Displays.Blanked(s, allowed).connectors[i].edid.Some?
    ensures Displays.Blanked(s, allowed).connectors[i] == s.connectors[i]
    ensures DeviceRef.Display(s.connectors[i].edid.value.id) !in allowed
    ensures Displays.Wired(s) ==> s.connectors[i].connected
  {
    assert s.connectors[i] in s.connectors;
  }

  // ----- and a device nothing covers is an appearance ----------------------------------------------

  /** As long as some device is attached that nothing covers, the report on its bus
      is an appearance, which a pairing window may take in. */
  lemma UncoveredUsbAppears(cfg: Config, allowed: set<DeviceRef>, hw: Hardware, s: Snapshots, v: D.Violation,
                            id: Selectors.UsbId)
    requires IsUsbReport(cfg, allowed, hw, s.usb, v) && UsbUncovered(cfg, allowed, hw, s, id)
    ensures v.appeared && v.bus == D.Bus.Usb && v.id.Some? && v.id.value.Usb?
    ensures UsbUncovered(cfg, allowed, hw, s, v.id.value.id)
  {
    var list, c :| && Usb.IsWhitelist(list, cfg.usbListed, allowed)
                   && Usb.IsChange(hw.usb.value, s.usb.value, list, c)
                   && Names(v, D.Bus.Usb, Some(DeviceRef.Usb(c.device)), c.Added? || c.CountIncreased?);
    assert Usb.CountOf(list, id) == Usb.Whitelisted(cfg.usbListed, allowed, id);
    assert Usb.Over(hw.usb.value, s.usb.value, list, id);
    UsbAppearanceIsUncovered(cfg, allowed, hw, s, v);
  }

  lemma UncoveredSetDeviceAppears(listed: set<string>, allowed: set<DeviceRef>, bus: string -> DeviceRef,
                                  reading: Option<set<string>>, baseline: Option<set<string>>, on: D.Bus,
                                  v: D.Violation, d: string)
    requires IsSetReport(listed, allowed, bus, reading, baseline, on, v)
    requires SetUncovered(listed, allowed, bus, reading, baseline, d)
    ensures v.appeared && v.bus == on
  {
  }

  lemma UncoveredCardAppears(cfg: Config, allowed: set<DeviceRef>, hw: Hardware, s: Snapshots, v: D.Violation,
                             d: string)
    requires IsPciReport(cfg, allowed, hw, s, Some(v))
    requires d in PciReading(cfg, allowed, hw).value && d !in s.pci.value
    ensures v.appeared && v.bus == D.Bus.Pci
  {
  }

  lemma ReportNamesItsConnector(current: Displays.Snapshot, base: Displays.Snapshot, change: Displays.Change, i: nat)
    requires i < |current.connectors| && current.connectors[i].connected && Displays.UniqueNames(current.connectors)
    requires Displays.Difference(current.connectors[i], base.connectors) == Some(change)
    ensures DisplayIdentity(change, current) == current.connectors[i].edid
  {
    var c := current.connectors[i];
    assert c in current.connectors;
    Displays.GetFinds(current.connectors, c);
  }

  /** Where the first connector that differs has a monitor that shows, that
      monitor is what appeared. */
  lemma ShownMonitorAppears(cfg: Config, allowed: set<DeviceRef>, hw: Hardware, s: Snapshots, v: D.Violation, i: nat)
    requires IsDisplayReport(cfg, allowed, hw, s, Some(v)) && Displays.UniqueNames(hw.display.connectors)
    requires hw.display.generation == s.display.value.generation
    requires var current := Displays.Blanked(hw.display, allowed);
             && Displays.FirstDifference(current.connectors, Displays.Blanked(s.display.value, allowed).connectors, i)
             && current.connectors[i].connected && current.connectors[i].edid.Some?
    ensures v.appeared && v.bus == D.Bus.Display
    ensures v.id == Some(DeviceRef.Display(hw.display.connectors[i].edid.value.id))
  {
    var current, base := Displays.Blanked(hw.display, allowed), Displays.Blanked(s.display.value, allowed);
    var change :| Displays.IsChange(current, base, change)
      && var edid := DisplayIdentity(change, current);
         Names(v, D.Bus.Display, if edid.Some? then Some(DeviceRef.Display(edid.value.id)) else None, edid.Some?);
    Displays.FirstDifferenceIsReported(current, base, change, i);
    ReportNamesItsConnector(current, base, change, i);
    Displays.BlankedHasMembers(hw.display, allowed);
  }

  /** The first three buses report in this order. */
  lemma FirstBusSpeaks(cfg: Config, allowed: set<DeviceRef>, hw: Hardware, s: Snapshots, v: D.Violation)
    requires IsDeviceReport(cfg, allowed, hw, s, Some(v))
    ensures v.bus.Usb? <==> !UsbQuiet(cfg, allowed, hw, s.usb)
    ensures v.bus.Thunderbolt? <==>
            && UsbQuiet(cfg, allowed, hw, s.usb)
            && !SetQuiet(cfg.watchThunderbolt, cfg.thunderboltListed, allowed, OnThunderbolt, hw.thunderbolt,
                         s.thunderbolt)
    ensures v.bus.Usb? || v.bus.Thunderbolt? || v.bus.SdCard?
    ensures v.bus.Usb? && hw.usb.None? ==> v.id.None? && !v.appeared
  {
  }

  /** In watch mode the baseline moves with the reading. */
  ghost function PciMoved(cfg: Config, allowed: set<DeviceRef>, hw: Hardware, s: Snapshots): Option<set<string>> {
    if PciQuiet(cfg, allowed, hw, s.pci) || cfg.pciPolicy.Kill? || hw.pci.None? then s.pci
    else Some(DeviceSets.Enumerated(hw.pci.value, DeviceSets.PciIgnore(cfg.pciIgnore, allowed)))
  }

  ghost function DisplayMoved(cfg: Config, allowed: set<DeviceRef>, hw: Hardware,
                              s: Snapshots): Option<Displays.Snapshot> {
    if DisplayQuiet(cfg, allowed, hw, s.display) || cfg.displayPolicy.Kill? then s.display
    else Some(Displays.Blanked(hw.display, allowed))
  }

  method CheckUsb(cfg: Config, bl: Baselines, hw: Hardware, allowed: set<DeviceRef>)
    returns (violation: Option<D.Violation>)
    requires Usb.Fits(cfg.usbListed, allowed)
    ensures violation.None? <==> UsbQuiet(cfg, allowed, hw, bl.usb)
    ensures violation.Some? ==> IsUsbReport(cfg, allowed, hw, bl.usb, violation.value)
  {
    if !cfg.watchUsb || bl.usb.None? {
      return None;
    }
    if hw.usb.None? {
      return Some(D.EventViolation(D.Bus.Usb, "USB VIOLATION: enumeration failure (possible tampering)"));
    }
    var list := Usb.BuildWhitelist(cfg.usbListed, allowed);
    AnyWhitelistWillDo(cfg, allowed, hw.usb.value, bl.usb.value, list);
    var change := Usb.DetectChanges(hw.usb.value, bl.usb.value, list);
    if change.None? {
      return None;
    }
    var appeared := change.value.Added? || change.value.CountIncreased?;
    var id := DeviceRef.Usb(change.value.device);
    violation := Some(D.DeviceViolation("USB VIOLATION: " + Print(id), id, None, appeared));
  }

  method CheckSet(watch: bool, listed: set<string>, allowed: set<DeviceRef>, bus: string -> DeviceRef,
                  reading: Option<set<string>>, baseline: Option<set<string>>, on: D.Bus)
    returns (violation: Option<D.Violation>)
    requires forall d :: D.BusOf(bus(d)) == on
    ensures violation.None? <==> SetQuiet(watch, listed, allowed, bus, reading, baseline)
    ensures violation.Some? ==> IsSetReport(listed, allowed, bus, reading, baseline, on, violation.value)
  {
    if !watch || baseline.None? {
      return None;
    }
    if reading.None? {
      return Some(D.EventViolation(on, "VIOLATION: enumeration failure (possible tampering)"));
    }
    var change := DeviceSets.DetectChanges(reading.value, baseline.value, SetList(listed, allowed, bus, reading.value));
    if change.None? {
      return None;
    }
    var id := bus(change.value.device);
    violation := Some(D.DeviceViolation("VIOLATION: " + Print(id), id, None, change.value.Added?));
  }

  /** USB, then Thunderbolt, then SD card: the first with something to report. */
  method DetectViolations(cfg: Config, bl: Baselines, hw: Hardware, allowed: set<DeviceRef>)
    returns (violation: Option<D.Violation>)
    requires Usb.Fits(cfg.usbListed, allowed)
    ensures IsDeviceReport(cfg, allowed, hw, bl.View(), violation)
  {
    violation := CheckUsb(cfg, bl, hw, allowed);
    if violation.Some? {
      return;
    }
    violation := CheckSet(cfg.watchThunderbolt, cfg.thunderboltListed, allowed, OnThunderbolt, hw.thunderbolt,
                          bl.thunderbolt, D.Bus.Thunderbolt);
    if violation.Some? {
      return;
    }
    violation := CheckSet(cfg.watchSdCard, cfg.sdCardListed, allowed, OnSdCard, hw.sdcard, bl.sdcard, D.Bus.SdCard);
  }

  /** A failed enumeration is no violation here. */
  method CheckPci(cfg: Config, bl: Baselines, hw: Hardware, allowed: set<DeviceRef>)
    returns (violation: Option<D.Violation>)
    modifies bl`pci
    ensures IsPciReport(cfg, allowed, hw, old(bl.View()), violation)
    ensures bl.pci == PciMoved(cfg, allowed, hw, old(bl.View()))
  {
    if !cfg.watchPci || bl.pci.None? || hw.pci.None? {
      return None;
    }
    var current := DeviceSets.Enumerated(hw.pci.value, DeviceSets.PciIgnore(cfg.pciIgnore, allowed));
    var change := DeviceSets.DetectChanges(current, bl.pci.value, {});
    if change.None? {
      return None;
    }
    if cfg.pciPolicy.Watch? {
      bl.pci := Some(current);
      return None;
    }
    violation := Some(match change.value
      case Added(selector) => D.DeviceViolation("PCI VIOLATION", DeviceRef.Pci(selector), None, true)
      case Removed(_) => D.EventViolation(D.Bus.Pci, "PCI VIOLATION"));
  }

  /** Both sides are blanked before they are compared; what is stored in watch
      mode is the blanked live side. */
  method CheckDisplay(cfg: Config, bl: Baselines, hw: Hardware, allowed: set<DeviceRef>)
    returns (violation: Option<D.Violation>)
    modifies bl`display
    ensures IsDisplayReport(cfg, allowed, hw, old(bl.View()), violation)
    ensures bl.display == DisplayMoved(cfg, allowed, hw, old(bl.View()))
  {
    if !cfg.watchDisplay || bl.display.None? {
      return None;
    }
    var current := Displays.HideAllowed(hw.display, allowed);
    var base := Displays.HideAllowed(bl.display.value, allowed);
    var change := Displays.DetectChanges(current, base);
    if change.None? {
      return None;
    }
    if cfg.displayPolicy.Watch? {
      bl.display := Some(current);
      return None;
    }
    var id := DisplayIdentity(change.value, current);
    violation := Some(match id
      case Some(edid) =>
        D.DeviceViolation("DISPLAY VIOLATION", DeviceRef.Display(edid.id),
                          if edid.name == "" then None else Some(edid.name), true)
      case None => D.EventViolation(D.Bus.Display, "DISPLAY VIOLATION"));
  }
}
