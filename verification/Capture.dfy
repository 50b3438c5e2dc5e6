/** Capturing baselines and checking the buses against them
    (crates/plugkill/src/main.rs:926-1229 and 1782-1956). */
module Capture {
  import opened Wrappers
  import opened Selectors
  import opened Allowances
  import D = Daemon
  import Usb
  import DeviceSets
  import Displays
  import opened Standing
  import opened Grace

  datatype Config = Config(
    watchUsb: bool,
    watchThunderbolt: bool,
    watchSdCard: bool,
    watchPci: bool,
    watchDisplay: bool,
    usbListed: seq<Usb.UsbEntry>,
    thunderboltListed: set<string>,
    sdCardListed: set<string>,
    pciIgnore: set<string>,
    pciPolicy: Policy,
    displayPolicy: Policy,
    power: PowerConfig,
    network: EventConfig,
    lid: EventConfig
  )

  /** What the machine would answer; `None` where enumeration fails. PCI is
      filtered as it is enumerated, displays by the configured connectors. */
  datatype Hardware = Hardware(
    usb: Option<Usb.Counts>,
    thunderbolt: Option<set<string>>,
    sdcard: Option<set<string>>,
    power: PowerState,
    network: Links,
    lid: LidState,
    pci: Option<set<string>>,
    display: Displays.Snapshot
  )

  function OnThunderbolt(uniqueId: string): DeviceRef { DeviceRef.Thunderbolt(uniqueId) }

  function OnSdCard(serial: string): DeviceRef { DeviceRef.SdCard(serial) }

  /** Whether this capture reads a bus again. */
  predicate Recaptures<T>(watch: bool, onlyMissing: bool, standing: Option<T>) {
    watch && !(onlyMissing && standing.Some?)
  }

  // ----- the baselines after a capture --------------------------------------------------

  /** Stripping counts one instance per allowance out of the fresh USB reading;
      a standing one already accounts for the device. */
  function UsbCaptured(cfg: Config, standing: Option<Usb.Counts>, hw: Hardware, allowed: set<DeviceRef>,
                       onlyMissing: bool): Option<Usb.Counts> {
    if !cfg.watchUsb then None
    else if onlyMissing && standing.Some? then standing
    else if hw.usb.None? then None
    else Some(if allowed == {} then hw.usb.value else Usb.Stripped(hw.usb.value, allowed))
  }

  /** The other buses are stripped whether or not they were read again. */
  function SetCaptured(watch: bool, standing: Option<set<string>>, reading: Option<set<string>>,
                       allowed: set<DeviceRef>, bus: string -> DeviceRef, onlyMissing: bool): Option<set<string>> {
    StrippedSet(if !watch then None else if onlyMissing && standing.Some? then standing else reading, allowed, bus)
  }

  function DisplayCaptured(cfg: Config, standing: Option<Displays.Snapshot>, hw: Hardware, allowed: set<DeviceRef>,
                           onlyMissing: bool): Option<Displays.Snapshot> {
    if !cfg.watchDisplay then None
    else Some(Displays.Blanked(if onlyMissing && standing.Some? then standing.value else hw.display, allowed))
  }

  /** A failed PCI enumeration leaves the old baseline in place. */
  function PciCaptured(cfg: Config, standing: Option<set<string>>, hw: Hardware, allowed: set<DeviceRef>,
                       onlyMissing: bool): Option<set<string>> {
    if !cfg.watchPci then None
    else if (onlyMissing && standing.Some?) || hw.pci.None? then standing
    else Some(DeviceSets.Enumerated(hw.pci.value, DeviceSets.PciIgnore(cfg.pciIgnore, allowed)))
  }

  function EventCaptured<T>(watch: bool, standing: Option<T>, reading: T, onlyMissing: bool): Option<T> {
    if !watch then None else if onlyMissing && standing.Some? then standing else Some(reading)
  }

  function Captured(cfg: Config, s: Snapshots, hw: Hardware, allowed: set<DeviceRef>, onlyMissing: bool): Snapshots {
    Snapshots(
      UsbCaptured(cfg, s.usb, hw, allowed, onlyMissing),
      SetCaptured(cfg.watchThunderbolt, s.thunderbolt, hw.thunderbolt, allowed, OnThunderbolt, onlyMissing),
      SetCaptured(cfg.watchSdCard, s.sdcard, hw.sdcard, allowed, OnSdCard, onlyMissing),
      EventCaptured(cfg.power.watch, s.power, hw.power, onlyMissing),
      EventCaptured(cfg.network.watch, s.network, hw.network, onlyMissing),
      EventCaptured(cfg.lid.watch, s.lid, hw.lid, onlyMissing),
      PciCaptured(cfg, s.pci, hw, allowed, onlyMissing),
      DisplayCaptured(cfg, s.display, hw, allowed, onlyMissing)
    )
  }

  /** Capturing one of the timed buses resets its timer. */
  function TimersReset(cfg: Config, s: Snapshots, st: D.State, onlyMissing: bool): D.State {
    Reset(st, Recaptures(cfg.power.watch, onlyMissing, s.power),
          Recaptures(cfg.network.watch, onlyMissing, s.network),
          Recaptures(cfg.lid.watch, onlyMissing, s.lid))
  }

  function Reset(st: D.State, power: bool, network: bool, lid: bool): D.State {
    st.(power := if power then D.IDLE else st.power,
        triggerOnceFired := st.triggerOnceFired && !power,
        network := if network then D.IDLE else st.network,
        lid := if lid then D.IDLE else st.lid)
  }

  // ----- the same, step by step ----------------------------------------------------------

  function Cleared(cfg: Config, s: Snapshots): Snapshots {
    Snapshots(
      if cfg.watchUsb then s.usb else None,
      if cfg.watchThunderbolt then s.thunderbolt else None,
      if cfg.watchSdCard then s.sdcard else None,
      if cfg.power.watch then s.power else None,
      if cfg.network.watch then s.network else None,
      if cfg.lid.watch then s.lid else None,
      if cfg.watchPci then s.pci else None,
      if cfg.watchDisplay then s.display else None)
  }

  function Readings(cfg: Config, s: Snapshots, hw: Hardware, allowed: set<DeviceRef>, onlyMissing: bool): Snapshots {
    Snapshots(
      if Recaptures(cfg.watchUsb, onlyMissing, s.usb) then hw.usb else s.usb,
      if Recaptures(cfg.watchThunderbolt, onlyMissing, s.thunderbolt) then hw.thunderbolt else s.thunderbolt,
      if Recaptures(cfg.watchSdCard, onlyMissing, s.sdcard) then hw.sdcard else s.sdcard,
      if Recaptures(cfg.power.watch, onlyMissing, s.power) then Some(hw.power) else s.power,
      if Recaptures(cfg.network.watch, onlyMissing, s.network) then Some(hw.network) else s.network,
      if Recaptures(cfg.lid.watch, onlyMissing, s.lid) then Some(hw.lid) else s.lid,
      if cfg.watchPci then PciCaptured(cfg, s.pci, hw, allowed, onlyMissing) else s.pci,
      if Recaptures(cfg.watchDisplay, onlyMissing, s.display) then Some(hw.display) else s.display)
  }

  function StrippedSet(base: Option<set<string>>, allowed: set<DeviceRef>,
                       bus: string -> DeviceRef): Option<set<string>> {
    if base.None? then None else Some(DeviceSets.Stripped(base.value, allowed, bus))
  }

  function Skipped(s: Snapshots, allowed: set<DeviceRef>, usbCaptured: bool): Snapshots {
    s.(usb := if usbCaptured && s.usb.Some? && allowed != {} then Some(Usb.Stripped(s.usb.value, allowed)) else s.usb,
       thunderbolt := StrippedSet(s.thunderbolt, allowed, OnThunderbolt),
       sdcard := StrippedSet(s.sdcard, allowed, OnSdCard),
       display := if s.display.Some? then Some(Displays.Blanked(s.display.value, allowed)) else None)
  }

  lemma CapturedInSteps(cfg: Config, s: Snapshots, hw: Hardware, allowed: set<DeviceRef>, onlyMissing: bool)
    ensures var c := Cleared(cfg, s);
            Captured(cfg, s, hw, allowed, onlyMissing)
            == Skipped(Readings(cfg, c, hw, allowed, onlyMissing), allowed,
                       Recaptures(cfg.watchUsb, onlyMissing, c.usb))
  {
  }

  /** Drops what an active allowance covers. */
  method SkipAllowed(bl: Baselines, allowed: set<DeviceRef>, usbCaptured: bool)
    modifies bl`usb, bl`thunderbolt, bl`sdcard, bl`display
    ensures bl.View() == Skipped(old(bl.View()), allowed, usbCaptured)
  {
    if allowed == {} {
      NothingToStrip(bl.thunderbolt, OnThunderbolt);
      NothingToStrip(bl.sdcard, OnSdCard);
      if bl.display.Some? {
        var same := Displays.HideAllowed(bl.display.value, allowed);
        assert same.connectors == bl.display.value.connectors;
      }
      return;
    }
    if usbCaptured && bl.usb.Some? {
      bl.usb := Some(Usb.Stripped(bl.usb.value, allowed));
    }
    if bl.thunderbolt.Some? {
      bl.thunderbolt := Some(DeviceSets.Stripped(bl.thunderbolt.value, allowed, OnThunderbolt));
    }
    if bl.sdcard.Some? {
      bl.sdcard := Some(DeviceSets.Stripped(bl.sdcard.value, allowed, OnSdCard));
    }
    if bl.display.Some? {
      var hidden := Displays.HideAllowed(bl.display.value, allowed);
      bl.display := Some(hidden);
    }
  }

  lemma NothingToStrip(base: Option<set<string>>, bus: string -> DeviceRef)
    ensures StrippedSet(base, {}, bus) == base
  {
    if base.Some? {
      assert DeviceSets.Stripped(base.value, {}, bus) == base.value;
    }
  }

  /** A bus that is switched off loses its baseline. */
  method ClearUnwatched(cfg: Config, bl: Baselines)
    modifies bl
    ensures bl.View() == Cleared(cfg, old(bl.View()))
  {
    if !cfg.watchUsb { bl.usb := None; }
    if !cfg.watchThunderbolt { bl.thunderbolt := None; }
    if !cfg.watchSdCard { bl.sdcard := None; }
    if !cfg.power.watch { bl.power := None; }
    if !cfg.network.watch { bl.network := None; }
    if !cfg.lid.watch { bl.lid := None; }
    if !cfg.watchPci { bl.pci := None; }
    if !cfg.watchDisplay { bl.display := None; }
  }

  method CapturePower(cfg: Config, bl: Baselines, st: D.DaemonState, state: PowerState, onlyMissing: bool)
    modifies bl`power, st
    ensures var again := Recaptures(cfg.power.watch, onlyMissing, old(bl.power));
            && bl.power == (if again then Some(state) else old(bl.power))
            && st.View() == Reset(old(st.View()), again, false, false)
  {
    if cfg.power.watch && !(onlyMissing && bl.power.Some?) {
      bl.power := Some(state);
      st.powerUnplugAt, st.powerTriggerOnceFired, st.powerGrace := None, false, None;
    }
  }

  method CaptureNetwork(cfg: Config, bl: Baselines, st: D.DaemonState, links: Links, onlyMissing: bool)
    modifies bl`network, st
    ensures var again := Recaptures(cfg.network.watch, onlyMissing, old(bl.network));
            && bl.network == (if again then Some(links) else old(bl.network))
            && st.View() == Reset(old(st.View()), false, again, false)
  {
    if cfg.network.watch && !(onlyMissing && bl.network.Some?) {
      bl.network := Some(links);
      st.networkLinkDownAt, st.networkGrace := None, None;
    }
  }

  method CaptureLid(cfg: Config, bl: Baselines, st: D.DaemonState, state: LidState, onlyMissing: bool)
    modifies bl`lid, st
    ensures var again := Recaptures(cfg.lid.watch, onlyMissing, old(bl.lid));
            && bl.lid == (if again then Some(state) else old(bl.lid))
            && st.View() == Reset(old(st.View()), false, false, again)
  {
    if cfg.lid.watch && !(onlyMissing && bl.lid.Some?) {
      bl.lid := Some(state);
      st.lidCloseAt, st.lidGrace := None, None;
    }
  }

  lemma ResetInTurn(st: D.State, power: bool, network: bool, lid: bool)
    ensures Reset(Reset(Reset(st, power, false, false), false, network, false), false, false, lid)
            == Reset(st, power, network, lid)
  {
  }

  /** Reads the timed buses, and resets the timer of each one read. */
  method CaptureTimed(cfg: Config, bl: Baselines, st: D.DaemonState, hw: Hardware, onlyMissing: bool)
    modifies bl`power, bl`network, bl`lid, st
    ensures bl.power ==
              if Recaptures(cfg.power.watch, onlyMissing, old(bl.power)) then Some(hw.power) else old(bl.power)
    ensures bl.network ==
              if Recaptures(cfg.network.watch, onlyMissing, old(bl.network)) then Some(hw.network) else old(bl.network)
    ensures bl.lid == if Recaptures(cfg.lid.watch, onlyMissing, old(bl.lid)) then Some(hw.lid) else old(bl.lid)
    ensures st.View() == TimersReset(cfg, old(bl.View()), old(st.View()), onlyMissing)
  {
    ResetInTurn(st.View(), Recaptures(cfg.power.watch, onlyMissing, bl.power),
                Recaptures(cfg.network.watch, onlyMissing, bl.network), Recaptures(cfg.lid.watch, onlyMissing, bl.lid));
    CapturePower(cfg, bl, st, hw.power, onlyMissing);
    CaptureNetwork(cfg, bl, st, hw.network, onlyMissing);
    CaptureLid(cfg, bl, st, hw.lid, onlyMissing);
  }

  /** Reads the buses an allowance is stripped from as sets or counts. */
  method CaptureListed(cfg: Config, bl: Baselines, hw: Hardware, onlyMissing: bool) returns (usbCaptured: bool)
    modifies bl`usb, bl`thunderbolt, bl`sdcard
    ensures usbCaptured == Recaptures(cfg.watchUsb, onlyMissing, old(bl.usb))
    ensures bl.usb == if usbCaptured then hw.usb else old(bl.usb)
    ensures bl.thunderbolt ==
              if Recaptures(cfg.watchThunderbolt, onlyMissing, old(bl.thunderbolt)) then hw.thunderbolt
              else old(bl.thunderbolt)
    ensures bl.sdcard == if Recaptures(cfg.watchSdCard, onlyMissing, old(bl.sdcard)) then hw.sdcard else old(bl.sdcard)
  {
    usbCaptured := cfg.watchUsb && !(onlyMissing && bl.usb.Some?);
    if usbCaptured {
      bl.usb := hw.usb;
    }
    if cfg.watchThunderbolt && !(onlyMissing && bl.thunderbolt.Some?) {
      bl.thunderbolt := hw.thunderbolt;
    }
    if cfg.watchSdCard && !(onlyMissing && bl.sdcard.Some?) {
      bl.sdcard := hw.sdcard;
    }
  }

  method CapturePciAndDisplay(cfg: Config, bl: Baselines, hw: Hardware, allowed: set<DeviceRef>, onlyMissing: bool)
    modifies bl`pci, bl`display
    ensures bl.pci == if cfg.watchPci then PciCaptured(cfg, old(bl.pci), hw, allowed, onlyMissing) else old(bl.pci)
    ensures bl.display ==
              if Recaptures(cfg.watchDisplay, onlyMissing, old(bl.display)) then Some(hw.display) else old(bl.display)
  {
    if cfg.watchPci && !(onlyMissing && bl.pci.Some?) {
      if hw.pci.Some? {
        bl.pci := Some(DeviceSets.Enumerated(hw.pci.value, DeviceSets.PciIgnore(cfg.pciIgnore, allowed)));
      }
    }
    if cfg.watchDisplay && !(onlyMissing && bl.display.Some?) {
      bl.display := Some(hw.display);
    }
  }

  method ReadBuses(cfg: Config, bl: Baselines, st: D.DaemonState, hw: Hardware, allowed: set<DeviceRef>,
                   onlyMissing: bool)
    returns (usbCaptured: bool)
    modifies bl, st
    ensures usbCaptured == Recaptures(cfg.watchUsb, onlyMissing, old(bl.usb))
    ensures bl.View() == Readings(cfg, old(bl.View()), hw, allowed, onlyMissing)
    ensures st.View() == TimersReset(cfg, old(bl.View()), old(st.View()), onlyMissing)
  {
    usbCaptured := CaptureListed(cfg, bl, hw, onlyMissing);
    CaptureTimed(cfg, bl, st, hw, onlyMissing);
    CapturePciAndDisplay(cfg, bl, hw, allowed, onlyMissing);
  }

  /** Replaces the baseline of every watched bus, or with `onlyMissing` of those
      that have none. */
  method CaptureBaselines(cfg: Config, bl: Baselines, st: D.DaemonState, hw: Hardware, onlyMissing: bool, now: Time)
    modifies bl, st
    ensures var allowed := Allowed(old(st.View()).allowances, now);
            bl.View() == Captured(cfg, old(bl.View()), hw, allowed, onlyMissing)
    ensures st.View() == TimersReset(cfg, old(bl.View()), old(st.View()), onlyMissing)
  {
    var allowed := Allowed(st.allowances.entries, now);
    CapturedInSteps(cfg, bl.View(), hw, allowed, onlyMissing);
    ClearUnwatched(cfg, bl);
    var usbCaptured := ReadBuses(cfg, bl, st, hw, allowed, onlyMissing);
    SkipAllowed(bl, allowed, usbCaptured);
  }

  /** A capture bus by bus, first USB and the sets. A bus that is switched off has
      no baseline. A reload keeps the baseline that stands, the sets less what is
      allowed; otherwise the baseline is the reading, less one instance or entry
      per allowance, and none where there was no reading. */
  lemma ListedBusesCaptured(cfg: Config, s: Snapshots, hw: Hardware, allowed: set<DeviceRef>, onlyMissing: bool)
    ensures var t := Captured(cfg, s, hw, allowed, onlyMissing);
            && (t.usb.Some? <==> cfg.watchUsb && (hw.usb.Some? || (onlyMissing && s.usb.Some?)))
            && (cfg.watchUsb && onlyMissing && s.usb.Some? ==> t.usb == s.usb)
            && (t.usb.Some? && !(onlyMissing && s.usb.Some?) ==>
                  forall id :: Usb.CountOf(t.usb.value, id) ==
                    var n := Usb.CountOf(hw.usb.value, id); if DeviceRef.Usb(id) in allowed && n > 0 then n - 1 else n)
            && SetHolds(cfg.watchThunderbolt, s.thunderbolt, hw.thunderbolt, t.thunderbolt, allowed, OnThunderbolt,
                        onlyMissing)
            && SetHolds(cfg.watchSdCard, s.sdcard, hw.sdcard, t.sdcard, allowed, OnSdCard, onlyMissing)
  {
  }

  ghost predicate SetHolds(watch: bool, standing: Option<set<string>>, reading: Option<set<string>>,
                           after: Option<set<string>>, allowed: set<DeviceRef>, bus: string -> DeviceRef,
                           onlyMissing: bool) {
    && (after.Some? <==> watch && (reading.Some? || (onlyMissing && standing.Some?)))
    && (after.Some? ==>
          var from := if onlyMissing && standing.Some? then standing.value else reading.value;
          forall d :: d in after.value <==> d in from && bus(d) !in allowed)
  }

  /** PCI and the displays. A PCI baseline also outlives a failed enumeration. On
      every connector an allowed monitor reads as nothing attached, and the rest
      is as it was. */
  lemma PortsCaptured(cfg: Config, s: Snapshots, hw: Hardware, allowed: set<DeviceRef>, onlyMissing: bool)
    ensures var t := Captured(cfg, s, hw, allowed, onlyMissing);
            && (t.pci.Some? <==> cfg.watchPci && (hw.pci.Some? || s.pci.Some?))
            && (cfg.watchPci && s.pci.Some? && (onlyMissing || hw.pci.None?) ==> t.pci == s.pci)
            && (t.pci.Some? && hw.pci.Some? && !(onlyMissing && s.pci.Some?) ==>
                  forall d :: d in t.pci.value <==>
                    && d in hw.pci.value
                    && (forall token :: token in cfg.pciIgnore && token != "" ==> !DeviceSets.Contains(d, token))
                    && (forall card: string :: DeviceRef.Pci(card) in allowed && card != "" ==>
                          !DeviceSets.Contains(d, card)))
            && (t.display.Some? <==> cfg.watchDisplay)
            && (t.display.Some? ==>
                  var from := if onlyMissing && s.display.Some? then s.display.value else hw.display;
                  && t.display.value.generation == from.generation
                  && |t.display.value.connectors| == |from.connectors|
                  && forall i :: 0 <= i < |from.connectors| ==>
                       var (c, d) := (from.connectors[i], t.display.value.connectors[i]);
                       d == if c.edid.Some? && DeviceRef.Display(c.edid.value.id) in allowed
                            then Displays.Connector(c.name, false, None) else c)
  {
    if hw.pci.Some? {
      forall d {
        DeviceSets.EnumeratedMeans(hw.pci.value, cfg.pciIgnore, allowed, d);
      }
    }
  }

  /** The timed buses: the reading or, in a reload, the baseline that stands; and
      the timer starts over exactly where the bus was read. */
  lemma TimedBusesCaptured(cfg: Config, s: Snapshots, st: D.State, hw: Hardware, allowed: set<DeviceRef>,
                           onlyMissing: bool)
    ensures var (t, u) := (Captured(cfg, s, hw, allowed, onlyMissing), TimersReset(cfg, s, st, onlyMissing));
            && t.power == (if !cfg.power.watch then None else if onlyMissing && s.power.Some? then s.power
                           else Some(hw.power))
            && t.network == (if !cfg.network.watch then None else if onlyMissing && s.network.Some? then s.network
                             else Some(hw.network))
            && t.lid == (if !cfg.lid.watch then None else if onlyMissing && s.lid.Some? then s.lid else Some(hw.lid))
            && (if cfg.power.watch && !(onlyMissing && s.power.Some?)
                then u.power == D.Timer(None, None) && !u.triggerOnceFired
                else u.power == st.power && u.triggerOnceFired == st.triggerOnceFired)
            && u.network == (if cfg.network.watch && !(onlyMissing && s.network.Some?) then D.Timer(None, None)
                             else st.network)
            && u.lid == (if cfg.lid.watch && !(onlyMissing && s.lid.Some?) then D.Timer(None, None) else st.lid)
            && u == st.(power := u.power, triggerOnceFired := u.triggerOnceFired, network := u.network, lid := u.lid)
  {
  }

  // ----- which buses have nothing to report ----------------------------------------------------

  /** Whatever whitelist the configuration and the allowances build. */
  ghost predicate UsbAccepts(cfg: Config, allowed: set<DeviceRef>, current: Usb.Counts, baseline: Usb.Counts) {
    forall list :: Usb.IsWhitelist(list, cfg.usbListed, allowed) ==> Usb.Accepts(current, baseline, list)
  }

  ghost predicate UsbQuiet(cfg: Config, allowed: set<DeviceRef>, hw: Hardware, baseline: Option<Usb.Counts>) {
    cfg.watchUsb && baseline.Some? ==> hw.usb.Some? && UsbAccepts(cfg, allowed, hw.usb.value, baseline.value)
  }

  ghost predicate SetQuiet(watch: bool, listed: set<string>, allowed: set<DeviceRef>, bus: string -> DeviceRef,
                           reading: Option<set<string>>, baseline: Option<set<string>>) {
    watch && baseline.Some? ==>
      && reading.Some?
      && DeviceSets.Accepts(reading.value, baseline.value,
                            listed + DeviceSets.AllowedOn(allowed, bus, reading.value))
  }

  ghost predicate PciQuiet(cfg: Config, allowed: set<DeviceRef>, hw: Hardware, baseline: Option<set<string>>) {
    cfg.watchPci && baseline.Some? && hw.pci.Some? ==>
      DeviceSets.Accepts(DeviceSets.Enumerated(hw.pci.value, DeviceSets.PciIgnore(cfg.pciIgnore, allowed)),
                         baseline.value, {})
  }

  ghost predicate DisplayQuiet(cfg: Config, allowed: set<DeviceRef>, hw: Hardware,
                               baseline: Option<Displays.Snapshot>) {
    cfg.watchDisplay && baseline.Some? ==>
      Displays.Agree(Displays.Blanked(hw.display, allowed), Displays.Blanked(baseline.value, allowed))
  }

  /** No device bus has anything to report. */
  ghost predicate Quiet(cfg: Config, allowed: set<DeviceRef>, hw: Hardware, s: Snapshots) {
    && UsbQuiet(cfg, allowed, hw, s.usb)
    && SetQuiet(cfg.watchThunderbolt, cfg.thunderboltListed, allowed, OnThunderbolt, hw.thunderbolt, s.thunderbolt)
    && SetQuiet(cfg.watchSdCard, cfg.sdCardListed, allowed, OnSdCard, hw.sdcard, s.sdcard)
    && PciQuiet(cfg, allowed, hw, s.pci)
    && DisplayQuiet(cfg, allowed, hw, s.display)
  }

  /** Blanked, connectors that share a name must share the reading of the first;
      unique names are one way to have it. */
  ghost predicate DisplaySteady(s: Displays.Snapshot, allowed: set<DeviceRef>) {
    var connectors := Displays.Blanked(s, allowed).connectors;
    forall c :: c in connectors ==> Displays.Read(c) == Displays.Read(Displays.Get(connectors, c.name).value)
  }

  /** What enumeration promises. */
  ghost predicate Plausible(hw: Hardware) {
    hw.usb.Some? ==> Usb.Counted(hw.usb.value)
  }

  lemma FreshUsbIsQuiet(cfg: Config, standing: Option<Usb.Counts>, hw: Hardware, allowed: set<DeviceRef>)
    requires Plausible(hw)
    ensures UsbQuiet(cfg, allowed, hw, UsbCaptured(cfg, standing, hw, allowed, false))
  {
  }

  /** A re-arm accepts the hardware it saw on every bus: always, except that
      connectors sharing a name have to read alike. A PCI bus that failed to
      enumerate reports nothing while it keeps failing. */
  lemma FreshCaptureIsQuiet(cfg: Config, s: Snapshots, hw: Hardware, allowed: set<DeviceRef>)
    requires Plausible(hw)
    ensures Quiet(cfg, allowed, hw, Captured(cfg, s, hw, allowed, false))
            <==> (cfg.watchDisplay ==> DisplaySteady(hw.display, allowed))
  {
    FreshUsbIsQuiet(cfg, s.usb, hw, allowed);
    FreshSetIsQuiet(cfg.watchThunderbolt, cfg.thunderboltListed, allowed, OnThunderbolt, s.thunderbolt, hw.thunderbolt);
    FreshSetIsQuiet(cfg.watchSdCard, cfg.sdCardListed, allowed, OnSdCard, s.sdcard, hw.sdcard);
    FreshDisplayIsQuiet(cfg, s.display, hw, allowed);
  }

  lemma FreshSetIsQuiet(watch: bool, listed: set<string>, allowed: set<DeviceRef>, bus: string -> DeviceRef,
                        standing: Option<set<string>>, reading: Option<set<string>>)
    ensures SetQuiet(watch, listed, allowed, bus, reading, SetCaptured(watch, standing, reading, allowed, bus, false))
  {
  }

  lemma FreshDisplayIsQuiet(cfg: Config, standing: Option<Displays.Snapshot>, hw: Hardware, allowed: set<DeviceRef>)
    ensures DisplayQuiet(cfg, allowed, hw, DisplayCaptured(cfg, standing, hw, allowed, false))
            <==> (cfg.watchDisplay ==> DisplaySteady(hw.display, allowed))
  {
    Displays.BlankedTwice(hw.display, allowed);
    Displays.SelfAgreement(Displays.Blanked(hw.display, allowed));
  }

  lemma UniqueNamesAreSteady(s: Displays.Snapshot, allowed: set<DeviceRef>)
    requires Displays.UniqueNames(s.connectors)
    ensures DisplaySteady(s, allowed)
  {
    Displays.BlankedHasMembers(s, allowed);
    var connectors := Displays.Blanked(s, allowed).connectors;
    forall c | c in connectors ensures Displays.Get(connectors, c.name) == Some(c) {
      Displays.GetFinds(connectors, c);
    }
  }

  /** The two configurations list and filter the same devices; anything else may
      differ. */
  predicate SameLists(was: Config, cfg: Config) {
    && was.usbListed == cfg.usbListed
    && was.thunderboltListed == cfg.thunderboltListed && was.sdCardListed == cfg.sdCardListed
    && was.pciIgnore == cfg.pciIgnore
  }

  /** A reload that keeps the standing baselines raises nothing: with lists,
      filters and allowances as they were, hardware that was accepted stays
      accepted on every bus that was watched and had a baseline, whatever else
      the new configuration changes and the reload reads meanwhile. */
  lemma ReloadIsQuiet(was: Config, cfg: Config, s: Snapshots, hw: Hardware, meanwhile: Hardware,
                      allowed: set<DeviceRef>)
    requires Quiet(was, allowed, hw, s) && SameLists(was, cfg)
    ensures var t := Captured(cfg, s, meanwhile, allowed, true);
            && (was.watchUsb && s.usb.Some? ==> UsbQuiet(cfg, allowed, hw, t.usb))
            && (was.watchThunderbolt && s.thunderbolt.Some? ==>
                  SetQuiet(cfg.watchThunderbolt, cfg.thunderboltListed, allowed, OnThunderbolt, hw.thunderbolt,
                           t.thunderbolt))
            && (was.watchSdCard && s.sdcard.Some? ==>
                  SetQuiet(cfg.watchSdCard, cfg.sdCardListed, allowed, OnSdCard, hw.sdcard, t.sdcard))
            && (was.watchPci && s.pci.Some? ==> PciQuiet(cfg, allowed, hw, t.pci))
            && (was.watchDisplay && s.display.Some? ==> DisplayQuiet(cfg, allowed, hw, t.display))
  {
    if was.watchThunderbolt {
      StandingSetStaysQuiet(cfg.watchThunderbolt, cfg.thunderboltListed, allowed, OnThunderbolt,
                            hw.thunderbolt, s.thunderbolt, meanwhile.thunderbolt);
    }
    if was.watchSdCard {
      StandingSetStaysQuiet(cfg.watchSdCard, cfg.sdCardListed, allowed, OnSdCard, hw.sdcard, s.sdcard,
                            meanwhile.sdcard);
    }
    if s.display.Some? {
      Displays.BlankedTwice(s.display.value, allowed);
    }
  }

  lemma StandingSetStaysQuiet(watch: bool, listed: set<string>, allowed: set<DeviceRef>, bus: string -> DeviceRef,
                              reading: Option<set<string>>, baseline: Option<set<string>>,
                                  meanwhile: Option<set<string>>)
    requires SetQuiet(watch, listed, allowed, bus, reading, baseline)
    ensures baseline.Some? ==>
              SetQuiet(watch, listed, allowed, bus, reading,
                       SetCaptured(watch, baseline, meanwhile, allowed, bus, true))
  {
  }
}
