/** Display snapshots (crates/plugkill-core/src/display.rs), and the blanking of
    allowed monitors (crates/plugkill/src/main.rs). */
module Displays {
  import opened Wrappers
  import opened Selectors

  /** What a monitor reports: its identity, and a name that is not part of it. */
  datatype Edid = Edid(id: MonitorId, name: string)

  datatype Connector = Connector(name: string, connected: bool, edid: Option<Edid>)

  datatype Snapshot = Snapshot(connectors: seq<Connector>, generation: Option<nat>)

  datatype Change =
    | Appeared(connector: string)
    | Disappeared(connector: string)
    | Connected(connector: string)
    | Disconnected(connector: string)
    | Replaced(connector: string, now: Option<Edid>)
    | TopologyChanged

  /** Equality of two readings: names do not count. */
  function Identity(e: Option<Edid>): Option<MonitorId> {
    if e.Some? then Some(e.value.id) else None
  }

  // ----- comparing ----------------------------------------------------------------------

  /** The first connector of that name. */
  function Get(connectors: seq<Connector>, name: string): (r: Option<Connector>)
    ensures r.Some? ==> r.value in connectors && r.value.name == name
    ensures r.None? ==> forall c :: c in connectors ==> c.name != name
  {
    if connectors == [] then None
    else if connectors[0].name == name then Some(connectors[0])
    else Get(connectors[1..], name)
  }

  /** What there is to say about one live connector. */
  function Difference(c: Connector, baseline: seq<Connector>): Option<Change> {
    match Get(baseline, c.name)
    case None => Some(Appeared(c.name))
    case Some(was) =>
      if c.connected != was.connected then
        Some(if c.connected then Connected(c.name) else Disconnected(c.name))
      else if c.connected && Identity(c.edid) != Identity(was.edid) then Some(Replaced(c.name, c.edid))
      else None
  }

  /** The two snapshots agree: the same event counter, and the connectors of
      each have their counterpart in the other. */
  ghost predicate Agree(current: Snapshot, baseline: Snapshot) {
    && current.generation == baseline.generation
    && (forall c {:trigger Difference(c, baseline.connectors)} :: c in current.connectors ==>
           Difference(c, baseline.connectors).None?)
    && (forall was {:trigger was in baseline.connectors} :: was in baseline.connectors ==>
           Get(current.connectors, was.name).Some?)
  }

  /** Connector `i` is the first live one with something to say. */
  predicate FirstDifference(current: seq<Connector>, baseline: seq<Connector>, i: int) {
    && 0 <= i < |current| && Difference(current[i], baseline).Some?
    && forall j :: 0 <= j < i ==> Difference(current[j], baseline).None?
  }

  /** The report on two snapshots: the event counter first, then the first live
      connector that differs, then a connector that is gone. */
  ghost predicate IsChange(current: Snapshot, baseline: Snapshot, change: Change) {
    match change
    case TopologyChanged => current.generation != baseline.generation
    case Disappeared(name) =>
      && current.generation == baseline.generation
      && (forall c :: c in current.connectors ==> Difference(c, baseline.connectors).None? && c.name != name)
      && exists was :: was in baseline.connectors && was.name == name
    case _ =>
      && current.generation == baseline.generation
      && exists i {:trigger FirstDifference(current.connectors, baseline.connectors, i)} ::
           FirstDifference(current.connectors, baseline.connectors, i)
           && Difference(current.connectors[i], baseline.connectors) == Some(change)
  }

  /** Once some live connector differs, the first of them is what is reported. */
  lemma FirstDifferenceIsReported(current: Snapshot, baseline: Snapshot, change: Change, i: int)
    requires current.generation == baseline.generation && IsChange(current, baseline, change)
    requires FirstDifference(current.connectors, baseline.connectors, i)
    ensures Difference(current.connectors[i], baseline.connectors) == Some(change)
  {
    assert current.connectors[i] in current.connectors;
  }

  /** The first difference, or none exactly when the snapshots agree. */
  method DetectChanges(current: Snapshot, baseline: Snapshot) returns (change: Option<Change>)
    ensures change.None? <==> Agree(current, baseline)
    ensures change.Some? ==> IsChange(current, baseline, change.value)
  {
    if current.generation != baseline.generation {
      return Some(TopologyChanged);
    }
    for i := 0 to |current.connectors|
      invariant forall j :: 0 <= j < i ==> Difference(current.connectors[j], baseline.connectors).None?
    {
      var c := current.connectors[i];
      var found := Get(baseline.connectors, c.name);
      if found.None? {
        assert FirstDifference(current.connectors, baseline.connectors, i);
        return Some(Appeared(c.name));
      }
      var was := found.value;
      if c.connected != was.connected {
        assert FirstDifference(current.connectors, baseline.connectors, i);
        return Some(if c.connected then Connected(c.name) else Disconnected(c.name));
      }
      if c.connected && Identity(c.edid) != Identity(was.edid) {
        assert FirstDifference(current.connectors, baseline.connectors, i);
        return Some(Replaced(c.name, c.edid));
      }
    }
    for i := 0 to |baseline.connectors|
      invariant forall j :: 0 <= j < i ==> Get(current.connectors, baseline.connectors[j].name).Some?
    {
      if Get(current.connectors, baseline.connectors[i].name).None? {
        assert baseline.connectors[i] in baseline.connectors;
        return Some(Disappeared(baseline.connectors[i].name));
      }
    }
    change := None;
  }

  // ----- what agreement means ---------------------------------------------------------------

  ghost predicate UniqueNames(connectors: seq<Connector>) {
    forall i, j :: 0 <= i < j < |connectors| ==> connectors[i].name != connectors[j].name
  }

  lemma OnlyOneOfAName(connectors: seq<Connector>)
    requires UniqueNames(connectors)
    ensures forall c, d :: c in connectors && d in connectors && c.name == d.name ==> c == d
  {
  }

  /** The reading of a connector that counts: whether something is attached,
      and then who it is. */
  datatype Reading = Empty | Attached(who: Option<MonitorId>)

  function Read(c: Connector): Reading {
    if c.connected then Attached(Identity(c.edid)) else Empty
  }

  ghost function Names(connectors: seq<Connector>): set<string> {
    set c | c in connectors :: c.name
  }

  lemma {:induction false} GetFinds(connectors: seq<Connector>, c: Connector)
    requires UniqueNames(connectors) && c in connectors
    ensures Get(connectors, c.name) == Some(c)
  {
  }

  /** With unique names, agreement is equality of the connector names and of the
      reading on each, up to monitor names; so it is symmetric, and the order of
      enumeration does not matter. */
  lemma AgreeMeansSameReadings(current: Snapshot, baseline: Snapshot)
    requires UniqueNames(current.connectors) && UniqueNames(baseline.connectors)
    ensures Agree(current, baseline) <==>
            && current.generation == baseline.generation
            && Names(current.connectors) == Names(baseline.connectors)
            && forall c, d {:trigger Read(c), Read(d)} ::
                 c in current.connectors && d in baseline.connectors && c.name == d.name ==> Read(c) == Read(d)
  {
    if Agree(current, baseline) {
      AgreementReadsAlike(current, baseline);
    }
    forall c | c in current.connectors && Get(baseline.connectors, c.name).Some?
      ensures Difference(c, baseline.connectors).None? <==> Read(c) == Read(Get(baseline.connectors, c.name).value)
    {
    }
    forall c | c in current.connectors && c.name in Names(baseline.connectors)
      ensures Get(baseline.connectors, c.name).Some?
    {
    }
    forall d | d in baseline.connectors && d.name in Names(current.connectors)
      ensures Get(current.connectors, d.name).Some?
    {
    }
  }

  lemma AgreementReadsAlike(current: Snapshot, baseline: Snapshot)
    requires UniqueNames(baseline.connectors) && Agree(current, baseline)
    ensures Names(current.connectors) == Names(baseline.connectors)
    ensures forall c, d {:trigger Read(c), Read(d)} ::
              c in current.connectors && d in baseline.connectors && c.name == d.name ==> Read(c) == Read(d)
  {
    forall name | name in Names(current.connectors) ensures name in Names(baseline.connectors) {
      var c :| c in current.connectors && c.name == name;
      assert Difference(c, baseline.connectors).None?;
    }
    forall name | name in Names(baseline.connectors) ensures name in Names(current.connectors) {
      var d :| d in baseline.connectors && d.name == name;
      assert Get(current.connectors, d.name).Some?;
    }
    forall c, d | c in current.connectors && d in baseline.connectors && c.name == d.name ensures Read(c) == Read(d) {
      assert Difference(c, baseline.connectors).None?;
      GetFinds(baseline.connectors, d);
    }
  }

  /** A snapshot agrees with itself exactly when connectors that share a name
      also share the reading of the first of them. */
  lemma SelfAgreement(s: Snapshot)
    ensures Agree(s, s) <==>
            forall c :: c in s.connectors ==> Read(c) == Read(Get(s.connectors, c.name).value)
  {
    forall c | c in s.connectors
      ensures Difference(c, s.connectors).None? <==> Read(c) == Read(Get(s.connectors, c.name).value)
    {
    }
  }

  /** Two cards that both expose a DP-1, a monitor on the first only: the very
      snapshot a capture stored is then reported as a change. */
  lemma SharedNamesDisagree()
    ensures var s := Snapshot([Connector("DP-1", true, None), Connector("DP-1", false, None)], None);
            !Agree(s, s)
  {
    var s := Snapshot([Connector("DP-1", true, None), Connector("DP-1", false, None)], None);
    var second := s.connectors[1];
    assert second in s.connectors && Get(s.connectors, "DP-1") == Some(s.connectors[0]);
    assert Difference(second, s.connectors).Some?;
  }

  /** Where a connector appeared or connected, any other of its name that is
      connected differs from the baseline too. */
  lemma NamesakeDiffers(c: Connector, other: Connector, baseline: seq<Connector>)
    requires Difference(c, baseline).Some?
             && (Difference(c, baseline).value.Appeared? || Difference(c, baseline).value.Connected?)
    requires other.name == c.name && other.connected
    ensures Difference(other, baseline).Some?
  {
  }

  /** EDIDs are read from connected connectors only. */
  ghost predicate Wired(s: Snapshot) {
    forall c :: c in s.connectors && c.edid.Some? ==> c.connected
  }

  // ----- blanking allowed monitors --------------------------------------------------------------

  predicate Hidden(c: Connector, allowed: set<DeviceRef>) {
    c.edid.Some? && DeviceRef.Display(c.edid.value.id) in allowed
  }

  function Blank(c: Connector, allowed: set<DeviceRef>): Connector {
    if Hidden(c, allowed) then Connector(c.name, false, None) else c
  }

  function Blanked(s: Snapshot, allowed: set<DeviceRef>): (b: Snapshot)
    ensures |b.connectors| == |s.connectors| && b.generation == s.generation
    ensures forall i :: 0 <= i < |s.connectors| ==> b.connectors[i] == Blank(s.connectors[i], allowed)
  {
    Snapshot(seq(|s.connectors|, i requires 0 <= i < |s.connectors| => Blank(s.connectors[i], allowed)), s.generation)
  }

  method HideAllowed(s: Snapshot, allowed: set<DeviceRef>) returns (out: Snapshot)
    ensures out == Blanked(s, allowed)
  {
    out := s;
    if allowed == {} {
      assert forall c :: Blank(c, allowed) == c;
      assert out.connectors == Blanked(s, allowed).connectors;
      return;
    }
    for i := 0 to |s.connectors|
      invariant |out.connectors| == |s.connectors| && out.generation == s.generation
      invariant forall j :: 0 <= j < i ==> out.connectors[j] == Blank(s.connectors[j], allowed)
      invariant forall j :: i <= j < |s.connectors| ==> out.connectors[j] == s.connectors[j]
    {
      var c := out.connectors[i];
      if c.edid.Some? && DeviceRef.Display(c.edid.value.id) in allowed {
        out := out.(connectors := out.connectors[i := c.(connected := false, edid := None)]);
      }
    }
    assert out.connectors == Blanked(s, allowed).connectors;
  }

  /** Blanking again, as a reload does to a standing baseline, changes nothing. */
  lemma BlankedTwice(s: Snapshot, allowed: set<DeviceRef>)
    ensures Blanked(Blanked(s, allowed), allowed) == Blanked(s, allowed)
  {
  }

  lemma BlankedHasMembers(s: Snapshot, allowed: set<DeviceRef>)
    ensures forall c :: c in Blanked(s, allowed).connectors <==> exists o :: o in s.connectors && Blank(o, allowed) == c
    ensures forall o :: o in s.connectors ==> Blank(o, allowed) in Blanked(s, allowed).connectors
    ensures Names(Blanked(s, allowed).connectors) == Names(s.connectors)
    ensures UniqueNames(s.connectors) ==> UniqueNames(Blanked(s, allowed).connectors)
  {
  }

  /** What a comparison of blanked snapshots sees: the connector names, and on
      each connector whether a monitor that is not allowed is attached, and who. */
  lemma BlankedAgreeMeans(current: Snapshot, baseline: Snapshot, allowed: set<DeviceRef>)
    requires UniqueNames(current.connectors) && UniqueNames(baseline.connectors)
    ensures Agree(Blanked(current, allowed), Blanked(baseline, allowed)) <==>
            && current.generation == baseline.generation
            && Names(current.connectors) == Names(baseline.connectors)
            && forall c, d {:trigger Blank(c, allowed), Blank(d, allowed)} ::
                 c in current.connectors && d in baseline.connectors && c.name == d.name
                 ==> Read(Blank(c, allowed)) == Read(Blank(d, allowed))
  {
    BlankedHasMembers(current, allowed);
    BlankedHasMembers(baseline, allowed);
    AgreeMeansSameReadings(Blanked(current, allowed), Blanked(baseline, allowed));
  }

  /** Moving an allowed monitor from one connector to another, nothing else
      being attached to either, is silent. */
  lemma MovingAnAllowedMonitorIsSilent(s: Snapshot, i: nat, j: nat, monitor: Edid, allowed: set<DeviceRef>)
    requires UniqueNames(s.connectors) && i < |s.connectors| && j < |s.connectors|
    requires !s.connectors[i].connected && !s.connectors[j].connected
    requires DeviceRef.Display(monitor.id) in allowed
    ensures var there := s.(connectors := s.connectors[i := Connector(s.connectors[i].name, true, Some(monitor))]);
            var here := s.(connectors := s.connectors[j := Connector(s.connectors[j].name, true, Some(monitor))]);
            Agree(Blanked(there, allowed), Blanked(here, allowed))
  {
    var there := s.(connectors := s.connectors[i := Connector(s.connectors[i].name, true, Some(monitor))]);
    var here := s.(connectors := s.connectors[j := Connector(s.connectors[j].name, true, Some(monitor))]);
    PluggingReadsAs(s, i, monitor, allowed);
    PluggingReadsAs(s, j, monitor, allowed);
    BlankedAgreeMeans(there, here, allowed);
    forall c, d | c in there.connectors && d in here.connectors && c.name == d.name
      ensures Read(Blank(c, allowed)) == Read(Blank(d, allowed))
    {
      var o :| o in s.connectors && o.name == c.name && Read(Blank(o, allowed)) == Read(Blank(c, allowed));
      var p :| p in s.connectors && p.name == d.name && Read(Blank(p, allowed)) == Read(Blank(d, allowed));
      OnlyOneOfAName(s.connectors);
    }
  }

  /** With an allowed monitor plugged in at `i`, every connector still reads,
      blanked, as it did without. */
  lemma PluggingReadsAs(s: Snapshot, i: nat, monitor: Edid, allowed: set<DeviceRef>)
    requires UniqueNames(s.connectors) && i < |s.connectors| && !s.connectors[i].connected
    requires DeviceRef.Display(monitor.id) in allowed
    ensures var t := s.connectors[i := Connector(s.connectors[i].name, true, Some(monitor))];
            && UniqueNames(t) && Names(t) == Names(s.connectors)
            && forall c :: c in t ==>
                 exists o :: o in s.connectors && o.name == c.name && Read(Blank(o, allowed)) == Read(Blank(c, allowed))
  {
    var plugged := Connector(s.connectors[i].name, true, Some(monitor));
    var t := s.connectors[i := plugged];
    forall c | c in t
      ensures exists o :: o in s.connectors && o.name == c.name && Read(Blank(o, allowed)) == Read(Blank(c, allowed))
    {
      if c == plugged {
        assert s.connectors[i] in s.connectors;
      }
    }
    assert t[i] == plugged;
    forall o | o in s.connectors ensures o.name in Names(t) {
      var k :| 0 <= k < |s.connectors| && s.connectors[k] == o;
      assert t[k] in t && t[k].name == o.name;
    }
    forall k, l | 0 <= k < l < |t| ensures t[k].name != t[l].name {
      assert s.connectors[k].name != s.connectors[l].name;
    }
  }

  /** A monitor that is not allowed, on a connector whose baseline monitor is
      another one or none, is always a change. */
  lemma AStrangerIsNoticed(current: Snapshot, baseline: Snapshot, allowed: set<DeviceRef>, c: Connector, d: Connector)
    requires UniqueNames(current.connectors) && UniqueNames(baseline.connectors)
    requires c in current.connectors && d in baseline.connectors && c.name == d.name
    requires c.connected && c.edid.Some? && DeviceRef.Display(c.edid.value.id) !in allowed
    requires !d.connected || Identity(d.edid) != Some(c.edid.value.id)
    ensures !Agree(Blanked(current, allowed), Blanked(baseline, allowed))
  {
    BlankedAgreeMeans(current, baseline, allowed);
    assert Read(Blank(c, allowed)) != Read(Blank(d, allowed));
  }
}
