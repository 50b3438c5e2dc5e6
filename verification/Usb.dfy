/** USB snapshots: counts per device, compared with a baseline and a whitelist
    (crates/plugkill-core/src/usb.rs, crates/plugkill/src/main.rs). */
module Usb {
  import opened Wrappers
  import opened Selectors

  const MAX_U32: U32 := 0xFFFF_FFFF

  type Counts = map<UsbId, U32>

  datatype DeviceChange =
    | Added(device: UsbId)
    | Removed(device: UsbId)
    | CountIncreased(device: UsbId, expected: U32, actual: U32)
    | CountDecreased(device: UsbId, expected: U32, actual: U32)

  datatype UsbEntry = UsbEntry(id: UsbId, count: U32)

  function CountOf(s: Counts, id: UsbId): U32 {
    if id in s then s[id] else 0
  }

  /** What enumeration gives: no device is listed with no instance. */
  ghost predicate Counted(s: Counts) {
    forall id :: id in s ==> s[id] >= 1
  }

  function SaturatingAdd(a: U32, b: U32): U32 {
    if a + b > MAX_U32 then MAX_U32 else a + b
  }

  // ----- comparing -------------------------------------------------------------------

  function AllowedCount(baseline: Counts, whitelist: Counts, id: UsbId): U32 {
    SaturatingAdd(CountOf(baseline, id), CountOf(whitelist, id))
  }

  /** More of a device than baseline and whitelist allow between them. */
  predicate Over(current: Counts, baseline: Counts, whitelist: Counts, id: UsbId) {
    id in current &&
    (AllowedCount(baseline, whitelist, id) == 0 || current[id] > AllowedCount(baseline, whitelist, id))
  }

  /** Less of a device than the baseline has. */
  predicate Under(current: Counts, baseline: Counts, id: UsbId) {
    id in baseline && (CountOf(current, id) == 0 || CountOf(current, id) < baseline[id])
  }

  ghost predicate Accepts(current: Counts, baseline: Counts, whitelist: Counts) {
    forall id {:trigger Over(current, baseline, whitelist, id)} {:trigger Under(current, baseline, id)} ::
      !Over(current, baseline, whitelist, id) && !Under(current, baseline, id)
  }

  /** `c` is a report the comparison may give. Hash order decides which device
      is named, but an excess is always reported before a loss. */
  ghost predicate IsChange(current: Counts, baseline: Counts, whitelist: Counts, c: DeviceChange) {
    match c
    case Added(id) =>
      Over(current, baseline, whitelist, id) && AllowedCount(baseline, whitelist, id) == 0
    case CountIncreased(id, expected, actual) =>
      && Over(current, baseline, whitelist, id)
      && 0 < expected == AllowedCount(baseline, whitelist, id) < actual == current[id]
    case Removed(id) =>
      && (forall o :: !Over(current, baseline, whitelist, o))
      && Under(current, baseline, id) && CountOf(current, id) == 0
    case CountDecreased(id, expected, actual) =>
      && (forall o :: !Over(current, baseline, whitelist, o))
      && Under(current, baseline, id) && 0 < actual == CountOf(current, id) < expected == baseline[id]
  }

  method FindExcess(current: Counts, baseline: Counts, whitelist: Counts) returns (change: Option<DeviceChange>)
    ensures change.None? <==> forall o :: !Over(current, baseline, whitelist, o)
    ensures change.Some? ==> !change.value.Removed? && !change.value.CountDecreased?
    ensures change.Some? ==> IsChange(current, baseline, whitelist, change.value)
  {
    var left := current.Keys;
    while left != {}
      invariant left <= current.Keys
      invariant forall o :: Over(current, baseline, whitelist, o) ==> o in left
      decreases left
    {
      var device :| device in left;
      var allowed := SaturatingAdd(CountOf(baseline, device), CountOf(whitelist, device));
      if CountOf(baseline, device) == 0 && CountOf(whitelist, device) == 0 {
        assert Over(current, baseline, whitelist, device);
        return Some(Added(device));
      }
      if current[device] > allowed {
        assert Over(current, baseline, whitelist, device);
        return Some(CountIncreased(device, allowed, current[device]));
      }
      left := left - {device};
    }
    change := None;
  }

  /** The report, or none exactly when the snapshot is accepted. */
  method DetectChanges(current: Counts, baseline: Counts, whitelist: Counts) returns (change: Option<DeviceChange>)
    ensures change.None? <==> Accepts(current, baseline, whitelist)
    ensures change.Some? ==> IsChange(current, baseline, whitelist, change.value)
  {
    change := FindExcess(current, baseline, whitelist);
    if change.Some? {
      return;
    }
    var left := baseline.Keys;
    while left != {}
      invariant left <= baseline.Keys
      invariant forall id :: Under(current, baseline, id) ==> id in left
      decreases left
    {
      var device :| device in left;
      var count := CountOf(current, device);
      if count == 0 {
        assert Under(current, baseline, device);
        return Some(Removed(device));
      }
      if count < baseline[device] {
        assert Under(current, baseline, device);
        return Some(CountDecreased(device, baseline[device], count));
      }
      left := left - {device};
    }
    change := None;
  }

  /** A snapshot is accepted exactly when of every device there is at least what
      the baseline has and at most that and the whitelist together. A device a
      snapshot lists with count 0, which enumeration never does, still has to be
      known to the other side. */
  lemma AcceptsMeans(current: Counts, baseline: Counts, whitelist: Counts)
    ensures Accepts(current, baseline, whitelist) <==>
            forall id {:trigger CountOf(current, id)} ::
              && CountOf(baseline, id) <= CountOf(current, id) <= CountOf(baseline, id) + CountOf(whitelist, id)
              && (id in current ==> CountOf(baseline, id) + CountOf(whitelist, id) > 0)
              && (id in baseline ==> CountOf(current, id) > 0)
  {
    forall id {:trigger CountOf(current, id)} | Accepts(current, baseline, whitelist)
      ensures CountOf(baseline, id) <= CountOf(current, id) <= CountOf(baseline, id) + CountOf(whitelist, id)
      ensures id in current ==> CountOf(baseline, id) + CountOf(whitelist, id) > 0
      ensures id in baseline ==> CountOf(current, id) > 0
    {
      assert !Over(current, baseline, whitelist, id) && !Under(current, baseline, id);
    }
    if !Accepts(current, baseline, whitelist) {
      var id :| Over(current, baseline, whitelist, id) || Under(current, baseline, id);
      assert CountOf(current, id) == CountOf(current, id);
    }
  }

  /** Unplugging a device of the baseline, or one instance of it, is noticed
      whatever else is plugged in; so is plugging one in beyond the whitelist. */
  lemma LossAndGainAreNoticed(current: Counts, baseline: Counts, whitelist: Counts, id: UsbId)
    ensures CountOf(current, id) < CountOf(baseline, id) ==> !Accepts(current, baseline, whitelist)
    ensures CountOf(current, id) > CountOf(baseline, id) + CountOf(whitelist, id) ==>
              !Accepts(current, baseline, whitelist)
  {
    AcceptsMeans(current, baseline, whitelist);
  }

  // ----- the whitelist ------------------------------------------------------------------

  /** What the configured entries allow of one device, added up. */
  function Listed(entries: seq<UsbEntry>, id: UsbId): nat {
    if entries == [] then 0
    else
      var last := entries[|entries| - 1];
      Listed(entries[..|entries| - 1], id) + if last.id == id then last.count else 0
  }

  lemma {:induction false} ListingsAddUp(some: seq<UsbEntry>, more: seq<UsbEntry>, id: UsbId)
    ensures Listed(some + more, id) == Listed(some, id) + Listed(more, id)
  {
    if more == [] {
      assert some + more == some;
    } else {
      assert (some + more)[..|some + more| - 1] == some + more[..|more| - 1];
      ListingsAddUp(some, more[..|more| - 1], id);
    }
  }

  /** An entry allows as many of its own device as it says, and of no other. */
  lemma OneListing(entry: UsbEntry, id: UsbId)
    ensures Listed([entry], id) == if id == entry.id then entry.count else 0
  {
    assert [entry][..0] == [];
  }

  /** Plus one for an active allowance. */
  function Whitelisted(entries: seq<UsbEntry>, allowed: set<DeviceRef>, id: UsbId): nat {
    Listed(entries, id) + if DeviceRef.Usb(id) in allowed then 1 else 0
  }

  /** Sums stay within the counter's 32 bits. */
  ghost predicate Fits(entries: seq<UsbEntry>, allowed: set<DeviceRef>) {
    forall id :: Whitelisted(entries, allowed, id) <= MAX_U32
  }

  lemma {:induction false} PrefixListsLess(entries: seq<UsbEntry>, i: nat, id: UsbId)
    requires i <= |entries|
    ensures Listed(entries[..i], id) <= Listed(entries, id)
  {
    if i < |entries| {
      PrefixListsLess(entries[..|entries| - 1], i, id);
      assert entries[..|entries| - 1][..i] == entries[..i];
    } else {
      assert entries[..i] == entries;
    }
  }

  method BuildConfigured(entries: seq<UsbEntry>, ghost allowed: set<DeviceRef>) returns (list: Counts)
    requires Fits(entries, allowed)
    ensures forall id {:trigger CountOf(list, id)} :: CountOf(list, id) == Listed(entries, id)
  {
    list := map[];
    for i := 0 to |entries|
      invariant forall id {:trigger CountOf(list, id)} :: CountOf(list, id) == Listed(entries[..i], id)
    {
      var entry := entries[i];
      assert entries[..i + 1][..i] == entries[..i];
      PrefixListsLess(entries, i + 1, entry.id);
      assert Whitelisted(entries, allowed, entry.id) <= MAX_U32;
      assert Listed(entries[..i + 1], entry.id) == CountOf(list, entry.id) + entry.count;
      ghost var before := list;
      list := list[entry.id := CountOf(list, entry.id) + entry.count];
      forall id ensures CountOf(list, id) == Listed(entries[..i + 1], id) {
        assert CountOf(before, id) == Listed(entries[..i], id);
      }
    }
    assert entries[..|entries|] == entries;
  }

  /** Counts what configuration and allowances permit of each device. */
  method BuildWhitelist(entries: seq<UsbEntry>, allowed: set<DeviceRef>) returns (list: Counts)
    requires Fits(entries, allowed)
    ensures forall id {:trigger CountOf(list, id)} :: CountOf(list, id) == Whitelisted(entries, allowed, id)
  {
    list := BuildConfigured(entries, allowed);
    var left := allowed;
    while left != {}
      invariant left <= allowed
      invariant forall id {:trigger CountOf(list, id)} ::
                  CountOf(list, id) == Listed(entries, id) + if DeviceRef.Usb(id) in allowed - left then 1 else 0
      decreases left
    {
      var ref :| ref in left;
      ghost var before, was := list, left;
      if ref.Usb? {
        assert Whitelisted(entries, allowed, ref.id) <= MAX_U32;
        assert CountOf(list, ref.id) == Listed(entries, ref.id);
        list := list[ref.id := CountOf(list, ref.id) + 1];
      }
      left := left - {ref};
      forall id
        ensures CountOf(list, id) == Listed(entries, id) + if DeviceRef.Usb(id) in allowed - left then 1 else 0
      {
        assert CountOf(before, id) == Listed(entries, id) + if DeviceRef.Usb(id) in allowed - was then 1 else 0;
      }
    }
  }

  // ----- what a capture leaves out ---------------------------------------------------------

  /** One instance per allowance is taken out of a fresh capture, and an entry
      that reaches nothing goes. */
  function Stripped(captured: Counts, allowed: set<DeviceRef>): Counts {
    map id | id in captured && (if DeviceRef.Usb(id) in allowed then captured[id] > 1 else captured[id] > 0)
      :: if DeviceRef.Usb(id) in allowed then captured[id] - 1 else captured[id]
  }

  ghost predicate IsWhitelist(list: Counts, entries: seq<UsbEntry>, allowed: set<DeviceRef>) {
    forall id {:trigger CountOf(list, id)} :: CountOf(list, id) == Whitelisted(entries, allowed, id)
  }

  /** The whitelist as a value. */
  ghost function ListOf(entries: seq<UsbEntry>, allowed: set<DeviceRef>): (list: Counts)
    requires Fits(entries, allowed)
    ensures IsWhitelist(list, entries, allowed)
  {
    var named := (set e | e in entries :: e.id) + set a | a in allowed && a.Usb? :: a.id;
    assert forall id :: DeviceRef.Usb(id) in allowed ==> DeviceRef.Usb(id).id in named;
    forall id | id !in named ensures Whitelisted(entries, allowed, id) == 0 {
      UnlistedIsZero(entries, id);
    }
    map id | id in named :: Whitelisted(entries, allowed, id)
  }

  lemma {:induction false} UnlistedIsZero(entries: seq<UsbEntry>, id: UsbId)
    requires forall e :: e in entries ==> e.id != id
    ensures Listed(entries, id) == 0
  {
    if entries != [] {
      UnlistedIsZero(entries[..|entries| - 1], id);
    }
  }

  /** A fresh capture accepts the very hardware it saw, whatever is listed,
      allowed and plugged in. */
  lemma FreshCaptureAccepts(hardware: Counts, entries: seq<UsbEntry>, allowed: set<DeviceRef>, list: Counts)
    requires Counted(hardware) && IsWhitelist(list, entries, allowed)
    ensures Accepts(hardware, Stripped(hardware, allowed), list)
  {
  }

  /** After that capture, revoking the allowance of an attached device the
      configuration does not list is noticed at once, and the report can only
      name that device, whatever the hash order. Listing it is the one thing
      that keeps the revocation silent. */
  lemma RevocationIsNoticed(hardware: Counts, entries: seq<UsbEntry>, allowed: set<DeviceRef>, id: UsbId, list: Counts)
    requires Counted(hardware) && id in hardware && DeviceRef.Usb(id) in allowed
    requires IsWhitelist(list, entries, allowed - {DeviceRef.Usb(id)})
    ensures var baseline := Stripped(hardware, allowed);
            && (Accepts(hardware, baseline, list) <==> Listed(entries, id) > 0)
            && forall c :: IsChange(hardware, baseline, list, c) ==> c.device == id && (c.Added? || c.CountIncreased?)
  {
    var baseline := Stripped(hardware, allowed);
    forall o | o != id ensures !Over(hardware, baseline, list, o) {
      assert CountOf(list, o) == Whitelisted(entries, allowed - {DeviceRef.Usb(id)}, o);
      assert (DeviceRef.Usb(o) in allowed - {DeviceRef.Usb(id)}) == (DeviceRef.Usb(o) in allowed);
    }
    assert forall o :: !Under(hardware, baseline, o);
    assert CountOf(list, id) == Listed(entries, id);
    assert Over(hardware, baseline, list, id) <==> Listed(entries, id) == 0;
  }

  /** A reload must not strip a standing baseline: a device paired after the
      baseline was taken would turn into a violation with nothing changed. */
  lemma StrippingAStandingBaselineFires(id: UsbId)
    ensures var allowed := {DeviceRef.Usb(id)};
            var current, baseline, list := map[id := 2], map[id := 1], map[id := 1];
            && IsWhitelist(list, [], allowed)
            && Accepts(current, baseline, list)
            && !Accepts(current, Stripped(baseline, allowed), list)
  {
    var allowed := {DeviceRef.Usb(id)};
    var current, baseline, list := map[id := 2], map[id := 1], map[id := 1];
    forall o ensures CountOf(list, o) == Whitelisted([], allowed, o) {
    }
    assert Over(current, Stripped(baseline, allowed), list, id);
    forall o ensures !Over(current, baseline, list, o) && !Under(current, baseline, o) {
    }
  }
}
