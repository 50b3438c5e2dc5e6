/** Devices accepted for this uptime only
    (crates/plugkill-core/src/allowances.rs:156-300). */
module Allowances {
  import opened Wrappers
  import opened Selectors

  /** A reading of the monotonic clock, in nanoseconds. */
  type Time = int

  datatype Grant = Paired | Promoted

  datatype Allowance = Allowance(
    id: DeviceRef,
    expiresAt: Option<Time>,
    grantedBy: Grant,
    grantedAt: Time,
    name: Option<string>,
    warned: bool
  ) {
    predicate IsActive(now: Time) {
      expiresAt.None? || expiresAt.value > now
    }

    /** Time left, never below zero; none for an allowance that does not expire. */
    function ExpiresIn(now: Time): Option<nat> {
      if expiresAt.None? then None
      else Some(if expiresAt.value > now then expiresAt.value - now else 0)
    }

    /** Whether a warning `ahead` of the expiry is due and has not been given. */
    predicate IsDue(now: Time, ahead: nat) {
      ExpiresIn(now).Some? && !warned && ExpiresIn(now).value <= ahead
    }
  }

  function Granted(id: DeviceRef, grant: Grant, now: Time, ttl: Option<nat>, name: Option<string>): Allowance {
    Allowance(id, if ttl.Some? then Some(now + ttl.value) else None, grant, now, name, false)
  }

  // ----- tables as values --------------------------------------------------------------

  ghost predicate OnePerDevice(entries: seq<Allowance>) {
    forall i, j :: 0 <= i < j < |entries| ==> entries[i].id != entries[j].id
  }

  function Ids(entries: seq<Allowance>): set<DeviceRef> {
    set a | a in entries :: a.id
  }

  /** What the bus checkers consult: the devices allowed at `now`. */
  function Allowed(entries: seq<Allowance>, now: Time): set<DeviceRef> {
    set a | a in entries && a.IsActive(now) :: a.id
  }

  function Active(entries: seq<Allowance>, now: Time): seq<Allowance> {
    if entries == [] then []
    else
      var last := entries[|entries| - 1];
      Active(entries[..|entries| - 1], now) + if last.IsActive(now) then [last] else []
  }

  function Expired(entries: seq<Allowance>, now: Time): seq<Allowance> {
    if entries == [] then []
    else
      var last := entries[|entries| - 1];
      Expired(entries[..|entries| - 1], now) + if last.IsActive(now) then [] else [last]
  }

  /** The table without the first entry for `id`. */
  function Without(entries: seq<Allowance>, id: DeviceRef): seq<Allowance> {
    if entries == [] then []
    else if entries[0].id == id then entries[1..]
    else [entries[0]] + Without(entries[1..], id)
  }

  /** Every entry that is due, in order. */
  function Due(entries: seq<Allowance>, now: Time, ahead: nat): seq<Allowance> {
    if entries == [] then []
    else
      var last := entries[|entries| - 1];
      Due(entries[..|entries| - 1], now, ahead) + if last.IsDue(now, ahead) then [last] else []
  }

  /** The same table with those entries flagged. */
  function Flagged(entries: seq<Allowance>, now: Time, ahead: nat): seq<Allowance> {
    seq(|entries|, i requires 0 <= i < |entries| =>
      if entries[i].IsDue(now, ahead) then entries[i].(warned := true) else entries[i])
  }

  // ----- what the operations mean -----------------------------------------------------

  lemma {:induction false} ActiveHas(entries: seq<Allowance>, now: Time)
    ensures forall a :: a in Active(entries, now) <==> a in entries && a.IsActive(now)
    ensures forall a :: a in Expired(entries, now) <==> a in entries && !a.IsActive(now)
  {
    if entries != [] {
      var rest, last := entries[..|entries| - 1], entries[|entries| - 1];
      ActiveHas(rest, now);
      assert entries == rest + [last];
      if last.IsActive(now) {
        assert Expired(entries, now) == Expired(rest, now);
      }
    }
  }

  lemma {:induction false} ActiveIsDistinct(entries: seq<Allowance>, now: Time)
    requires OnePerDevice(entries)
    ensures OnePerDevice(Active(entries, now))
  {
    if entries != [] {
      var rest, last := entries[..|entries| - 1], entries[|entries| - 1];
      ActiveIsDistinct(rest, now);
      ActiveHas(rest, now);
      var kept := Active(rest, now);
      forall i | 0 <= i < |kept| ensures kept[i].id != last.id {
        assert kept[i] in rest;
      }
    }
  }

  /** A sweep at one time changes nothing that is reported at any later time,
      not even the order. */
  lemma {:induction false} SweepIsInvisible(entries: seq<Allowance>, now: Time, later: Time)
    requires now <= later
    ensures Active(Active(entries, now), later) == Active(entries, later)
    ensures Allowed(Active(entries, now), later) == Allowed(entries, later)
  {
    ActiveHas(entries, now);
    if entries != [] {
      var rest, last := entries[..|entries| - 1], entries[|entries| - 1];
      SweepIsInvisible(rest, now, later);
      if last.IsActive(now) {
        assert (Active(rest, now) + [last])[..|Active(rest, now)|] == Active(rest, now);
      } else {
        assert Active(entries, now) == Active(rest, now);
        assert Active(entries, later) == Active(rest, later);
      }
    }
  }

  lemma {:induction false} WithoutHas(entries: seq<Allowance>, id: DeviceRef)
    requires OnePerDevice(entries)
    ensures forall a :: a in Without(entries, id) <==> a in entries && a.id != id
    ensures OnePerDevice(Without(entries, id))
  {
    if entries != [] {
      WithoutHas(entries[1..], id);
      assert forall a :: a in entries <==> a == entries[0] || a in entries[1..];
    }
  }

  /** Dropping a device stops it being reported and touches no other; adding
      one reports it exactly while its own expiry lies ahead, whatever was
      recorded for it before. */
  lemma RemoveAndAddMean(entries: seq<Allowance>, a: Allowance, now: Time)
    requires OnePerDevice(entries)
    ensures Allowed(Without(entries, a.id), now) == Allowed(entries, now) - {a.id}
    ensures Allowed(Without(entries, a.id) + [a], now)
            == Allowed(entries, now) - {a.id} + if a.IsActive(now) then {a.id} else {}
    ensures OnePerDevice(Without(entries, a.id) + [a])
  {
    WithoutHas(entries, a.id);
    var rest := Without(entries, a.id);
    forall id ensures id in Allowed(rest, now) <==> id in Allowed(entries, now) && id != a.id {
      if id in Allowed(entries, now) && id != a.id {
        var b :| b in entries && b.IsActive(now) && b.id == id;
        assert b in rest;
      }
    }
  }

  /** Adding a device and removing it again forgets whatever it had before. */
  lemma AddThenRemove(entries: seq<Allowance>, a: Allowance, now: Time)
    requires OnePerDevice(entries)
    ensures Allowed(Without(Without(entries, a.id) + [a], a.id), now) == Allowed(entries, now) - {a.id}
  {
    RemoveAndAddMean(entries, a, now);
    RemoveAndAddMean(Without(entries, a.id) + [a], a, now);
  }

  lemma {:induction false} DueHas(entries: seq<Allowance>, now: Time, ahead: nat)
    ensures forall a :: a in Due(entries, now, ahead) <==> a in entries && a.IsDue(now, ahead)
  {
    if entries != [] {
      DueHas(entries[..|entries| - 1], now, ahead);
    }
  }

  /** Flagging changes no device, no expiry and no order. */
  lemma FlaggingKeeps(entries: seq<Allowance>, now: Time, ahead: nat, t: Time)
    ensures Ids(Flagged(entries, now, ahead)) == Ids(entries)
    ensures Allowed(Flagged(entries, now, ahead), t) == Allowed(entries, t)
    ensures OnePerDevice(entries) ==> OnePerDevice(Flagged(entries, now, ahead))
  {
    var flagged := Flagged(entries, now, ahead);
    forall id
      ensures id in Ids(flagged) <==> id in Ids(entries)
      ensures id in Allowed(flagged, t) <==> id in Allowed(entries, t)
    {
      if a :| a in entries && a.id == id && (id in Allowed(entries, t) ==> a.IsActive(t)) {
        var i :| 0 <= i < |entries| && entries[i] == a;
        assert flagged[i] in flagged && flagged[i].id == id && flagged[i].expiresAt == a.expiresAt;
      }
    }
  }

  /** Each allowance is warned about once: what one pass reports, no later pass
      reports again. */
  lemma WarnedOnce(entries: seq<Allowance>, now: Time, later: Time, ahead: nat)
    requires OnePerDevice(entries)
    ensures forall a, b :: a in Due(entries, now, ahead) && b in Due(Flagged(entries, now, ahead), later, ahead) ==>
              a.id != b.id
  {
    var flagged := Flagged(entries, now, ahead);
    DueHas(entries, now, ahead);
    DueHas(flagged, later, ahead);
    forall a, b | a in Due(entries, now, ahead) && b in Due(flagged, later, ahead) ensures a.id != b.id {
      var i :| 0 <= i < |entries| && entries[i] == a;
      var j :| 0 <= j < |flagged| && flagged[j] == b;
      assert i != j;
      assert entries[i].id != entries[j].id;
    }
  }

  /** A poll warns before it sweeps, so no allowance is ever dropped without
      the warning having been given. */
  lemma NothingExpiresUnwarned(entries: seq<Allowance>, now: Time, ahead: nat)
    ensures forall a :: a in Expired(Flagged(entries, now, ahead), now) ==> a.warned
  {
    ActiveHas(Flagged(entries, now, ahead), now);
  }

  /** Selector and time left of each. */
  ghost predicate Tells(due: seq<(string, nat)>, of: seq<Allowance>, now: Time) {
    && |due| == |of|
    && forall k :: 0 <= k < |due| ==> due[k].0 == Print(of[k].id) && Some(due[k].1) == of[k].ExpiresIn(now)
  }

  lemma DueOfMore(entries: seq<Allowance>, i: nat, now: Time, ahead: nat)
    requires i < |entries|
    ensures Due(entries[..i + 1], now, ahead)
            == Due(entries[..i], now, ahead) + if entries[i].IsDue(now, ahead) then [entries[i]] else []
  {
    assert entries[..i + 1][..i] == entries[..i];
  }

  // ----- the table ------------------------------------------------------------------------

  class AllowanceTable {
    var entries: seq<Allowance>

    ghost predicate Valid()
      reads this
    {
      OnePerDevice(entries)
    }

    constructor ()
      ensures Valid() && entries == []
    {
      entries := [];
    }

    /** Drops the allowance for one device and returns it. */
    method Remove(id: DeviceRef) returns (gone: Option<Allowance>)
      requires Valid()
      modifies this
      ensures Valid() && entries == Without(old(entries), id)
      ensures gone.None? <==> id !in Ids(old(entries))
      ensures gone.Some? ==> gone.value in old(entries) && gone.value.id == id
    {
      var at := 0;
      while at < |entries| && entries[at].id != id
        invariant 0 <= at <= |entries|
        invariant forall i :: 0 <= i < at ==> entries[i].id != id
      {
        at := at + 1;
      }
      WithoutHas(entries, id);
      WithoutAt(entries, id, at);
      if at == |entries| {
        return None;
      }
      gone := Some(entries[at]);
      entries := entries[..at] + entries[at + 1..];
    }

    /** Adds one, replacing any allowance for the same device. */
    method Add(allowance: Allowance) returns (replaced: Option<Allowance>)
      requires Valid()
      modifies this
      ensures Valid() && entries == Without(old(entries), allowance.id) + [allowance]
      ensures replaced.None? <==> allowance.id !in Ids(old(entries))
      ensures replaced.Some? ==> replaced.value in old(entries) && replaced.value.id == allowance.id
    {
      RemoveAndAddMean(entries, allowance, 0);
      replaced := Remove(allowance.id);
      entries := entries + [allowance];
    }

    method Clear() returns (count: nat)
      modifies this
      ensures Valid() && entries == [] && count == |old(entries)|
    {
      count := |entries|;
      entries := [];
    }

    /** Drops the expired entries and hands them back. */
    method Sweep(now: Time) returns (dropped: seq<Allowance>)
      requires Valid()
      modifies this
      ensures Valid() && entries == Active(old(entries), now)
      ensures dropped == Expired(old(entries), now)
    {
      ActiveIsDistinct(entries, now);
      var all, keep := entries, [];
      dropped := [];
      for i := 0 to |all|
        invariant keep == Active(all[..i], now)
        invariant dropped == Expired(all[..i], now)
      {
        assert all[..i + 1][..i] == all[..i];
        if all[i].IsActive(now) {
          keep := keep + [all[i]];
        } else {
          dropped := dropped + [all[i]];
        }
      }
      assert all[..|all|] == all;
      entries := keep;
    }

    /** Hands back the selector and time left of every due entry, and flags it. */
    method DueToWarn(now: Time, ahead: nat) returns (due: seq<(string, nat)>)
      requires Valid()
      modifies this
      ensures Valid() && entries == Flagged(old(entries), now, ahead)
      ensures Tells(due, Due(old(entries), now, ahead), now)
    {
      FlaggingKeeps(entries, now, ahead, now);
      ghost var was := entries;
      due := [];
      for i := 0 to |entries|
        invariant |entries| == |was|
        invariant forall k :: 0 <= k < i ==> entries[k] == Flagged(was, now, ahead)[k]
        invariant forall k :: i <= k < |entries| ==> entries[k] == was[k]
        invariant Tells(due, Due(was[..i], now, ahead), now)
      {
        DueOfMore(was, i, now, ahead);
        var left := entries[i].ExpiresIn(now);
        if left.Some? && !entries[i].warned && left.value <= ahead {
          due := due + [(Print(entries[i].id), left.value)];
          entries := entries[i := entries[i].(warned := true)];
        }
      }
      assert was[..|was|] == was;
    }
  }

  lemma {:induction false} WithoutAt(entries: seq<Allowance>, id: DeviceRef, at: nat)
    requires at <= |entries| && forall i :: 0 <= i < at ==> entries[i].id != id
    requires at < |entries| ==> entries[at].id == id
    ensures Without(entries, id) == if at == |entries| then entries else entries[..at] + entries[at + 1..]
  {
    if at > 0 {
      WithoutAt(entries[1..], id, at - 1);
    }
  }
}
