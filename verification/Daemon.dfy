/** The state the poll thread and the socket handlers share
    (crates/plugkill/src/daemon_state.rs). */
module Daemon {
  import opened Wrappers
  import opened Selectors
  import opened Allowances

  const HISTORY_LEN := 50
  const SECOND: nat := 1_000_000_000

  datatype Mode = Enforce | Learn

  datatype Bus = Usb | Thunderbolt | SdCard | Power | Network | Lid | Pci | Display | Relay

  /** A bus waiting out its grace period. */
  datatype Grace = Grace(until: Time, reason: string)

  datatype PairingWindow = PairingWindow(until: Time, ttl: Option<nat>)

  datatype Violation = Violation(
    description: string,
    bus: Bus,
    id: Option<DeviceRef>,
    name: Option<string>,
    appeared: bool
  )

  function BusOf(id: DeviceRef): Bus {
    match id
    case Usb(_) => Bus.Usb
    case Thunderbolt(_) => Bus.Thunderbolt
    case SdCard(_) => Bus.SdCard
    case Pci(_) => Bus.Pci
    case Display(_) => Bus.Display
  }

  function DeviceViolation(description: string, id: DeviceRef, name: Option<string>, appeared: bool): Violation {
    Violation(description, BusOf(id), Some(id), name, appeared)
  }

  /** An event names no device, and is never an appearance. */
  function EventViolation(bus: Bus, description: string): Violation {
    Violation(description, bus, None, None, false)
  }

  datatype Entry = Entry(at: nat, violation: Violation)

  predicate SameEvent(a: Violation, b: Violation) {
    a.bus == b.bus && a.id == b.id && a.description == b.description
  }

  /** One grace timer: when its condition was first seen, and the countdown
      that is running. */
  datatype Timer = Timer(since: Option<Time>, grace: Option<Grace>)

  const IDLE := Timer(None, None)

  datatype State = State(
    armed: bool,
    mode: Mode,
    disarmUntil: Option<Time>,
    violationsLogged: nat,
    reloadPending: bool,
    rebaselinePending: bool,
    killPending: Option<string>,
    power: Timer,
    triggerOnceFired: bool,
    network: Timer,
    lid: Timer,
    allowances: seq<Allowance>,
    pairing: Option<PairingWindow>,
    violations: seq<Entry>
  )

  /** Fifty slots hold fifty distinct events in a row. */
  ghost predicate IsHistory(violations: seq<Entry>) {
    && |violations| <= HISTORY_LEN
    && (forall i :: 0 <= i < |violations| && violations[i].violation.appeared ==> violations[i].violation.id.Some?)
    && forall i {:trigger Repeats(violations, i)} :: 0 <= i < |violations| - 1 ==> !Repeats(violations, i)
  }

  ghost predicate Repeats(violations: seq<Entry>, i: nat)
    requires i + 1 < |violations|
  {
    SameEvent(violations[i].violation, violations[i + 1].violation)
  }

  ghost predicate Consistent(s: State) {
    && (s.armed <==> s.disarmUntil.None?)
    && OnePerDevice(s.allowances)
    && IsHistory(s.violations)
  }

  function Initial(mode: Mode): State {
    State(true, mode, None, 0, false, false, None, IDLE, false, IDLE, IDLE, [], None, [])
  }

  // ----- what the operations do to the state ---------------------------------------------

  /** A standing condition refreshes the newest entry instead of pushing the
      others out. */
  function Recorded(violations: seq<Entry>, v: Violation, at: nat): seq<Entry> {
    if violations != [] && SameEvent(violations[0].violation, v) then
      violations[0 := violations[0].(at := at)]
    else
      var longer := [Entry(at, v)] + violations;
      if |longer| <= HISTORY_LEN then longer else longer[..HISTORY_LEN]
  }

  /** Recording keeps the history bounded and free of repeats, puts the event
      at its head, and loses only the oldest entry, and only when full. */
  lemma RecordingMeans(violations: seq<Entry>, v: Violation, at: nat)
    requires IsHistory(violations) && (v.appeared ==> v.id.Some?)
    ensures var after := Recorded(violations, v, at);
            && IsHistory(after)
            && after[0].at == at && after[0].violation.bus == v.bus && after[0].violation.id == v.id
            && after[0].violation.description == v.description
            && forall i :: 1 <= i < |after| ==> after[i] in violations
    ensures var after := Recorded(violations, v, at);
            && |after| <= 50
            && (forall i :: 0 < i < |violations| && violations[i] !in after ==> i == 49)
            && (forall i, j :: 0 <= i < |after| && j == i + 1 < |after| ==>
                  || after[i].violation.bus != after[j].violation.bus || after[i].violation.id != after[j].violation.id
                  || after[i].violation.description != after[j].violation.description)
  {
    var after := Recorded(violations, v, at);
    forall i: nat | i < |after| - 1 ensures !Repeats(after, i) {
      var j := if violations != [] && SameEvent(violations[0].violation, v) then i else i - 1;
      assert 0 <= j && j + 1 < |violations| ==> !Repeats(violations, j);
    }
    forall i: nat, j | i < |after| && j == i + 1 < |after|
      ensures !SameEvent(after[i].violation, after[j].violation)
    {
      assert !Repeats(after, i);
    }
    if violations != [] && SameEvent(violations[0].violation, v) {
      forall i | 0 < i < |violations| ensures violations[i] in after {
        assert after[i] == violations[i];
      }
    } else {
      forall i | 0 < i < HISTORY_LEN - 1 && i < |violations| ensures violations[i] in after {
        assert after[i + 1] == violations[i];
      }
    }
  }

  predicate DisplayRefused(id: DeviceRef, hasIdentity: bool) {
    id.Display? && !hasIdentity
  }

  /** Whether an open window takes `id` in. */
  predicate Admits(s: State, id: DeviceRef, now: Time, hasIdentity: bool) {
    s.pairing.Some? && s.pairing.value.until > now && !DisplayRefused(id, hasIdentity)
  }

  /** The device becomes an allowance and the window closes behind it. */
  function Admitted(s: State, id: DeviceRef, name: Option<string>, now: Time): State
    requires s.pairing.Some?
  {
    s.(allowances := Without(s.allowances, id) + [Granted(id, Paired, now, s.pairing.value.ttl, name)],
       pairing := None)
  }

  /** After an admission the device is allowed from that moment on, for the
      window's own time to live, and no other device's allowance changed. */
  lemma AdmissionMeans(s: State, id: DeviceRef, name: Option<string>, now: Time, t: Time)
    requires Consistent(s) && Admits(s, id, now, true)
    ensures Consistent(Admitted(s, id, name, now))
    ensures var ttl := s.pairing.value.ttl;
            Allowed(Admitted(s, id, name, now).allowances, t)
            == Allowed(s.allowances, t) - {id} + if ttl.None? || t < now + ttl.value then {id} else {}
  {
    RemoveAndAddMean(s.allowances, Granted(id, Paired, now, s.pairing.value.ttl, name), t);
  }

  // ----- the countdown shown to the user -------------------------------------------------

  function GraceOf(s: State, bus: Bus): Option<Grace> {
    match bus
    case Power => s.power.grace
    case Network => s.network.grace
    case Lid => s.lid.grace
    case _ => None
  }

  predicate IsTimed(bus: Bus) {
    bus.Power? || bus.Network? || bus.Lid?
  }

  /** Of buses whose deadlines tie, the one listed first wins. */
  function Rank(bus: Bus): nat {
    match bus case Power => 0 case Network => 1 case _ => 2
  }

  class DaemonState {
    var armed: bool
    var mode: Mode
    var disarmUntil: Option<Time>
    var violationsLogged: nat
    var reloadPending: bool
    var rebaselinePending: bool
    var killPending: Option<string>
    var powerUnplugAt: Option<Time>
    var powerTriggerOnceFired: bool
    var networkLinkDownAt: Option<Time>
    var lidCloseAt: Option<Time>
    var powerGrace: Option<Grace>
    var networkGrace: Option<Grace>
    var lidGrace: Option<Grace>
    const allowances: AllowanceTable
    var pairing: Option<PairingWindow>
    var violations: seq<Entry>

    /** The whole state as a value. */
    ghost function View(): State
      reads this, allowances
    {
      State(armed, mode, disarmUntil, violationsLogged, reloadPending, rebaselinePending, killPending,
            Timer(powerUnplugAt, powerGrace), powerTriggerOnceFired, Timer(networkLinkDownAt, networkGrace),
            Timer(lidCloseAt, lidGrace), allowances.entries, pairing, violations)
    }

    ghost predicate Valid()
      reads this, allowances
    {
      Consistent(View())
    }

    constructor (initial: Mode)
      ensures Valid() && View() == Initial(initial) && fresh(allowances)
    {
      armed, mode, disarmUntil, violationsLogged := true, initial, None, 0;
      reloadPending, rebaselinePending, killPending := false, false, None;
      powerUnplugAt, powerTriggerOnceFired, networkLinkDownAt, lidCloseAt := None, false, None, None;
      powerGrace, networkGrace, lidGrace := None, None, None;
      allowances := new AllowanceTable();
      pairing, violations := None, [];
    }

    method RecordViolation(violation: Violation, at: nat)
      requires Valid() && (violation.appeared ==> violation.id.Some?)
      modifies this`violations
      ensures Valid() && View() == old(View()).(violations := Recorded(old(violations), violation, at))
    {
      RecordingMeans(violations, violation, at);
      if violations != [] {
        var head := violations[0];
        if head.violation.bus == violation.bus && head.violation.id == violation.id
           && head.violation.description == violation.description {
          violations := violations[0 := head.(at := at)];
          return;
        }
      }
      var longer := [Entry(at, violation)] + violations;
      if |longer| > HISTORY_LEN {
        longer := longer[..HISTORY_LEN];
      }
      violations := longer;
    }

    method IsDisarmExpired(now: Time) returns (expired: bool)
      ensures expired <==> disarmUntil.Some? && now >= disarmUntil.value
    {
      expired := disarmUntil.Some? && now >= disarmUntil.value;
    }

    method AdmitPaired(id: DeviceRef, name: Option<string>, now: Time, hasIdentity: bool) returns (admitted: bool)
      requires Valid()
      modifies this`pairing, allowances
      ensures Valid() && admitted == Admits(old(View()), id, now, hasIdentity)
      ensures View() == if admitted then Admitted(old(View()), id, name, now) else old(View())
    {
      if pairing.None? || pairing.value.until <= now {
        return false;
      }
      if DisplayRefused(id, hasIdentity) {
        return false;
      }
      var _ := allowances.Add(Granted(id, Paired, now, pairing.value.ttl, name));
      pairing := None;
      admitted := true;
    }

    /** The running grace that expires first among the buses that count. */
    method SoonestGrace(counts: Bus -> bool) returns (soonest: Option<(Bus, Grace)>)
      ensures soonest.None? <==> forall bus :: IsTimed(bus) && counts(bus) ==> GraceOf(View(), bus).None?
      ensures soonest.Some? ==>
                var (bus, grace) := soonest.value;
                && IsTimed(bus) && counts(bus) && GraceOf(View(), bus) == Some(grace)
                && forall other :: IsTimed(other) && counts(other) && GraceOf(View(), other).Some? ==>
                     var g := GraceOf(View(), other).value;
                     grace.until < g.until || (grace.until == g.until && Rank(bus) <= Rank(other))
      ensures soonest.Some? ==>
                var (bus, grace) := soonest.value;
                && Some(grace) == (match bus case Power => powerGrace case Network => networkGrace case _ => lidGrace)
                && (!bus.Power? && counts(Bus.Power) && powerGrace.Some? ==> grace.until < powerGrace.value.until)
                && (bus.Lid? && counts(Bus.Network) && networkGrace.Some? ==> grace.until < networkGrace.value.until)
    {
      var all := [(Bus.Power, powerGrace), (Bus.Network, networkGrace), (Bus.Lid, lidGrace)];
      soonest := None;
      for i := 0 to 3
        invariant soonest.None? <==> forall k :: 0 <= k < i && counts(all[k].0) ==> all[k].1.None?
        invariant soonest.Some? ==>
                    exists k :: 0 <= k < i && counts(all[k].0) && all[k] == (soonest.value.0, Some(soonest.value.1))
                      && forall l :: 0 <= l < i && counts(all[l].0) && all[l].1.Some? ==>
                           soonest.value.1.until < all[l].1.value.until
                               || (soonest.value.1.until == all[l].1.value.until && k <= l)
      {
        var (bus, grace) := all[i];
        if counts(bus) && grace.Some? && (soonest.None? || grace.value.until < soonest.value.1.until) {
          soonest := Some((bus, grace.value));
        }
      }
      assert all[0].0 == Bus.Power && all[1].0 == Bus.Network && all[2].0 == Bus.Lid;
    }
  }
}
