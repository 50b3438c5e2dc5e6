/** What one pass of the poll loop does to the shared state
    (crates/plugkill/src/main.rs:684-921 and 1584-1603). */
module Poll {
  import opened Wrappers
  import opened Selectors
  import opened Allowances
  import opened Daemon

  const EXPIRY_WARN_AHEAD: nat := 60 * SECOND

  // ----- the drain --------------------------------------------------------------------------

  /** What a pass takes out of the state under one lock. */
  datatype Drain = Drain(state: State, needsRebaseline: bool, armed: bool, kill: Option<string>)

  predicate DisarmExpired(s: State, clock: Time) {
    !s.armed && s.disarmUntil.Some? && clock >= s.disarmUntil.value
  }

  function Rearmed(s: State, clock: Time): State {
    if DisarmExpired(s, clock) then s.(armed := true, disarmUntil := None, rebaselinePending := true) else s
  }

  function StillOpen(pairing: Option<PairingWindow>, now: Time): Option<PairingWindow> {
    if pairing.Some? && pairing.value.until <= now then None else pairing
  }

  /** `now` is the pass's own clock reading; the disarm deadline is held against
      a second, later one. */
  function Drained(s: State, now: Time, clock: Time): Drain {
    var r := Rearmed(s, clock);
    Drain(r.(allowances := Active(Flagged(r.allowances, now, EXPIRY_WARN_AHEAD), now),
             pairing := StillOpen(r.pairing, now),
             rebaselinePending := false,
             killPending := None),
          r.rebaselinePending, r.armed, r.killPending)
  }

  method RearmIfExpired(st: DaemonState, clock: Time)
    modifies st`armed, st`disarmUntil, st`rebaselinePending
    ensures st.View() == Rearmed(old(st.View()), clock)
  {
    if !st.armed {
      var expired := st.IsDisarmExpired(clock);
      if expired {
        st.armed := true;
        st.disarmUntil := None;
        st.rebaselinePending := true;
      }
    }
  }

  method WarnAndSweep(st: DaemonState, now: Time)
    requires st.allowances.Valid()
    modifies st.allowances
    ensures st.allowances.Valid()
    ensures var entries := old(st.allowances.entries);
            st.allowances.entries == Active(Flagged(entries, now, EXPIRY_WARN_AHEAD), now)
  {
    var _ := st.allowances.DueToWarn(now, EXPIRY_WARN_AHEAD);
    var _ := st.allowances.Sweep(now);
  }

  method DrainState(st: DaemonState, now: Time, clock: Time)
    returns (needsRebaseline: bool, armed: bool, kill: Option<string>)
    requires st.Valid()
    modifies st, st.allowances
    ensures st.Valid()
    ensures Drain(st.View(), needsRebaseline, armed, kill) == Drained(old(st.View()), now, clock)
  {
    DrainKeepsConsistency(st.View(), now, clock);
    RearmIfExpired(st, clock);
    WarnAndSweep(st, now);
    if st.pairing.Some? && st.pairing.value.until <= now {
      st.pairing := None;
    }
    needsRebaseline, armed, kill := st.rebaselinePending, st.armed, st.killPending;
    st.rebaselinePending, st.killPending := false, None;
  }

  lemma DrainKeepsConsistency(s: State, now: Time, clock: Time)
    requires Consistent(s)
    ensures Consistent(Drained(s, now, clock).state)
  {
    var flagged := Flagged(s.allowances, now, EXPIRY_WARN_AHEAD);
    FlaggingKeeps(s.allowances, now, EXPIRY_WARN_AHEAD, now);
    ActiveIsDistinct(flagged, now);
  }

  /** The drain takes no permission away that still stood and gives none: from
      `now` on the same devices are allowed, a window is open exactly if it was
      and its deadline lies ahead. */
  lemma DrainKeepsPermissions(s: State, now: Time, clock: Time, later: Time, id: DeviceRef, hasIdentity: bool)
    requires now <= later
    ensures var t := Drained(s, now, clock).state;
            && Allowed(t.allowances, later) == Allowed(s.allowances, later)
            && (Admits(t, id, later, hasIdentity) <==> Admits(s, id, later, hasIdentity))
            && (t.pairing.Some? ==> t.pairing.value.until > now)
  {
    FlaggingKeeps(s.allowances, now, EXPIRY_WARN_AHEAD, later);
    SweepIsInvisible(Flagged(s.allowances, now, EXPIRY_WARN_AHEAD), now, later);
  }

  /** The drain in full: a disarm ends at its deadline and calls for a capture;
      both flags and the queued kill are handed over once, and are gone; a spent
      window closes; nothing else moves. */
  lemma DrainMeans(s: State, now: Time, clock: Time)
    requires Consistent(s)
    ensures var Drain(t, needsRebaseline, armed, kill) := Drained(s, now, clock);
            && armed == t.armed == (s.armed || clock >= s.disarmUntil.value)
            && t.disarmUntil == (if armed then None else s.disarmUntil)
            && needsRebaseline == (s.rebaselinePending || (!s.armed && armed)) && !t.rebaselinePending
            && kill == s.killPending && t.killPending.None?
            && t.pairing == (if s.pairing.Some? && s.pairing.value.until > now then s.pairing else None)
            && t == s.(armed := t.armed, disarmUntil := t.disarmUntil, rebaselinePending := false, killPending := None,
                       allowances := t.allowances, pairing := t.pairing)
  {
  }

  /** Warnings come a minute ahead: after a drain every allowance left is active,
      and exactly those within a minute of their expiry, or warned about before,
      are flagged. */
  lemma WarningsComeInTime(s: State, now: Time, clock: Time, i: nat)
    requires i < |Drained(s, now, clock).state.allowances|
    ensures var a := Drained(s, now, clock).state.allowances[i];
            && (a.expiresAt.Some? ==> now < a.expiresAt.value)
            && (a.expiresAt.Some? && a.expiresAt.value <= now + 60_000_000_000 ==> a.warned)
            && exists b :: b in s.allowances && b.(warned := a.warned) == a
                 && (a.warned && !b.warned ==> a.expiresAt.Some? && a.expiresAt.value <= now + 60_000_000_000)
  {
    var flagged := Flagged(s.allowances, now, EXPIRY_WARN_AHEAD);
    ActiveHas(flagged, now);
    var a := Drained(s, now, clock).state.allowances[i];
    assert a in flagged;
    var j :| 0 <= j < |flagged| && flagged[j] == a;
    assert s.allowances[j] in s.allowances;
  }

  // ----- deciding what the pass does ------------------------------------------------------------

  datatype Action = Skip | Kill(description: string) | Check

  /** A remote kill overrides a disarm, and the bus checks. */
  function PollAction(kill: Option<string>, armed: bool): Action {
    match kill
    case Some(reason) => Kill("RELAY VIOLATION: remote kill from peer: " + reason)
    case None => if armed then Check else Skip
  }

  // ----- admitting --------------------------------------------------------------------------------

  /** Whether an open window takes the violation in: only an appearance that
      names a device can be. */
  predicate Pairable(s: State, v: Violation, now: Time, hasIdentity: bool) {
    v.appeared && v.id.Some? && Admits(s, v.id.value, now, hasIdentity)
  }

  /** An appearance that names nobody would be dropped; no checker reports one. */
  predicate Swallowed(v: Violation) {
    v.appeared && v.id.None?
  }

  /** The violation, unless the window admitted it. */
  method AdmitOrKeep(st: DaemonState, violation: Violation, now: Time, hasIdentity: bool)
    returns (kept: Option<Violation>)
    requires st.Valid()
    modifies st`pairing, st.allowances
    ensures st.Valid()
    ensures kept ==
              if Pairable(old(st.View()), violation, now, hasIdentity) || Swallowed(violation) then None
              else Some(violation)
    ensures st.View() == if Pairable(old(st.View()), violation, now, hasIdentity)
                         then Admitted(old(st.View()), violation.id.value, violation.name, now) else old(st.View())
  {
    if !violation.appeared {
      return Some(violation);
    }
    if violation.id.None? {
      return None;
    }
    var admitted := st.AdmitPaired(violation.id.value, violation.name, now, hasIdentity);
    kept := if admitted then None else Some(violation);
  }

  // ----- acting ---------------------------------------------------------------------------------------

  function Handled(s: State): State {
    if s.mode.Learn? then s.(violationsLogged := s.violationsLogged + 1) else s
  }

  /** Whether the kill sequence proceeds. */
  method HandleViolation(st: DaemonState) returns (proceed: bool)
    modifies st`violationsLogged
    ensures proceed == old(st.View()).mode.Enforce?
    ensures st.View() == Handled(old(st.View()))
  {
    match st.mode
    case Enforce =>
      proceed := true;
    case Learn =>
      st.violationsLogged := st.violationsLogged + 1;
      proceed := false;
  }
}
