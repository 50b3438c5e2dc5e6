/** What every run of the poll thread and the socket handlers keeps. */
module Runs {
  import opened Wrappers
  import opened Selectors
  import opened Allowances
  import D = Daemon
  import opened Socket
  import opened Poll
  import opened Standing
  import opened Capture
  import Displays
  import opened Machine

  // ----- freshness of the baselines --------------------------------------------------------

  /** Every baseline the daemon holds was read after step `since`; for PCI, or
      its reading failed after that step. */
  ghost predicate FreshSince(bl: Snapshots, taken: Taken, pciFailed: nat, since: nat) {
    && (bl.usb.Some? ==> taken.usb > since)
    && (bl.thunderbolt.Some? ==> taken.thunderbolt > since)
    && (bl.sdcard.Some? ==> taken.sdcard > since)
    && (bl.power.Some? ==> taken.power > since)
    && (bl.network.Some? ==> taken.network > since)
    && (bl.lid.Some? ==> taken.lid > since)
    && (bl.pci.Some? ==> taken.pci > since || pciFailed > since)
    && (bl.display.Some? ==> taken.display > since)
  }

  ghost predicate Fresh(s: Sys, since: nat) {
    FreshSince(s.bl, s.log.taken, s.log.pciFailed, since)
  }

  /** Between a re-arm and the capture it calls for, that capture is pending. */
  ghost predicate BaselinesFollow(s: Sys) {
    && s.log.drainSaw <= s.log.rearmed < s.log.step
    && (s.st.rebaselinePending || s.pc.Rebaselining? || Fresh(s, s.log.rearmed))
    && (s.pc.Draining? || s.pc.Rebaselining? || Fresh(s, s.log.drainSaw))
  }

  /** A re-arm's capture reads every watched bus again. */
  lemma RebaselineIsFresh(s: Sys, o: Oracle, since: nat)
    requires s.pc.Rebaselining? && since < s.log.step
    ensures Fresh(Next(s, Poll(o)), since)
  {
  }

  /** A reload reads only what has no baseline, and leaves the rest as fresh as
      it was. */
  lemma ReloadKeepsFresh(s: Sys, o: Oracle, since: nat)
    requires s.pc.CapturingMissing? && since < s.log.step && Fresh(s, since)
    ensures Fresh(Next(s, Poll(o)), since)
  {
  }

  /** What a check may touch: the timers, and in watch mode baselines that are
      there. */
  lemma CheckTouches(s: Sys, o: Oracle, stage: Stage)
    ensures var t := CheckStep(s, o, stage);
            && t.st == s.st.(power := t.st.power, triggerOnceFired := t.st.triggerOnceFired, network := t.st.network,
                             lid := t.st.lid)
            && t.bl == s.bl.(power := t.bl.power, network := t.bl.network, lid := t.bl.lid, pci := t.bl.pci,
                             display := t.bl.display)
            && (t.bl.power.Some? ==> s.bl.power.Some?) && (t.bl.network.Some? ==> s.bl.network.Some?)
            && (t.bl.lid.Some? ==> s.bl.lid.Some?) && (t.bl.pci.Some? ==> s.bl.pci.Some?)
            && (t.bl.display.Some? ==> s.bl.display.Some?)
            && t.pass == s.pass
  {
    match stage
    case OfDevices =>
    case OfPower =>
    case OfNetwork =>
    case OfLid =>
    case OfPci =>
    case OfDisplay =>
  }

  lemma MovedKeepsFresh(s: Sys, bl: Snapshots, since: nat)
    requires since < s.log.step && Fresh(s, since)
    requires bl == s.bl.(power := bl.power, network := bl.network, lid := bl.lid, pci := bl.pci, display := bl.display)
    ensures FreshSince(bl, Moved(s, bl), s.log.pciFailed, since)
  {
  }

  lemma CheckKeepsFresh(s: Sys, o: Oracle, since: nat)
    requires s.pc.Checking? && since < s.log.step && Fresh(s, since)
    ensures Fresh(Next(s, Poll(o)), since)
  {
    CheckTouches(s, o, s.pc.stage);
    MovedKeepsFresh(s, PollStep(s, o).bl, since);
  }

  /** The same set, or what a reload's stripping left of it. */
  ghost predicate KeptSet(s: Sys, after: Option<set<string>>, before: Option<set<string>>, bus: string -> DeviceRef) {
    after == before || after == StrippedSet(before, AllowedNow(s), bus)
  }

  /** The stamps are honest, first half: a baseline that a step does not stamp is the one it
      was, apart from being dropped or, in a reload, from losing what an
      allowance covers. */
  lemma UnstampedIsOld(s: Sys, e: Event)
    ensures var (b, t) := (Next(s, e).bl, Next(s, e).log.taken);
            && (t.usb != s.log.step && b.usb.Some? ==> b.usb == s.bl.usb)
            && (t.thunderbolt != s.log.step && b.thunderbolt.Some? ==>
                   KeptSet(s, b.thunderbolt, s.bl.thunderbolt, OnThunderbolt))
            && (t.sdcard != s.log.step && b.sdcard.Some? ==> KeptSet(s, b.sdcard, s.bl.sdcard, OnSdCard))
            && (t.power != s.log.step && b.power.Some? ==> b.power == s.bl.power)
            && (t.network != s.log.step && b.network.Some? ==> b.network == s.bl.network)
            && (t.lid != s.log.step && b.lid.Some? ==> b.lid == s.bl.lid)
            && (t.pci != s.log.step && b.pci.Some? ==> b.pci == s.bl.pci)
            && (t.display != s.log.step && b.display.Some? ==>
                  && s.bl.display.Some?
                  && (b.display == s.bl.display
                      || b.display.value == Displays.Blanked(s.bl.display.value, AllowedNow(s))))
  {
    if e.Poll? && s.pc.Checking? {
      CheckTouches(s, e.o, s.pc.stage);
    } else if e.Request? || !(s.pc.Rebaselining? || s.pc.CapturingMissing?) {
      OthersKeepBaselines(s, e);
    } else {
      CaptureIsStamped(s, e.o, s.pc.CapturingMissing?);
    }
  }

  lemma CaptureIsStamped(s: Sys, o: Oracle, onlyMissing: bool)
    ensures var (b, t) := (Captured(s.cfg, s.bl, o.hw, AllowedNow(s), onlyMissing), Retaken(s, o.hw, onlyMissing));
            && (t.usb != s.log.step && b.usb.Some? ==> b.usb == s.bl.usb)
            && (t.thunderbolt != s.log.step && b.thunderbolt.Some? ==>
                   KeptSet(s, b.thunderbolt, s.bl.thunderbolt, OnThunderbolt))
            && (t.sdcard != s.log.step && b.sdcard.Some? ==> KeptSet(s, b.sdcard, s.bl.sdcard, OnSdCard))
            && (t.power != s.log.step && b.power.Some? ==> b.power == s.bl.power)
            && (t.network != s.log.step && b.network.Some? ==> b.network == s.bl.network)
            && (t.lid != s.log.step && b.lid.Some? ==> b.lid == s.bl.lid)
            && (t.pci != s.log.step && b.pci.Some? ==> b.pci == s.bl.pci)
            && (t.display != s.log.step && b.display.Some? ==>
                  s.bl.display.Some? && b.display.value == Displays.Blanked(s.bl.display.value, AllowedNow(s)))
  {
  }

  /** Only a request or the drain re-arms, and then a capture is pending. */
  lemma RearmIsPending(s: Sys, e: Event)
    requires !s.st.armed && Next(s, e).st.armed
    ensures e.Request? || s.pc.Draining?
    ensures if e.Request? then Next(s, e).st.rebaselinePending else Next(s, e).pc.Rebaselining?
  {
    if e.Request? {
      ApplyRearms(s.st, e.call.req, Uid(e.call.creds), e.call.now, s.identity);
    } else {
      PollKeepsArmed(s, e.o);
    }
  }

  lemma ApplyRearms(st: D.State, req: Request, uid: Option<nat>, now: Time, identity: bool)
    ensures var t := Apply(st, req, uid, now, identity).0;
            && (!st.armed && t.armed ==> t.rebaselinePending)
            && (st.rebaselinePending ==> t.rebaselinePending)
            && (st.killPending.Some? ==> t.killPending.Some?)
  {
  }

  lemma PollKeepsArmed(s: Sys, o: Oracle)
    ensures var t := Next(s, Poll(o));
            s.pc.Draining? || (t.st.armed == s.st.armed && t.st.rebaselinePending == s.st.rebaselinePending)
  {
    if s.pc.Checking? {
      CheckTouches(s, o, s.pc.stage);
    } else {
      match s.pc
      case Rebaselining =>
      case CapturingMissing =>
      case Admitting(_, _) =>
      case Recording(_, _) =>
      case Handling(_, _) =>
      case _ =>
    }
  }

  /** A step that reads no bus leaves every baseline and its stamp alone. */
  lemma OthersKeepBaselines(s: Sys, e: Event)
    requires e.Request? || !(s.pc.Rebaselining? || s.pc.CapturingMissing? || s.pc.Checking?)
    ensures var t := Next(s, e);
            t.bl == s.bl && t.log.taken == s.log.taken && t.log.pciFailed == s.log.pciFailed
  {
  }

  lemma StepKeepsFresh(s: Sys, e: Event, since: nat)
    requires since < s.log.step && (Fresh(s, since) || (e.Poll? && s.pc.Rebaselining?))
    ensures Fresh(Next(s, e), since)
  {
    if e.Request? || !(s.pc.Rebaselining? || s.pc.CapturingMissing? || s.pc.Checking?) {
      OthersKeepBaselines(s, e);
    } else if s.pc.Rebaselining? {
      RebaselineIsFresh(s, e.o, since);
    } else if s.pc.CapturingMissing? {
      ReloadKeepsFresh(s, e.o, since);
    } else {
      CheckKeepsFresh(s, e.o, since);
    }
  }

  lemma LogAdvances(s: Sys, e: Event)
    ensures var t := Next(s, e);
            && t.log.step == s.log.step + 1
            && t.log.rearmed == (if !s.st.armed && t.st.armed then s.log.step else s.log.rearmed)
            && t.log.drainSaw == (if e.Poll? && s.pc.Draining? then t.log.rearmed else s.log.drainSaw)
  {
  }

  /** Where the pass goes from and to the capture a re-arm calls for. */
  lemma PendingMoves(s: Sys, e: Event)
    ensures var t := Next(s, e);
            && (e.Request? ==> t.pc == s.pc && (s.st.rebaselinePending ==> t.st.rebaselinePending))
            && (e.Poll? && !s.pc.Draining? ==> !t.pc.Rebaselining? && t.st.rebaselinePending == s.st.rebaselinePending)
            && (e.Poll? && s.pc.Draining? ==> !t.pc.Draining? && (s.st.rebaselinePending ==> t.pc.Rebaselining?))
  {
    if e.Request? {
      ApplyRearms(s.st, e.call.req, Uid(e.call.creds), e.call.now, s.identity);
    } else {
      PollKeepsArmed(s, e.o);
      if s.pc.Checking? {
        CheckTouches(s, e.o, s.pc.stage);
      }
    }
  }

  lemma StepKeepsFollowing(s: Sys, e: Event)
    requires BaselinesFollow(s)
    ensures BaselinesFollow(Next(s, e))
  {
    LogAdvances(s, e);
    PendingMoves(s, e);
    if !s.st.armed && Next(s, e).st.armed {
      RearmIsPending(s, e);
    }
    if Fresh(s, s.log.rearmed) || (e.Poll? && s.pc.Rebaselining?) {
      StepKeepsFresh(s, e, s.log.rearmed);
    }
    if Fresh(s, s.log.drainSaw) || (e.Poll? && s.pc.Rebaselining?) {
      StepKeepsFresh(s, e, s.log.drainSaw);
    }
  }

  // ----- the other invariants -----------------------------------------------------------------

  /** What each point of a pass knows. A drained kill goes straight through as
      the violation it names; only a pass that drained armed checks the buses. */
  ghost predicate PassKnows(s: Sys) {
    match s.pc
    case Checking(_) => s.pass.armed && s.pass.kill.None?
    case Admitting(found, remote) => Carries(s.pass, found, remote)
    case Recording(found, remote) => Carries(s.pass, found, remote)
    case Handling(found, remote) => Carries(s.pass, found, remote)
    case _ => true
  }

  ghost predicate Carries(pass: Pass, found: D.Violation, remote: bool) {
    && (found.appeared ==> found.id.Some?)
    && (remote <==> pass.kill.Some?)
    && (remote ==> found == D.EventViolation(D.Bus.Relay, PollAction(pass.kill, pass.armed).description))
    && (!remote ==> pass.armed)
  }

  ghost predicate DeadlineHolds(s: Sys) {
    s.st.disarmUntil.Some? ==> s.st.disarmUntil.value <= s.log.disarmedAt + MAX_DISARM_SECS * D.SECOND
  }

  /** Windows opened cover the admissions and the window still open. */
  ghost predicate WindowsCover(s: Sys) {
    s.log.admitted + (if s.st.pairing.Some? then 1 else 0) <= s.log.windows
  }

  ghost predicate Invariant(s: Sys) {
    && D.Consistent(s.st)
    && BaselinesFollow(s)
    && PassKnows(s)
    && DeadlineHolds(s)
    && WindowsCover(s)
  }

  lemma StepKeepsKnowing(s: Sys, e: Event)
    requires PassKnows(s) && Enabled(s, e)
    ensures PassKnows(Next(s, e))
  {
    if e.Poll? {
      match s.pc
      case Checking(stage) => CheckKnows(s, e.o, stage);
      case Draining =>
      case Rebaselining =>
      case CapturingMissing =>
      case Acting =>
      case _ =>
    }
  }

  lemma CheckKnows(s: Sys, o: Oracle, stage: Stage)
    requires s.pc == Checking(stage) && PassKnows(s) && Answers(s, o)
    ensures PassKnows(CheckStep(s, o, stage))
  {
  }

  lemma StepKeepsConsistency(s: Sys, e: Event)
    requires D.Consistent(s.st) && PassKnows(s)
    ensures D.Consistent(Next(s, e).st)
  {
    if e.Request? {
      ApplyKeepsConsistency(s.st, e.call.req, Uid(e.call.creds), e.call.now, s.identity);
    } else {
      match s.pc
      case Draining => DrainKeepsConsistency(s.st, e.o.now, e.o.clock);
      case Rebaselining =>
      case CapturingMissing =>
      case Checking(stage) => CheckTouches(s, e.o, stage);
      case Admitting(found, _) =>
        if TakesIn(s) {
          D.AdmissionMeans(s.st, found.id.value, found.name, s.pass.now, 0);
        }
      case Recording(found, _) => D.RecordingMeans(s.st.violations, found, e.o.wall);
      case Handling(_, _) =>
      case _ =>
    }
  }

  /** The parts of the state a permission hangs on change only in a request, in
      the drain, or by an admission. */
  lemma PollTouches(s: Sys, o: Oracle)
    ensures var t := PollStep(s, o).st;
            && (t.disarmUntil == s.st.disarmUntil || (s.pc.Draining? && t.disarmUntil.None?))
            && (t.pairing == s.st.pairing || t.pairing.None?)
            && (TakesIn(s) ==> s.st.pairing.Some? && t.pairing.None?)
            && (s.pc.Draining? || t.killPending == s.st.killPending)
            && (s.pc.Draining? || TakesIn(s) || t.allowances == s.st.allowances)
  {
    match s.pc
    case Checking(stage) => CheckTouches(s, o, stage);
    case Rebaselining =>
    case CapturingMissing =>
    case Admitting(_, _) =>
    case Recording(_, _) =>
    case Handling(_, _) =>
    case _ =>
  }

  lemma ServeTouches(s: Sys, e: Event)
    requires e.Request?
    ensures var t := Answer(s, e).0;
            && (Disarms(s, e) ==>
                  t.disarmUntil == Some(e.call.now + e.call.req.timeoutSecs * D.SECOND)
                  && e.call.req.timeoutSecs <= MAX_DISARM_SECS)
            && (!Disarms(s, e) ==> t.disarmUntil == s.st.disarmUntil || t.disarmUntil.None?)
            && (!Opens(s, e) ==> t.pairing == s.st.pairing || t.pairing.None?)
  {
    ApplyTouches(s.st, e.call.req, Uid(e.call.creds), e.call.now, s.identity);
  }

  lemma ApplyTouches(st: D.State, req: Request, uid: Option<nat>, now: Time, identity: bool)
    ensures var (t, r) := Apply(st, req, uid, now, identity);
            && (if req.Disarm? && r.Done?
                then t.disarmUntil == Some(now + req.timeoutSecs * D.SECOND) && req.timeoutSecs <= MAX_DISARM_SECS
                else t.disarmUntil == st.disarmUntil || t.disarmUntil.None?)
            && (!(req.Pair? && req.windowSecs != 0 && r.Done?) ==> t.pairing == st.pairing || t.pairing.None?)
  {
    match req
    case Disarm(_) =>
    case Arm =>
    case Pair(_, _) =>
    case AllowLast(_) =>
    case Revoke(_) =>
    case Kill(_) =>
    case _ =>
  }

  lemma StepKeepsPermits(s: Sys, e: Event)
    requires DeadlineHolds(s) && WindowsCover(s)
    ensures DeadlineHolds(Next(s, e)) && WindowsCover(Next(s, e))
  {
    if e.Request? {
      ServeTouches(s, e);
    } else {
      PollTouches(s, e.o);
    }
  }

  lemma InitiallyInvariant(s: Sys)
    requires Initially(s)
    ensures Invariant(s)
  {
  }

  lemma StepKeepsInvariant(s: Sys, e: Event)
    requires Invariant(s) && Enabled(s, e)
    ensures Invariant(Next(s, e))
  {
    StepKeepsConsistency(s, e);
    StepKeepsFollowing(s, e);
    StepKeepsKnowing(s, e);
    StepKeepsPermits(s, e);
  }

  // ----- over whole runs ------------------------------------------------------------------------

  /** Everything above holds in every state of every run. */
  lemma {:induction false} RunsKeepInvariant(states: seq<Sys>, events: seq<Event>, i: nat)
    requires IsRun(states, events) && Initially(states[0]) && i < |states|
    ensures Invariant(states[i])
  {
    if i == 0 {
      InitiallyInvariant(states[0]);
    } else {
      RunsKeepInvariant(states, events, i - 1);
      assert StepAt(states, events, i - 1);
      StepKeepsInvariant(states[i - 1], events[i - 1]);
    }
  }

  /** Step `j` takes the daemon from disarmed to armed. */
  ghost predicate Rearms(states: seq<Sys>, j: nat)
    requires j + 1 < |states|
  {
    !states[j].st.armed && states[j + 1].st.armed
  }

  ghost predicate IsDrain(states: seq<Sys>, events: seq<Event>, d: nat)
    requires d < |events| < |states|
  {
    events[d].Poll? && states[d].pc.Draining?
  }

  lemma RunLogAdvances(states: seq<Sys>, events: seq<Event>, i: nat)
    requires IsRun(states, events) && Initially(states[0]) && i < |events|
    ensures var l, m := states[i].log, states[i + 1].log;
            && l.drainSaw <= l.rearmed < l.step
            && m.step == l.step + 1
            && m.rearmed == (if Rearms(states, i) then l.step else l.rearmed)
            && m.drainSaw == (if IsDrain(states, events, i) then m.rearmed else l.drainSaw)
  {
    RunsKeepInvariant(states, events, i);
    assert StepAt(states, events, i);
    LogAdvances(states[i], events[i]);
  }

  /** A drain at `d` has seen the re-arm at `j`, and later drains have too. */
  lemma {:induction false} DrainHasSeen(states: seq<Sys>, events: seq<Event>, j: nat, d: nat, i: nat)
    requires IsRun(states, events) && Initially(states[0])
    requires j <= d < i < |states| && Rearms(states, j) && IsDrain(states, events, d)
    ensures states[i].log.drainSaw >= states[j].log.step
  {
    RunLogAdvances(states, events, i - 1);
    if i - 1 > d {
      DrainHasSeen(states, events, j, d, i - 1);
    } else {
      RearmIsRemembered(states, events, j, i);
    }
  }

  lemma {:induction false} RearmIsRemembered(states: seq<Sys>, events: seq<Event>, j: nat, i: nat)
    requires IsRun(states, events) && Initially(states[0])
    requires j < i < |states| && Rearms(states, j)
    ensures states[j].log.step <= states[i].log.rearmed
  {
    RunLogAdvances(states, events, i - 1);
    if i - 1 > j {
      RearmIsRemembered(states, events, j, i - 1);
    }
  }

  /** The main result of the poll loop. Whatever requests arrive in between, a
      bus is only ever checked by a pass whose drain found the daemon armed, and
      every baseline it can compare with was read after each re-arm that came
      before that drain. */
  lemma ChecksRunOnFreshBaselines(states: seq<Sys>, events: seq<Event>, j: nat, d: nat, i: nat)
    requires IsRun(states, events) && Initially(states[0])
    requires i < |states| && states[i].pc.Checking?
    ensures states[i].pass.armed
    ensures j <= d < i && Rearms(states, j) && IsDrain(states, events, d) ==> Fresh(states[i], states[j].log.step)
  {
    RunsKeepInvariant(states, events, i);
    if j <= d < i && Rearms(states, j) && IsDrain(states, events, d) {
      DrainHasSeen(states, events, j, d, i);
    }
  }

  /** Disarmed means exactly that a deadline stands, and it lies at most an hour
      after the command that set it. */
  lemma DisarmsAreBounded(states: seq<Sys>, events: seq<Event>, i: nat)
    requires IsRun(states, events) && Initially(states[0]) && i < |states|
    ensures states[i].st.armed <==> states[i].st.disarmUntil.None?
    ensures states[i].st.disarmUntil.Some? ==>
              states[i].st.disarmUntil.value <= states[i].log.disarmedAt + 3600 * D.SECOND
  {
    RunsKeepInvariant(states, events, i);
  }

  /** A re-arm accepts what it saw: as long as the machine, the configuration and
      the allowances are as they were at the capture, the checks of the device
      buses find nothing, with display connectors of one name reading alike. */
  lemma RearmAcceptsWhatItSaw(s: Sys, capture: Oracle, m: Sys, check: Oracle)
    requires s.pc.Rebaselining? && Plausible(capture.hw) && check.hw == capture.hw
    requires m.bl == Next(s, Poll(capture)).bl && m.cfg == s.cfg && AllowedNow(m) == AllowedNow(s)
    requires Answers(m, check) && DisplaySteady(capture.hw.display, AllowedNow(s))
    requires m.pc == Checking(OfDevices) || m.pc == Checking(OfPci) || m.pc == Checking(OfDisplay)
    ensures check.found.None?
  {
    var allowed, hw := AllowedNow(s), capture.hw;
    FreshCaptureIsQuiet(s.cfg, s.bl, hw, allowed);
    assert Quiet(m.cfg, allowed, hw, m.bl);
  }

  /** The step neither arms, nor disarms anew, nor drains at or past `until`. */
  ghost predicate LeavesDisarm(s: Sys, e: Event, until: Time) {
    match e
    case Request(call, _) => !call.req.Arm? && !Disarms(s, e)
    case Poll(o) => s.pc.Draining? ==> o.clock < until
  }

  lemma LeavesDisarmMeans(s: Sys, e: Event, until: Time)
    requires !s.st.armed && s.st.disarmUntil == Some(until) && LeavesDisarm(s, e, until)
    ensures !Next(s, e).st.armed && Next(s, e).st.disarmUntil == Some(until)
  {
    if e.Request? && Authorize(e.call.req, e.requireAuth, e.call.creds, e.call.answer).None? {
      ApplyLeavesDisarm(s.st, e.call.req, Uid(e.call.creds), e.call.now, s.identity);
    } else if e.Poll? {
      PollKeepsArmed(s, e.o);
      PollTouches(s, e.o);
    }
  }

  lemma ApplyLeavesDisarm(st: D.State, req: Request, uid: Option<nat>, now: Time, identity: bool)
    requires !req.Arm? && !(req.Disarm? && Apply(st, req, uid, now, identity).1.Done?)
    ensures var t := Apply(st, req, uid, now, identity).0;
            t.armed == st.armed && t.disarmUntil == st.disarmUntil
  {
    match req
    case AllowLast(_) =>
    case Revoke(_) =>
    case _ =>
  }

  /** A disarm lasts exactly as long as asked for. Unless someone arms or
      disarms anew, it stands with its deadline in every state up to the first
      drain whose clock has reached that deadline; that drain re-arms, and a
      capture follows. */
  lemma {:induction false} DisarmLasts(states: seq<Sys>, events: seq<Event>, a: nat, i: nat)
    requires IsRun(states, events) && a < i < |states| && Disarms(states[a], events[a])
    requires var until := events[a].call.now + events[a].call.req.timeoutSecs * D.SECOND;
             forall l :: a < l < i ==> LeavesDisarm(states[l], events[l], until)
    ensures var until := events[a].call.now + events[a].call.req.timeoutSecs * D.SECOND;
            && !states[i].st.armed && states[i].st.disarmUntil == Some(until)
            && (i < |events| && IsDrain(states, events, i) && events[i].o.clock >= until ==>
                  states[i + 1].st.armed && states[i + 1].pass.armed && states[i + 1].pc.Rebaselining?)
  {
    var until := events[a].call.now + events[a].call.req.timeoutSecs * D.SECOND;
    assert StepAt(states, events, i - 1);
    if i == a + 1 {
      ServeTouches(states[a], events[a]);
      DisarmIsObeyed(states[a], events[a]);
    } else {
      DisarmLasts(states, events, a, i - 1);
      LeavesDisarmMeans(states[i - 1], events[i - 1], until);
    }
    if i < |events| && IsDrain(states, events, i) && events[i].o.clock >= until {
      assert StepAt(states, events, i);
    }
  }

  lemma DisarmIsObeyed(s: Sys, e: Event)
    requires Disarms(s, e)
    ensures !Next(s, e).st.armed
  {
  }

  // ----- a remote kill is never lost --------------------------------------------------------------

  /** The reason the pass is carrying to the kill sequence. */
  function Carried(s: Sys): Option<string> {
    match s.pc
    case Draining => None
    case Checking(_) => None
    case _ => s.pass.kill
  }

  /** An upper bound on the steps of the poll thread until the pass is over. */
  function StepsLeft(pc: Pc): nat {
    match pc
    case Draining => 0
    case Rebaselining => 14
    case TakingReload => 13
    case LoadingConfig => 12
    case CapturingMissing => 11
    case Acting => 10
    case Checking(stage) =>
      (match stage
       case OfDevices => 9 case OfPower => 8 case OfNetwork => 7
       case OfLid => 6 case OfPci => 5 case OfDisplay => 4)
    case Admitting(_, _) => 3
    case Recording(_, _) => 2
    case Handling(_, _) => 1
  }

  /** The reason carried is handed to the mode's decision in this step. */
  ghost predicate Delivers(s: Sys, e: Event, reason: string) {
    && e.Poll? && s.pc.Handling? && s.pc.remote
    && s.pc.found.description == "RELAY VIOLATION: remote kill from peer: " + reason
  }

  lemma CheckAdvances(s: Sys, o: Oracle, stage: Stage)
    ensures StepsLeft(CheckStep(s, o, stage).pc) < StepsLeft(Checking(stage))
  {
  }

  lemma PassAdvances(s: Sys, e: Event)
    requires e.Poll? && !s.pc.Draining?
    ensures StepsLeft(Next(s, e).pc) < StepsLeft(s.pc)
  {
    if s.pc.Checking? {
      CheckAdvances(s, e.o, s.pc.stage);
    } else {
      match s.pc
      case Rebaselining =>
      case CapturingMissing =>
      case Acting =>
      case Admitting(_, _) =>
      case _ =>
    }
  }

  /** Nothing on the way can take a drained kill: not a disarm, not an open
      pairing window, not a reload. */
  lemma CarriedGoesOn(s: Sys, e: Event)
    requires Invariant(s) && Carried(s).Some?
    ensures e.Request? ==> Carried(Next(s, e)) == Carried(s) && Next(s, e).pc == s.pc
    ensures e.Poll? ==> Delivers(s, e, Carried(s).value) || Carried(Next(s, e)) == Carried(s)
  {
    if e.Poll? {
      match s.pc
      case Rebaselining =>
      case CapturingMissing =>
      case Acting =>
      case Admitting(_, _) =>
      case _ =>
    }
  }

  /** A queued kill waits for the next drain, which takes it. */
  lemma QueuedGoesOn(s: Sys, e: Event)
    requires s.st.killPending.Some?
    ensures e.Poll? && s.pc.Draining? ==> Carried(Next(s, e)) == s.st.killPending
    ensures e.Request? ==> Next(s, e).st.killPending.Some? && Next(s, e).pc == s.pc
    ensures e.Poll? && !s.pc.Draining? ==> Next(s, e).st.killPending == s.st.killPending
  {
    if e.Request? {
      ApplyRearms(s.st, e.call.req, Uid(e.call.creds), e.call.now, s.identity);
    } else {
      PollTouches(s, e.o);
    }
  }

  /** Steps of the poll thread from `a` up to `b`. */
  function Polls(events: seq<Event>, a: nat, b: nat): nat
    requires a <= b <= |events|
    decreases b - a
  {
    if a == b then 0 else (if events[a].Poll? then 1 else 0) + Polls(events, a + 1, b)
  }

  lemma {:induction false} QueuedIsDrained(states: seq<Sys>, events: seq<Event>, a: nat, b: nat) returns (d: nat)
    requires IsRun(states, events) && Initially(states[0]) && a <= b <= |events|
    requires states[a].st.killPending.Some? && Polls(events, a, b) > StepsLeft(states[a].pc)
    ensures a <= d < b && IsDrain(states, events, d) && states[d].st.killPending.Some?
    ensures Polls(events, d, b) >= Polls(events, a, b) - StepsLeft(states[a].pc)
    decreases b - a
  {
    if IsDrain(states, events, a) {
      return a;
    }
    assert StepAt(states, events, a);
    QueuedGoesOn(states[a], events[a]);
    if events[a].Poll? {
      PassAdvances(states[a], events[a]);
    }
    d := QueuedIsDrained(states, events, a + 1, b);
  }

  lemma {:induction false} CarriedIsDelivered(states: seq<Sys>, events: seq<Event>, a: nat, b: nat, reason: string)
    returns (i: nat)
    requires IsRun(states, events) && Initially(states[0]) && a <= b <= |events|
    requires Carried(states[a]) == Some(reason) && Polls(events, a, b) >= StepsLeft(states[a].pc)
    ensures a <= i < b && Delivers(states[i], events[i], reason)
    decreases b - a
  {
    RunsKeepInvariant(states, events, a);
    if Delivers(states[a], events[a], reason) {
      return a;
    }
    assert StepAt(states, events, a);
    CarriedGoesOn(states[a], events[a]);
    if events[a].Poll? {
      PassAdvances(states[a], events[a]);
    }
    i := CarriedIsDelivered(states, events, a + 1, b, reason);
  }

  /** Once a kill is queued, 29 steps of the poll thread are enough for one to
      reach the decision, armed or disarmed, whatever requests come in
      between; and it carries the reason that was queued when it was drained. */
  lemma KillIsNeverLost(states: seq<Sys>, events: seq<Event>, a: nat, b: nat) returns (d: nat, i: nat)
    requires IsRun(states, events) && Initially(states[0]) && a <= b <= |events|
    requires states[a].st.killPending.Some? && Polls(events, a, b) >= 29
    ensures a <= d < i < b && IsDrain(states, events, d)
    ensures states[d].st.killPending.Some? && Delivers(states[i], events[i], states[d].st.killPending.value)
  {
    d := QueuedIsDrained(states, events, a, b);
    assert StepAt(states, events, d);
    QueuedGoesOn(states[d], events[d]);
    i := CarriedIsDelivered(states, events, d + 1, b, states[d].st.killPending.value);
  }

  /** From the socket's yes to the decision. */
  lemma AcceptedKillIsHandled(states: seq<Sys>, events: seq<Event>, a: nat, b: nat) returns (d: nat, i: nat)
    requires IsRun(states, events) && Initially(states[0]) && a < b <= |events|
    requires events[a].Request? && events[a].call.req.Kill? && Answer(states[a], events[a]).1.Done?
    requires Polls(events, a + 1, b) >= 29
    ensures states[a + 1].st.killPending == Some(events[a].call.req.reason)
    ensures a < d < i < b && IsDrain(states, events, d)
    ensures states[d].st.killPending.Some? && Delivers(states[i], events[i], states[d].st.killPending.value)
  {
    assert StepAt(states, events, a);
    d, i := KillIsNeverLost(states, events, a + 1, b);
  }

  /** The decision: the kill sequence runs unless the mode is learn by then, and
      then the kill is at least counted. */
  lemma DeliveryActs(s: Sys, e: Event, reason: string)
    requires Delivers(s, e, reason)
    ensures if s.st.mode.Enforce? then Next(s, e).log.kills == s.log.kills + 1
            else Next(s, e).st.violationsLogged == s.st.violationsLogged + 1
  {
  }
}
