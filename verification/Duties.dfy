/** What the daemon owes: each thing asked for is done, and done once. */
module Duties {
  import opened Wrappers
  import opened Selectors
  import opened Allowances
  import D = Daemon
  import opened Socket
  import opened Poll
  import opened Standing
  import opened Grace
  import opened Capture
  import opened Detect
  import opened Machine
  import opened Runs

  // ----- who changes what ---------------------------------------------------------------------

  lemma CheckKeepsTheRest(s: Sys, o: Oracle, stage: Stage)
    ensures CheckStep(s, o, stage).cfg == s.cfg && CheckStep(s, o, stage).identity == s.identity
  {
    match stage
    case OfPower =>
    case OfNetwork =>
    case OfLid =>
    case _ =>
  }

  lemma CaptureTouches(s: Sys, o: Oracle, onlyMissing: bool, next: Pc)
    ensures var t := CaptureStep(s, o, onlyMissing, next);
            && t == s.(st := t.st, bl := t.bl, pc := next)
            && t.st == s.st.(power := t.st.power, triggerOnceFired := t.st.triggerOnceFired, network := t.st.network,
                             lid := t.st.lid)
  {
  }

  lemma AdmissionTouches(s: Sys)
    requires s.pc.Admitting?
    ensures var t := AdmitStep(s);
            && t == s.(st := t.st, pc := t.pc)
            && t.st == s.st.(allowances := t.st.allowances, pairing := t.st.pairing)
  {
  }

  /** A step of the poll thread never changes the mode, and it changes each flag,
      and what the drain handed on, at one point of the pass only. */
  lemma PollChangesFlagsOnce(s: Sys, o: Oracle)
    ensures var (t, pc) := (PollStep(s, o), s.pc);
            && t.st.mode == s.st.mode
            && (!pc.TakingReload? ==> t.st.reloadPending == s.st.reloadPending)
            && (!pc.Draining? ==>
                  && t.st.armed == s.st.armed && t.st.disarmUntil == s.st.disarmUntil
                  && t.st.rebaselinePending == s.st.rebaselinePending && t.st.killPending == s.st.killPending
                  && t.pass == s.pass)
  {
    match s.pc
    case Checking(stage) => CheckTouches(s, o, stage);
    case Rebaselining => CaptureTouches(s, o, false, TakingReload);
    case CapturingMissing => CaptureTouches(s, o, true, Acting);
    case Admitting(_, _) => AdmissionTouches(s);
    case _ =>
  }

  /** The same of the records: only a capture or a check moves a baseline or a
      timer, only loading the configuration, only recording the history, only
      handling the count, only the drain and an admission the allowances. */
  lemma PollChangesRecordsOnce(s: Sys, o: Oracle)
    ensures var (t, pc) := (PollStep(s, o), s.pc);
            && t.identity == s.identity
            && (!pc.LoadingConfig? ==> t.cfg == s.cfg)
            && (!pc.Recording? ==> t.st.violations == s.st.violations)
            && (!pc.Handling? ==> t.st.violationsLogged == s.st.violationsLogged)
            && (!(pc.Rebaselining? || pc.CapturingMissing? || pc.Checking?) ==> t.bl == s.bl && SameTimers(s.st, t.st))
            && (!(pc.Draining? || pc.Admitting?) ==>
                  t.st.allowances == s.st.allowances && t.st.pairing == s.st.pairing)
  {
    match s.pc
    case Checking(stage) => CheckTouches(s, o, stage); CheckKeepsTheRest(s, o, stage);
    case Rebaselining => CaptureTouches(s, o, false, TakingReload);
    case CapturingMissing => CaptureTouches(s, o, true, Acting);
    case Admitting(_, _) => AdmissionTouches(s);
    case _ =>
  }

  predicate SameTimers(s: D.State, t: D.State) {
    t.power == s.power && t.triggerOnceFired == s.triggerOnceFired && t.network == s.network && t.lid == s.lid
  }

  /** Requests touch neither the pass nor the baselines nor the configuration. */
  lemma RequestsLeaveThePass(s: Sys, e: Event)
    requires e.Request?
    ensures var t := Next(s, e);
            && t.pc == s.pc && t.pass == s.pass && t.bl == s.bl && t.cfg == s.cfg && t.identity == s.identity
  {
  }

  /** Flags a request may raise, it never lowers, and it raises them only when it
      says so. */
  lemma ApplyRaises(st: D.State, req: Request, uid: Option<nat>, now: Time, identity: bool)
    ensures var (t, r) := Apply(st, req, uid, now, identity);
            && (t.reloadPending <==> st.reloadPending || req.Reload?)
            && (t.rebaselinePending <==> st.rebaselinePending || (!st.armed && t.armed))
            && (t.armed <==> (st.armed && !(req.Disarm? && r.Done?)) || req.Arm?)
            && t.killPending == if req.Kill? && r.Done? then Some(req.reason) else st.killPending
  {
    match req
    case Disarm(_) =>
    case AllowLast(_) =>
    case Pair(_, _) =>
    case Revoke(_) =>
    case Kill(_) =>
    case _ =>
  }

  lemma RequestRaises(s: Sys, e: Event)
    requires e.Request?
    ensures var t := Next(s, e);
            && (s.st.reloadPending ==> t.st.reloadPending)
            && (t.st.rebaselinePending <==> s.st.rebaselinePending || (!s.st.armed && t.st.armed))
            && (s.st.armed && !Disarms(s, e) ==> t.st.armed)
            && (t.st.killPending == s.st.killPending
                || (AcceptsKill(s, e) && t.st.killPending == Some(e.call.req.reason)))
  {
    ApplyRaises(s.st, e.call.req, Uid(e.call.creds), e.call.now, s.identity);
  }

  // ----- counting steps -----------------------------------------------------------------------------

  /** The socket said yes to a kill. */
  predicate AcceptsKill(s: Sys, e: Event) {
    e.Request? && e.call.req.Kill? && Answer(s, e).1.Done?
  }

  datatype Kind = Recapture | Rearming | Delivery | Acceptance

  /** The step from `s` to `t` is one of that kind. */
  predicate Is(kind: Kind, s: Sys, e: Event, t: Sys) {
    match kind
    case Recapture => e.Poll? && s.pc.Rebaselining?
    case Rearming => !s.st.armed && t.st.armed
    case Delivery => e.Poll? && s.pc.Handling? && s.pc.remote
    case Acceptance => AcceptsKill(s, e)
  }

  function OneIf(b: bool): nat { if b then 1 else 0 }

  /** How many steps from `a` up to `b` are of that kind. */
  function Times(states: seq<Sys>, events: seq<Event>, a: nat, b: nat, kind: Kind): nat
    requires |states| == |events| + 1 && a <= b <= |events|
  {
    if a == b then 0
    else Times(states, events, a, b - 1, kind) + OneIf(Is(kind, states[b - 1], events[b - 1], states[b]))
  }

  lemma {:induction false} SomeTime(states: seq<Sys>, events: seq<Event>, a: nat, b: nat, kind: Kind) returns (l: nat)
    requires |states| == |events| + 1 && a <= b <= |events| && Times(states, events, a, b, kind) > 0
    ensures a <= l < b && Is(kind, states[l], events[l], states[l + 1])
  {
    if Is(kind, states[b - 1], events[b - 1], states[b]) {
      l := b - 1;
    } else {
      l := SomeTime(states, events, a, b - 1, kind);
    }
  }

  // ----- one capture per re-arm ------------------------------------------------------------------

  /** Captures a re-arm has called for that have not been taken. */
  function CapturesOwed(s: Sys): nat {
    OneIf(s.st.rebaselinePending) + OneIf(s.pc.Rebaselining?)
  }

  ghost predicate CapturesAreCalledFor(s: Sys, e: Event, t: Sys) {
    CapturesOwed(t) + OneIf(Is(Recapture, s, e, t)) <= CapturesOwed(s) + OneIf(Is(Rearming, s, e, t))
  }

  lemma StepCallsForCaptures(s: Sys, e: Event)
    ensures CapturesAreCalledFor(s, e, Next(s, e))
  {
    if e.Request? {
      RequestRaises(s, e);
    } else if s.pc.Draining? {
    } else {
      PendingMoves(s, e);
    }
  }

  /** The flag is taken with the capture it asks for: over any stretch of any run
      there are no more re-captures than re-arms, but for what is owed at its
      start. */
  lemma {:induction false} CapturesFollowRearms(states: seq<Sys>, events: seq<Event>, a: nat, b: nat)
    requires IsRun(states, events) && a <= b <= |events|
    ensures CapturesOwed(states[b]) + Times(states, events, a, b, Recapture)
            <= CapturesOwed(states[a]) + Times(states, events, a, b, Rearming)
    ensures Initially(states[a]) ==>
              Times(states, events, a, b, Recapture) <= Times(states, events, a, b, Rearming)
    decreases b
  {
    if a < b {
      CapturesFollowRearms(states, events, a, b - 1);
      assert StepAt(states, events, b - 1);
      StepCallsForCaptures(states[b - 1], events[b - 1]);
    }
  }

  lemma {:induction false} CaptureComesBeforeTheNextDrain(states: seq<Sys>, events: seq<Event>, a: nat, b: nat)
    requires IsRun(states, events) && a <= b < |events| && states[a].pc.Rebaselining? && IsDrain(states, events, b)
    ensures Times(states, events, a, b, Recapture) > 0
    decreases b - a
  {
    assert StepAt(states, events, a);
    TimesFromTheFront(states, events, a, b, Recapture);
    if events[a].Request? {
      RequestsLeaveThePass(states[a], events[a]);
      CaptureComesBeforeTheNextDrain(states, events, a + 1, b);
    }
  }

  lemma {:induction false} TimesFromTheFront(states: seq<Sys>, events: seq<Event>, a: nat, b: nat, kind: Kind)
    requires |states| == |events| + 1 && a < b <= |events|
    ensures Times(states, events, a, b, kind)
            == OneIf(Is(kind, states[a], events[a], states[a + 1])) + Times(states, events, a + 1, b, kind)
  {
    if a + 1 < b {
      TimesFromTheFront(states, events, a, b - 1, kind);
    }
  }

  /** Two passes that re-capture have a re-arm between their drains, or in the
      second of them. */
  lemma OneCapturePerRearm(states: seq<Sys>, events: seq<Event>, d: nat, e: nat) returns (l: nat)
    requires IsRun(states, events) && d < e < |events| && IsDrain(states, events, d) && IsDrain(states, events, e)
    requires states[d + 1].pc.Rebaselining? && states[e + 1].pc.Rebaselining?
    ensures d < l <= e && Rearms(states, l)
  {
    assert StepAt(states, events, d) && StepAt(states, events, e);
    CaptureComesBeforeTheNextDrain(states, events, d + 1, e);
    CapturesFollowRearms(states, events, d + 1, e + 1);
    assert CapturesOwed(states[d + 1]) == 1;
    l := SomeTime(states, events, d + 1, e + 1, Rearming);
  }

  /** Leaving a disarm by command: the first drain after it goes to the capture
      and, unless a new disarm was obeyed meanwhile, its pass is armed. */
  lemma ArmIsObeyed(states: seq<Sys>, events: seq<Event>, a: nat, d: nat)
    requires IsRun(states, events) && a < d < |events| && IsDrain(states, events, d)
    requires events[a].Request? && events[a].call.req.Arm? && !states[a].st.armed
    requires forall l :: a < l < d ==> !IsDrain(states, events, l)
    ensures states[a + 1].st.armed && states[d + 1].pc.Rebaselining?
    ensures (forall l :: a < l < d ==> !Disarms(states[l], events[l])) ==> states[d + 1].pass.armed
  {
    assert StepAt(states, events, a) && StepAt(states, events, d);
    ArmArms(states[a].st, events[a].call, events[a].requireAuth, states[a].identity);
    PendingUntilDrained(states, events, a + 1, d);
  }

  lemma {:induction false} PendingUntilDrained(states: seq<Sys>, events: seq<Event>, a: nat, d: nat)
    requires IsRun(states, events) && a <= d <= |events| && states[a].st.rebaselinePending && states[a].st.armed
    requires forall l :: a <= l < d ==> !IsDrain(states, events, l)
    ensures states[d].st.rebaselinePending
    ensures (forall l :: a <= l < d ==> !Disarms(states[l], events[l])) ==> states[d].st.armed
    decreases d
  {
    if a < d {
      PendingUntilDrained(states, events, a, d - 1);
      assert StepAt(states, events, d - 1);
      if events[d - 1].Request? {
        RequestRaises(states[d - 1], events[d - 1]);
      } else {
        assert !IsDrain(states, events, d - 1);
        PollChangesFlagsOnce(states[d - 1], events[d - 1].o);
      }
    }
  }

  // ----- one delivery per accepted kill ---------------------------------------------------------

  /** Kills that were accepted and are still on their way. */
  function KillsOwed(s: Sys): nat {
    OneIf(s.st.killPending.Some?) + OneIf(Carried(s).Some?)
  }

  ghost predicate KillsAreAccepted(s: Sys, e: Event, t: Sys) {
    KillsOwed(t) + OneIf(Is(Delivery, s, e, t)) <= KillsOwed(s) + OneIf(Is(Acceptance, s, e, t))
  }

  /** Where the kill of a pass goes in one step of the poll thread. */
  lemma CarriedMoves(s: Sys, o: Oracle)
    requires PassKnows(s)
    ensures var t := PollStep(s, o);
            if s.pc.Draining? then t.st.killPending.None? && Carried(t) == s.st.killPending
            else t.st.killPending == s.st.killPending
                 && (Carried(t) == Carried(s) || Carried(t).None?)
                 && (s.pc.Handling? ==> Carried(t).None? && (s.pc.remote <==> Carried(s).Some?))
  {
    PollChangesFlagsOnce(s, o);
    match s.pc
    case Checking(stage) => CheckTouches(s, o, stage);
    case Rebaselining =>
    case CapturingMissing =>
    case Acting =>
    case Admitting(_, _) =>
    case _ =>
  }

  lemma StepOwesKills(s: Sys, e: Event)
    requires PassKnows(s)
    ensures KillsAreAccepted(s, e, Next(s, e))
  {
    if e.Request? {
      RequestRaises(s, e);
    } else {
      CarriedMoves(s, e.o);
    }
  }

  /** A queued kill is taken once: in no run are more kills delivered than the
      socket accepted. */
  lemma {:induction false} DeliveriesAreAccepted(states: seq<Sys>, events: seq<Event>, b: nat)
    requires IsRun(states, events) && Initially(states[0]) && b <= |events|
    ensures KillsOwed(states[b]) + Times(states, events, 0, b, Delivery) <= Times(states, events, 0, b, Acceptance)
  {
    if b > 0 {
      DeliveriesAreAccepted(states, events, b - 1);
      RunsKeepInvariant(states, events, b - 1);
      assert StepAt(states, events, b - 1);
      StepOwesKills(states[b - 1], events[b - 1]);
    }
  }

  /** The reason is queued or on its way. */
  predicate Holds(s: Sys, reason: string) {
    s.st.killPending == Some(reason) || Carried(s) == Some(reason)
  }

  lemma HeldWasHeld(s: Sys, e: Event, reason: string)
    requires PassKnows(s) && Holds(Next(s, e), reason)
    ensures Holds(s, reason) || (AcceptsKill(s, e) && e.call.req.reason == reason)
  {
    if e.Request? {
      RequestRaises(s, e);
    } else {
      CarriedMoves(s, e.o);
    }
  }

  lemma {:induction false} HeldWasAccepted(states: seq<Sys>, events: seq<Event>, i: nat, reason: string)
    returns (a: nat)
    requires IsRun(states, events) && Initially(states[0]) && i < |states| && Holds(states[i], reason)
    ensures a < i && AcceptsKill(states[a], events[a]) && events[a].call.req.reason == reason
  {
    RunsKeepInvariant(states, events, i - 1);
    assert StepAt(states, events, i - 1);
    HeldWasHeld(states[i - 1], events[i - 1], reason);
    if Holds(states[i - 1], reason) {
      a := HeldWasAccepted(states, events, i - 1, reason);
    } else {
      a := i - 1;
    }
  }

  /** What is delivered as a peer's kill carries a reason the socket accepted
      before, in so many words. */
  lemma DeliveredWasAccepted(states: seq<Sys>, events: seq<Event>, i: nat, reason: string) returns (a: nat)
    requires IsRun(states, events) && Initially(states[0]) && i < |events| && Delivers(states[i], events[i], reason)
    ensures a < i && AcceptsKill(states[a], events[a]) && events[a].call.req.reason == reason
  {
    RunsKeepInvariant(states, events, i);
    DeliveryNamesItsReason(states[i], events[i], reason);
    a := HeldWasAccepted(states, events, i, reason);
  }

  lemma DeliveryNamesItsReason(s: Sys, e: Event, reason: string)
    requires PassKnows(s) && Delivers(s, e, reason)
    ensures Carried(s) == Some(reason)
  {
    SamePrefix("RELAY VIOLATION: remote kill from peer: ", s.pass.kill.value, reason);
  }

  lemma SamePrefix(prefix: string, a: string, b: string)
    requires prefix + a == prefix + b
    ensures a == b
  {
    assert a == (prefix + a)[|prefix|..] && b == (prefix + b)[|prefix|..];
  }

  // ----- an armed pass checks every bus --------------------------------------------------------------

  /** This check is still before the pass, which is armed and carries no kill. */
  predicate IsAhead(s: Sys, stage: Stage) {
    && s.pass.armed && s.pass.kill.None?
    && !s.pc.Draining? && !s.pc.Admitting? && !s.pc.Recording? && !s.pc.Handling?
    && StepsLeft(s.pc) >= StepsLeft(Checking(stage))
  }

  lemma CheckComesOrIsAhead(s: Sys, o: Oracle, stage: Stage)
    requires IsAhead(s, stage) && s.pc != Checking(stage)
    ensures var t := PollStep(s, o);
            && t.pass == s.pass
            && ((s.pc.Checking? && t.pc.Admitting?) || IsAhead(t, stage))
            && StepsLeft(t.pc) < StepsLeft(s.pc)
  {
    PollChangesFlagsOnce(s, o);
    PassAdvances(s, Event.Poll(o));
    match s.pc
    case Checking(OfDevices) =>
    case Checking(OfPower) =>
    case Checking(OfNetwork) =>
    case Checking(OfLid) =>
    case Checking(OfPci) =>
    case Checking(OfDisplay) =>
    case Acting =>
    case _ =>
  }

  /** The next step of the poll thread, and what requests leave alone till then. */
  lemma {:induction false} NextPoll(states: seq<Sys>, events: seq<Event>, a: nat, b: nat) returns (i: nat)
    requires IsRun(states, events) && a <= b <= |events| && Polls(events, a, b) > 0
    ensures a <= i < b && events[i].Poll? && states[i].pc == states[a].pc && states[i].pass == states[a].pass
    ensures Polls(events, i + 1, b) == Polls(events, a, b) - 1
    ensures states[a].st.reloadPending ==> states[i].st.reloadPending
    decreases b - a
  {
    if events[a].Poll? {
      return a;
    }
    assert StepAt(states, events, a);
    RequestsLeaveThePass(states[a], events[a]);
    RequestRaises(states[a], events[a]);
    i := NextPoll(states, events, a + 1, b);
  }

  lemma {:induction false} CheckIsReached(states: seq<Sys>, events: seq<Event>, a: nat, b: nat, stage: Stage)
    returns (i: nat)
    requires IsRun(states, events) && a <= b <= |events|
    requires IsAhead(states[a], stage) && Polls(events, a, b) >= StepsLeft(states[a].pc)
    ensures a <= i < b && events[i].Poll? && states[i].pc.Checking? && states[i].pass == states[a].pass
    ensures states[i].pc.stage == stage || states[i + 1].pc.Admitting?
    decreases b - a
  {
    i := NextPoll(states, events, a, b);
    if states[i].pc != Checking(stage) {
      assert StepAt(states, events, i);
      CheckComesOrIsAhead(states[i], events[i].o, stage);
      if !states[i + 1].pc.Admitting? {
        i := CheckIsReached(states, events, i + 1, b, stage);
      }
    }
  }

  /** No bus is skipped: within fourteen steps of an armed drain that took no
      kill, its pass makes the check of each stage, or an earlier check of it has
      raised a violation. */
  lemma EveryBusIsChecked(states: seq<Sys>, events: seq<Event>, d: nat, b: nat, stage: Stage) returns (i: nat)
    requires IsRun(states, events) && d < b <= |events| && IsDrain(states, events, d)
    requires states[d + 1].pass.armed && states[d + 1].pass.kill.None? && Polls(events, d + 1, b) >= 14
    ensures d < i < b && events[i].Poll? && states[i].pc.Checking? && states[i].pass == states[d + 1].pass
    ensures states[i].pc.stage == stage || states[i + 1].pc.Admitting?
  {
    assert StepAt(states, events, d);
    i := CheckIsReached(states, events, d + 1, b, stage);
  }

  /** What each check of the device buses lets pass, and what it raises: in
      monitor mode nothing, otherwise exactly what is not quiet. */
  lemma NothingIsOverlooked(s: Sys, o: Oracle)
    requires s.pc.Checking? && Answers(s, o)
    ensures var (t, allowed) := (PollStep(s, o), AllowedNow(s));
            && (s.pc.stage.OfDevices? ==>
                  (t.pc.Checking? <==>
                     && UsbQuiet(s.cfg, allowed, o.hw, s.bl.usb)
                     && SetQuiet(s.cfg.watchThunderbolt, s.cfg.thunderboltListed, allowed, OnThunderbolt,
                                 o.hw.thunderbolt, s.bl.thunderbolt)
                     && SetQuiet(s.cfg.watchSdCard, s.cfg.sdCardListed, allowed, OnSdCard, o.hw.sdcard, s.bl.sdcard)))
            && (s.pc.stage.OfPci? ==>
                  (t.pc.Checking? <==> PciQuiet(s.cfg, allowed, o.hw, s.bl.pci) || s.cfg.pciPolicy.Watch?))
            && (s.pc.stage.OfDisplay? ==>
                  (t.pc.Draining? <==> DisplayQuiet(s.cfg, allowed, o.hw, s.bl.display) || s.cfg.displayPolicy.Watch?))
  {
  }

  // ----- what is found is acted on ------------------------------------------------------------------

  /** An open window takes in exactly an appearance it may take, whose device is
      then allowed for the window's time to live; all else goes on to be recorded. */
  lemma AdmittedOrKept(s: Sys, o: Oracle, u: Time)
    requires s.pc.Admitting? && PassKnows(s) && D.Consistent(s.st)
    ensures var (t, v, w) := (PollStep(s, o), s.pc.found, s.st.pairing);
            if v.appeared && w.Some? && s.pass.now < w.value.until && (v.id.value.Display? ==> s.identity)
            then t.pc.Draining? && t.st.pairing.None?
                 && (v.id.value in Allowed(t.st.allowances, u) <==>
                       w.value.ttl.None? || u < s.pass.now + w.value.ttl.value)
            else t.pc == Recording(v, s.pc.remote) && t.st == s.st
  {
    if TakesIn(s) {
      D.AdmissionMeans(s.st, s.pc.found.id.value, s.pc.found.name, s.pass.now, u);
    }
  }

  /** The step puts `v` at the head of the history. */
  ghost predicate Records(s: Sys, e: Event, t: Sys, v: D.Violation) {
    && e.Poll? && s.pc.Recording? && t.st.violations != []
    && var head := t.st.violations[0];
       && head.at == e.o.wall && head.violation.bus == v.bus && head.violation.id == v.id
       && head.violation.description == v.description
  }

  /** The step runs the kill sequence for `v` in enforce mode, and counts it in
      learn mode. */
  ghost predicate Decides(s: Sys, e: Event, t: Sys, v: D.Violation) {
    && e.Poll? && s.pc.Handling? && s.pc.found == v && t.pc.Draining?
    && t.log.kills == s.log.kills + OneIf(s.st.mode.Enforce?)
    && t.st.violationsLogged == s.st.violationsLogged + OneIf(s.st.mode.Learn?)
  }

  lemma RecordingRecords(s: Sys, e: Event)
    requires e.Poll? && s.pc.Recording? && PassKnows(s) && D.Consistent(s.st)
    ensures Records(s, e, Next(s, e), s.pc.found)
    ensures Next(s, e).pc == Handling(s.pc.found, s.pc.remote)
  {
    D.RecordingMeans(s.st.violations, s.pc.found, e.o.wall);
  }

  lemma HandlingDecides(s: Sys, e: Event)
    requires e.Poll? && s.pc.Handling?
    ensures Decides(s, e, Next(s, e), s.pc.found)
  {
  }

  /** Nothing found is dropped: within three steps of the poll thread a violation
      is either taken in by the pairing window or recorded and put to the mode's
      decision, whatever requests come in between. */
  lemma FindingsAreActedOn(states: seq<Sys>, events: seq<Event>, a: nat, b: nat) returns (i: nat, r: nat, h: nat)
    requires IsRun(states, events) && Initially(states[0]) && a <= b <= |events|
    requires states[a].pc.Admitting? && Polls(events, a, b) >= 3
    ensures a <= i < b && events[i].Poll? && states[i].pc == states[a].pc
    ensures !TakesIn(states[i]) ==>
              && i < r < h < b
              && Records(states[r], events[r], states[r + 1], states[a].pc.found)
              && Decides(states[h], events[h], states[h + 1], states[a].pc.found)
  {
    i := NextPoll(states, events, a, b);
    r, h := i, i;
    if !TakesIn(states[i]) {
      RunsKeepInvariant(states, events, i);
      assert StepAt(states, events, i);
      AdmittedOrKept(states[i], events[i].o, 0);
      r, h := KeptIsActedOn(states, events, i + 1, b);
    }
  }

  lemma KeptIsActedOn(states: seq<Sys>, events: seq<Event>, a: nat, b: nat) returns (r: nat, h: nat)
    requires IsRun(states, events) && Initially(states[0]) && a <= b <= |events|
    requires states[a].pc.Recording? && Polls(events, a, b) >= 2
    ensures a <= r < h < b
    ensures Records(states[r], events[r], states[r + 1], states[a].pc.found)
    ensures Decides(states[h], events[h], states[h + 1], states[a].pc.found)
  {
    r := NextPoll(states, events, a, b);
    RunsKeepInvariant(states, events, r);
    assert StepAt(states, events, r);
    RecordingRecords(states[r], events[r]);
    h := NextPoll(states, events, r + 1, b);
    assert StepAt(states, events, h);
    HandlingDecides(states[h], events[h]);
  }

  // ----- a reload takes effect ------------------------------------------------------------------------

  /** An upper bound on the steps of the poll thread until it looks at the flag. */
  function StepsToReload(pc: Pc): nat {
    match pc
    case Draining => 2
    case Rebaselining => 1
    case TakingReload => 0
    case _ => StepsLeft(pc) + 2
  }

  lemma ReloadIsNearer(s: Sys, o: Oracle)
    requires s.st.reloadPending && !s.pc.TakingReload?
    ensures PollStep(s, o).st.reloadPending && StepsToReload(PollStep(s, o).pc) < StepsToReload(s.pc)
  {
    PollChangesFlagsOnce(s, o);
    if s.pc.Draining? {
    } else if s.pc.Rebaselining? {
    } else {
      PassAdvances(s, Event.Poll(o));
      PendingMoves(s, Event.Poll(o));
      NeverBackToReload(s, o);
    }
  }

  lemma NeverBackToReload(s: Sys, o: Oracle)
    requires !s.pc.Draining? && !s.pc.Rebaselining?
    ensures !PollStep(s, o).pc.TakingReload?
  {
    match s.pc
    case Checking(stage) =>
    case _ =>
  }

  lemma {:induction false} ReloadIsTaken(states: seq<Sys>, events: seq<Event>, a: nat, b: nat) returns (t: nat)
    requires IsRun(states, events) && a <= b <= |events| && states[a].st.reloadPending
    requires Polls(events, a, b) > StepsToReload(states[a].pc)
    ensures a <= t < b && events[t].Poll? && states[t].pc.TakingReload? && states[t].st.reloadPending
    ensures Polls(events, t + 1, b) >= Polls(events, a, b) - StepsToReload(states[a].pc) - 1
    decreases b - a
  {
    t := NextPoll(states, events, a, b);
    if !states[t].pc.TakingReload? {
      assert StepAt(states, events, t);
      ReloadIsNearer(states[t], events[t].o);
      t := ReloadIsTaken(states, events, t + 1, b);
    }
  }

  /** A reload asked for is done within eighteen steps of the poll thread: the flag
      is taken, and where the file can be read, what it says is the configuration
      from then on and the buses without a baseline are captured next. */
  lemma ReloadTakesEffect(states: seq<Sys>, events: seq<Event>, a: nat, b: nat) returns (t: nat, l: nat)
    requires IsRun(states, events) && a <= b <= |events| && states[a].st.reloadPending && Polls(events, a, b) >= 18
    ensures a <= t < l < b && events[t].Poll? && !states[t + 1].st.reloadPending
    ensures events[l].Poll? && states[l].pc.LoadingConfig?
    ensures var file := events[l].o.reload;
            && states[l + 1].cfg == (if file.Some? then file.value else states[l].cfg)
            && states[l + 1].pc == (if file.Some? then CapturingMissing else Acting)
  {
    t := ReloadIsTaken(states, events, a, b);
    assert StepAt(states, events, t);
    l := NextPoll(states, events, t + 1, b);
    assert StepAt(states, events, l);
  }

  // ----- a watched bus keeps its baseline --------------------------------------------------------

  predicate Has(bl: Snapshots, bus: D.Bus) {
    match bus
    case Usb => bl.usb.Some?
    case Thunderbolt => bl.thunderbolt.Some?
    case SdCard => bl.sdcard.Some?
    case Power => bl.power.Some?
    case Network => bl.network.Some?
    case Lid => bl.lid.Some?
    case Pci => bl.pci.Some?
    case Display => bl.display.Some?
    case Relay => false
  }

  predicate Watches(cfg: Config, bus: D.Bus) {
    match bus
    case Usb => cfg.watchUsb
    case Thunderbolt => cfg.watchThunderbolt
    case SdCard => cfg.watchSdCard
    case Power => cfg.power.watch
    case Network => cfg.network.watch
    case Lid => cfg.lid.watch
    case Pci => cfg.watchPci
    case Display => cfg.watchDisplay
    case Relay => false
  }

  /** The machine answers for the bus. */
  predicate Reads(hw: Hardware, bus: D.Bus) {
    match bus
    case Usb => hw.usb.Some?
    case Thunderbolt => hw.thunderbolt.Some?
    case SdCard => hw.sdcard.Some?
    case Pci => hw.pci.Some?
    case _ => true
  }

  lemma CapturedHas(cfg: Config, s: Snapshots, hw: Hardware, allowed: set<DeviceRef>, onlyMissing: bool, bus: D.Bus)
    ensures Has(Captured(cfg, s, hw, allowed, onlyMissing), bus) <==>
            Watches(cfg, bus) && (Reads(hw, bus) || (Has(s, bus) && (onlyMissing || bus.Pci?)))
  {
  }

  lemma CheckedHas(s: Sys, o: Oracle, stage: Stage, bus: D.Bus)
    ensures Has(CheckStep(s, o, stage).bl, bus) <==> Has(s.bl, bus)
  {
    match stage
    case OfDevices =>
    case OfPower =>
    case OfNetwork =>
    case OfLid =>
    case OfPci =>
    case OfDisplay =>
  }

  /** A bus has a baseline after a step exactly when it had one, except in a
      capture: there exactly when it is watched and was read, or could keep what
      stood, as in a reload every bus can and in a re-arm only PCI. */
  lemma BaselineStands(s: Sys, e: Event, bus: D.Bus)
    ensures Has(Next(s, e).bl, bus) <==>
            if e.Poll? && (s.pc.Rebaselining? || s.pc.CapturingMissing?) then
              Watches(s.cfg, bus)
              && (Reads(e.o.hw, bus) || (Has(s.bl, bus) && (s.pc.CapturingMissing? || bus.Pci?)))
            else Has(s.bl, bus)
  {
    if e.Request? {
      RequestsLeaveThePass(s, e);
    } else {
      match s.pc
      case Checking(stage) => CheckedHas(s, e.o, stage, bus);
      case Rebaselining => CapturedHas(s.cfg, s.bl, e.o.hw, AllowedNow(s), false, bus);
      case CapturingMissing => CapturedHas(s.cfg, s.bl, e.o.hw, AllowedNow(s), true, bus);
      case _ => PollChangesRecordsOnce(s, e.o);
    }
  }

  /** The step is a re-capture that could not read the bus. */
  predicate FailsToRead(s: Sys, e: Event, bus: D.Bus) {
    e.Poll? && s.pc.Rebaselining? && !Reads(e.o.hw, bus) && !bus.Pci?
  }

  /** While a bus stays watched, only a failed re-capture loses its baseline; a
      reload never does. */
  lemma {:induction false} WatchedKeepsItsBaseline(states: seq<Sys>, events: seq<Event>, a: nat, b: nat, bus: D.Bus)
    requires IsRun(states, events) && a <= b <= |events| && Has(states[a].bl, bus)
    requires forall l :: a <= l < b ==> Watches(states[l].cfg, bus) && !FailsToRead(states[l], events[l], bus)
    ensures Has(states[b].bl, bus)
    decreases b
  {
    if a < b {
      WatchedKeepsItsBaseline(states, events, a, b - 1, bus);
      assert StepAt(states, events, b - 1);
      BaselineStands(states[b - 1], events[b - 1], bus);
    }
  }
}
