/** Runs that show where a promise of the poll loop ends. */
module Corners {
  import opened Wrappers
  import D = Daemon
  import opened Socket
  import DeviceSets
  import opened Capture
  import opened Detect
  import opened Machine
  import opened Runs

  lemma OneMoreStep(states: seq<Sys>, events: seq<Event>, e: Event)
    requires IsRun(states, events) && Enabled(states[|events|], e)
    ensures IsRun(states + [Next(states[|events|], e)], events + [e])
  {
    var longer, more := states + [Next(states[|events|], e)], events + [e];
    forall i: nat | i < |more| ensures StepAt(longer, more, i) {
      StepOfLonger(states, events, e, i);
    }
  }

  lemma StepOfLonger(states: seq<Sys>, events: seq<Event>, e: Event, i: nat)
    requires IsRun(states, events) && Enabled(states[|events|], e) && i <= |events|
    ensures StepAt(states + [Next(states[|events|], e)], events + [e], i)
  {
    if i < |events| {
      assert StepAt(states, events, i);
    }
  }

  /** Runs `events` from `s`. */
  ghost function StatesOf(s: Sys, events: seq<Event>): (states: seq<Sys>)
    ensures |states| == |events| + 1 && states[0] == s
  {
    if events == [] then [s]
    else
      var before := StatesOf(s, events[..|events| - 1]);
      before + [Next(before[|events| - 1], events[|events| - 1])]
  }

  lemma StatesOfMore(s: Sys, events: seq<Event>, e: Event)
    requires IsRun(StatesOf(s, events), events) && Enabled(StatesOf(s, events)[|events|], e)
    ensures IsRun(StatesOf(s, events + [e]), events + [e])
    ensures StatesOf(s, events + [e]) == StatesOf(s, events) + [Next(StatesOf(s, events)[|events|], e)]
  {
    assert (events + [e])[..|events|] == events;
    OneMoreStep(StatesOf(s, events), events, e);
  }

  function FromRoot(req: Request): Event {
    Event.Request(Socket.Call(req, Some(Creds(ROOT, None)), false, 0), false)
  }

  // ----- an accepted kill that is not carried out -----------------------------------------

  /** A pass that has nothing to do but hand on a queued kill. */
  ghost predicate OnlyAKill(s: Sys, reason: string) {
    && s.st.killPending == Some(reason) && s.st.mode.Learn?
    && !s.st.rebaselinePending && !s.st.reloadPending && s.st.armed
    && s.pc.Draining?
  }

  lemma KillThenLearn(s: Sys, reason: string)
    requires Initially(s) && s.st.mode.Enforce?
    ensures var t := Next(s, FromRoot(Request.Kill(reason)));
            && Answer(s, FromRoot(Request.Kill(reason))).1.Done?
            && OnlyAKill(Next(t, FromRoot(Request.Learn)), reason)
            && Next(t, FromRoot(Request.Learn)).log.kills == s.log.kills
  {
  }

  lemma KillReachesAdmission(s: Sys, o: Oracle, reason: string)
    requires OnlyAKill(s, reason)
    ensures var t := Next(Next(Next(s, Event.Poll(o)), Event.Poll(o)), Event.Poll(o));
            && !Next(s, Event.Poll(o)).pc.Checking? && !Next(Next(s, Event.Poll(o)), Event.Poll(o)).pc.Checking?
            && t.st.mode.Learn? && t.log.kills == s.log.kills
            && t.pc ==
                 Admitting(D.EventViolation(D.Bus.Relay, "RELAY VIOLATION: remote kill from peer: " + reason), true)
  {
    var drained := Next(s, Event.Poll(o));
    assert drained.pc.TakingReload? && drained.pass.kill == Some(reason) && drained.log.kills == s.log.kills;
    var taken := Next(drained, Event.Poll(o));
    assert taken.pc.Acting? && taken.pass == drained.pass && taken.log.kills == s.log.kills;
  }

  lemma KillReachesHandling(s: Sys, o: Oracle, found: D.Violation)
    requires s.pc == Admitting(found, true) && !found.appeared && s.st.mode.Learn?
    ensures var t := Next(Next(s, Event.Poll(o)), Event.Poll(o));
            && !Next(s, Event.Poll(o)).pc.Checking?
            && t.pc == Handling(found, true) && t.st.mode.Learn? && t.log.kills == s.log.kills
            && Next(t, Event.Poll(o)).log.kills == s.log.kills
  {
    var admitted := Next(s, Event.Poll(o));
    assert admitted.pc == Recording(found, true) && admitted.st == s.st && admitted.log.kills == s.log.kills;
  }

  lemma KillIsDrainedInLearnMode(s: Sys, o: Oracle, reason: string) returns (states: seq<Sys>, events: seq<Event>)
    requires Initially(s) && s.st.mode.Enforce?
    ensures IsRun(states, events) && states[0] == s && |events| == 5
    ensures events[0] == FromRoot(Request.Kill(reason)) && Answer(states[0], events[0]).1.Done?
    ensures events[1] == FromRoot(Request.Learn)
    ensures states[5].st.mode.Learn? && states[5].log.kills == s.log.kills
    ensures states[5].pc ==
              Admitting(D.EventViolation(D.Bus.Relay, "RELAY VIOLATION: remote kill from peer: " + reason), true)
  {
    var kill, learn, poll := FromRoot(Request.Kill(reason)), FromRoot(Request.Learn), Event.Poll(o);
    KillThenLearn(s, reason);
    KillReachesAdmission(Next(Next(s, kill), learn), o, reason);
    StatesOfMore(s, [], kill);
    StatesOfMore(s, [] + [kill], learn);
    StatesOfMore(s, [] + [kill] + [learn], poll);
    StatesOfMore(s, [] + [kill] + [learn] + [poll], poll);
    StatesOfMore(s, [] + [kill] + [learn] + [poll] + [poll], poll);
    events := [] + [kill] + [learn] + [poll] + [poll] + [poll];
    states := StatesOf(s, events);
  }

  /** From any start in enforce mode: a kill the socket accepts, then `learn`,
      then a pass. The kill is delivered and no kill sequence runs. */
  lemma AcceptedKillCanBeDropped(s: Sys, o: Oracle, reason: string) returns (states: seq<Sys>, events: seq<Event>)
    requires Initially(s) && s.st.mode.Enforce?
    ensures IsRun(states, events) && states[0] == s && |events| == 8
    ensures events[0] == FromRoot(Request.Kill(reason)) && Answer(states[0], events[0]).1.Done?
    ensures events[1] == FromRoot(Request.Learn)
    ensures Delivers(states[7], events[7], reason) && states[8].log.kills == s.log.kills
  {
    var poll := Event.Poll(o);
    states, events := KillIsDrainedInLearnMode(s, o, reason);
    KillReachesHandling(states[5], o, states[5].pc.found);
    var s6 := Next(states[5], poll);
    OneMoreStep(states, events, poll);
    OneMoreStep(states + [s6], events + [poll], poll);
    var s7 := Next(s6, poll);
    OneMoreStep(states + [s6] + [s7], events + [poll] + [poll], poll);
    states, events := states + [s6] + [s7] + [Next(s7, poll)], events + [poll] + [poll] + [poll];
  }

  // ----- an admission after the deadline ------------------------------------------------------

  /** A Thunderbolt bus with nothing in its baseline, listed or allowed. */
  ghost predicate BareThunderbolt(s: Sys) {
    && !s.cfg.watchUsb && s.cfg.watchThunderbolt && s.cfg.thunderboltListed == {}
    && s.bl.thunderbolt == Some({})
  }

  /** The dock shows up two seconds after the pass began. */
  function DockSeen(o: Oracle): Oracle {
    var dock := D.DeviceViolation("VIOLATION", OnThunderbolt("dock"), None, true);
    o.(now := 0, clock := 2 * D.SECOND, hw := o.hw.(thunderbolt := Some({"dock"})), found := Some(dock))
  }

  lemma DockIsReported(s: Sys, o: Oracle)
    requires BareThunderbolt(s) && s.pc == Checking(OfDevices) && s.st.allowances == []
    ensures Answers(s, DockSeen(o))
  {
    var w := DockSeen(o);
    var list := SetList({}, AllowedNow(s), OnThunderbolt, {"dock"});
    assert DeviceSets.IsChange({"dock"}, {}, list, DeviceSets.Added("dock"));
    assert Names(w.found.value, D.Bus.Thunderbolt, Some(OnThunderbolt("dock")), true);
    assert !SetQuiet(true, {}, AllowedNow(s), OnThunderbolt, w.hw.thunderbolt, s.bl.thunderbolt);
  }

  lemma PairThenDrain(s: Sys, o: Oracle)
    requires Initially(s)
    ensures var pair := FromRoot(Request.Pair(1, None));
            var t := Next(Next(Next(Next(s, pair), Event.Poll(o.(now := 0, clock := 0))), Event.Poll(o)),
                          Event.Poll(o));
            && !Next(Next(s, pair), Event.Poll(o.(now := 0, clock := 0))).pc.Checking?
            && !Next(Next(Next(s, pair), Event.Poll(o.(now := 0, clock := 0))), Event.Poll(o)).pc.Checking?
            && t.pc == Checking(OfDevices) && t.pass.now == 0 && t.st.allowances == []
            && t.st.pairing == Some(D.PairingWindow(D.SECOND, None))
            && t.cfg == s.cfg && t.bl == s.bl && t.identity == s.identity
  {
    var open := Next(s, FromRoot(Request.Pair(1, None)));
    assert open.st == s.st.(pairing := Some(D.PairingWindow(D.SECOND, None))) && open.pc.Draining?;
    var drained := Next(open, Event.Poll(o.(now := 0, clock := 0)));
    assert drained.pc.TakingReload? && drained.pass == Pass(0, true, None);
    assert drained.st.pairing == open.st.pairing && drained.st.allowances == [];
    var taken := Next(drained, Event.Poll(o));
    assert taken.pc.Acting? && taken.st == drained.st && taken.pass == drained.pass;
  }

  lemma DockIsAdmitted(s: Sys, o: Oracle)
    requires s.pc == Checking(OfDevices) && s.pass.now == 0 && s.st.pairing == Some(D.PairingWindow(D.SECOND, None))
    ensures TakesIn(Next(s, Event.Poll(DockSeen(o)))) && Next(s, Event.Poll(DockSeen(o))).st == s.st
  {
  }

  lemma PairedPassReachesItsChecks(s: Sys, o: Oracle) returns (states: seq<Sys>, events: seq<Event>)
    requires Initially(s)
    ensures IsRun(states, events) && states[0] == s && |events| == 4
    ensures var t := states[4];
            && t.pc == Checking(OfDevices) && t.pass.now == 0 && t.st.allowances == []
            && t.st.pairing == Some(D.PairingWindow(D.SECOND, None))
            && t.cfg == s.cfg && t.bl == s.bl && t.identity == s.identity
  {
    var pair, drain, poll := FromRoot(Request.Pair(1, None)), Event.Poll(o.(now := 0, clock := 0)), Event.Poll(o);
    PairThenDrain(s, o);
    StatesOfMore(s, [], pair);
    StatesOfMore(s, [] + [pair], drain);
    StatesOfMore(s, [] + [pair] + [drain], poll);
    StatesOfMore(s, [] + [pair] + [drain] + [poll], poll);
    events := [] + [pair] + [drain] + [poll] + [poll];
    states := StatesOf(s, events);
  }

  /** A window of one second, and a pass that begins at once: a device that shows
      up two seconds later is still admitted, since the window is held against
      the clock reading the pass took when it began. */
  lemma AdmissionCanComeLate(s: Sys, o: Oracle) returns (states: seq<Sys>, events: seq<Event>)
    requires Initially(s) && BareThunderbolt(s)
    ensures IsRun(states, events) && states[0] == s && |events| == 6
    ensures events[5].Poll? && TakesIn(states[5])
    ensures states[5].st.pairing.Some? && events[5].o.clock > states[5].st.pairing.value.until
  {
    var late := Event.Poll(DockSeen(o));
    states, events := PairedPassReachesItsChecks(s, o);
    DockIsReported(states[4], o);
    DockIsAdmitted(states[4], o);
    var s5 := Next(states[4], late);
    OneMoreStep(states, events, late);
    OneMoreStep(states + [s5], events + [late], late);
    states, events := states + [s5] + [Next(s5, late)], events + [late] + [late];
  }
}
