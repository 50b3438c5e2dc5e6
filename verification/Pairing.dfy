/** Where paired grants come from, over whole runs. */
module Pairing {
  import opened Wrappers
  import opened Selectors
  import opened Allowances
  import D = Daemon
  import opened Socket
  import opened Poll
  import opened Detect
  import opened Machine
  import opened Runs

  /** Paired grants never outnumber the pair commands that opened a window, and
      no device is in the table twice. */
  lemma PairingIsConserved(states: seq<Sys>, events: seq<Event>, i: nat)
    requires IsRun(states, events) && Initially(states[0]) && i < |states|
    ensures states[i].log.admitted <= states[i].log.windows
    ensures OnePerDevice(states[i].st.allowances)
  {
    RunsKeepInvariant(states, events, i);
  }

  /** What a check hands on as an appearance is a device its own reading shows,
      and that nothing accounts for. */
  lemma CheckFindsUncovered(s: Sys, o: Oracle, stage: Stage)
    requires s.pc == Checking(stage) && Answers(s, o) && CheckStep(s, o, stage).pc.Admitting?
    ensures AppearedUncovered(s.cfg, AllowedNow(s), o.hw, s.bl, CheckStep(s, o, stage).pc.found)
    ensures CheckStep(s, o, stage).pass == s.pass
  {
    match stage
    case OfDevices => DeviceAppearanceIsUncovered(s.cfg, AllowedNow(s), o.hw, s.bl, o.found.value);
    case OfPower =>
    case OfNetwork =>
    case OfLid =>
    case OfPci => PciAppearanceIsUncovered(s.cfg, AllowedNow(s), o.hw, s.bl, o.found.value);
    case OfDisplay => DisplayAppearanceIsUncovered(s.cfg, AllowedNow(s), o.hw, s.bl, o.found.value);
  }

  /** Only a check leads to an admission that is not a remote kill. */
  lemma AdmittingFollowsAChecking(s: Sys, e: Event)
    requires Next(s, e).pc.Admitting? && !Next(s, e).pc.remote
    ensures e.Request? ==> s.pc == Next(s, e).pc && s.pass == Next(s, e).pass
    ensures e.Poll? ==> s.pc.Checking?
  {
    if e.Poll? {
      match s.pc
      case Rebaselining =>
      case CapturingMissing =>
      case Acting =>
      case Admitting(_, _) =>
      case _ =>
    }
  }

  /** Step `k` is the check in whose reading the device was seen: it belongs to
      the same pass, and only requests came since. */
  ghost predicate SeenAt(states: seq<Sys>, events: seq<Event>, k: nat, i: nat, id: DeviceRef)
    requires |states| == |events| + 1
  {
    && k < i < |states| && events[k].Poll? && states[k].pc.Checking? && states[k].pass == states[i].pass
    && (forall l :: k < l < i ==> events[l].Request?)
    && Uncovered(states[k].cfg, AllowedNow(states[k]), events[k].o.hw, states[k].bl, id)
  }

  lemma {:induction false} FoundWasSeen(states: seq<Sys>, events: seq<Event>, i: nat) returns (k: nat)
    requires IsRun(states, events) && Initially(states[0]) && i < |states|
    requires states[i].pc.Admitting? && !states[i].pc.remote && states[i].pc.found.appeared
    ensures states[i].pc.found.id.Some? && SeenAt(states, events, k, i, states[i].pc.found.id.value)
  {
    assert StepAt(states, events, i - 1);
    AdmittingFollowsAChecking(states[i - 1], events[i - 1]);
    if events[i - 1].Request? {
      k := FoundWasSeen(states, events, i - 1);
    } else {
      k := i - 1;
      CheckFindsUncovered(states[k], events[k].o, states[k].pc.stage);
    }
  }

  /** A paired grant appears in the table only in a step that spends an open
      window, before its deadline by the clock reading of that pass. Its device
      was attached in the reading of a check of that pass, and neither the
      baseline nor the configuration nor an allowance accounted for it. */
  lemma GrantsComeFromWindows(states: seq<Sys>, events: seq<Event>, i: nat, a: Allowance) returns (k: nat)
    requires IsRun(states, events) && Initially(states[0]) && i < |events|
    requires a in states[i + 1].st.allowances && a.grantedBy.Paired?
    requires forall b :: b in states[i].st.allowances ==> b.(warned := a.warned) != a
    ensures events[i].Poll? && states[i].st.pairing.Some? && states[i + 1].st.pairing.None?
    ensures a.grantedAt == states[i].pass.now < states[i].st.pairing.value.until
    ensures states[i + 1].log.admitted == states[i].log.admitted + 1
    ensures SeenAt(states, events, k, i, a.id)
  {
    assert StepAt(states, events, i);
    RunsKeepInvariant(states, events, i);
    GrantSpendsAWindow(states[i], events[i], a);
    k := FoundWasSeen(states, events, i);
  }

  lemma GrantSpendsAWindow(s: Sys, e: Event, a: Allowance)
    requires OnePerDevice(s.st.allowances) && PassKnows(s)
    requires a in Next(s, e).st.allowances && a.grantedBy.Paired?
    requires forall b :: b in s.st.allowances ==> b.(warned := a.warned) != a
    ensures e.Poll? && TakesIn(s) && !s.pc.remote && s.pc.found.appeared && s.pc.found.id == Some(a.id)
    ensures s.st.pairing.Some? && a.grantedAt == s.pass.now < s.st.pairing.value.until
    ensures Next(s, e).st.pairing.None?
    ensures Next(s, e).log.admitted == s.log.admitted + 1
  {
    if e.Request? {
      RequestsNeverPair(s.st, e.call.req, Uid(e.call.creds), e.call.now, s.identity, a);
    } else {
      PollNeverPairs(s, e.o, a);
    }
  }

  lemma PollNeverPairs(s: Sys, o: Oracle, a: Allowance)
    requires OnePerDevice(s.st.allowances)
    requires a in PollStep(s, o).st.allowances
    requires forall b :: b in s.st.allowances ==> b.(warned := a.warned) != a
    ensures TakesIn(s) && s.pc.found.id.Some?
    ensures a == Granted(s.pc.found.id.value, Paired, s.pass.now, s.st.pairing.value.ttl, s.pc.found.name)
  {
    PollTouches(s, o);
    if s.pc.Draining? {
      DrainNeverGrants(s.st, o.now, o.clock, a);
    } else if TakesIn(s) {
      WithoutHas(s.st.allowances, s.pc.found.id.value);
    }
  }

  lemma DrainNeverGrants(st: D.State, now: Time, clock: Time, a: Allowance)
    requires a in Drained(st, now, clock).state.allowances
    ensures exists b :: b in st.allowances && b.(warned := a.warned) == a
  {
    var flagged := Flagged(st.allowances, now, EXPIRY_WARN_AHEAD);
    ActiveHas(flagged, now);
    var i :| 0 <= i < |flagged| && flagged[i] == a;
    assert st.allowances[i] in st.allowances;
  }

  lemma RequestsNeverPair(st: D.State, req: Request, uid: Option<nat>, now: Time, identity: bool, a: Allowance)
    requires OnePerDevice(st.allowances)
    requires a in Apply(st, req, uid, now, identity).0.allowances && a.grantedBy.Paired?
    ensures a in st.allowances
  {
    match req
    case AllowLast(forSecs) =>
      if st.violations != [] && st.violations[0].violation.id.Some? {
        WithoutHas(st.allowances, st.violations[0].violation.id.value);
      }
    case Revoke(selector) => RevokeDropsOne(st, Parse(selector));
    case _ =>
  }
}
