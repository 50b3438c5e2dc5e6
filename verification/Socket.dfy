/** The control socket's requests (crates/plugkill/src/socket.rs). */
module Socket {
  import opened Wrappers
  import opened Selectors
  import opened Allowances
  import opened Daemon

  const ROOT: nat := 0
  const MAX_DISARM_SECS: nat := 3600
  const MAX_PAIR_SECS: nat := 3600

  datatype Request =
    | Status
    | Devices
    | Violations
    | Disarm(timeoutSecs: nat)
    | Arm
    | Learn
    | Enforce
    | Reload
    | Pair(windowSecs: nat, forSecs: Option<nat>)
    | AllowLast(forSecs: Option<nat>)
    | Revoke(selector: string)
    | RevokeAll
    | Kill(reason: string)

  /** What the kernel says of a peer. */
  datatype Creds = Creds(uid: nat, pid: Option<nat>)

  datatype Refusal =
    | Unidentified
    | NotAuthorized
    | ZeroTimeout
    | LongTimeout
    | LongWindow
    | ZeroTtl
    | NothingRecorded
    | NoDeviceNamed
    | NoDisplayIdentity
    | BadSelector(error: ParseError)
    | NoSuchAllowance
    | RootOnly
    | InLearnMode

  datatype Response = Done | Refused(why: Refusal)

  // ----- who may ask -----------------------------------------------------------------------

  /** Requests that have to authenticate. */
  predicate Gated(req: Request) {
    match req
    case Disarm(_) => true
    case Learn => true
    case Reload => true
    case Pair(windowSecs, _) => windowSecs != 0
    case AllowLast(_) => true
    case _ => false
  }

  /** The refusal, if any. `answer` is what the authority says when asked. */
  function Authorize(req: Request, requireAuth: bool, creds: Option<Creds>, answer: bool): Option<Refusal> {
    if !Gated(req) || !requireAuth then None
    else if creds.Some? && creds.value.uid == ROOT then None
    else if creds.None? || creds.value.pid.None? then Some(Unidentified)
    else if answer then None
    else Some(NotAuthorized)
  }

  function Uid(creds: Option<Creds>): Option<nat> {
    if creds.Some? then Some(creds.value.uid) else None
  }

  // ----- what each request does to the state --------------------------------------------------

  function Ttl(forSecs: Option<nat>): Result<Option<nat>, Refusal> {
    match forSecs
    case Some(secs) => if secs == 0 then Err(ZeroTtl) else Ok(Some(secs * SECOND))
    case None => Ok(None)
  }

  function Armed(s: State): State {
    s.(armed := true, disarmUntil := None, rebaselinePending := s.rebaselinePending || !s.armed)
  }

  function Paired(s: State, windowSecs: nat, forSecs: Option<nat>, now: Time): (State, Response) {
    if windowSecs > MAX_PAIR_SECS then (s, Refused(LongWindow))
    else
      match Ttl(forSecs)
      case Err(why) => (s, Refused(why))
      case Ok(ttl) =>
        if windowSecs == 0 then (s.(pairing := None), Done)
        else (s.(pairing := Some(PairingWindow(now + windowSecs * SECOND, ttl))), Done)
  }

  function AllowedLast(s: State, forSecs: Option<nat>, now: Time, hasIdentity: bool): (State, Response) {
    match Ttl(forSecs)
    case Err(why) => (s, Refused(why))
    case Ok(ttl) =>
      if s.violations == [] then (s, Refused(NothingRecorded))
      else
        var last := s.violations[0].violation;
        if last.id.None? then (s, Refused(NoDeviceNamed))
        else if DisplayRefused(last.id.value, hasIdentity) then (s, Refused(NoDisplayIdentity))
        else
          var entry := Granted(last.id.value, Promoted, now, ttl, last.name);
          (s.(allowances := Without(s.allowances, last.id.value) + [entry]), Done)
  }

  function Revoked(s: State, parsed: Result<DeviceRef, ParseError>): (State, Response) {
    match parsed
    case Err(error) => (s, Refused(BadSelector(error)))
    case Ok(id) =>
      if id in Ids(s.allowances) then (s.(allowances := Without(s.allowances, id)), Done)
      else (s, Refused(NoSuchAllowance))
  }

  function Killed(s: State, reason: string, uid: Option<nat>): (State, Response) {
    if uid != Some(ROOT) then (s, Refused(RootOnly))
    else if s.mode.Learn? then (s.(violationsLogged := s.violationsLogged + 1), Refused(InLearnMode))
    else (s.(killPending := Some(reason)), Done)
  }

  /** The state after an authorized request, and the answer. */
  function Apply(s: State, req: Request, uid: Option<nat>, now: Time, hasIdentity: bool): (State, Response) {
    match req
    case Status => (s, Done)
    case Devices => (s, Done)
    case Violations => (s, Done)
    case Disarm(secs) =>
      if secs == 0 then (s, Refused(ZeroTimeout))
      else if secs > MAX_DISARM_SECS then (s, Refused(LongTimeout))
      else (s.(armed := false, disarmUntil := Some(now + secs * SECOND)), Done)
    case Arm => (Armed(s), Done)
    case Learn => (s.(mode := Mode.Learn), Done)
    case Enforce => (s.(mode := Mode.Enforce), Done)
    case Reload => (s.(reloadPending := true), Done)
    case Pair(windowSecs, forSecs) => Paired(s, windowSecs, forSecs, now)
    case AllowLast(forSecs) => AllowedLast(s, forSecs, now, hasIdentity)
    case Revoke(selector) => Revoked(s, Parse(selector))
    case RevokeAll => (s.(allowances := []), Done)
    case Kill(reason) => Killed(s, reason, uid)
  }

  /** A request as it arrives: the peer, the authority's answer, the clock. */
  datatype Call = Call(req: Request, creds: Option<Creds>, answer: bool, now: Time)

  function Serve(s: State, call: Call, requireAuth: bool, hasIdentity: bool): (State, Response) {
    match Authorize(call.req, requireAuth, call.creds, call.answer)
    case Some(why) => (s, Refused(why))
    case None => Apply(s, call.req, Uid(call.creds), call.now, hasIdentity)
  }

  function ServeAll(s: State, calls: seq<Call>, requireAuth: bool, hasIdentity: bool): State
    decreases |calls|
  {
    if calls == [] then s
    else ServeAll(Serve(s, calls[0], requireAuth, hasIdentity).0, calls[1..], requireAuth, hasIdentity)
  }

  // ----- what requests keep -----------------------------------------------------------------

  lemma RevokeDropsOne(s: State, parsed: Result<DeviceRef, ParseError>)
    requires OnePerDevice(s.allowances)
    ensures var left := Revoked(s, parsed).0.allowances;
            OnePerDevice(left) && Revoked(s, parsed).0 == s.(allowances := left)
            && Fewer(left, s.allowances)
  {
    if parsed.Ok? {
      WithoutHas(s.allowances, parsed.value);
    }
  }

  lemma ApplyKeepsConsistency(s: State, req: Request, uid: Option<nat>, now: Time, hasIdentity: bool)
    requires Consistent(s)
    ensures Consistent(Apply(s, req, uid, now, hasIdentity).0)
  {
    match req
    case AllowLast(forSecs) =>
      if s.violations != [] && s.violations[0].violation.id.Some? && Ttl(forSecs).Ok? {
        var last := s.violations[0].violation;
        RemoveAndAddMean(s.allowances, Granted(last.id.value, Promoted, now, Ttl(forSecs).value, last.name), now);
      }
    case Revoke(selector) => RevokeDropsOne(s, Parse(selector));
    case _ =>
  }

  ghost predicate Fewer(left: seq<Allowance>, entries: seq<Allowance>) {
    forall a :: a in left ==> a in entries
  }

  /** No permission gained: at least as armed, as enforcing and as closed, and a
      re-capture only where a disarm was left. */
  ghost predicate Stricter(s: State, t: State) {
    && (s.armed ==> t.armed)
    && (t.disarmUntil == s.disarmUntil || t.disarmUntil.None?)
    && (s.mode.Enforce? ==> t.mode.Enforce?)
    && Fewer(t.allowances, s.allowances)
    && (t.pairing == s.pairing || t.pairing.None?)
    && t.reloadPending == s.reloadPending
    && (t.rebaselinePending ==> s.rebaselinePending || (!s.armed && t.armed))
    && t.killPending == s.killPending
    && t.violations == s.violations && t.violationsLogged == s.violationsLogged
    && t.power == s.power && t.triggerOnceFired == s.triggerOnceFired && t.network == s.network && t.lid == s.lid
  }

  lemma UngatedOnlyTightens(s: State, req: Request, uid: Option<nat>, now: Time, hasIdentity: bool)
    requires OnePerDevice(s.allowances) && uid != Some(ROOT) && !Gated(req)
    ensures Stricter(s, Apply(s, req, uid, now, hasIdentity).0)
    ensures OnePerDevice(Apply(s, req, uid, now, hasIdentity).0.allowances)
  {
    match req
    case Revoke(selector) => RevokeDropsOne(s, Parse(selector));
    case Arm =>
    case Pair(windowSecs, forSecs) =>
    case Kill(reason) =>
    case _ =>
  }

  /** With authentication required, callers that are not root and that the
      authority refuses move the state only towards stricter, whatever they
      send, in whatever order. */
  lemma {:induction false} RefusedCallersOnlyTighten(s: State, calls: seq<Call>, hasIdentity: bool)
    requires OnePerDevice(s.allowances)
    requires forall c :: c in calls ==> Uid(c.creds) != Some(ROOT) && !c.answer
    ensures Stricter(s, ServeAll(s, calls, true, hasIdentity))
    decreases |calls|
  {
    if calls != [] {
      var c := calls[0];
      if !Gated(c.req) {
        UngatedOnlyTightens(s, c.req, Uid(c.creds), c.now, hasIdentity);
      }
      RefusedCallersOnlyTighten(Serve(s, c, true, hasIdentity).0, calls[1..], hasIdentity);
    }
  }

  /** Whether the request's own arguments let it run. */
  predicate WellFormed(req: Request) {
    match req
    case Disarm(secs) => 0 < secs <= MAX_DISARM_SECS
    case Pair(windowSecs, forSecs) => windowSecs <= MAX_PAIR_SECS && forSecs != Some(0)
    case AllowLast(forSecs) => forSecs != Some(0)
    case _ => true
  }

  /** A state every gated request loosens. */
  function Strict(): State {
    var stick := DeviceViolation("USB VIOLATION", DeviceRef.Usb(UsbId("0781", "5583")), None, true);
    Initial(Mode.Enforce).(violations := [Entry(0, stick)])
  }

  /** The gate is exact: the gated requests that can run at all are the ones
      that would let some caller who is not root loosen some state. */
  lemma GateIsExact(req: Request, uid: Option<nat>, now: Time)
    requires uid != Some(ROOT)
    ensures (exists s :: Consistent(s) && !Stricter(s, Apply(s, req, uid, now, true).0)) <==>
              Gated(req) && WellFormed(req)
  {
    if Gated(req) && WellFormed(req) {
      var s := Strict();
      var t := Apply(s, req, uid, now, true).0;
      assert req.AllowLast? ==> t.allowances[|t.allowances| - 1] in t.allowances;
      assert Consistent(s) && !Stricter(s, t);
    } else if !Gated(req) {
      forall s | Consistent(s) ensures Stricter(s, Apply(s, req, uid, now, true).0) {
        UngatedOnlyTightens(s, req, uid, now, true);
      }
    } else {
      assert forall s :: Apply(s, req, uid, now, true).0 == s;
    }
  }

  // ----- what requests undo and grant ----------------------------------------------------------

  /** Revoking drops exactly the device the selector means, and is refused
      exactly when it means none or one that is not in the table. */
  lemma RevokeMeans(s: State, selector: string, uid: Option<nat>, now: Time, hasIdentity: bool, t: Time)
    requires OnePerDevice(s.allowances)
    ensures var (after, r) := Apply(s, Revoke(selector), uid, now, hasIdentity);
            && (r.Done? <==> Parse(selector).Ok? && Parse(selector).value in Ids(s.allowances))
            && (r.Done? ==> Allowed(after.allowances, t) == Allowed(s.allowances, t) - {Parse(selector).value})
            && (!r.Done? ==> after == s)
  {
    RevokedMeans(s, Parse(selector), t);
  }

  lemma RevokedMeans(s: State, parsed: Result<DeviceRef, ParseError>, t: Time)
    requires OnePerDevice(s.allowances)
    ensures var (after, r) := Revoked(s, parsed);
            && (r.Done? <==> parsed.Ok? && parsed.value in Ids(s.allowances))
            && (r.Done? ==> Allowed(after.allowances, t) == Allowed(s.allowances, t) - {parsed.value})
            && (!r.Done? ==> after == s)
  {
    if parsed.Ok? && parsed.value in Ids(s.allowances) {
      var a :| a in s.allowances && a.id == parsed.value;
      RemoveAndAddMean(s.allowances, a, t);
    }
  }

  /** `allow-last` allows exactly the device of the newest violation, from now
      until its own expiry, and revoking it again leaves what was allowed
      before, without that device. */
  lemma AllowLastAllows(s: State, forSecs: Option<nat>, uid: Option<nat>, now: Time, hasIdentity: bool, t: Time)
    requires Consistent(s) && s.violations != [] && s.violations[0].violation.id.Some?
    requires forSecs != Some(0) && !DisplayRefused(s.violations[0].violation.id.value, hasIdentity)
    ensures var id := s.violations[0].violation.id.value;
            var (after, r) := Apply(s, AllowLast(forSecs), uid, now, hasIdentity);
            && r.Done?
            && Allowed(after.allowances, t)
               == Allowed(s.allowances, t) - {id}
                  + (if forSecs.None? || t < now + forSecs.value * SECOND then {id} else {})
            && Allowed(Without(after.allowances, id), t) == Allowed(s.allowances, t) - {id}
  {
    var last := s.violations[0].violation;
    var entry := Granted(last.id.value, Promoted, now, Ttl(forSecs).value, last.name);
    RemoveAndAddMean(s.allowances, entry, t);
    AddThenRemove(s.allowances, entry, t);
  }

  /** A window opened for so many seconds takes a device in until then. */
  lemma PairOpensFor(s: State, windowSecs: nat, forSecs: Option<nat>, uid: Option<nat>, now: Time, hasIdentity: bool,
                     id: DeviceRef, t: Time)
    requires WellFormed(Pair(windowSecs, forSecs))
    ensures Admits(Apply(s, Pair(windowSecs, forSecs), uid, now, hasIdentity).0, id, t, hasIdentity)
            <==> t < now + windowSecs * SECOND && windowSecs > 0 && !DisplayRefused(id, hasIdentity)
  {
  }

  // ----- what each request gets its caller ------------------------------------------------------

  /** Refused exactly when the request is gated, authentication is required, and
      the caller is neither root nor an identified one the authority approves; a
      refused caller changes nothing. */
  lemma AuthorizationMeans(s: State, call: Call, requireAuth: bool, hasIdentity: bool)
    ensures var root := call.creds.Some? && call.creds.value.uid == 0;
            var approved := call.creds.Some? && call.creds.value.pid.Some? && call.answer;
            var (t, r) := Serve(s, call, requireAuth, hasIdentity);
            if Gated(call.req) && requireAuth && !root && !approved
            then t == s && r == Refused(if call.creds.Some? && call.creds.value.pid.Some? then NotAuthorized
                                        else Unidentified)
            else (t, r) == Apply(s, call.req, Uid(call.creds), call.now, hasIdentity)
  {
  }

  /** Anyone may arm. Afterwards the daemon is armed and has no deadline, and a
      re-capture is pending if one was or if this left a disarm. */
  lemma ArmArms(s: State, call: Call, requireAuth: bool, hasIdentity: bool)
    requires call.req.Arm?
    ensures var (t, r) := Serve(s, call, requireAuth, hasIdentity);
            && r.Done? && t.armed && t.disarmUntil.None?
            && (t.rebaselinePending <==> s.rebaselinePending || !s.armed)
            && t == s.(armed := true, disarmUntil := None, rebaselinePending := t.rebaselinePending)
  {
  }

  /** A disarm is obeyed for one second up to an hour. */
  lemma DisarmDisarms(s: State, secs: nat, uid: Option<nat>, now: Time, hasIdentity: bool)
    ensures var (t, r) := Apply(s, Disarm(secs), uid, now, hasIdentity);
            && (r.Done? <==> 1 <= secs <= 3600)
            && t == if r.Done? then s.(armed := false, disarmUntil := Some(now + secs * 1_000_000_000)) else s
  {
  }

  /** Of the requests that take no arguments: each does its one thing, and the
      three that ask do nothing. */
  lemma PlainRequestsMean(s: State, req: Request, uid: Option<nat>, now: Time, hasIdentity: bool)
    requires req.Learn? || req.Enforce? || req.Reload? || req.RevokeAll? || req.Status? || req.Devices?
             || req.Violations?
    ensures var (t, r) := Apply(s, req, uid, now, hasIdentity);
            && r.Done?
            && (t.mode.Learn? <==> req.Learn? || (s.mode.Learn? && !req.Enforce?))
            && (t.reloadPending <==> req.Reload? || s.reloadPending)
            && (forall id, u :: id in Allowed(t.allowances, u) <==> !req.RevokeAll? && id in Allowed(s.allowances, u))
            && t == s.(mode := t.mode, reloadPending := t.reloadPending, allowances := t.allowances)
  {
  }

  /** A pairing window is at most an hour long and its allowances last some time
      or for good; zero seconds close it. A device taken in through the window is
      then allowed for exactly as long as the command said. */
  lemma PairedFor(s: State, windowSecs: nat, forSecs: Option<nat>, uid: Option<nat>, now: Time, hasIdentity: bool,
                  id: DeviceRef, name: Option<string>, at: Time, u: Time)
    requires Consistent(s)
    ensures var (t, r) := Apply(s, Pair(windowSecs, forSecs), uid, now, hasIdentity);
            && (r.Done? <==> windowSecs <= 3600 && forSecs != Some(0))
            && t == s.(pairing := t.pairing)
            && (t.pairing == if !r.Done? then s.pairing else if windowSecs == 0 then None
                             else Some(PairingWindow(now + windowSecs * 1_000_000_000, t.pairing.value.ttl)))
            && (r.Done? && Admits(t, id, at, hasIdentity) ==>
                  (id in Allowed(Admitted(t, id, name, at).allowances, u) <==>
                     forSecs.None? || u < at + forSecs.value * 1_000_000_000))
  {
    var t := Apply(s, Pair(windowSecs, forSecs), uid, now, hasIdentity).0;
    if t.pairing.Some? && Admits(t, id, at, hasIdentity) {
      AdmissionMeans(t, id, name, at, u);
    }
  }

  /** `allow-last` is refused exactly without a device to name, with no time to
      live, or with a monitor where monitors cannot be told apart; then nothing
      changes, and otherwise the table alone. */
  lemma AllowLastIsRefusedIff(s: State, forSecs: Option<nat>, uid: Option<nat>, now: Time, hasIdentity: bool)
    ensures var (t, r) := Apply(s, AllowLast(forSecs), uid, now, hasIdentity);
            && (r.Done? <==>
                  && forSecs != Some(0) && s.violations != [] && s.violations[0].violation.id.Some?
                  && (s.violations[0].violation.id.value.Display? ==> hasIdentity))
            && t == if r.Done? then s.(allowances := t.allowances) else s
  {
  }

  /** A kill is root's alone. In enforce mode it is queued, the newest reason
      standing; in learn mode it is counted and refused. */
  lemma KillIsRoots(s: State, reason: string, uid: Option<nat>, now: Time, hasIdentity: bool)
    ensures var (t, r) := Apply(s, Kill(reason), uid, now, hasIdentity);
            && (r.Done? <==> uid == Some(0) && s.mode.Enforce?)
            && t.killPending == (if r.Done? then Some(reason) else s.killPending)
            && t.violationsLogged == s.violationsLogged + (if uid == Some(0) && s.mode.Learn? then 1 else 0)
            && t == s.(killPending := t.killPending, violationsLogged := t.violationsLogged)
  {
  }

  // ----- the handlers ---------------------------------------------------------------------------

  method HandleDisarm(st: DaemonState, timeoutSecs: nat, uid: Option<nat>, now: Time, hasIdentity: bool)
    returns (r: Response)
    modifies st`armed, st`disarmUntil
    ensures (st.View(), r) == Apply(old(st.View()), Disarm(timeoutSecs), uid, now, hasIdentity)
  {
    if timeoutSecs == 0 {
      return Refused(ZeroTimeout);
    }
    if timeoutSecs > MAX_DISARM_SECS {
      return Refused(LongTimeout);
    }
    st.armed := false;
    st.disarmUntil := Some(now + timeoutSecs * SECOND);
    r := Done;
  }

  method HandleArm(st: DaemonState, uid: Option<nat>, now: Time, hasIdentity: bool) returns (r: Response)
    modifies st`armed, st`disarmUntil, st`rebaselinePending
    ensures (st.View(), r) == Apply(old(st.View()), Arm, uid, now, hasIdentity)
  {
    var wasDisarmed := !st.armed;
    st.armed := true;
    st.disarmUntil := None;
    if !wasDisarmed {
      return Done;
    }
    st.rebaselinePending := true;
    r := Done;
  }

  method HandlePair(st: DaemonState, windowSecs: nat, forSecs: Option<nat>, uid: Option<nat>, now: Time,
                    hasIdentity: bool)
    returns (r: Response)
    modifies st`pairing
    ensures (st.View(), r) == Apply(old(st.View()), Pair(windowSecs, forSecs), uid, now, hasIdentity)
  {
    if windowSecs > MAX_PAIR_SECS {
      return Refused(LongWindow);
    }
    var ttl := Ttl(forSecs);
    if ttl.Err? {
      return Refused(ttl.error);
    }
    if windowSecs == 0 {
      st.pairing := None;
      return Done;
    }
    st.pairing := Some(PairingWindow(now + windowSecs * SECOND, ttl.value));
    r := Done;
  }

  method HandleAllowLast(st: DaemonState, forSecs: Option<nat>, uid: Option<nat>, now: Time, hasIdentity: bool)
    returns (r: Response)
    requires st.allowances.Valid()
    modifies st.allowances
    ensures st.allowances.Valid()
    ensures (st.View(), r) == Apply(old(st.View()), AllowLast(forSecs), uid, now, hasIdentity)
  {
    var ttl := Ttl(forSecs);
    if ttl.Err? {
      return Refused(ttl.error);
    }
    if st.violations == [] {
      return Refused(NothingRecorded);
    }
    var last := st.violations[0].violation;
    if last.id.None? {
      return Refused(NoDeviceNamed);
    }
    if DisplayRefused(last.id.value, hasIdentity) {
      return Refused(NoDisplayIdentity);
    }
    var _ := st.allowances.Add(Granted(last.id.value, Promoted, now, ttl.value, last.name));
    r := Done;
  }

  method HandleRevoke(st: DaemonState, selector: string, uid: Option<nat>, now: Time, hasIdentity: bool)
    returns (r: Response)
    requires st.allowances.Valid()
    modifies st.allowances
    ensures st.allowances.Valid()
    ensures (st.View(), r) == Apply(old(st.View()), Revoke(selector), uid, now, hasIdentity)
  {
    r := RevokeParsed(st, Parse(selector));
  }

  method RevokeParsed(st: DaemonState, parsed: Result<DeviceRef, ParseError>) returns (r: Response)
    requires st.allowances.Valid()
    modifies st.allowances
    ensures st.allowances.Valid()
    ensures (st.View(), r) == Revoked(old(st.View()), parsed)
  {
    if parsed.Err? {
      return Refused(BadSelector(parsed.error));
    }
    WithoutNothing(st.allowances.entries, parsed.value);
    var gone := st.allowances.Remove(parsed.value);
    r := if gone.Some? then Done else Refused(NoSuchAllowance);
  }

  lemma {:induction false} WithoutNothing(entries: seq<Allowance>, id: DeviceRef)
    ensures id !in Ids(entries) ==> Without(entries, id) == entries
  {
    if entries != [] && id !in Ids(entries) {
      forall a | a in entries[1..] ensures a.id in Ids(entries) {
        assert a in entries;
      }
      assert entries[0].id in Ids(entries);
      WithoutNothing(entries[1..], id);
    }
  }

  method HandleKill(st: DaemonState, reason: string, uid: Option<nat>, now: Time, hasIdentity: bool)
    returns (r: Response)
    modifies st`violationsLogged, st`killPending
    ensures (st.View(), r) == Apply(old(st.View()), Kill(reason), uid, now, hasIdentity)
  {
    if uid != Some(ROOT) {
      return Refused(RootOnly);
    }
    if st.mode.Learn? {
      st.violationsLogged := st.violationsLogged + 1;
      return Refused(InLearnMode);
    }
    st.killPending := Some(reason);
    r := Done;
  }

  /** One request, authorized first and then carried out under the state lock. */
  method HandleRequest(st: DaemonState, call: Call, requireAuth: bool, hasIdentity: bool) returns (r: Response)
    requires st.Valid()
    modifies st, st.allowances
    ensures st.Valid()
    ensures (st.View(), r) == Serve(old(st.View()), call, requireAuth, hasIdentity)
  {
    var refusal := Authorize(call.req, requireAuth, call.creds, call.answer);
    if refusal.Some? {
      return Refused(refusal.value);
    }
    var uid, now := Uid(call.creds), call.now;
    ApplyKeepsConsistency(st.View(), call.req, uid, now, hasIdentity);
    match call.req
    case Status => r := Done;
    case Devices => r := Done;
    case Violations => r := Done;
    case Disarm(secs) => r := HandleDisarm(st, secs, uid, now, hasIdentity);
    case Arm => r := HandleArm(st, uid, now, hasIdentity);
    case Learn =>
      st.mode := Mode.Learn;
      r := Done;
    case Enforce =>
      st.mode := Mode.Enforce;
      r := Done;
    case Reload =>
      st.reloadPending := true;
      r := Done;
    case Pair(windowSecs, forSecs) => r := HandlePair(st, windowSecs, forSecs, uid, now, hasIdentity);
    case AllowLast(forSecs) => r := HandleAllowLast(st, forSecs, uid, now, hasIdentity);
    case Revoke(selector) => r := HandleRevoke(st, selector, uid, now, hasIdentity);
    case RevokeAll =>
      var _ := st.allowances.Clear();
      r := Done;
    case Kill(reason) => r := HandleKill(st, reason, uid, now, hasIdentity);
  }
}
