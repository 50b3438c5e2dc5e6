/** The lock discipline of the daemon: config, then baselines, then state
    (crates/plugkill/src/main.rs and socket.rs). One poll thread, any number of
    socket handlers. */
module Locks {

  datatype Lock = Config | Baselines | State

  datatype Mode = Shared | Exclusive

  datatype Hold = Hold(lock: Lock, mode: Mode)

  /** What a thread still does with the locks. `Or` is a branch on anything. */
  datatype Path =
    | Done
    | Take(lock: Lock, mode: Mode, next: Path)
    | Release(lock: Lock, mode: Mode, next: Path)
    | Or(one: Path, other: Path)

  datatype Kind = Poller | Handler

  function Order(lock: Lock): nat {
    match lock case Config => 0 case Baselines => 1 case State => 2
  }

  predicate Conflict(a: Mode, b: Mode) {
    a.Exclusive? || b.Exclusive?
  }

  // ----- the code's paths -------------------------------------------------------------------

  /** A guard that lives for one statement, or for a block. */
  function Brief(lock: Lock, mode: Mode, next: Path): Path {
    Take(lock, mode, Release(lock, mode, next))
  }

  function Maybe(lock: Lock, mode: Mode, next: Path): Path {
    Or(Brief(lock, mode, next), next)
  }

  const UNLOCK_CONFIG: Path := Release(Config, Shared, Done)

  /** `capture_baselines` and what holds the guards around it: the state is
      locked for the allowances, and again for each timer that is reset. */
  function CapturePath(): Path {
    Take(Config, Shared, Take(Baselines, Exclusive,
      Brief(State, Exclusive, Maybe(State, Exclusive, Maybe(State, Exclusive, Maybe(State, Exclusive,
        Release(Baselines, Exclusive, UNLOCK_CONFIG)))))))
  }

  function ReloadPath(): Path {
    Brief(State, Exclusive, Or(Done, Or(Done, Brief(Config, Exclusive, CapturePath()))))
  }

  function DetectPath(): Path {
    Take(Config, Shared, Take(Baselines, Shared, Brief(State, Exclusive, Release(Baselines, Shared, UNLOCK_CONFIG))))
  }

  /** Power, lid and display: in monitor mode the state is let go before the
      baselines are written. */
  function TimerPath(): Path {
    Take(Config, Shared, Or(UNLOCK_CONFIG, Brief(Baselines, Shared, Or(UNLOCK_CONFIG,
      Brief(State, Exclusive, Maybe(Baselines, Exclusive, UNLOCK_CONFIG))))))
  }

  function NetworkPath(): Path {
    Take(Config, Shared, Or(UNLOCK_CONFIG, Take(Baselines, Shared, Or(
      Release(Baselines, Shared, UNLOCK_CONFIG), Or(
      Brief(State, Exclusive, Release(Baselines, Shared, UNLOCK_CONFIG)),
      Release(Baselines, Shared, Brief(State, Exclusive, Maybe(Baselines, Exclusive, UNLOCK_CONFIG))))))))
  }

  function PciPath(): Path {
    Take(Config, Shared, Or(UNLOCK_CONFIG, Take(Baselines, Shared, Or(
      Release(Baselines, Shared, UNLOCK_CONFIG),
      Brief(State, Exclusive, Release(Baselines, Shared, Maybe(Baselines, Exclusive, UNLOCK_CONFIG)))))))
  }

  function HandlePath(): Path {
    Take(Config, Shared, Brief(State, Exclusive, UNLOCK_CONFIG))
  }

  /** The one nested read: the guard the kill sequence runs under is still held
      where a failure reads the configuration again. */
  function KillPath(): Path {
    Take(Config, Shared, Or(Release(Config, Shared, Brief(Config, Shared, Done)),
      Brief(Config, Shared, Release(Config, Shared, Brief(Config, Shared, Done)))))
  }

  /** The startup line formats two fields, each behind a guard of its own. */
  function StartupPath(): Path {
    Take(Config, Shared, Take(Config, Shared, Release(Config, Shared, UNLOCK_CONFIG)))
  }

  function StatusPath(): Path {
    Brief(Config, Shared, Take(Config, Shared, Take(Baselines, Shared, Take(State, Exclusive,
      Release(State, Exclusive, Release(Baselines, Shared, UNLOCK_CONFIG))))))
  }

  /** The stretches of code between two points where the thread holds nothing.
      A brief hold of the state alone is the drain, an admission, the recording
      of a violation, and every handler that changes the state. */
  datatype Segment =
    | Startup | Touch | Consult | Rebaseline | Reload | Detect | Timer | Network | Pci | Decide | Kill | Status

  function PathOf(segment: Segment): Path {
    match segment
    case Startup => StartupPath()
    case Touch => Brief(State, Exclusive, Done)
    case Consult => Brief(Config, Shared, Done)
    case Rebaseline => CapturePath()
    case Reload => ReloadPath()
    case Detect => DetectPath()
    case Timer => TimerPath()
    case Network => NetworkPath()
    case Pci => PciPath()
    case Decide => HandlePath()
    case Kill => KillPath()
    case Status => StatusPath()
  }

  /** Every hold some route through the path takes. */
  function Taken(path: Path): set<Hold> {
    match path
    case Done => {}
    case Take(lock, mode, next) => {Hold(lock, mode)} + Taken(next)
    case Release(_, _, next) => Taken(next)
    case Or(one, other) => Taken(one) + Taken(other)
  }

  lemma GuardsTake(lock: Lock, mode: Mode, next: Path)
    ensures Taken(Brief(lock, mode, next)) == Taken(Maybe(lock, mode, next)) == {Hold(lock, mode)} + Taken(next)
  {
  }

  /** What each stretch of code takes: the configuration is written by a reload
      alone, the baselines by a capture, by a reload and by the checks that have a
      monitor mode. */
  lemma CapturesTake()
    ensures Taken(PathOf(Rebaseline)) == {Hold(Config, Shared), Hold(Baselines, Exclusive), Hold(State, Exclusive)}
    ensures Taken(PathOf(Reload)) == Taken(PathOf(Rebaseline)) + {Hold(Config, Exclusive)}
  {
    var end := Release(Baselines, Exclusive, UNLOCK_CONFIG);
    GuardsTake(State, Exclusive, end);
    GuardsTake(State, Exclusive, Maybe(State, Exclusive, end));
    GuardsTake(State, Exclusive, Maybe(State, Exclusive, Maybe(State, Exclusive, end)));
    GuardsTake(State, Exclusive, Maybe(State, Exclusive, Maybe(State, Exclusive, Maybe(State, Exclusive, end))));
    GuardsTake(Config, Exclusive, CapturePath());
    GuardsTake(State, Exclusive, Or(Done, Or(Done, Brief(Config, Exclusive, CapturePath()))));
  }

  lemma ChecksTake()
    ensures Taken(PathOf(Detect)) == {Hold(Config, Shared), Hold(Baselines, Shared), Hold(State, Exclusive)}
    ensures Taken(PathOf(Timer)) == Taken(PathOf(Detect)) + {Hold(Baselines, Exclusive)}
  {
    var end := Release(Baselines, Shared, UNLOCK_CONFIG);
    var write := Maybe(Baselines, Exclusive, UNLOCK_CONFIG);
    GuardsTake(State, Exclusive, end);
    GuardsTake(Baselines, Exclusive, UNLOCK_CONFIG);
    GuardsTake(State, Exclusive, write);
    GuardsTake(Baselines, Shared, Or(UNLOCK_CONFIG, Brief(State, Exclusive, write)));
  }

  lemma PortChecksTake()
    ensures Taken(PathOf(Network)) == Taken(PathOf(Pci))
            == {Hold(Config, Shared), Hold(Baselines, Shared), Hold(State, Exclusive), Hold(Baselines, Exclusive)}
  {
    var end := Release(Baselines, Shared, UNLOCK_CONFIG);
    var write := Maybe(Baselines, Exclusive, UNLOCK_CONFIG);
    GuardsTake(Baselines, Exclusive, UNLOCK_CONFIG);
    GuardsTake(State, Exclusive, end);
    GuardsTake(State, Exclusive, write);
    GuardsTake(State, Exclusive, Release(Baselines, Shared, write));
  }

  lemma OthersTake()
    ensures Taken(PathOf(Startup)) == Taken(PathOf(Consult)) == Taken(PathOf(Kill)) == {Hold(Config, Shared)}
    ensures Taken(PathOf(Touch)) == {Hold(State, Exclusive)}
    ensures Taken(PathOf(Decide)) == {Hold(Config, Shared), Hold(State, Exclusive)}
    ensures Taken(PathOf(Status)) == {Hold(Config, Shared), Hold(Baselines, Shared), Hold(State, Exclusive)}
  {
    GuardsTake(Config, Shared, Done);
    GuardsTake(State, Exclusive, Done);
    GuardsTake(State, Exclusive, UNLOCK_CONFIG);
    GuardsTake(Config, Shared, Release(Config, Shared, Brief(Config, Shared, Done)));
  }

  predicate Runs(kind: Kind, segment: Segment) {
    match kind
    case Poller => !segment.Status?
    case Handler => segment.Status? || segment.Touch? || segment.Consult?
  }

  // ----- the discipline ------------------------------------------------------------------------

  /** Locks are taken in order; the exception is a second shared hold of the
      configuration by the poll thread, the only thread that writes it. */
  predicate MayTake(kind: Kind, held: multiset<Hold>, lock: Lock, mode: Mode) {
    && (lock.Config? && mode.Exclusive? ==> kind.Poller?)
    && ((forall h :: h in held ==> Order(h.lock) < Order(lock))
        || (kind.Poller? && lock.Config? && mode.Shared? && forall h :: h in held ==> h == Hold(Config, Shared)))
  }

  predicate Disciplined(kind: Kind, held: multiset<Hold>, path: Path)
    decreases path
  {
    match path
    case Done => held == multiset{}
    case Take(lock, mode, next) =>
      MayTake(kind, held, lock, mode) && Disciplined(kind, held + multiset{Hold(lock, mode)}, next)
    case Release(lock, mode, next) =>
      Hold(lock, mode) in held && Disciplined(kind, held - multiset{Hold(lock, mode)}, next)
    case Or(one, other) => Disciplined(kind, held, one) && Disciplined(kind, held, other)
  }

  lemma GuardEnds(kind: Kind, held: multiset<Hold>, lock: Lock, mode: Mode, next: Path)
    requires MayTake(kind, held, lock, mode) && Disciplined(kind, held, next)
    ensures Disciplined(kind, held, Brief(lock, mode, next))
    ensures Disciplined(kind, held, Maybe(lock, mode, next))
  {
    assert held + multiset{Hold(lock, mode)} - multiset{Hold(lock, mode)} == held;
  }

  const C: multiset<Hold> := multiset{Hold(Config, Shared)}

  /** Under a shared hold of the configuration, in either mode of the rest. */
  lemma UnderConfig(kind: Kind)
    ensures Disciplined(kind, C, UNLOCK_CONFIG)
    ensures Disciplined(kind, C, Maybe(Baselines, Exclusive, UNLOCK_CONFIG))
    ensures Disciplined(kind, C, Brief(State, Exclusive, UNLOCK_CONFIG))
    ensures Disciplined(kind, C, Brief(State, Exclusive, Maybe(Baselines, Exclusive, UNLOCK_CONFIG)))
  {
    assert C - multiset{Hold(Config, Shared)} == multiset{};
    GuardEnds(kind, C, Baselines, Exclusive, UNLOCK_CONFIG);
    GuardEnds(kind, C, State, Exclusive, UNLOCK_CONFIG);
    GuardEnds(kind, C, State, Exclusive, Maybe(Baselines, Exclusive, UNLOCK_CONFIG));
  }

  lemma FromNothing(kind: Kind, next: Path)
    requires Disciplined(kind, C, next)
    ensures Disciplined(kind, multiset{}, Take(Config, Shared, next))
  {
    assert multiset{} + multiset{Hold(Config, Shared)} == C;
  }

  /** Taking the baselines on top, and letting them go before the rest. */
  lemma WithBaselines(kind: Kind, mode: Mode, next: Path)
    requires Disciplined(kind, C, next)
    ensures Disciplined(kind, C + multiset{Hold(Baselines, mode)}, Release(Baselines, mode, next))
    ensures Disciplined(kind, C + multiset{Hold(Baselines, mode)},
                        Brief(State, Exclusive, Release(Baselines, mode, next)))
  {
    var both := C + multiset{Hold(Baselines, mode)};
    assert both - multiset{Hold(Baselines, mode)} == C;
    GuardEnds(kind, both, State, Exclusive, Release(Baselines, mode, next));
  }

  lemma CaptureIsDisciplined(kind: Kind)
    ensures Disciplined(kind, multiset{}, CapturePath())
  {
    UnderConfig(kind);
    WithBaselines(kind, Exclusive, UNLOCK_CONFIG);
    var both := C + multiset{Hold(Baselines, Exclusive)};
    var end := Release(Baselines, Exclusive, UNLOCK_CONFIG);
    GuardEnds(kind, both, State, Exclusive, end);
    var one := Maybe(State, Exclusive, end);
    GuardEnds(kind, both, State, Exclusive, one);
    var two := Maybe(State, Exclusive, one);
    GuardEnds(kind, both, State, Exclusive, two);
    var three := Maybe(State, Exclusive, two);
    GuardEnds(kind, both, State, Exclusive, three);
    FromNothing(kind, Take(Baselines, Exclusive, Brief(State, Exclusive, three)));
  }

  lemma BranchesKeep(kind: Kind, held: multiset<Hold>, one: Path, other: Path)
    requires Disciplined(kind, held, one) && Disciplined(kind, held, other)
    ensures Disciplined(kind, held, Or(one, other))
  {
  }

  lemma OnTop(kind: Kind, mode: Mode, next: Path)
    requires Disciplined(kind, C + multiset{Hold(Baselines, mode)}, next)
    ensures Disciplined(kind, C, Take(Baselines, mode, next))
  {
  }

  lemma ReloadIsDisciplined(capture: Path)
    requires Disciplined(Poller, multiset{}, capture)
    ensures Disciplined(Poller, multiset{},
                        Brief(State, Exclusive, Or(Done, Or(Done, Brief(Config, Exclusive, capture)))))
  {
    var write := Brief(Config, Exclusive, capture);
    GuardEnds(Poller, multiset{}, Config, Exclusive, capture);
    BranchesKeep(Poller, multiset{}, Done, write);
    BranchesKeep(Poller, multiset{}, Done, Or(Done, write));
    GuardEnds(Poller, multiset{}, State, Exclusive, Or(Done, Or(Done, write)));
  }

  lemma DetectIsDisciplined(kind: Kind)
    ensures Disciplined(kind, multiset{}, DetectPath())
  {
  }

  lemma TimerIsDisciplined(kind: Kind, end: Path)
    requires end == UNLOCK_CONFIG
    ensures Disciplined(kind, multiset{},
              Take(Config, Shared,
                   Or(end, Brief(Baselines, Shared,
                                 Or(end, Brief(State, Exclusive, Maybe(Baselines, Exclusive, end)))))))
  {
    UnderConfig(kind);
    var tail := Or(end, Brief(State, Exclusive, Maybe(Baselines, Exclusive, end)));
    GuardEnds(kind, C, Baselines, Shared, tail);
    BranchesKeep(kind, C, end, Brief(Baselines, Shared, tail));
    FromNothing(kind, Or(end, Brief(Baselines, Shared, tail)));
  }

  lemma NetworkIsDisciplined(kind: Kind, end: Path, move: Path)
    requires end == UNLOCK_CONFIG && move == Brief(State, Exclusive, Maybe(Baselines, Exclusive, end))
    ensures Disciplined(kind, multiset{},
              Take(Config, Shared, Or(end, Take(Baselines, Shared, Or(Release(Baselines, Shared, end),
                Or(Brief(State, Exclusive, Release(Baselines, Shared, end)), Release(Baselines, Shared, move)))))))
  {
    UnderConfig(kind);
    WithBaselines(kind, Shared, end);
    WithBaselines(kind, Shared, move);
    var both := C + multiset{Hold(Baselines, Shared)};
    var quiet, act := Brief(State, Exclusive, Release(Baselines, Shared, end)), Release(Baselines, Shared, move);
    BranchesKeep(kind, both, quiet, act);
    BranchesKeep(kind, both, Release(Baselines, Shared, end), Or(quiet, act));
    var all := Or(Release(Baselines, Shared, end), Or(quiet, act));
    OnTop(kind, Shared, all);
    BranchesKeep(kind, C, end, Take(Baselines, Shared, all));
    FromNothing(kind, Or(end, Take(Baselines, Shared, all)));
  }

  lemma PciIsDisciplined(kind: Kind, end: Path)
    requires end == UNLOCK_CONFIG
    ensures Disciplined(kind, multiset{},
              Take(Config, Shared, Or(end, Take(Baselines, Shared, Or(Release(Baselines, Shared, end),
                Brief(State, Exclusive, Release(Baselines, Shared, Maybe(Baselines, Exclusive, end))))))))
  {
    UnderConfig(kind);
    WithBaselines(kind, Shared, end);
    WithBaselines(kind, Shared, Maybe(Baselines, Exclusive, end));
    var both := C + multiset{Hold(Baselines, Shared)};
    var check := Brief(State, Exclusive, Release(Baselines, Shared, Maybe(Baselines, Exclusive, end)));
    BranchesKeep(kind, both, Release(Baselines, Shared, end), check);
    var all := Or(Release(Baselines, Shared, end), check);
    OnTop(kind, Shared, all);
    BranchesKeep(kind, C, end, Take(Baselines, Shared, all));
    FromNothing(kind, Or(end, Take(Baselines, Shared, all)));
  }

  lemma KillIsDisciplined()
    ensures Disciplined(Poller, multiset{}, KillPath())
  {
  }

  lemma StartupIsDisciplined()
    ensures Disciplined(Poller, multiset{}, StartupPath())
  {
  }

  lemma StatusIsDisciplined(kind: Kind)
    ensures Disciplined(kind, multiset{}, StatusPath())
  {
  }

  /** Every path of the code keeps the discipline. */
  lemma CodeIsDisciplined(kind: Kind, segment: Segment)
    requires Runs(kind, segment)
    ensures Disciplined(kind, multiset{}, PathOf(segment))
  {
    match segment
    case Touch => GuardEnds(kind, multiset{}, State, Exclusive, Done);
    case Consult => GuardEnds(kind, multiset{}, Config, Shared, Done);
    case Rebaseline => CaptureIsDisciplined(kind);
    case Reload =>
      CaptureIsDisciplined(Poller);
      ReloadIsDisciplined(CapturePath());
    case Network => NetworkIsDisciplined(kind, UNLOCK_CONFIG,
                                         Brief(State, Exclusive, Maybe(Baselines, Exclusive, UNLOCK_CONFIG)));
    case Pci => PciIsDisciplined(kind, UNLOCK_CONFIG);
    case Kill => KillIsDisciplined();
    case Startup => StartupIsDisciplined();
    case Status => StatusIsDisciplined(kind);
    case Detect => DetectIsDisciplined(kind);
    case Decide =>
      UnderConfig(kind);
      FromNothing(kind, Brief(State, Exclusive, UNLOCK_CONFIG));
    case Timer => TimerIsDisciplined(kind, UNLOCK_CONFIG);
  }

  // ----- threads ----------------------------------------------------------------------------------

  datatype Thread = Thread(path: Path, held: multiset<Hold>)

  /** Thread 0 polls, the others handle connections. */
  function KindOf(t: nat): Kind {
    if t == 0 then Poller else Handler
  }

  predicate IsWaiting(th: Thread) {
    th.path.Take?
  }

  /** `u` holds what `t` is about to take, in a mode that excludes it. */
  predicate HoldsAgainst(threads: seq<Thread>, t: nat, u: nat)
    requires t < |threads| && u < |threads| && IsWaiting(threads[t])
  {
    exists mode :: Holds(threads[u], threads[t].path.lock, mode) && Conflict(threads[t].path.mode, mode)
  }

  predicate Holds(th: Thread, lock: Lock, mode: Mode) {
    Hold(lock, mode) in th.held
  }

  /** `t` waits for `u`: `u` holds the lock against it, or, where the lock
      prefers writers, `t` would read and `u` is waiting to write. */
  predicate WaitsFor(threads: seq<Thread>, t: nat, u: nat)
    requires t < |threads| && u < |threads|
  {
    && IsWaiting(threads[t])
    && (HoldsAgainst(threads, t, u)
        || (threads[t].path.mode.Shared? && IsWaiting(threads[u]) && threads[u].path.mode.Exclusive?
            && threads[u].path.lock == threads[t].path.lock))
  }

  /** Steps of one thread: begin a path, take a lock nobody holds against it,
      let one go, or branch. */
  ghost predicate Step(before: seq<Thread>, after: seq<Thread>, t: nat) {
    && t < |before| && |after| == |before|
    && after == before[t := after[t]]
    && var (a, b) := (before[t], after[t]);
       match a.path
       case Done => b.held == a.held && exists segment :: Runs(KindOf(t), segment) && b.path == PathOf(segment)
       case Take(lock, mode, next) =>
         b == Thread(next, a.held + multiset{Hold(lock, mode)}) && forall u: nat :: u < |before| ==>
               !HoldsAgainst(before, t, u)
       case Release(lock, mode, next) => b == Thread(next, a.held - multiset{Hold(lock, mode)})
       case Or(one, other) => (b.path == one || b.path == other) && b.held == a.held
  }

  ghost predicate AllDisciplined(threads: seq<Thread>) {
    forall t: nat {:trigger threads[t]} :: t < |threads| ==> Disciplined(KindOf(t), threads[t].held, threads[t].path)
  }

  /** No lock is held twice unless shared. */
  ghost predicate Excluded(threads: seq<Thread>) {
    forall t: nat, u: nat, lock, a, b {:trigger Holds(threads[t], lock, a), Holds(threads[u], lock, b)} ::
      t < |threads| && u < |threads| && t != u && Holds(threads[t], lock, a) && Holds(threads[u], lock, b) ==>
            !Conflict(a, b)
  }

  ghost predicate Safe(threads: seq<Thread>) {
    AllDisciplined(threads) && Excluded(threads)
  }

  lemma StepKeepsDiscipline(before: seq<Thread>, after: seq<Thread>, t: nat)
    requires AllDisciplined(before) && Step(before, after, t)
    ensures AllDisciplined(after)
  {
    if before[t].path.Done? {
      var segment :| Runs(KindOf(t), segment) && after[t].path == PathOf(segment);
      CodeIsDisciplined(KindOf(t), segment);
    }
  }

  lemma StepKeepsExclusion(before: seq<Thread>, after: seq<Thread>, t: nat)
    requires Excluded(before) && Step(before, after, t)
    ensures Excluded(after)
  {
    forall u: nat, lock, a, b | u < |before| && u != t && Holds(after[t], lock, a) && Holds(after[u], lock, b)
      ensures !Conflict(a, b)
    {
      assert Holds(before[u], lock, b);
      if !Holds(before[t], lock, a) {
        assert !HoldsAgainst(before, t, u);
      }
    }
  }

  ghost predicate IsRun(run: seq<seq<Thread>>) {
    && run != []
    && (forall t: nat :: t < |run[0]| ==> run[0][t] == Thread(Done, multiset{}))
    && forall i {:trigger StepAt(run, i)} :: 0 <= i < |run| - 1 ==> StepAt(run, i)
  }

  ghost predicate StepAt(run: seq<seq<Thread>>, i: nat)
    requires i + 1 < |run|
  {
    SomeStep(run[i], run[i + 1])
  }

  ghost predicate SomeStep(before: seq<Thread>, after: seq<Thread>) {
    exists t: nat {:trigger Step(before, after, t)} :: Step(before, after, t)
  }

  /** In every state of every run each thread keeps the order, and no lock is
      held by two threads unless both share it. */
  lemma {:induction false} RunsAreSafe(run: seq<seq<Thread>>, i: nat)
    requires IsRun(run) && i < |run|
    ensures Safe(run[i])
  {
    if i > 0 {
      RunsAreSafe(run, i - 1);
      assert StepAt(run, i - 1);
      var t: nat :| Step(run[i - 1], run[i], t);
      StepKeepsDiscipline(run[i - 1], run[i], t);
      StepKeepsExclusion(run[i - 1], run[i], t);
    }
  }

  /** A writer is alone: while one thread holds a lock for writing no other holds
      it at all, and only thread 0, the poll thread, ever holds the configuration
      so. */
  lemma WritersAreAlone(run: seq<seq<Thread>>, i: nat, t: nat, u: nat, lock: Lock)
    requires IsRun(run) && i < |run| && t < |run[i]| && u < |run[i]| && t != u
    ensures Hold(lock, Exclusive) in run[i][t].held ==>
              Hold(lock, Exclusive) !in run[i][u].held && Hold(lock, Shared) !in run[i][u].held
    ensures t > 0 && run[i][t].path.Take? && run[i][t].path.lock.Config? ==> run[i][t].path.mode.Shared?
  {
    RunsAreSafe(run, i);
    var a, b := run[i][t], run[i][u];
    if Hold(lock, Exclusive) in a.held {
      assert Holds(a, lock, Exclusive);
      assert !Holds(b, lock, Exclusive) && !Holds(b, lock, Shared);
    }
  }

  /** The order in plain words: under the state lock nothing more is taken, under
      the baselines only the state, and under the configuration not the
      configuration, except by the poll thread to read. */
  lemma TakenInOrder(run: seq<seq<Thread>>, i: nat, t: nat, lock: Lock, mode: Mode)
    requires IsRun(run) && i < |run| && t < |run[i]| && run[i][t].path.Take? && Hold(lock, mode) in run[i][t].held
    ensures var next := run[i][t].path;
            && !lock.State?
            && (lock.Baselines? ==> next.lock.State?)
            && (lock.Config? && next.lock.Config? ==> t == 0 && next.mode.Shared? && mode.Shared?)
  {
    RunsAreSafe(run, i);
  }

  // ----- no deadlock --------------------------------------------------------------------------------

  function Rank(th: Thread): nat
    requires IsWaiting(th)
  {
    2 * Order(th.path.lock) + if th.path.mode.Exclusive? then 1 else 0
  }

  /** Waiting only ever points up the ranks. */
  lemma WaitingClimbs(threads: seq<Thread>, t: nat, u: nat)
    requires Safe(threads) && t < |threads| && u < |threads|
    requires WaitsFor(threads, t, u) && IsWaiting(threads[u])
    ensures Rank(threads[t]) < Rank(threads[u])
  {
  }

  /** A chain of threads, each waiting for the next. */
  ghost predicate IsWaitChain(threads: seq<Thread>, chain: seq<nat>) {
    && chain != []
    && (forall k :: 0 <= k < |chain| ==> chain[k] < |threads|)
    && forall k {:trigger IsLink(threads, chain, k)} :: 0 <= k < |chain| - 1 ==> IsLink(threads, chain, k)
  }

  ghost predicate IsLink(threads: seq<Thread>, chain: seq<nat>, k: nat)
    requires k + 1 < |chain| && chain[k] < |threads| && chain[k + 1] < |threads|
  {
    WaitsFor(threads, chain[k], chain[k + 1])
  }

  lemma {:induction false} ChainsClimb(threads: seq<Thread>, chain: seq<nat>)
    requires Safe(threads) && IsWaitChain(threads, chain) && IsWaiting(threads[chain[|chain| - 1]])
    ensures IsWaiting(threads[chain[0]])
    ensures Rank(threads[chain[0]]) + |chain| - 1 <= Rank(threads[chain[|chain| - 1]])
  {
    if |chain| > 1 {
      var n := |chain| - 1;
      assert IsLink(threads, chain, n - 1);
      WaitingClimbs(threads, chain[n - 1], chain[n]);
      forall k: nat | k < n - 1 ensures IsLink(threads, chain[..n], k) {
        assert IsLink(threads, chain, k);
      }
      ChainsClimb(threads, chain[..n]);
    }
  }

  /** No reachable state has a cycle of threads waiting for each other, and no
      thread waits for a lock it holds itself. */
  lemma NoWaitCycle(run: seq<seq<Thread>>, i: nat, chain: seq<nat>)
    requires IsRun(run) && i < |run| && IsWaitChain(run[i], chain) && |chain| > 1
    ensures chain[0] != chain[|chain| - 1]
  {
    RunsAreSafe(run, i);
    if chain[0] == chain[|chain| - 1] {
      assert IsLink(run[i], chain, 0);
      ChainsClimb(run[i], chain);
    }
  }

  /** Whether the thread has something to do and nothing in its way, writers
      first. */
  ghost predicate CanMove(threads: seq<Thread>, t: nat)
    requires t < |threads|
  {
    !threads[t].path.Done? && forall u: nat :: u < |threads| ==> !WaitsFor(threads, t, u)
  }

  /** The waiting thread of highest rank. */
  lemma {:induction false} Highest(threads: seq<Thread>, n: nat, t: nat) returns (top: nat)
    requires t < n <= |threads| && IsWaiting(threads[t])
    ensures top < n && IsWaiting(threads[top])
    ensures forall u: nat :: u < n && IsWaiting(threads[u]) ==> Rank(threads[u]) <= Rank(threads[top])
  {
    if t < n - 1 {
      top := Highest(threads, n - 1, t);
      if IsWaiting(threads[n - 1]) && Rank(threads[n - 1]) > Rank(threads[top]) {
        top := n - 1;
      }
    } else if u: nat :| u < n - 1 && IsWaiting(threads[u]) {
      top := Highest(threads, n - 1, u);
      if Rank(threads[t]) > Rank(threads[top]) {
        top := t;
      }
    } else {
      top := t;
    }
  }

  /** The daemon never locks up: in every reachable state where some thread is
      in the middle of a path, some thread can move. */
  lemma SomeThreadCanMove(run: seq<seq<Thread>>, i: nat, busy: nat)
    requires IsRun(run) && i < |run| && busy < |run[i]| && !run[i][busy].path.Done?
    ensures exists t: nat :: t < |run[i]| && CanMove(run[i], t)
  {
    var threads := run[i];
    RunsAreSafe(run, i);
    if t: nat :| t < |threads| && !threads[t].path.Done? && !IsWaiting(threads[t]) {
      assert CanMove(threads, t);
    } else {
      var top := Highest(threads, |threads|, busy);
      forall u: nat | u < |threads| ensures !WaitsFor(threads, top, u) {
        if WaitsFor(threads, top, u) {
          HolderIsBusy(threads, top, u);
          WaitingClimbs(threads, top, u);
        }
      }
      assert CanMove(threads, top);
    }
  }

  lemma HolderIsBusy(threads: seq<Thread>, t: nat, u: nat)
    requires Safe(threads) && t < |threads| && u < |threads| && WaitsFor(threads, t, u)
    ensures !threads[u].path.Done?
  {
  }
}
