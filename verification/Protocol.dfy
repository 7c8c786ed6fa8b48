/** Many partitions, one kill flag, one timer: `check_parallel`, `spawn_timer`, `cancel` and
    `to_check_result` as an interleaved step system. Every load and every store of a shared flag is
    a step of its own, except inside the timer's critical section and after it is closed for good. */
module Protocol {

  datatype CheckResult = Ok | Illegal | Unknown

  // What `check_single` may answer: `linearizable` is the truth about its partition, and `quiet`
  // says that none of its loads of the kill flag saw true.
  predicate Answers(linearizable: bool, ok: bool, quiet: bool) {
    (ok ==> linearizable) && (!ok && quiet ==> !linearizable)
  }

  function ToCheckResult(ok: bool, timedOut: bool, definitiveIllegal: bool): CheckResult {
    if !ok && definitiveIllegal then Illegal
    else if timedOut then Unknown
    else if ok then Ok
    else Illegal
  }

  // How `check_parallel` dispatches: one partition, in order on this thread, or on the thread pool.
  datatype Path = Single | Sequential | Pool

  // A fixed problem: which partitions are linearizable, how they are run, and whether there is a timer.
  datatype Config = Config(linearizable: seq<bool>, path: Path, timed: bool)

  predicate Proper(c: Config) {
    c.path == Single ==> |c.linearizable| == 1
  }

  datatype Worker =
    | Idle                        // not started
    | Running                     // inside check_single
    | Failed                      // check_single returned false
    | Convicting                  // then saw kill unset, about to store definitive_illegal
    | Stopping                    // about to store kill
    | Found                       // done, reports !ok
    | Passed                      // done, check_single returned true
    | Skipped                     // saw kill at the start, reports "not illegal"
    | Dropped                     // never started, because another worker already found !ok

  datatype Timer =
    | Absent
    | Waiting                     // asleep, or woken and not yet holding the mutex
    | Firing                      // holding the mutex, timed_out stored, kill not yet
    | Gone

  datatype Main = Working | Joined(ok: bool) | Cancelled(ok: bool) | Reported(verdict: CheckResult)

  datatype State = State(
    kill: bool, timedOut: bool, definitive: bool, cancel: bool,
    timer: Timer, workers: seq<Worker>, main: Main)

  datatype Action =
    | Start(i: nat)
    | Skip(i: nat)
    | Drop(i: nat)
    | Finish(i: nat, ok: bool, quiet: bool)
    | Inspect(i: nat)
    | Convict(i: nat)
    | Stop(i: nat)
    | TimerFire
    | TimerKill
    | TimerExit
    | Join
    | Cancel
    | Report

  predicate AllIdle(workers: seq<Worker>) {
    forall i :: 0 <= i < |workers| ==> workers[i] == Idle
  }

  predicate Init(c: Config, s: State) {
    && !s.kill && !s.timedOut && !s.definitive && !s.cancel
    && s.timer == (if c.timed then Waiting else Absent)
    && |s.workers| == |c.linearizable| && AllIdle(s.workers)
    && s.main == Working
  }

  // Is it partition i's turn? On the pool always; otherwise when all before it have passed.
  predicate Turn(c: Config, s: State, i: nat)
    requires i < |s.workers|
  {
    c.path == Pool || forall j :: 0 <= j < i ==> s.workers[j] == Passed
  }

  predicate Finished(w: Worker) {
    w == Found || w == Passed || w == Skipped || w == Dropped
  }

  predicate Any(s: State, w: Worker) {
    exists i :: 0 <= i < |s.workers| && s.workers[i] == w
  }

  predicate AllFinished(s: State) {
    forall i :: 0 <= i < |s.workers| ==> Finished(s.workers[i])
  }

  // Has `check_parallel` its answer, and which?
  predicate MayJoin(c: Config, s: State) {
    if c.path == Pool then AllFinished(s)
    else Any(s, Found) || Any(s, Skipped) || AllFinished(s)
  }

  predicate JoinOk(c: Config, s: State) {
    !Any(s, Found) && (c.path != Pool ==> !Any(s, Skipped))
  }

  function Moved(s: State, i: nat, w: Worker): State
    requires i < |s.workers|
  {
    s.(workers := s.workers[i := w])
  }

  // While the main thread waits, worker i exists and is at w.
  predicate WorkerIs(s: State, i: nat, w: Worker) {
    s.main == Working && i < |s.workers| && s.workers[i] == w
  }

  predicate MayAct(c: Config, s: State, a: Action) {
    match a
    case Start(i) => WorkerIs(s, i, Idle) && Turn(c, s, i) && (c.path == Single || !s.kill)
    case Skip(i) => WorkerIs(s, i, Idle) && Turn(c, s, i) && c.path != Single && s.kill
    case Drop(i) => WorkerIs(s, i, Idle) && c.path == Pool && Any(s, Found)
    case Finish(i, ok, quiet) =>
      && WorkerIs(s, i, Running) && i < |c.linearizable|
      && Answers(c.linearizable[i], ok, quiet) && (!quiet ==> !ok && s.kill)
    case Inspect(i) => WorkerIs(s, i, Failed)
    case Convict(i) => WorkerIs(s, i, Convicting)
    case Stop(i) => WorkerIs(s, i, Stopping)
    case TimerFire => s.timer == Waiting && !s.cancel
    case TimerKill => s.timer == Firing
    case TimerExit => s.timer == Waiting && s.cancel
    case Join => s.main == Working && MayJoin(c, s)
    case Cancel => s.main.Joined? && s.timer != Firing
    case Report => s.main.Cancelled?
  }

  function Act(c: Config, s: State, a: Action): State
    requires MayAct(c, s, a)
  {
    match a
    case Start(i) => Moved(s, i, Running)
    case Skip(i) => Moved(s, i, Skipped)
    case Drop(i) => Moved(s, i, Dropped)
    case Finish(i, ok, quiet) => Moved(s, i, if ok then Passed else Failed)
    case Inspect(i) => Moved(s, i, if s.kill then Stopping else Convicting)
    case Convict(i) => Moved(s, i, Stopping).(definitive := true)
    case Stop(i) => Moved(s, i, Found).(kill := true)
    case TimerFire => s.(timedOut := true, timer := Firing)
    case TimerKill => s.(kill := true, timer := Gone)
    case TimerExit => s.(timer := Gone)
    case Join => s.(main := Joined(JoinOk(c, s)))
    case Cancel => s.(cancel := s.timer != Absent, main := Cancelled(s.main.ok))
    case Report => s.(main := Reported(ToCheckResult(s.main.ok, s.timedOut, s.definitive)))
  }

  // A run from the start: the actions taken, and the state after them.
  ghost predicate Reaches(c: Config, actions: seq<Action>, s: State) {
    if actions == [] then Init(c, s)
    else
      var n := |actions| - 1;
      exists before ::
        Reaches(c, actions[..n], before) && MayAct(c, before, actions[n]) && Act(c, before, actions[n]) == s
  }

  // ----- what every step keeps -----

  ghost predicate WorkerOk(c: Config, s: State, i: nat)
    requires i < |s.workers| && i < |c.linearizable|
  {
    match s.workers[i]
    case Failed => s.kill || !c.linearizable[i]
    case Convicting => !c.linearizable[i]
    case Stopping => s.kill || s.definitive
    case Found => s.kill
    case Passed => c.linearizable[i]
    case Skipped => s.kill && c.path != Single
    case Dropped => c.path == Pool && Any(s, Found)
    case _ => true
  }

  // Worker i proved its partition not linearizable, and says or has said so.
  ghost predicate Convicts(c: Config, s: State, i: nat) {
    && i < |s.workers| && i < |c.linearizable| && !c.linearizable[i]
    && (s.workers[i] == Stopping || s.workers[i] == Found)
  }

  ghost predicate MainOk(c: Config, s: State) {
    match s.main
    case Working => !s.cancel
    case Joined(ok) => !s.cancel && JoinedOk(c, s, ok)
    case Cancelled(ok) => JoinedOk(c, s, ok) && TimerClosed(s)
    case Reported(verdict) =>
      TimerClosed(s) && exists ok :: JoinedOk(c, s, ok) && verdict == ToCheckResult(ok, s.timedOut, s.definitive)
  }

  // The timer can store nothing any more.
  ghost predicate TimerClosed(s: State) {
    s.timer != Firing && (s.timer == Waiting ==> s.cancel)
  }

  ghost predicate JoinedOk(c: Config, s: State, ok: bool) {
    MayJoin(c, s) && ok == JoinOk(c, s)
  }

  // Off the pool, whoever has started comes after partitions that have all passed.
  ghost predicate InTurn(c: Config, s: State) {
    c.path == Pool || forall j, k :: 0 <= k < j < |s.workers| && s.workers[j] != Idle ==> s.workers[k] == Passed
  }

  ghost predicate Inv(c: Config, s: State) {
    && |s.workers| == |c.linearizable|
    && (forall i :: 0 <= i < |s.workers| ==> WorkerOk(c, s, i))
    && (s.kill ==> s.definitive || s.timedOut)
    && (s.definitive ==> exists i :: Convicts(c, s, i))
    && (s.timedOut ==> c.timed && (s.timer == Firing || s.timer == Gone))
    && (s.timer == Firing ==> s.timedOut && !s.cancel)
    && (s.timer == Gone && s.timedOut ==> s.kill)
    && InTurn(c, s)
    && (s.timer == Absent <==> !c.timed)
    && MainOk(c, s)
  }

  lemma InitInv(c: Config, s: State)
    requires Init(c, s)
    ensures Inv(c, s)
  {
  }

  // Moving one worker leaves the facts about the others alone, unless it was the one that Found.
  lemma MovedOk(c: Config, s: State, i: nat, w: Worker, t: State)
    requires Inv(c, s) && i < |s.workers| && s.workers[i] != Found
    requires t.workers == s.workers[i := w] && (s.kill ==> t.kill) && (s.definitive ==> t.definitive)
    ensures forall j :: 0 <= j < |t.workers| && j != i ==> WorkerOk(c, t, j)
  {
    if Any(s, Found) {
      var k :| 0 <= k < |s.workers| && s.workers[k] == Found;
      assert t.workers[k] == Found;
    }
    forall j | 0 <= j < |t.workers| && j != i
      ensures WorkerOk(c, t, j)
    {
      assert WorkerOk(c, s, j);
    }
  }

  lemma TurnKept(c: Config, s: State, i: nat, w: Worker, t: State)
    requires InTurn(c, s) && i < |s.workers| && t.workers == s.workers[i := w]
    requires s.workers[i] != Passed && (s.workers[i] != Idle || Turn(c, s, i))
    ensures InTurn(c, t)
  {
    forall j, k | c.path != Pool && 0 <= k < j < |t.workers| && t.workers[j] != Idle
      ensures t.workers[k] == Passed
    {
      assert j != i ==> s.workers[k] == Passed;
    }
  }

  lemma WorkerStepInv(c: Config, s: State, a: Action)
    requires Inv(c, s) && MayAct(c, s, a)
    requires a.Start? || a.Skip? || a.Drop? || a.Finish? || a.Inspect? || a.Convict? || a.Stop?
    ensures Inv(c, Act(c, s, a))
  {
    var i, t := a.i, Act(c, s, a);
    assert WorkerOk(c, s, i);
    MovedOk(c, s, i, t.workers[i], t);
    TurnKept(c, s, i, t.workers[i], t);
    if a.Drop? {
      var k :| 0 <= k < |s.workers| && s.workers[k] == Found;
      assert t.workers[k] == Found;
    }
    assert WorkerOk(c, t, i);
    if a.Convict? {
      assert Convicts(c, t, i);
    } else if s.definitive {
      var k :| 0 <= k < |s.workers| && Convicts(c, s, k);
      assert Convicts(c, t, k);
    }
  }

  // A step that leaves the workers alone and unsets nothing keeps what is known about them.
  lemma WorkersOk(c: Config, s: State, t: State)
    requires Inv(c, s) && t.workers == s.workers
    requires (s.kill ==> t.kill) && (s.definitive ==> t.definitive) && (t.definitive ==> s.definitive)
    ensures forall i :: 0 <= i < |t.workers| ==> WorkerOk(c, t, i)
    ensures t.definitive ==> exists i :: 0 <= i < |t.workers| && Convicts(c, t, i)
    ensures forall ok :: JoinedOk(c, s, ok) <==> JoinedOk(c, t, ok)
  {
    SameWorkers(c, s, t);
    forall i | 0 <= i < |t.workers|
      ensures WorkerOk(c, t, i)
    {
      assert WorkerOk(c, s, i);
    }
    if s.definitive {
      var k :| 0 <= k < |s.workers| && Convicts(c, s, k);
      assert Convicts(c, t, k);
    }
  }

  lemma TimerStepInv(c: Config, s: State, a: Action)
    requires Inv(c, s) && MayAct(c, s, a)
    requires a.TimerFire? || a.TimerKill? || a.TimerExit?
    ensures Inv(c, Act(c, s, a))
  {
    WorkersOk(c, s, Act(c, s, a));
  }

  lemma MainStepInv(c: Config, s: State, a: Action)
    requires Inv(c, s) && MayAct(c, s, a)
    requires a.Join? || a.Cancel? || a.Report?
    ensures Inv(c, Act(c, s, a))
  {
    var t := Act(c, s, a);
    WorkersOk(c, s, t);
    if a.Report? { assert JoinedOk(c, t, s.main.ok); }
  }

  lemma SameWorkers(c: Config, s: State, t: State)
    requires s.workers == t.workers
    ensures forall w :: Any(s, w) == Any(t, w)
    ensures MayJoin(c, t) == MayJoin(c, s) && JoinOk(c, t) == JoinOk(c, s)
  {
  }

  lemma {:induction false} ReachableInv(c: Config, actions: seq<Action>, s: State)
    requires Reaches(c, actions, s)
    ensures Inv(c, s)
    decreases |actions|
  {
    if actions == [] {
      InitInv(c, s);
    } else {
      var n := |actions| - 1;
      var before :|
        Reaches(c, actions[..n], before) && MayAct(c, before, actions[n]) && Act(c, before, actions[n]) == s;
      ReachableInv(c, actions[..n], before);
      StepInv(c, before, actions[n]);
    }
  }

  lemma StepInv(c: Config, s: State, a: Action)
    requires Inv(c, s) && MayAct(c, s, a)
    ensures Inv(c, Act(c, s, a))
  {
    if a.Start? || a.Skip? || a.Drop? || a.Finish? || a.Inspect? || a.Convict? || a.Stop? {
      WorkerStepInv(c, s, a);
    } else if a.TimerFire? || a.TimerKill? || a.TimerExit? {
      TimerStepInv(c, s, a);
    } else {
      MainStepInv(c, s, a);
    }
  }

  // ----- the verdict -----

  // After the join, "not ok" always has a cause on record: the last branch of `to_check_result` is dead.
  lemma NotOkHasCause(c: Config, actions: seq<Action>, s: State)
    requires Proper(c) && Reaches(c, actions, s)
    ensures (s.main.Joined? || s.main.Cancelled?) && !s.main.ok ==> s.definitive || s.timedOut
    ensures s.main.Reported? && s.main.verdict == Illegal ==> s.definitive
  {
    ReachableInv(c, actions, s);
    forall ok | JoinedOk(c, s, ok) && !ok
      ensures s.definitive || s.timedOut
    {
      var k :| 0 <= k < |s.workers| && (s.workers[k] == Found || s.workers[k] == Skipped);
      assert WorkerOk(c, s, k);
    }
  }

  // What the join says. In order, a partition that was not searched counts as a failure; on the pool it
  // does not.
  lemma JoinMeans(c: Config, actions: seq<Action>, s: State)
    requires Reaches(c, actions, s) && (s.main.Joined? || s.main.Cancelled?)
    ensures s.main.ok <==> forall i :: 0 <= i < |s.workers| ==>
              s.workers[i] == Passed || (c.path == Pool && s.workers[i] == Skipped)
  {
    ReachableInv(c, actions, s);
    assert JoinedOk(c, s, s.main.ok);
    forall i | 0 <= i < |s.workers| && s.workers[i] == Dropped
      ensures !s.main.ok
    {
      assert WorkerOk(c, s, i);
    }
    if s.main.ok {
      assert forall i :: 0 <= i < |s.workers| ==> Finished(s.workers[i]);
    }
  }

  // Once the mutex has been taken by `cancel`, no flag changes: reading them together is reading
  // them one after the other.
  lemma FlagsSettled(c: Config, actions: seq<Action>, s: State, a: Action)
    requires Reaches(c, actions, s) && (s.main.Cancelled? || s.main.Reported?) && MayAct(c, s, a)
    ensures var t := Act(c, s, a);
            t.kill == s.kill && t.timedOut == s.timedOut && t.definitive == s.definitive
  {
    ReachableInv(c, actions, s);
  }

  // Over every interleaving: Ok means every partition is linearizable, Illegal means some partition
  // is not, and Unknown means the timer fired. A definitive finding always wins over the timer, and
  // the timer over Ok.
  lemma VerdictIsRight(c: Config, actions: seq<Action>, s: State)
    requires Proper(c) && Reaches(c, actions, s) && s.main.Reported?
    ensures s.main.verdict == Ok ==> forall i :: 0 <= i < |c.linearizable| ==> c.linearizable[i]
    ensures s.main.verdict == Illegal ==> exists i :: 0 <= i < |c.linearizable| && !c.linearizable[i]
    ensures s.main.verdict == Unknown ==> c.timed && s.timedOut
    ensures s.main.verdict == if s.definitive then Illegal else if s.timedOut then Unknown else Ok
  {
    ReachableInv(c, actions, s);
    NotOkHasCause(c, actions, s);
    var ok :| JoinedOk(c, s, ok) && s.main.verdict == ToCheckResult(ok, s.timedOut, s.definitive);
    if s.definitive {
      var k :| 0 <= k < |s.workers| && Convicts(c, s, k);
      ConvictionIsReported(c, s, k);
    }
    if s.main.verdict == Ok {
      OkMeansPassed(c, s);
    }
  }

  // A partition proved not linearizable is reported as such: its worker does not get lost at the join.
  lemma ConvictionIsReported(c: Config, s: State, k: nat)
    requires Inv(c, s) && MayJoin(c, s) && Convicts(c, s, k)
    ensures !JoinOk(c, s)
  {
    if c.path == Pool || AllFinished(s) {
      assert Finished(s.workers[k]);
    } else {
      var j :| 0 <= j < |s.workers| && (s.workers[j] == Found || s.workers[j] == Skipped);
      assert j < k ==> s.workers[j] == Passed;
      assert k < j ==> s.workers[k] == Passed;
    }
  }

  lemma OkMeansPassed(c: Config, s: State)
    requires Proper(c) && Inv(c, s) && JoinedOk(c, s, true) && !s.timedOut
    ensures forall i :: 0 <= i < |c.linearizable| ==> c.linearizable[i]
  {
    forall k | 0 <= k < |s.workers|
      ensures !Convicts(c, s, k)
    {
      assert Finished(s.workers[k]);
    }
    assert !s.kill;
    forall i | 0 <= i < |c.linearizable|
      ensures c.linearizable[i]
    {
      assert WorkerOk(c, s, i);
    }
  }

  // Without a timer the verdict is a function of the partitions: the schedule, the dispatch path
  // and the order of the partitions make no difference.
  lemma UntimedVerdict(c: Config, actions: seq<Action>, s: State)
    requires Proper(c) && Reaches(c, actions, s) && s.main.Reported? && !c.timed
    ensures s.main.verdict == if forall i :: 0 <= i < |c.linearizable| ==> c.linearizable[i] then Ok else Illegal
  {
    VerdictIsRight(c, actions, s);
  }

  lemma ScheduleIndependence(
      c: Config, actions: seq<Action>, s: State, c': Config, actions': seq<Action>, s': State)
    requires Proper(c) && Reaches(c, actions, s) && s.main.Reported?
    requires Proper(c') && Reaches(c', actions', s') && s'.main.Reported?
    requires multiset(c.linearizable) == multiset(c'.linearizable)
    requires !s.timedOut && !s'.timedOut
    ensures s.main.verdict == s'.main.verdict
  {
    VerdictIsRight(c, actions, s);
    VerdictIsRight(c', actions', s');
    assert (false in c.linearizable) == (false in multiset(c.linearizable));
    assert (false in c'.linearizable) == (false in multiset(c'.linearizable));
  }

  // ----- every run ends, and ends with a verdict -----

  function WorkerRank(w: Worker): nat {
    match w
    case Idle => 5
    case Running => 4
    case Failed => 3
    case Convicting => 2
    case Stopping => 1
    case _ => 0
  }

  function WorkersRank(workers: seq<Worker>): nat {
    if workers == [] then 0 else WorkersRank(workers[..|workers| - 1]) + WorkerRank(workers[|workers| - 1])
  }

  function Remaining(s: State): nat {
    WorkersRank(s.workers)
    + (match s.timer case Waiting => 2 case Firing => 1 case _ => 0)
    + (match s.main case Working => 3 case Joined(_) => 2 case Cancelled(_) => 1 case Reported(_) => 0)
  }

  lemma {:induction false} WorkersRankUpdate(workers: seq<Worker>, i: nat, w: Worker)
    requires i < |workers|
    ensures WorkersRank(workers[i := w]) == WorkersRank(workers) - WorkerRank(workers[i]) + WorkerRank(w)
  {
    var n := |workers| - 1;
    if i == n {
      assert workers[i := w][..n] == workers[..n];
    } else {
      assert workers[i := w][..n] == workers[..n][i := w];
      WorkersRankUpdate(workers[..n], i, w);
    }
  }

  lemma StepDecreases(c: Config, s: State, a: Action)
    requires MayAct(c, s, a)
    ensures Remaining(Act(c, s, a)) < Remaining(s)
  {
    if a.Start? || a.Skip? || a.Drop? || a.Finish? || a.Inspect? || a.Convict? || a.Stop? {
      WorkersRankUpdate(s.workers, a.i, Act(c, s, a).workers[a.i]);
    }
  }

  lemma {:induction false} IdleRank(workers: seq<Worker>)
    requires AllIdle(workers)
    ensures WorkersRank(workers) == 5 * |workers|
  {
    if workers != [] { IdleRank(workers[..|workers| - 1]); }
  }

  // No schedule goes on for ever.
  lemma {:induction false} RunsAreBounded(c: Config, actions: seq<Action>, s: State)
    requires Reaches(c, actions, s)
    ensures |actions| + Remaining(s) <= 5 * |c.linearizable| + 5
    decreases |actions|
  {
    if actions == [] {
      IdleRank(s.workers);
    } else {
      var n := |actions| - 1;
      var before :|
        Reaches(c, actions[..n], before) && MayAct(c, before, actions[n]) && Act(c, before, actions[n]) == s;
      RunsAreBounded(c, actions[..n], before);
      StepDecreases(c, before, actions[n]);
    }
  }

  lemma {:induction false} FirstUnfinished(workers: seq<Worker>, n: nat) returns (i: nat)
    requires n < |workers| && !Finished(workers[n])
    ensures i <= n && !Finished(workers[i]) && forall j :: 0 <= j < i ==> Finished(workers[j])
    decreases n
  {
    i := n;
    if k :| 0 <= k < n && !Finished(workers[k]) {
      i := FirstUnfinished(workers, k);
    }
  }

  lemma UnfinishedCanAct(c: Config, s: State, i: nat) returns (a: Action)
    requires Inv(c, s) && s.main == Working && i < |s.workers| && !Finished(s.workers[i]) && Turn(c, s, i)
    ensures MayAct(c, s, a) && !a.TimerFire?
  {
    a := match s.workers[i]
         case Idle => if c.path == Single || !s.kill then Start(i) else Skip(i)
         case Running => Finish(i, c.linearizable[i], true)
         case Failed => Inspect(i)
         case Convicting => Convict(i)
         case _ => Stop(i);
  }

  // The verdict is out, and the timer thread, if there was one, is gone.
  predicate Over(s: State) {
    s.main.Reported? && (s.timer == Absent || s.timer == Gone)
  }

  // Nobody has to wait for the timer to fire: until everything is over, somebody else can go on.
  lemma NeverStuck(c: Config, actions: seq<Action>, s: State) returns (a: Action)
    requires Reaches(c, actions, s) && !Over(s)
    ensures MayAct(c, s, a) && !a.TimerFire?
  {
    ReachableInv(c, actions, s);
    if s.main == Working {
      if MayJoin(c, s) {
        a := Join;
      } else {
        var i := NextInTurn(c, s);
        a := UnfinishedCanAct(c, s, i);
      }
    } else if s.main.Joined? {
      a := if s.timer == Firing then TimerKill else Cancel;
    } else if s.main.Cancelled? {
      a := Report;
    } else {
      a := TimerExit;
    }
  }

  // As long as the main thread has to wait, it is some unfinished partition's turn.
  lemma NextInTurn(c: Config, s: State) returns (i: nat)
    requires Inv(c, s) && !MayJoin(c, s)
    ensures i < |s.workers| && !Finished(s.workers[i]) && Turn(c, s, i)
  {
    var n :| 0 <= n < |s.workers| && !Finished(s.workers[n]);
    i := FirstUnfinished(s.workers, n);
    forall j | 0 <= j < i && c.path != Pool
      ensures s.workers[j] == Passed
    {
      assert WorkerOk(c, s, j);
    }
  }

  // Off the pool nothing behind a failure is ever started.
  lemma FailureStopsTheRest(c: Config, actions: seq<Action>, s: State, i: nat)
    requires Reaches(c, actions, s) && c.path != Pool && i < |s.workers|
    requires s.workers[i] == Found || s.workers[i] == Skipped
    ensures forall j :: i < j < |s.workers| ==> s.workers[j] == Idle
    ensures forall j :: 0 <= j < i ==> s.workers[j] == Passed
  {
    ReachableInv(c, actions, s);
  }
}
