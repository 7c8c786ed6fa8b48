/** What can happen: every verdict the protocol allows is reported by some schedule. */
module Outcomes {
  import opened Protocol

  // Taking `more` from s leads to t.
  ghost predicate Leads(c: Config, s: State, more: seq<Action>, t: State)
    decreases |more|
  {
    if more == [] then t == s
    else MayAct(c, s, more[0]) && Leads(c, Act(c, s, more[0]), more[1..], t)
  }

  // Some schedule goes on from s to report v.
  ghost predicate CanReport(c: Config, s: State, v: CheckResult) {
    exists more, t :: Leads(c, s, more, t) && t.main == Reported(v)
  }

  // Some schedule reports v.
  ghost predicate Reports(c: Config, v: CheckResult) {
    exists actions, s :: Reaches(c, actions, s) && s.main == Reported(v)
  }

  lemma Onward(c: Config, actions: seq<Action>, s: State, a: Action)
    requires Reaches(c, actions, s) && MayAct(c, s, a)
    ensures Reaches(c, actions + [a], Act(c, s, a))
  {
    var longer := actions + [a];
    assert longer[..|longer| - 1] == actions;
  }

  lemma {:induction false} LeadsReaches(c: Config, actions: seq<Action>, s: State, more: seq<Action>, t: State)
    requires Reaches(c, actions, s) && Leads(c, s, more, t)
    ensures Reaches(c, actions + more, t)
    decreases |more|
  {
    hide Reaches, MayAct, Act;
    if more == [] {
      assert actions + more == actions;
    } else {
      Onward(c, actions, s, more[0]);
      LeadsReaches(c, actions + [more[0]], Act(c, s, more[0]), more[1..], t);
      assert actions + [more[0]] + more[1..] == actions + more;
    }
  }

  lemma LeadsFrom(c: Config, s: State, a: Action, more: seq<Action>, t: State)
    requires MayAct(c, s, a) && Leads(c, Act(c, s, a), more, t)
    ensures Leads(c, s, [a] + more, t)
  {
    assert ([a] + more)[1..] == more;
  }

  lemma {:induction false} LeadsOn(c: Config, s: State, more: seq<Action>, t: State, rest: seq<Action>, u: State)
    requires Leads(c, s, more, t) && Leads(c, t, rest, u)
    ensures Leads(c, s, more + rest, u)
    decreases |more|
  {
    if more == [] {
      assert more + rest == rest;
    } else {
      LeadsOn(c, Act(c, s, more[0]), more[1..], t, rest, u);
      assert (more + rest)[1..] == more[1..] + rest;
    }
  }

  lemma StartOf(c: Config) returns (s: State)
    ensures Init(c, s) && Reaches(c, [], s)
  {
    s := State(false, false, false, false, if c.timed then Waiting else Absent,
               seq(|c.linearizable|, _ => Idle), Working);
  }

  // ----- the verdict without the timer -----

  // Any run can be completed with the timer not firing any more.
  lemma {:induction false} CanFinish(c: Config, actions: seq<Action>, s: State)
    returns (more: seq<Action>, t: State)
    requires Reaches(c, actions, s)
    ensures Leads(c, s, more, t) && Over(t) && t.timedOut == s.timedOut
    decreases Remaining(s)
  {
    hide Reaches;
    if Over(s) {
      more, t := [], s;
    } else {
      var a := NeverStuck(c, actions, s);
      StepDecreases(c, s, a);
      Onward(c, actions, s, a);
      more, t := CanFinish(c, actions + [a], Act(c, s, a));
      LeadsFrom(c, s, a, more, t);
      more := [a] + more;
    }
  }

  // ----- the verdict Unknown -----

  // Can Unknown still be the verdict? Only as long as no partition has been or is about to be
  // convicted, and if the timer has fired or still can.
  ghost predicate StaysOpen(c: Config, s: State) {
    if s.main.Reported? then s.main.verdict == Unknown
    else !s.definitive && !Any(s, Convicting) && (s.timedOut || MayAct(c, s, TimerFire))
  }

  lemma NoConvictingAfterJoin(c: Config, s: State)
    requires Inv(c, s) && MayJoin(c, s)
    ensures !Any(s, Convicting)
  {
    if c.path != Pool && !AllFinished(s) {
      var j :| 0 <= j < |s.workers| && (s.workers[j] == Found || s.workers[j] == Skipped);
      forall k | 0 <= k < |s.workers|
        ensures s.workers[k] != Convicting
      {
        assert k < j ==> s.workers[k] == Passed;
        assert j < k ==> s.workers[k] == Idle;
      }
    } else {
      assert forall k :: 0 <= k < |s.workers| ==> Finished(s.workers[k]);
    }
  }

  lemma ClosedStays(c: Config, s: State, a: Action)
    requires Proper(c) && Inv(c, s) && MayAct(c, s, a) && !StaysOpen(c, s)
    ensures !StaysOpen(c, Act(c, s, a))
  {
    var t := Act(c, s, a);
    if a.Report? {
      NoConvictingAfterJoin(c, s);
      if s.definitive {
        var k :| 0 <= k < |s.workers| && Convicts(c, s, k);
        ConvictionIsReported(c, s, k);
      }
    } else if Any(s, Convicting) && !a.Convict? {
      var k :| 0 <= k < |s.workers| && s.workers[k] == Convicting;
      assert t.workers[k] == Convicting;
    }
  }

  lemma {:induction false} ClosedForGood(c: Config, s: State, more: seq<Action>, t: State)
    requires Proper(c) && Inv(c, s) && !StaysOpen(c, s) && Leads(c, s, more, t)
    ensures !StaysOpen(c, t)
    decreases |more|
  {
    if more != [] {
      ClosedStays(c, s, more[0]);
      StepInv(c, s, more[0]);
      ClosedForGood(c, Act(c, s, more[0]), more[1..], t);
    }
  }

  // After the timer has fired, with nobody convicted: the next step of a schedule in which every
  // search gives up.
  lemma GivesUp(c: Config, s: State) returns (a: Action)
    requires Proper(c) && Inv(c, s) && s.timedOut && StaysOpen(c, s) && !s.main.Reported?
    ensures MayAct(c, s, a) && Act(c, s, a).timedOut && StaysOpen(c, Act(c, s, a))
    ensures SamePassed(s, Act(c, s, a))
  {
    if s.timer == Firing {
      a := TimerKill;
    } else if s.main == Working {
      if MayJoin(c, s) {
        a := Join;
      } else {
        var i := NextInTurn(c, s);
        assert s.workers[i] != Convicting;
        a := match s.workers[i]
             case Idle => if c.path == Single then Start(i) else Skip(i)
             case Running => Finish(i, false, false)
             case Failed => Inspect(i)
             case _ => Stop(i);
      }
    } else if s.main.Joined? {
      a := Cancel;
    } else {
      a := Report;
    }
    assert forall k :: 0 <= k < |s.workers| ==> Act(c, s, a).workers[k] != Convicting;
  }

  // The same partitions have passed.
  ghost predicate SamePassed(s: State, t: State) {
    |t.workers| == |s.workers| &&
    forall k :: 0 <= k < |s.workers| ==> (s.workers[k] == Passed <==> t.workers[k] == Passed)
  }

  lemma {:induction false} AllGiveUp(c: Config, s: State) returns (more: seq<Action>, t: State)
    requires Proper(c) && Inv(c, s) && s.timedOut && StaysOpen(c, s)
    ensures Leads(c, s, more, t) && t.main == Reported(Unknown) && SamePassed(s, t)
    decreases Remaining(s)
  {
    if s.main.Reported? {
      more, t := [], s;
    } else {
      var a := GivesUp(c, s);
      StepInv(c, s, a);
      StepDecreases(c, s, a);
      more, t := AllGiveUp(c, Act(c, s, a));
      LeadsFrom(c, s, a, more, t);
      more := [a] + more;
    }
  }

  // The timer cuts short: if it still can fire and nobody is convicted, it can fire now and no search
  // need finish any more.
  lemma TimerCutsShort(c: Config, actions: seq<Action>, s: State) returns (more: seq<Action>, t: State)
    requires Proper(c) && Reaches(c, actions, s) && StaysOpen(c, s)
    ensures Leads(c, s, more, t) && t.main == Reported(Unknown) && t.timedOut && SamePassed(s, t)
  {
    ReachableInv(c, actions, s);
    if s.timedOut || s.main.Reported? {
      more, t := AllGiveUp(c, s);
    } else {
      var fired := Act(c, s, TimerFire);
      StepInv(c, s, TimerFire);
      assert Any(fired, Convicting) ==> Any(s, Convicting);
      more, t := AllGiveUp(c, fired);
      LeadsFrom(c, s, TimerFire, more, t);
      more := [TimerFire] + more;
    }
    LeadsReaches(c, actions, s, more, t);
    VerdictIsRight(c, actions + more, t);
  }

  lemma UnknownIsOpen(c: Config, s: State)
    requires s.main == Reported(Unknown)
    ensures StaysOpen(c, s)
  {
  }

  // From any reachable state, Unknown can still be reported exactly when it is open.
  lemma UnknownExact(c: Config, actions: seq<Action>, s: State)
    requires Proper(c) && Reaches(c, actions, s)
    ensures CanReport(c, s, Unknown) <==> StaysOpen(c, s)
  {
    hide Reaches, Inv, MayAct, StaysOpen;
    ReachableInv(c, actions, s);
    if StaysOpen(c, s) {
      var more, t := TimerCutsShort(c, actions, s);
    }
    if more, t :| Leads(c, s, more, t) && t.main == Reported(Unknown) {
      UnknownIsOpen(c, t);
      if !StaysOpen(c, s) { ClosedForGood(c, s, more, t); }
    }
  }

  // ----- all verdicts -----

  predicate Reportable(c: Config, v: CheckResult) {
    v == (if forall i :: 0 <= i < |c.linearizable| ==> c.linearizable[i] then Ok else Illegal)
    || (c.timed && v == Unknown)
  }

  // The reported verdicts are the right one, which some schedule always reports, and with a timer
  // Unknown, which then some schedule always reports too.
  lemma VerdictsExact(c: Config, v: CheckResult)
    requires Proper(c)
    ensures Reports(c, v) <==> Reportable(c, v)
  {
    if actions, s :| Reaches(c, actions, s) && s.main == Reported(v) {
      VerdictIsRight(c, actions, s);
    }
    if Reportable(c, v) {
      var actions, s := SomeReport(c, v);
    }
  }

  lemma SomeReport(c: Config, v: CheckResult) returns (actions: seq<Action>, s: State)
    requires Proper(c) && Reportable(c, v)
    ensures Reaches(c, actions, s) && s.main == Reported(v)
  {
    var init := StartOf(c);
    if v == Unknown {
      actions, s := TimerCutsShort(c, [], init);
    } else {
      actions, s := CanFinish(c, [], init);
    }
    LeadsReaches(c, [], init, actions, s);
    assert [] + actions == actions;
    VerdictIsRight(c, actions, s);
  }

  // ----- the pool -----

  // All partitions can be searched at the same time.
  lemma {:induction false} AllRunTogether(c: Config, n: nat) returns (actions: seq<Action>, s: State)
    requires c.path == Pool && n <= |c.linearizable|
    ensures Reaches(c, actions, s) && s.main == Working && !s.kill && |s.workers| == |c.linearizable|
    ensures forall i :: 0 <= i < |s.workers| ==> s.workers[i] == if i < n then Running else Idle
  {
    if n == 0 {
      actions := [];
      s := StartOf(c);
    } else {
      actions, s := AllRunTogether(c, n - 1);
      Onward(c, actions, s, Start(n - 1));
      actions, s := actions + [Start(n - 1)], Act(c, s, Start(n - 1));
    }
  }

  // k is the only one that has run, was found not linearizable, and the first n of the others dropped.
  ghost predicate AloneConvicted(c: Config, s: State, k: nat, n: nat) {
    && s.main == Working && s.definitive && |s.workers| == |c.linearizable|
    && forall i :: 0 <= i < |s.workers| ==>
         s.workers[i] == if i == k then Found else if i < n then Dropped else Idle
  }

  lemma ConvictAlone(c: Config, k: nat) returns (actions: seq<Action>, s: State)
    requires c.path == Pool && k < |c.linearizable| && !c.linearizable[k]
    ensures Reaches(c, actions, s) && AloneConvicted(c, s, k, 0)
  {
    hide Reaches;
    var s0 := StartOf(c);
    Onward(c, [], s0, Start(k));
    var s1 := Act(c, s0, Start(k));
    Onward(c, [] + [Start(k)], s1, Finish(k, false, true));
    var s2 := Act(c, s1, Finish(k, false, true));
    Onward(c, [] + [Start(k)] + [Finish(k, false, true)], s2, Inspect(k));
    var s3 := Act(c, s2, Inspect(k));
    Onward(c, [] + [Start(k)] + [Finish(k, false, true)] + [Inspect(k)], s3, Convict(k));
    var s4 := Act(c, s3, Convict(k));
    actions := [] + [Start(k)] + [Finish(k, false, true)] + [Inspect(k)] + [Convict(k)];
    Onward(c, actions, s4, Stop(k));
    actions, s := actions + [Stop(k)], Act(c, s4, Stop(k));
  }

  lemma {:induction false} DropOthers(c: Config, k: nat, n: nat) returns (actions: seq<Action>, s: State)
    requires c.path == Pool && k < |c.linearizable| && !c.linearizable[k] && n <= |c.linearizable|
    ensures Reaches(c, actions, s) && AloneConvicted(c, s, k, n)
  {
    hide Reaches;
    if n == 0 {
      actions, s := ConvictAlone(c, k);
    } else {
      actions, s := DropOthers(c, k, n - 1);
      if n - 1 != k {
        assert s.workers[k] == Found;
        Onward(c, actions, s, Drop(n - 1));
        actions, s := actions + [Drop(n - 1)], Act(c, s, Drop(n - 1));
      }
    }
  }

  // The main thread can take all its steps in a row, after the timer's.
  lemma Conclude(c: Config, actions: seq<Action>, s: State) returns (more: seq<Action>, t: State)
    requires Reaches(c, actions, s) && s.main == Working && MayJoin(c, s)
    ensures Reaches(c, actions + more, t) && t.main.Reported? && t.workers == s.workers
    ensures t.definitive == s.definitive
  {
    hide Reaches, MayJoin, JoinOk;
    more, t := [], s;
    assert actions + [] == actions;
    if s.timer == Firing {
      Onward(c, actions, s, TimerKill);
      more, t := [TimerKill], Act(c, s, TimerKill);
      SameWorkers(c, s, t);
    }
    Onward(c, actions + more, t, Join);
    var joined := Act(c, t, Join);
    Onward(c, actions + more + [Join], joined, Cancel);
    var cancelled := Act(c, joined, Cancel);
    Onward(c, actions + more + [Join] + [Cancel], cancelled, Report);
    assert actions + more + [Join] + [Cancel] + [Report] == actions + (more + [Join, Cancel, Report]);
    more, t := more + [Join, Cancel, Report], Act(c, cancelled, Report);
  }

  // One conviction is enough: Illegal can be reported with no other partition ever started.
  lemma OneConvictionIsEnough(c: Config, k: nat) returns (actions: seq<Action>, s: State)
    requires c.path == Pool && k < |c.linearizable| && !c.linearizable[k]
    ensures Reaches(c, actions, s) && s.main == Reported(Illegal) && |s.workers| == |c.linearizable|
    ensures forall i :: 0 <= i < |s.workers| && i != k ==> s.workers[i] == Dropped
  {
    var before;
    actions, before := DropOthers(c, k, |c.linearizable|);
    var more;
    more, s := Conclude(c, actions, before);
    actions := actions + more;
    VerdictIsRight(c, actions, s);
  }
}
