/**
 The loops of schedules over the runs of ScreenDriver.  A fire renders in the coroutine of its loop and makes
 that the current job, so whoever cancels the current job can end the loop.
 */
module ScheduleLoops {
  import opened ScreenDriver
  import opened Wrappers

  /** Request r is a fire that has arrived between s and s'. */
  predicate NewFire(s: State, s': State, l: LoopId, r: Rid) { |s.jobs| <= r < |s'.jobs| && FireOf(s'.jobs[r], l) }

  /** A loop is awake only between its fires, and a fire belongs to a loop. */
  ghost predicate LoopsFit(s: State)
  {
    (forall l | 0 <= l < |s.loops| && s.loops[l].awake :: Idle(s, l)) &&
    (forall r | 0 <= r < |s.jobs| && s.jobs[r].request.kind == Scheduled :: s.jobs[r].request.loop < |s.loops|)
  }

  /** What a step does to a loop, and which fires it brings. */
  lemma StepLoop(s: State, a: Action, l: LoopId)
    requires l < |s.loops|
    ensures var s' := Step(s, a);
            |s.loops| <= |s'.loops| && |s.jobs| <= |s'.jobs| <= |s.jobs| + 1 &&
            s'.loops[l].scheduleId == s.loops[l].scheduleId &&
            (s.loops[l].cancelled ==> s'.loops[l].cancelled) &&
            (s'.loops[l].awake ==> s.loops[l].awake || (!s.loops[l].cancelled && a == Wake(l) && Idle(s, l)))
    ensures var s' := Step(s, a);
            |s'.jobs| > |s.jobs| && FireOf(s'.jobs[|s.jobs|], l) ==> s.loops[l].awake && !s'.loops[l].awake
  {
    hide Idle, KeyOf, IsCancelled;
  }

  /**
   A cancelled loop is over: if it was awake, at most one more fire of it ever arrives, and otherwise none.
   */
  lemma {:induction false} CancelledLoopIsOver(s: State, actions: seq<Action>, l: LoopId)
    requires l < |s.loops| && s.loops[l].cancelled
    ensures var s' := Run(s, actions);
            |s.loops| <= |s'.loops| && |s.jobs| <= |s'.jobs| && s'.loops[l].cancelled &&
            (s'.loops[l].awake ==> s.loops[l].awake && forall r :: !NewFire(s, s', l, r)) &&
            (!s.loops[l].awake ==> forall r :: !NewFire(s, s', l, r)) &&
            (forall q, r | NewFire(s, s', l, q) && NewFire(s, s', l, r) :: q == r)
  {
    if actions != [] {
      var before, a := actions[..|actions| - 1], actions[|actions| - 1];
      CancelledLoopIsOver(s, before, l);
      var s1 := Run(s, before);
      StepLoop(s1, a, l);
      var s' := Step(s1, a);
      forall r | 0 <= r < |s1.jobs|
        ensures FireOf(s'.jobs[r], l) == FireOf(s1.jobs[r], l)
      {
        JobStays(s1, a, r);
      }
      hide Step, FireOf;
      forall r | NewFire(s, s', l, r)
        ensures NewFire(s, s1, l, r) || (r == |s1.jobs| && s1.loops[l].awake && !s'.loops[l].awake)
      {
      }
    }
  }

  lemma IdleStays(s: State, a: Action, l: LoopId)
    requires Idle(s, l) && (|Step(s, a).jobs| > |s.jobs| ==> !FireOf(Step(s, a).jobs[|s.jobs|], l))
    requires |Step(s, a).jobs| <= |s.jobs| + 1
    ensures Idle(Step(s, a), l)
  {
    var s' := Step(s, a);
    forall r | 0 <= r < |s'.jobs| && FireOf(s'.jobs[r], l)
      ensures s'.jobs[r].phase in {Dropped, Done}
    {
      if r < |s.jobs| {
        JobStays(s, a, r);
      }
    }
  }

  lemma NewLoop(s: State, a: Action)
    ensures |s.loops| <= |Step(s, a).loops| <= |s.loops| + 1
    ensures |s.loops| < |Step(s, a).loops| ==>
              !Step(s, a).loops[|s.loops|].awake && !Step(s, a).loops[|s.loops|].cancelled
    ensures var s' := Step(s, a);
            |s'.jobs| > |s.jobs| && s'.jobs[|s.jobs|].request.kind == Scheduled ==>
              s'.jobs[|s.jobs|].request.loop < |s.loops|
  {
    hide Idle;
  }

  lemma SameStanding(s: State, s': State, l: LoopId)
    requires Idle(s, l) && s'.jobs == s.jobs
    ensures Idle(s', l)
  {
  }

  lemma StepKeepsLoops(s: State, a: Action)
    requires LoopsFit(s)
    ensures LoopsFit(Step(s, a))
  {
    hide Step, Idle;
    var s' := Step(s, a);
    NewLoop(s, a);
    JobsGrow(s, a);
    forall l | 0 <= l < |s'.loops| && s'.loops[l].awake
      ensures Idle(s', l)
    {
      StepLoop(s, a, l);
      IdleStays(s, a, l);
    }
    forall r | 0 <= r < |s'.jobs| && s'.jobs[r].request.kind == Scheduled
      ensures s'.jobs[r].request.loop < |s'.loops|
    {
      if r < |s.jobs| { JobStays(s, a, r); }
    }
  }

  lemma JobsGrow(s: State, a: Action)
    ensures |s.jobs| <= |Step(s, a).jobs| <= |s.jobs| + 1
  {
    hide Idle;
  }

  lemma {:induction false} LoopsAlwaysFit(actions: seq<Action>)
    ensures LoopsFit(Run(INITIAL, actions))
  {
    if actions != [] {
      hide Step, LoopsFit;
      LoopsAlwaysFit(actions[..|actions| - 1]);
      StepKeepsLoops(Run(INITIAL, actions[..|actions| - 1]), actions[|actions| - 1]);
    }
  }

  // ----- whose job is current, told from the actions --------------------------------------------

  predicate StoresJob(s: State, a: Action) { a.StoreJob? && At(s, a.r, Registered) }

  predicate ChangesCurrent(s: State, a: Action)
  {
    StoresJob(s, a) ||
    (a.LaunchJob? && At(s, a.r, Cleared) && s.jobs[a.r].request.kind == Immediate) ||
    (a.ForgetJob? && At(s, a.r, ClearingJob))
  }

  lemma CurrentAfter(s: State, a: Action)
    ensures Step(s, a).currentJob ==
            if StoresJob(s, a) then Some(LoopJob(s.jobs[a.r].request.loop))
            else if ChangesCurrent(s, a) then (if a.LaunchJob? then Some(RenderJob(a.r)) else None)
            else s.currentJob
  {
    hide Idle;
  }

  /** At n a fire of loop l has stored its job, and nobody has changed the current job since. */
  ghost predicate CurrentSince(actions: seq<Action>, n: nat, l: LoopId)
  {
    n < |actions| &&
    (var s := Run(INITIAL, actions[..n]); StoresJob(s, actions[n]) && s.jobs[actions[n].r].request.loop == l) &&
    forall i | n < i < |actions| :: !ChangesCurrentAt(actions, i)
  }

  ghost predicate ChangesCurrentAt(actions: seq<Action>, i: nat)
    requires i < |actions|
  {
    ChangesCurrent(Run(INITIAL, actions[..i]), actions[i])
  }

  lemma SinceBefore(actions: seq<Action>, n: nat, l: LoopId)
    requires n < |actions| - 1
    ensures CurrentSince(actions, n, l)
       <==> CurrentSince(actions[..|actions| - 1], n, l) && !ChangesCurrentAt(actions, |actions| - 1)
  {
    var before := actions[..|actions| - 1];
    assert before[..n] == actions[..n];
    forall i | 0 <= i < |before|
      ensures ChangesCurrentAt(before, i) == ChangesCurrentAt(actions, i)
    {
      assert before[..i] == actions[..i];
    }
    hide ChangesCurrentAt, Run;
  }

  lemma SinceLast(actions: seq<Action>, l: LoopId)
    requires actions != []
    ensures var s, a := Run(INITIAL, actions[..|actions| - 1]), actions[|actions| - 1];
            CurrentSince(actions, |actions| - 1, l) <==> StoresJob(s, a) && s.jobs[a.r].request.loop == l
  {
    hide Run;
  }

  /** How the last action changes since when a fire of l has been current. */
  lemma SinceNow(actions: seq<Action>, l: LoopId)
    requires actions != []
    ensures var before, a := actions[..|actions| - 1], actions[|actions| - 1];
            var s := Run(INITIAL, before);
            (exists n :: CurrentSince(actions, n, l)) <==>
              if StoresJob(s, a) then s.jobs[a.r].request.loop == l
              else (exists n :: CurrentSince(before, n, l)) && !ChangesCurrent(s, a)
  {
    var before, last := actions[..|actions| - 1], |actions| - 1;
    SinceLast(actions, l);
    forall n: nat
      ensures CurrentSince(actions, n, l) ==> n <= last
      ensures CurrentSince(before, n, l) ==> n < last
      ensures n < last ==>
                (CurrentSince(actions, n, l) <==> CurrentSince(before, n, l) && !ChangesCurrentAt(actions, last))
    {
      if n < last { SinceBefore(actions, n, l); }
    }
    StoringChanges(Run(INITIAL, before), actions[last]);
    assert ChangesCurrentAt(actions, last) == ChangesCurrent(Run(INITIAL, before), actions[last]);
    hide CurrentSince, ChangesCurrent, ChangesCurrentAt, StoresJob, Run;
  }

  lemma StoringChanges(s: State, a: Action)
    ensures StoresJob(s, a) ==> ChangesCurrent(s, a)
  {
  }

  /** Loop l is the current job exactly if a fire of it has stored it, and nobody has changed the current job since. */
  lemma {:induction false} CurrentLoopIff(actions: seq<Action>, l: LoopId)
    ensures Run(INITIAL, actions).currentJob == Some(LoopJob(l)) <==> exists n :: CurrentSince(actions, n, l)
  {
    if actions != [] {
      var before, last := actions[..|actions| - 1], |actions| - 1;
      CurrentLoopIff(before, l);
      CurrentAfter(Run(INITIAL, before), actions[last]);
      SinceNow(actions, l);
      hide Step, CurrentSince, ChangesCurrent;
    }
  }

  // ----- when a loop is cancelled ---------------------------------------------------------------

  /** An admitted display or broadcast cancels the current job, and that is loop l. */
  predicate Preempts(s: State, a: Action, l: LoopId)
  {
    a.CancelCurrent? && At(s, a.r, Admitted) && s.jobs[a.r].request.kind != Scheduled &&
    s.currentJob == Some(LoopJob(l))
  }

  lemma CancelledAfter(s: State, a: Action, l: LoopId)
    requires l < |s.loops|
    ensures l < |Step(s, a).loops|
    ensures Step(s, a).loops[l].cancelled <==>
            s.loops[l].cancelled || Preempts(s, a, l) || a == CancelFromOutside(LoopJob(l))
  {
    hide Idle;
  }

  /** At m a display or broadcast that has been admitted cancels the current job, while a fire of l is current. */
  ghost predicate PreemptedAt(actions: seq<Action>, m: nat, l: LoopId)
    requires m < |actions|
  {
    var s, a := Run(INITIAL, actions[..m]), actions[m];
    a.CancelCurrent? && At(s, a.r, Admitted) && s.jobs[a.r].request.kind != Scheduled &&
    exists n :: CurrentSince(actions[..m], n, l)
  }

  ghost predicate CancelledAt(actions: seq<Action>, m: nat, l: LoopId)
    requires m < |actions|
  {
    l < |Run(INITIAL, actions[..m]).loops| &&
    (PreemptedAt(actions, m, l) || actions[m] == CancelFromOutside(LoopJob(l)))
  }

  lemma CancelledAtEnd(actions: seq<Action>, l: LoopId)
    requires actions != []
    ensures var s, a := Run(INITIAL, actions[..|actions| - 1]), actions[|actions| - 1];
            CancelledAt(actions, |actions| - 1, l) <==>
            l < |s.loops| && (Preempts(s, a, l) || a == CancelFromOutside(LoopJob(l)))
  {
    CurrentLoopIff(actions[..|actions| - 1], l);
    hide Run, CurrentSince;
  }

  lemma CancelledAtBefore(actions: seq<Action>, m: nat, l: LoopId)
    requires m < |actions| - 1
    ensures CancelledAt(actions, m, l) == CancelledAt(actions[..|actions| - 1], m, l)
  {
    assert actions[..|actions| - 1][..m] == actions[..m];
    hide Run, CurrentSince;
  }

  /** A loop is cancelled exactly if that has happened to it at some action. */
  lemma {:induction false} LoopCancelledIff(actions: seq<Action>, l: LoopId)
    requires l < |Run(INITIAL, actions).loops|
    ensures Run(INITIAL, actions).loops[l].cancelled <==> exists m | 0 <= m < |actions| :: CancelledAt(actions, m, l)
  {
    if actions != [] {
      var before, last := actions[..|actions| - 1], |actions| - 1;
      var s, a := Run(INITIAL, before), actions[last];
      CancelledAtEnd(actions, l);
      forall m | 0 <= m < last
        ensures CancelledAt(actions, m, l) == CancelledAt(before, m, l)
      {
        CancelledAtBefore(actions, m, l);
      }
      NewLoop(s, a);
      if l < |s.loops| {
        LoopCancelledIff(before, l);
        CancelledAfter(s, a, l);
      } else {
        forall m | 0 <= m < last
          ensures !CancelledAt(before, m, l)
        {
          LoopNotYet(before, m, l);
        }
      }
      hide Step, CancelledAt, Preempts;
    }
  }

  /** No loop is cancelled before it is launched. */
  lemma {:induction false} LoopNotYet(actions: seq<Action>, m: nat, l: LoopId)
    requires m < |actions| && l >= |Run(INITIAL, actions).loops|
    ensures !CancelledAt(actions, m, l)
  {
    hide PreemptedAt, Step;
    var before := actions[..|actions| - 1];
    NewLoop(Run(INITIAL, before), actions[|actions| - 1]);
    if m < |before| {
      hide CancelledAt;
      LoopNotYet(before, m, l);
      CancelledAtBefore(actions, m, l);
    }
  }

  // ----- what that means for its fires ----------------------------------------------------------

  /** Some run from s brings a fire of loop l. */
  ghost predicate CanFire(s: State, l: LoopId) { exists actions, r :: NewFire(s, Run(s, actions), l, r) }

  /** A fire the scheduler could make in state s. */
  function NextFire(s: State, l: LoopId): Request
    requires l < |s.loops|
  {
    Request(Scheduled, None, Interrupt, s.loops[l].scheduleId, l)
  }

  lemma AwakeFires(s: State, l: LoopId)
    requires l < |s.loops| && s.loops[l].awake
    ensures NewFire(s, Run(s, [Arrive(NextFire(s, l), true)]), l, |s.jobs|)
  {
    hide Run;
    RunOne(s, Arrive(NextFire(s, l), true));
  }

  lemma IdleWakesAndFires(s: State, l: LoopId)
    requires l < |s.loops| && !s.loops[l].cancelled && Idle(s, l)
    ensures NewFire(s, Run(s, [Wake(l)] + [Arrive(NextFire(s, l), true)]), l, |s.jobs|)
  {
    hide Idle;
    RunOf(s, [Wake(l)], [Arrive(NextFire(s, l), true)]);
    RunOne(s, Wake(l));
    hide Run;
    AwakeFires(Step(s, Wake(l)), l);
  }

  /**
   Expiry and maxRuns aside, the loop of a schedule that has no fire under way can fire again if and only if
   it has never been cancelled
   -- while a fire of it was the current job no display or broadcast got as far as cancelling that, and
   nobody else did -- or it was already awake for one last fire.
   */
  lemma {:induction false} LoopSurvivesIff(actions: seq<Action>, l: LoopId)
    requires l < |Run(INITIAL, actions).loops| && Idle(Run(INITIAL, actions), l)
    ensures var s := Run(INITIAL, actions);
            CanFire(s, l) <==> s.loops[l].awake || forall m | 0 <= m < |actions| :: !CancelledAt(actions, m, l)
  {
    LoopCancelledIff(actions, l);
    var s := Run(INITIAL, actions);
    hide CancelledAt, Idle;
    if s.loops[l].awake {
      AwakeFires(s, l);
    } else if !s.loops[l].cancelled {
      IdleWakesAndFires(s, l);
    } else {
      forall more
        ensures forall r :: !NewFire(s, Run(s, more), l, r)
      {
        CancelledLoopIsOver(s, more, l);
      }
    }
  }

  /** A loop cancelled at any action so far, with a fire still under way, never fires again. */
  lemma {:induction false} PreemptedFireIsTheLast(actions: seq<Action>, l: LoopId, m: nat)
    requires l < |Run(INITIAL, actions).loops| && !Idle(Run(INITIAL, actions), l)
    requires m < |actions| && CancelledAt(actions, m, l)
    ensures !CanFire(Run(INITIAL, actions), l)
  {
    LoopCancelledIff(actions, l);
    LoopsAlwaysFit(actions);
    var s := Run(INITIAL, actions);
    forall more
      ensures forall r :: !NewFire(s, Run(s, more), l, r)
    {
      CancelledLoopIsOver(s, more, l);
    }
  }

  /** The first fire of the first loop, current and in or before its block. */
  function FireAlone(q: Request): State
  {
    var s := State([Job(q, BlockPhase(q), false)], [Loop(q.scheduleId, false, false)], {}, Some(LoopJob(0)),
                   Some(q.scheduleId), 0, []);
    if q.policy == SkipNew then Lock(s, 0, KeyOf(q)) else s
  }

  lemma FireArrives(q: Request)
    requires q.kind == Scheduled && q.loop == 0
    ensures Run(INITIAL, [LaunchLoop(q.scheduleId), Wake(0), Arrive(q, true)])
         == FireAlone(q).(jobs := [Job(q, Admitted, false)], currentJob := None, currentScheduled := None)
  {
    hide Run, KeyOf;
    RunThree(INITIAL, LaunchLoop(q.scheduleId), Wake(0), Arrive(q, true));
    var s1 := INITIAL.(loops := [Loop(q.scheduleId, false, false)]);
    assert Step(INITIAL, LaunchLoop(q.scheduleId)) == s1;
    assert Step(s1, Wake(0)) == s1.(loops := [Loop(q.scheduleId, false, true)]);
  }

  lemma FireBecomesCurrent(q: Request, d: Request)
    requires q.kind == Scheduled && q.loop == 0 && d.kind != Scheduled && CanArrive(INITIAL, d)
    ensures var s := FireAlone(q).(jobs := [Job(q, Admitted, false)], currentJob := None, currentScheduled := None);
            Run(s, [StoreScheduled(0), StoreJob(0), Arrive(d, true)]) == Arrived(FireAlone(q), d, true)
  {
    hide Run, KeyOf;
    var s := FireAlone(q).(jobs := [Job(q, Admitted, false)], currentJob := None, currentScheduled := None);
    RunThree(s, StoreScheduled(0), StoreJob(0), Arrive(d, true));
    var s1 := s.(jobs := [Job(q, Registered, false)], currentScheduled := Some(q.scheduleId));
    assert Step(s, StoreScheduled(0)) == s1;
    assert Step(s1, StoreJob(0)) == FireAlone(q);
  }

  lemma CancelEndsLoop(q: Request, d: Request)
    requires q.kind == Scheduled && q.loop == 0 && d.kind != Scheduled
    requires d.policy == SkipNew && q.policy == SkipNew ==> KeyOf(d) != KeyOf(q)
    ensures Step(Arrived(FireAlone(q), d, true), CancelCurrent(1)).loops == [Loop(q.scheduleId, true, false)]
  {
    hide KeyOf;
    var s := Arrived(FireAlone(q), d, true);
    assert At(s, 1, Admitted) && s.jobs[1].request == d && s.currentJob == Some(LoopJob(0));
    assert s.loops == [Loop(q.scheduleId, false, false)];
  }

  /**
   For instance: while the first fire of a schedule is current, any display or broadcast that is not dropped
   ends the schedule's loop for good.
   */
  lemma DisplayEndsLoop(q: Request, d: Request)
    requires q.kind == Scheduled && q.loop == 0 && d.kind != Scheduled && CanArrive(INITIAL, d)
    requires d.policy == SkipNew && q.policy == SkipNew ==> KeyOf(d) != KeyOf(q)
    ensures var begin := [LaunchLoop(q.scheduleId), Wake(0), Arrive(q, true)];
            var s := Run(INITIAL, begin + [StoreScheduled(0), StoreJob(0), Arrive(d, true)] + [CancelCurrent(1)]);
            |s.loops| == 1 && s.loops[0].cancelled && !CanFire(s, 0)
  {
    hide Run, Step, KeyOf, Arrived, FireAlone, NewFire;
    var begin := [LaunchLoop(q.scheduleId), Wake(0), Arrive(q, true)];
    var next := [StoreScheduled(0), StoreJob(0), Arrive(d, true)];
    RunOf(INITIAL, begin, next);
    RunOf(INITIAL, begin + next, [CancelCurrent(1)]);
    FireArrives(q);
    FireBecomesCurrent(q, d);
    var s := Arrived(FireAlone(q), d, true);
    RunOne(s, CancelCurrent(1));
    CancelEndsLoop(q, d);
    var s' := Step(s, CancelCurrent(1));
    forall more
      ensures forall r :: !NewFire(s', Run(s', more), 0, r)
    {
      CancelledLoopIsOver(s', more, 0);
    }
  }
}
