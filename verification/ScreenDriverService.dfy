/** The service whose critical sections are the actions of ScreenDriver. */
module ScreenDriverService {
  import opened ScreenDriver
  import opened Wrappers

  datatype DisplayResult = Accepted(accepted: bool) | ZoneUnavailable | Broadcasting

  /** displayScheduled returns whether the text was displayed, unless it still waits for the mutex. */
  datatype ScheduledResult = Displayed(displayed: bool) | StillWaiting

  /** Some run of the machine leads to s. */
  ghost predicate Reachable(s: State) { exists actions :: s == Run(INITIAL, actions) }

  /** What holds between any two sections. */
  ghost predicate Sound(s: State) { Reachable(s) && Inv(s) && s.inFlight == Count(s.jobs) }

  lemma ReachableStep(s: State, a: Action)
    requires Reachable(s)
    ensures Reachable(Step(s, a))
  {
    hide Step;
    var actions :| s == Run(INITIAL, actions);
    assert (actions + [a])[..|actions|] == actions;
    assert Step(s, a) == Run(INITIAL, actions + [a]);
  }

  lemma SectionKeepsSound(s: State, a: Action)
    requires Sound(s)
    ensures Sound(Step(s, a))
  {
    hide LocksMatch, Disciplined, EventsFit, OnceEach, Reachable;
    ReachableStep(s, a);
    StepKeeps(s, a);
    StepCounts(s, a);
  }

  /** Whoever holds a mutex finds it locked. */
  lemma HolderFindsLocked(s: State, r: Rid)
    requires Sound(s) && r < |s.jobs| && HoldsMutex(s.jobs[r])
    ensures KeyOf(s.jobs[r].request) in s.locked
  {
    hide HoldsMutex, Disciplined, EventsFit, OnceEach, Reachable;
    assert KeyOf(s.jobs[r].request) in Holders(s.log);
  }

  /** No two renders for one zone are in the block that its mutex guards. */
  ghost predicate OnePerBlock(s: State)
  {
    forall q, r | 0 <= q < r < |s.jobs| && s.jobs[q].phase == Inside && s.jobs[r].phase == Inside ::
      !SameZone(s.jobs[q].request.zone, s.jobs[r].request.zone)
  }

  lemma SoundMeansOnePerBlock(s: State)
    requires Sound(s)
    ensures OnePerBlock(s)
  {
    forall r | 0 <= r < |s.jobs| && s.jobs[r].phase == Inside
      ensures KeyOf(s.jobs[r].request) in Holders(s.log) && Holders(s.log)[KeyOf(s.jobs[r].request)] == r
    {
      InsideHolds(s.jobs[r]);
    }
    hide Holders, HoldsMutex, KeyOf, SameZone, Inv;
    forall q, r | 0 <= q < r < |s.jobs| && s.jobs[q].phase == Inside && s.jobs[r].phase == Inside
      ensures !SameZone(s.jobs[q].request.zone, s.jobs[r].request.zone)
    {
      SharesMutexIff(s.jobs[q].request, s.jobs[r].request);
    }
  }

  /** A mutex is locked exactly when a request for its zone holds it. */
  lemma LockedMeansBusy(s: State, q: Request)
    requires Sound(s)
    ensures KeyOf(q) in s.locked <==> Busy(s, q.zone)
  {
    hide Disciplined, EventsFit, OnceEach, Reachable, Busy;
    BusyMeansLocked(s, q);
  }

  lemma KeyNames(q: Request)
    ensures KeyOf(q) == match q.zone case Some(zone) => zone case None => "broadcast"
  {
  }

  /** In every reachable state the unlocking sections find their mutex locked, so none of them throws. */
  lemma {:induction false} UnlocksFindLocked(actions: seq<Action>, r: Rid)
    requires r < |Run(INITIAL, actions).jobs|
    ensures var s := Run(INITIAL, actions);
            var j := s.jobs[r];
            j.phase == Inside || (j.request.policy == SkipNew && j.phase in {Leaving, Releasing, Sending})
            ==> KeyOf(j.request) in s.locked
  {
    RunsKeep(actions);
    InFlightIsExact(actions);
    var s := Run(INITIAL, actions);
    hide Run;
    if HoldsMutex(s.jobs[r]) { HolderFindsLocked(s, r); }
  }

  // ----- sections are sound ---------------------------------------------------------------------

  lemma Cancels(s: State, r: Rid)
    requires Sound(s) && At(s, r, Admitted) && s.jobs[r].request.kind != Scheduled
    ensures Sound(CurrentCancelled(To(s, r, Preempted), r))
  {
    hide Sound, CurrentCancelled;
    SectionKeepsSound(s, CancelCurrent(r));
  }

  /** Clearing the current schedule, and then launching the job or beginning the broadcast. */
  function Proceeded(s: State, r: Rid): State
    requires r < |s.jobs|
  {
    if s.jobs[r].request.kind == Immediate
    then To(s, r, Queued).(currentScheduled := None, currentJob := Some(RenderJob(r)))
    else To(s, r, Sending).(currentScheduled := None)
  }

  lemma Proceeds(s: State, r: Rid)
    requires Sound(s) && At(s, r, Preempted) && s.jobs[r].request.kind != Scheduled
    ensures Sound(Proceeded(s, r))
  {
    hide Sound, KeyOf;
    var s1 := Step(s, ClearScheduled(r));
    var a := if s.jobs[r].request.kind == Immediate then LaunchJob(r) else BeginBroadcast(r);
    SectionKeepsSound(s, ClearScheduled(r));
    SectionKeepsSound(s1, a);
    assert s1 == To(s, r, Cleared).(currentScheduled := None);
    assert Step(s1, a) == Proceeded(s, r);
  }

  lemma Starts(s: State, r: Rid)
    requires Sound(s) && At(s, r, Queued) && !s.jobs[r].cancelled
    ensures Sound(Started(s, r)) && s.jobs[r].request.kind == Immediate
  {
    PhaseOf(s, r);
    hide Sound, Started;
    SectionKeepsSound(s, StartJob(r));
  }

  lemma Enters(s: State, r: Rid)
    requires Sound(s) && At(s, r, Waiting) && KeyOf(s.jobs[r].request) !in s.locked
    ensures Sound(Entered(s, r))
  {
    hide Sound, Entered;
    SectionKeepsSound(s, TakeMutex(r));
  }

  lemma LogsSent(s: State, r: Rid)
    requires Sound(s) && (At(s, r, Inside) || At(s, r, Sending)) && Sends(s.jobs[r].request)
    ensures Sound(s.(log := s.log + [SentBy(r, s.jobs[r].request)]))
  {
    hide Sound, SentBy;
    SectionKeepsSound(s, SendText(r));
  }

  lemma LogsRecorded(s: State, r: Rid)
    requires Sound(s) && (At(s, r, Inside) || At(s, r, Sending))
    ensures Sound(s.(log := s.log + [RecordedBy(r, s.jobs[r].request)]))
  {
    hide Sound, RecordedBy;
    SectionKeepsSound(s, RecordHistory(r));
  }

  lemma Exits(s: State, r: Rid)
    requires Sound(s) && At(s, r, Inside)
    ensures Sound(Exited(s, r)) && KeyOf(s.jobs[r].request) in s.locked
  {
    hide Sound, Exited, HoldsMutex;
    InsideHolds(s.jobs[r]);
    HolderFindsLocked(s, r);
    SectionKeepsSound(s, LeaveBlock(r));
  }

  lemma CountsDown(s: State, r: Rid)
    requires Sound(s) && At(s, r, Leaving) && s.jobs[r].request.kind == Immediate
    ensures Sound(CountedDown(s, r))
  {
    hide Sound, CountedDown;
    SectionKeepsSound(s, CountDown(r));
  }

  lemma SkipNewFindsLocked(s: State, r: Rid)
    requires Sound(s) && r < |s.jobs| && s.jobs[r].phase in {Releasing, Leaving, Sending}
    ensures s.jobs[r].request.policy == SkipNew ==> KeyOf(s.jobs[r].request) in s.locked
  {
    if s.jobs[r].request.policy == SkipNew { HolderFindsLocked(s, r); }
  }

  lemma UnlocksFinally(s: State, r: Rid)
    requires Sound(s) && (At(s, r, Releasing) || (At(s, r, Leaving) && s.jobs[r].request.kind == Scheduled))
    ensures Sound(FinallyUnlocked(s, r))
  {
    hide Sound, FinallyUnlocked;
    SectionKeepsSound(s, FinallyUnlock(r));
  }

  lemma EndsBroadcast(s: State, r: Rid)
    requires Sound(s) && At(s, r, Sending)
    ensures Sound(BroadcastEnded(s, r))
  {
    hide Sound, BroadcastEnded;
    SectionKeepsSound(s, EndBroadcast(r));
  }

  /** Storing the schedule's id and the loop's job. */
  function Stored(s: State, r: Rid): State
    requires r < |s.jobs|
  {
    var q := s.jobs[r].request;
    To(s, r, BlockPhase(q)).(currentScheduled := Some(q.scheduleId), currentJob := Some(LoopJob(q.loop)))
  }

  lemma StoresSchedule(s: State, r: Rid)
    requires Sound(s) && At(s, r, Admitted) && s.jobs[r].request.kind == Scheduled
    ensures Sound(Stored(s, r))
  {
    hide Sound, KeyOf, BlockPhase;
    var s1 := Step(s, StoreScheduled(r));
    SectionKeepsSound(s, StoreScheduled(r));
    SectionKeepsSound(s1, StoreJob(r));
    assert s1 == To(s, r, Registered).(currentScheduled := Some(s.jobs[r].request.scheduleId));
    assert Step(s1, StoreJob(r)) == Stored(s, r);
  }

  /** Checking the current id, and clearing it and the job if it is the fire's own. */
  function Forgotten(s: State, r: Rid): State
    requires r < |s.jobs|
  {
    if s.currentScheduled == Some(s.jobs[r].request.scheduleId)
    then To(s, r, Done).(currentScheduled := None, currentJob := None) else To(s, r, Done)
  }

  lemma Checks(s: State, r: Rid)
    requires Sound(s) && At(s, r, Clearing)
    ensures var own := s.currentScheduled == Some(s.jobs[r].request.scheduleId);
            Sound(To(s, r, if own then ClearingId else Done))
  {
    hide Sound, KeyOf;
    SectionKeepsSound(s, CheckOwnSchedule(r));
  }

  lemma ForgetsBoth(s: State, r: Rid)
    requires Sound(s) && At(s, r, ClearingId)
    ensures Sound(To(s, r, Done).(currentScheduled := None, currentJob := None))
  {
    hide Sound, KeyOf;
    var s1 := Step(s, ForgetId(r));
    SectionKeepsSound(s, ForgetId(r));
    SectionKeepsSound(s1, ForgetJob(r));
    assert s1 == To(s, r, ClearingJob).(currentScheduled := None);
    assert Step(s1, ForgetJob(r)) == To(s, r, Done).(currentScheduled := None, currentJob := None);
  }

  lemma Forgets(s: State, r: Rid)
    requires Sound(s) && At(s, r, Clearing)
    ensures Sound(Forgotten(s, r))
  {
    hide Sound;
    Checks(s, r);
    if s.currentScheduled == Some(s.jobs[r].request.scheduleId) {
      ForgetsBoth(To(s, r, ClearingId), r);
      assert Forgotten(s, r) == To(To(s, r, ClearingId), r, Done).(currentScheduled := None, currentJob := None);
    }
  }

  // ----- whole renders --------------------------------------------------------------------------

  function Repeat(e: Event, n: nat): (log: seq<Event>)
    ensures |log| == n
  {
    seq(n, _ => e)
  }

  lemma RepeatMore(e: Event, n: nat)
    ensures Repeat(e, 0) == [] && Repeat(e, n + 1) == Repeat(e, n) + [e]
  {
  }

  /** What a render does in its block: so many attempts to send, if there is a zone to send to, and so many rows. */
  function Effects(r: Rid, q: Request, sends: nat, rows: nat): seq<Event>
  {
    (if Sends(q) then Repeat(SentBy(r, q), sends) else []) + Repeat(RecordedBy(r, q), rows)
  }

  /** An attempt is a send to the request's zone, or to all zones; without a zone a render sends nothing. */
  lemma EffectsAre(r: Rid, q: Request, sends: nat, rows: nat, key: Key)
    requires key == match q.zone case Some(zone) => zone case None => "broadcast"
    ensures var guarded := q.kind == Immediate || q.kind == Scheduled || q.policy == SkipNew;
            Effects(r, q, sends, rows)
            == (if q.zone.Some? || q.kind == Broadcast then seq(sends, _ => Event.Sent(r, key, guarded)) else [])
               + seq(rows, _ => Recorded(r, key, guarded))
  {
  }

  /** At the call of withMutex: the caller of a SKIP_NEW render has taken the mutex, an INTERRUPT render has not. */
  predicate AtBlock(s: State, r: Rid)
  {
    r < |s.jobs| && s.jobs[r].phase == BlockPhase(s.jobs[r].request)
  }

  /** The block that the mutex guards, undisturbed. */
  function BlockRun(s: State, r: Rid, sends: nat, rows: nat): State
    requires r < |s.jobs|
  {
    var q := s.jobs[r].request;
    To(s, r, Leaving).(log := s.log + (if q.policy == Interrupt then [Took(r, KeyOf(q))] else [])
                                    + Effects(r, q, sends, rows)
                                    + (if q.policy == Interrupt then [Released(r, KeyOf(q))] else []))
  }

  lemma BlockIs(s: State, r: Rid, sends: nat, rows: nat)
    requires AtBlock(s, r) && (s.jobs[r].phase == Waiting ==> KeyOf(s.jobs[r].request) !in s.locked)
    ensures var s1 := if s.jobs[r].phase == Waiting then Entered(s, r) else s;
            s1.jobs[r].request == s.jobs[r].request && At(s1, r, Inside) &&
            Exited(s1.(log := s1.log + Effects(r, s.jobs[r].request, sends, rows)), r) == BlockRun(s, r, sends, rows)
  {
    hide KeyOf, Effects;
  }

  /** All a render logs from admission on: it takes the mutex first and releases it last. */
  function RenderLog(r: Rid, q: Request, sends: nat, rows: nat): seq<Event>
  {
    [Took(r, KeyOf(q))] + Effects(r, q, sends, rows) + [Released(r, KeyOf(q))]
  }

  /** An immediate render is over; its mutex, taken before under SKIP_NEW and at the start otherwise, is free. */
  function RenderDone(s: State, r: Rid, sends: nat, rows: nat): State
    requires r < |s.jobs|
  {
    var q := s.jobs[r].request;
    To(s, r, Done).(locked := s.locked - {KeyOf(q)},
                    log := s.log + (if q.policy == Interrupt then [Took(r, KeyOf(q))] else [])
                                 + Effects(r, q, sends, rows) + [Released(r, KeyOf(q))])
  }

  /** What an undisturbed render has done: between taking the mutex of its zone and releasing it, it sent there. */
  lemma RenderDoneIs(s: State, r: Rid, sends: nat, rows: nat, key: Key)
    requires r < |s.jobs| && s.jobs[r].request.kind == Immediate
    requires key == match s.jobs[r].request.zone case Some(zone) => zone case None => "broadcast"
    ensures var s', q := RenderDone(s, r, sends, rows), s.jobs[r].request;
            key !in s'.locked && s'.inFlight == s.inFlight &&
            s'.log == s.log + (if q.policy == Interrupt then [Took(r, key)] else [])
                      + (if q.zone.Some? then seq(sends, _ => Event.Sent(r, key, true)) else [])
                      + seq(rows, _ => Recorded(r, key, true)) + [Released(r, key)]
  {
    KeyNames(s.jobs[r].request);
    EffectsAre(r, s.jobs[r].request, sends, rows, key);
    hide KeyOf, Effects;
  }

  /** The same of a fire, which sends nothing without a zone but locks the broadcasts' mutex. */
  lemma RenderLogIs(r: Rid, q: Request, sends: nat, rows: nat, key: Key)
    requires q.kind == Scheduled && key == match q.zone case Some(zone) => zone case None => "broadcast"
    ensures RenderLog(r, q, sends, rows)
         == [Took(r, key)] + (if q.zone.Some? then seq(sends, _ => Event.Sent(r, key, true)) else [])
            + seq(rows, _ => Recorded(r, key, true)) + [Released(r, key)]
  {
    KeyNames(q);
    EffectsAre(r, q, sends, rows, key);
    hide KeyOf, Effects;
  }

  lemma RenderIs(s: State, r: Rid, sends: nat, rows: nat)
    requires At(s, r, Queued) && s.jobs[r].request.kind == Immediate
    ensures var s1, q := Started(s, r), s.jobs[r].request;
            s1.jobs[r].request == q && AtBlock(s1, r) && s1.locked == s.locked &&
            (q.policy == Interrupt ==> s1 == To(s, r, Waiting).(inFlight := s.inFlight + 1))
    ensures var s1, q := Started(s, r), s.jobs[r].request;
            var s2 := BlockRun(s1, r, sends, rows);
            var s3 := CountedDown(s2, r);
            At(s2, r, Leaving) && s2.jobs[r].request == q && |s3.jobs| == |s.jobs| &&
            (q.policy == Interrupt && KeyOf(q) !in s.locked ==>
               s3.jobs[r].phase == Done && s3 == RenderDone(s, r, sends, rows)) &&
            (q.policy == SkipNew ==>
               s3.jobs[r].phase == Releasing && FinallyUnlocked(s3, r) == RenderDone(s, r, sends, rows))
  {
    hide KeyOf, Effects;
  }

  /** A scheduled call that has been admitted is about to render. */
  function ScheduledBegins(s: State, q: Request): State
  {
    var s1 := s.(jobs := s.jobs + [Job(q, BlockPhase(q), false)], loops := AfterFire(s.loops, q),
                 currentJob := Some(LoopJob(q.loop)), currentScheduled := Some(q.scheduleId));
    if q.policy == SkipNew then Lock(s1, |s.jobs|, KeyOf(q)) else s1
  }

  predicate ScheduledDropped(s: State, q: Request) { q.policy == SkipNew && KeyOf(q) in s.locked }

  lemma ScheduledAdmitted(s: State, q: Request)
    requires q.kind == Scheduled
    ensures var r, s1 := |s.jobs|, Arrived(s, q, true);
            |s1.jobs| == r + 1 && s1.jobs[r].request == q &&
            (ScheduledDropped(s, q) ==>
               s1 == s.(jobs := s.jobs + [Job(q, Dropped, false)], loops := AfterFire(s.loops, q))) &&
            (!ScheduledDropped(s, q) ==> s1.jobs[r].phase == Admitted && Stored(s1, r) == ScheduledBegins(s, q))
  {
    hide KeyOf, AfterFire;
  }

  lemma ScheduledLeaves(s: State, q: Request, sends: nat, rows: nat)
    requires q.kind == Scheduled
    ensures var r, s2, log := |s.jobs|, ScheduledBegins(s, q), RenderLog(|s.jobs|, q, sends, rows);
            AtBlock(s2, r) && s2.jobs[r].request == q && |s2.jobs| == r + 1 &&
            (q.policy == Interrupt ==> s2.locked == s.locked) &&
            BlockRun(s2, r, sends, rows)
            == s.(jobs := s.jobs + [Job(q, Leaving, false)], loops := AfterFire(s.loops, q),
                  currentJob := Some(LoopJob(q.loop)), currentScheduled := Some(q.scheduleId),
                  locked := if q.policy == SkipNew then s.locked + {KeyOf(q)} else s.locked,
                  log := s.log + if q.policy == SkipNew then log[..|log| - 1] else log)
  {
    hide KeyOf, Effects, AfterFire;
    assert BlockRun(ScheduledBegins(s, q), |s.jobs|, sends, rows).jobs == s.jobs + [Job(q, Leaving, false)];
  }

  lemma ScheduledFinishes(s: State, q: Request, sends: nat, rows: nat)
    requires q.kind == Scheduled && KeyOf(q) !in s.locked
    ensures var r, s3 := |s.jobs|, BlockRun(ScheduledBegins(s, q), |s.jobs|, sends, rows);
            At(s3, r, Leaving) && s3.jobs[r].request == q && At(FinallyUnlocked(s3, r), r, Clearing) &&
            Forgotten(FinallyUnlocked(s3, r), r)
            == s.(jobs := s.jobs + [Job(q, Done, false)], loops := AfterFire(s.loops, q), currentJob := None,
                  currentScheduled := None, log := s.log + RenderLog(r, q, sends, rows))
  {
    ScheduledLeaves(s, q, sends, rows);
    hide KeyOf, Effects, AfterFire, BlockRun, ScheduledBegins;
    var r, s3 := |s.jobs|, BlockRun(ScheduledBegins(s, q), |s.jobs|, sends, rows);
    var s4 := FinallyUnlocked(s3, r);
    assert s4.jobs == s.jobs + [Job(q, Clearing, false)];
    assert Forgotten(s4, r).jobs == s.jobs + [Job(q, Done, false)];
  }

  /** Is the coroutine that was the current job cancelled? */
  predicate JobCancelled(s: State, c: Option<Coroutine>)
  {
    match c
    case None => true
    case Some(RenderJob(t)) => t < |s.jobs| ==> s.jobs[t].cancelled
    case Some(LoopJob(l)) => l < |s.loops| ==> s.loops[l].cancelled
  }

  lemma ArrivesAs(s: State, q: Request, zoneOk: bool)
    requires q.kind != Scheduled
    ensures var r, s1 := |s.jobs|, Arrived(s, q, zoneOk);
            var phase := if q.kind == Immediate && !zoneOk then Rejected
                         else if q.policy == SkipNew && KeyOf(q) in s.locked then Dropped else Admitted;
            s1.jobs == s.jobs + [Job(q, phase, false)] && s1.loops == s.loops && s1.currentJob == s.currentJob &&
            s1.currentScheduled == s.currentScheduled && s1.inFlight == s.inFlight &&
            s1.locked == s.locked + (if q.policy == SkipNew && phase == Admitted then {KeyOf(q)} else {}) &&
            (phase != Admitted ==> s1.log == s.log)
  {
  }

  /** What an admitted display or broadcast comes to. */
  lemma GoesOn(s: State, s1: State, q: Request)
    requires s1.jobs == s.jobs + [Job(q, Admitted, false)] && s1.loops == s.loops && q.kind != Scheduled
    requires s1.currentJob == s.currentJob
    ensures var r := |s.jobs|;
            var s2 := CurrentCancelled(To(s1, r, Preempted), r);
            At(s2, r, Preempted) && s2.jobs[r].request == q &&
            var s3 := Proceeded(s2, r);
            |s3.jobs| == r + 1 && s3.jobs[r].phase == (if q.kind == Immediate then Queued else Sending) &&
            s3.locked == s1.locked && s3.inFlight == s1.inFlight && s3.currentScheduled == None &&
            s3.currentJob == (if q.kind == Immediate then Some(RenderJob(r)) else s.currentJob) &&
            JobCancelled(s3, s.currentJob)
  {
    hide KeyOf;
  }

  // ----- the service ----------------------------------------------------------------------------

  class Service {
    /** mutexes.getOrPut(key) { Mutex() }: the mutexes created so far, and whether each is locked. */
    var mutexes: map<Key, bool>
    var currentDisplayJob: Option<Coroutine>
    var currentScheduledId: Option<string>
    var inFlight: int
    /** The coroutines of the schedules, which the scheduler launches. */
    var loops: seq<Loop>
    /** Every request so far with its place in the code, and what they did: history, not fields of the service. */
    var jobs: seq<Job>
    var log: seq<Event>

    ghost function Locked(): set<Key>
      reads this`mutexes
    {
      set k | k in mutexes && mutexes[k]
    }

    ghost function Abstract(): State
      reads this
    {
      State(jobs, loops, Locked(), currentDisplayJob, currentScheduledId, inFlight, log)
    }

    /** The service is where some run of the machine leads, so what is proved of runs holds of it. */
    ghost predicate Valid()
      reads this
    {
      Sound(Abstract())
    }

    constructor ()
      ensures Valid() && Abstract() == INITIAL
    {
      mutexes, currentDisplayJob, currentScheduledId, inFlight := map[], None, None, 0;
      loops, jobs, log := [], [], [];
      new;
      RunsKeep([]);
      assert Abstract() == Run(INITIAL, []);
    }

    // ----- the sections -----

    method TryLock(r: Rid, key: Key) returns (ok: bool)
      modifies this`mutexes, this`log
      ensures ok <==> key !in old(Locked())
      ensures Abstract() == if ok then Lock(old(Abstract()), r, key) else old(Abstract())
    {
      if key !in mutexes { mutexes := mutexes[key := false]; }
      ok := !mutexes[key];
      if ok {
        mutexes := mutexes[key := true];
        log := log + [Took(r, key)];
      }
    }

    /** Mutex.unlock would throw on an unlocked mutex. */
    method UnlockMutex(r: Rid, key: Key)
      requires key in Locked()
      modifies this`mutexes, this`log
      ensures Abstract() == Unlock(old(Abstract()), r, key)
    {
      mutexes := mutexes[key := false];
      log := log + [Released(r, key)];
    }

    method MutexLocked(key: Key) returns (locked: bool)
      ensures locked <==> key in Locked()
    {
      locked := key in mutexes && mutexes[key];
    }

    method SetPhase(r: Rid, phase: Phase)
      requires r < |jobs|
      modifies this`jobs
      ensures Abstract() == To(old(Abstract()), r, phase)
    {
      jobs := jobs[r := jobs[r].(phase := phase)];
    }

    /** displayImmediate or displayScheduled up to the result of acquireMutex. */
    method Admit(q: Request, zoneOk: bool) returns (phase: Phase)
      requires Valid() && CanArrive(Abstract(), q)
      modifies this
      ensures Valid() && Abstract() == Arrived(old(Abstract()), q, zoneOk)
      ensures |jobs| == |old(jobs)| + 1 && phase == jobs[|old(jobs)|].phase
    {
      SectionKeepsSound(Abstract(), Arrive(q, zoneOk));
      hide Sound, CanArrive;
      var r := |jobs|;
      phase := Admitted;
      if q.kind == Immediate && !zoneOk {
        phase := Rejected;
      } else if q.policy == SkipNew {
        var ok := TryLock(r, KeyOf(q));
        if !ok { phase := Dropped; }
      }
      jobs := jobs + [Job(q, phase, false)];
      loops := AfterFire(loops, q);
    }

    /** currentDisplayJob?.cancel() */
    method CancelCurrentJob(r: Rid)
      requires Valid() && At(Abstract(), r, Admitted) && jobs[r].request.kind != Scheduled
      modifies this`jobs, this`loops, this`log
      ensures Valid() && Abstract() == CurrentCancelled(To(old(Abstract()), r, Preempted), r)
    {
      Cancels(Abstract(), r);
      hide Sound;
      SetPhase(r, Preempted);
      if currentDisplayJob.Some? { MarkAndLog(r, currentDisplayJob.value); }
    }

    method MarkAndLog(r: Rid, c: Coroutine)
      requires r < |jobs| && currentDisplayJob == Some(c)
      modifies this`jobs, this`loops, this`log
      ensures Abstract() == CurrentCancelled(old(Abstract()), r)
    {
      log := log + [CancelRequested(r, KeyOf(jobs[r].request))];
      match c
      case RenderJob(t) => if t < |jobs| { jobs := jobs[t := jobs[t].(cancelled := true)]; }
      case LoopJob(l) => if l < |loops| { loops := loops[l := loops[l].(cancelled := true)]; }
    }

    /** What displayImmediate does after pre-empting the current job. */
    method Proceed(r: Rid)
      requires Valid() && At(Abstract(), r, Preempted) && jobs[r].request.kind != Scheduled
      modifies this`jobs, this`currentScheduledId, this`currentDisplayJob
      ensures Valid() && Abstract() == Proceeded(old(Abstract()), r)
    {
      Proceeds(Abstract(), r);
      hide Sound;
      currentScheduledId := None;
      if jobs[r].request.kind == Immediate {
        SetPhase(r, Queued);
        currentDisplayJob := Some(RenderJob(r));
      } else {
        SetPhase(r, Sending);
      }
    }

    /** The start of renderImmediate: the counter goes up, and an INTERRUPT render still needs the mutex. */
    method StartRender(r: Rid)
      requires Valid() && At(Abstract(), r, Queued) && !jobs[r].cancelled
      modifies this`jobs, this`inFlight
      ensures Valid() && Abstract() == Started(old(Abstract()), r)
    {
      Starts(Abstract(), r);
      hide Sound, BlockPhase;
      inFlight := inFlight + 1;
      SetPhase(r, BlockPhase(jobs[r].request));
    }

    /** mutex.withLock, once the mutex is free. */
    method EnterBlock(r: Rid)
      requires Valid() && At(Abstract(), r, Waiting) && KeyOf(jobs[r].request) !in Locked()
      modifies this`jobs, this`mutexes, this`log
      ensures Valid() && Abstract() == Entered(old(Abstract()), r)
      ensures jobs[r].phase == Inside && OnePerBlock(Abstract())
    {
      Enters(Abstract(), r);
      SoundMeansOnePerBlock(Entered(Abstract(), r));
      hide Sound, OnePerBlock;
      SetPhase(r, Inside);
      var ok := TryLock(r, KeyOf(jobs[r].request));
    }

    method SendTimes(r: Rid, sends: nat)
      requires Valid() && (At(Abstract(), r, Inside) || At(Abstract(), r, Sending)) && Sends(jobs[r].request)
      modifies this`log
      ensures Valid() && Abstract() == old(Abstract()).(log := old(log) + Repeat(SentBy(r, jobs[r].request), sends))
    {
      hide Sound, SentBy, Sends, Repeat;
      ghost var s, e := Abstract(), SentBy(r, jobs[r].request);
      RepeatMore(e, 0);
      for k := 0 to sends
        invariant Valid() && Abstract() == s.(log := s.log + Repeat(e, k))
      {
        LogsSent(Abstract(), r);
        RepeatMore(e, k);
        log := log + [SentBy(r, jobs[r].request)];
      }
    }

    method RecordTimes(r: Rid, rows: nat)
      requires Valid() && (At(Abstract(), r, Inside) || At(Abstract(), r, Sending))
      modifies this`log
      ensures Valid()
      ensures Abstract() == old(Abstract()).(log := old(log) + Repeat(RecordedBy(r, jobs[r].request), rows))
    {
      hide Sound, RecordedBy, Repeat;
      ghost var s, e := Abstract(), RecordedBy(r, jobs[r].request);
      RepeatMore(e, 0);
      for k := 0 to rows
        invariant Valid() && Abstract() == s.(log := s.log + Repeat(e, k))
      {
        LogsRecorded(Abstract(), r);
        RepeatMore(e, k);
        log := log + [RecordedBy(r, jobs[r].request)];
      }
    }

    /** executeWithRecovery, or the broadcast, and then tryInsertHistory: so many attempts, and so many rows. */
    method SendAndRecord(r: Rid, sends: nat, rows: nat)
      requires Valid() && (At(Abstract(), r, Inside) || At(Abstract(), r, Sending))
      modifies this`log
      ensures Valid() && Abstract() == old(Abstract()).(log := old(log) + Effects(r, jobs[r].request, sends, rows))
    {
      hide Sound, SentBy, RecordedBy, Sends, Repeat;
      if Sends(jobs[r].request) { SendTimes(r, sends); }
      RecordTimes(r, rows);
    }

    /** The end of the block; only withLock unlocks here. */
    method ExitBlock(r: Rid)
      requires Valid() && At(Abstract(), r, Inside)
      modifies this`jobs, this`mutexes, this`log
      ensures Valid() && Abstract() == Exited(old(Abstract()), r)
    {
      Exits(Abstract(), r);
      hide Sound;
      if jobs[r].request.policy == Interrupt { UnlockMutex(r, KeyOf(jobs[r].request)); }
      SetPhase(r, Leaving);
    }

    /** The finally block of renderImmediate counts down first. */
    method CountDownRender(r: Rid)
      requires Valid() && At(Abstract(), r, Leaving) && jobs[r].request.kind == Immediate
      modifies this`jobs, this`inFlight
      ensures Valid() && Abstract() == CountedDown(old(Abstract()), r)
    {
      CountsDown(Abstract(), r);
      hide Sound, CountedPhase;
      inFlight := inFlight - 1;
      SetPhase(r, CountedPhase(jobs[r].request));
    }

    /** if (alreadyLocked) mutex.unlock(), in the finally block of either render. */
    method UnlockFinally(r: Rid)
      requires Valid()
      requires At(Abstract(), r, Releasing) || (At(Abstract(), r, Leaving) && jobs[r].request.kind == Scheduled)
      modifies this`jobs, this`mutexes, this`log
      ensures Valid() && Abstract() == FinallyUnlocked(old(Abstract()), r)
    {
      UnlocksFinally(Abstract(), r);
      SkipNewFindsLocked(Abstract(), r);
      hide Sound;
      var phase := if jobs[r].request.kind == Scheduled then Clearing else Done;
      if jobs[r].request.policy == SkipNew { UnlockMutex(r, KeyOf(jobs[r].request)); }
      SetPhase(r, phase);
    }

    /** The end of runScheduledRender, undisturbed. */
    method ForgetSchedule(r: Rid)
      requires Valid() && At(Abstract(), r, Clearing)
      modifies this`jobs, this`currentScheduledId, this`currentDisplayJob
      ensures Valid() && Abstract() == Forgotten(old(Abstract()), r)
      ensures var own := old(currentScheduledId) == Some(old(jobs)[r].request.scheduleId);
              currentScheduledId == (if own then None else old(currentScheduledId)) &&
              currentDisplayJob == if own then None else old(currentDisplayJob)
    {
      Forgets(Abstract(), r);
      hide Sound;
      if currentScheduledId == Some(jobs[r].request.scheduleId) {
        currentScheduledId := None;
        currentDisplayJob := None;
      }
      SetPhase(r, Done);
    }

    /** The end of broadcastImmediate. */
    method FinishBroadcast(r: Rid)
      requires Valid() && At(Abstract(), r, Sending)
      modifies this`jobs, this`mutexes, this`log
      ensures Valid() && Abstract() == BroadcastEnded(old(Abstract()), r)
    {
      EndsBroadcast(Abstract(), r);
      SkipNewFindsLocked(Abstract(), r);
      hide Sound;
      if jobs[r].request.policy == SkipNew { UnlockMutex(r, KeyOf(jobs[r].request)); }
      SetPhase(r, Done);
    }

    /** displayScheduled stores its schedule and its job before the render. */
    method StoreSchedule(r: Rid)
      requires Valid() && At(Abstract(), r, Admitted) && jobs[r].request.kind == Scheduled
      modifies this`jobs, this`currentScheduledId, this`currentDisplayJob
      ensures Valid() && Abstract() == Stored(old(Abstract()), r)
    {
      StoresSchedule(Abstract(), r);
      hide Sound, BlockPhase;
      currentScheduledId := Some(jobs[r].request.scheduleId);
      currentDisplayJob := Some(LoopJob(jobs[r].request.loop));
      SetPhase(r, BlockPhase(jobs[r].request));
    }

    // ----- whole calls, each undisturbed until it has to wait -----

    /**
     displayImmediate, which broadcasts if it is given no zone.  An unknown or offline zone, or under SKIP_NEW a
     zone whose mutex another request holds, turns the request away, and then locks, counter, log, current job,
     loops and schedule stay as they were, as do all earlier requests.  Otherwise the current job is cancelled,
     be it a render or the loop of a schedule, the current schedule forgotten, and exactly a SKIP_NEW request has
     locked the mutex of its zone.
     */
    method DisplayImmediate(q: Request, zoneOk: bool) returns (result: DisplayResult)
      requires Valid() && q.kind == if q.zone.Some? then Immediate else Broadcast
      modifies this
      ensures Valid() && |jobs| == |old(jobs)| + 1 && inFlight == old(inFlight)
      ensures result == ZoneUnavailable <==> q.zone.Some? && !zoneOk
      ensures result == Accepted(false) <==>
              (q.zone.Some? ==> zoneOk) && q.policy == SkipNew && old(Busy(Abstract(), q.zone))
      ensures result in {ZoneUnavailable, Accepted(false)} ==>
                jobs[..|old(jobs)|] == old(jobs) && Refused(jobs[|old(jobs)|]) && Locked() == old(Locked()) &&
                currentDisplayJob == old(currentDisplayJob) && currentScheduledId == old(currentScheduledId) &&
                loops == old(loops) && log == old(log)
      ensures result !in {ZoneUnavailable, Accepted(false)} ==>
                result == (if q.zone.None? then Broadcasting else Accepted(true)) &&
                jobs[|old(jobs)|].phase == (if q.zone.None? then Sending else Queued) &&
                Locked() == old(Locked()) + (if q.policy == Interrupt then {}
                                             else if q.zone.Some? then {q.zone.value} else {"broadcast"}) &&
                currentScheduledId == None && JobCancelled(Abstract(), old(currentDisplayJob)) &&
                currentDisplayJob == if q.zone.Some? then Some(RenderJob(|old(jobs)|)) else old(currentDisplayJob)
    {
      ghost var s := Abstract();
      ArrivesAs(s, q, zoneOk);
      LockedMeansBusy(s, q);
      KeyNames(q);
      hide Sound, Busy, KeyOf, Arrived, CurrentCancelled, Proceeded, JobCancelled;
      var r := |jobs|;
      var phase := Admit(q, zoneOk);
      if phase == Rejected { return ZoneUnavailable; }
      if phase == Dropped { return Accepted(false); }
      GoesOn(s, Arrived(s, q, zoneOk), q);
      CancelCurrentJob(r);
      Proceed(r);
      result := if q.kind == Broadcast then Broadcasting else Accepted(true);
    }

    /**
     withMutex around sending and recording.  Everything happens between taking the mutex and releasing it,
     except that a SKIP_NEW render took it before and releases it later.
     */
    method WithMutex(r: Rid, sends: nat, rows: nat) returns (waits: bool)
      requires Valid() && AtBlock(Abstract(), r)
      modifies this`jobs, this`mutexes, this`log
      ensures Valid()
      ensures waits <==> old(jobs)[r].request.policy == Interrupt && KeyOf(old(jobs)[r].request) in old(Locked())
      ensures waits <==> old(jobs)[r].request.policy == Interrupt && old(Busy(Abstract(), jobs[r].request.zone))
      ensures Abstract() == if waits then old(Abstract()) else BlockRun(old(Abstract()), r, sends, rows)
    {
      ghost var s := Abstract();
      LockedMeansBusy(s, jobs[r].request);
      hide Busy;
      waits := false;
      if jobs[r].phase == Waiting { waits := MutexLocked(KeyOf(jobs[r].request)); }
      if !waits {
        BlockIs(s, r, sends, rows);
        hide Sound, KeyOf, Effects, To, Lock, Unlock, BlockRun, Entered, Exited;
        if jobs[r].phase == Waiting { EnterBlock(r); }
        SendAndRecord(r, sends, rows);
        ExitBlock(r);
      }
    }

    /**
     renderImmediate.  An INTERRUPT render whose mutex is locked has counted itself in and waits.  Otherwise the
     render goes through its block, making so many attempts and, once one has succeeded, perhaps a row;
     afterwards its mutex is free and the counter is what it was.
     */
    method RenderImmediate(r: Rid, sends: nat, rows: nat) returns (waits: bool)
      requires Valid() && At(Abstract(), r, Queued) && !jobs[r].cancelled && rows <= 1 && rows <= sends
      modifies this`jobs, this`mutexes, this`log, this`inFlight
      ensures Valid()
      ensures waits <==> old(jobs)[r].request.policy == Interrupt && old(Busy(Abstract(), jobs[r].request.zone))
      ensures Abstract() == if waits then To(old(Abstract()), r, Waiting).(inFlight := old(inFlight) + 1)
                            else RenderDone(old(Abstract()), r, sends, rows)
    {
      LockedMeansBusy(Abstract(), jobs[r].request);
      hide Busy, Sound, KeyOf, Effects, BlockRun, RenderDone, CountedDown, FinallyUnlocked, AtBlock, Started, To;
      ghost var s := Abstract();
      Starts(s, r);
      RenderIs(s, r, sends, rows);
      StartRender(r);
      waits := WithMutex(r, sends, rows);
      if !waits {
        CountDownRender(r);
        if jobs[r].phase == Releasing { UnlockFinally(r); }
      }
    }

    /**
     displayScheduled, called by an awake loop.  A SKIP_NEW call whose mutex is locked is dropped and changes
     nothing else; an INTERRUPT call whose mutex is locked has made its loop the current job and waits.  Otherwise
     the call returns whether the block succeeded, and afterwards its mutex is free again and no job or
     schedule is current.  Without a zone it has sent nothing, whatever it returns and records.
     */
    method DisplayScheduled(q: Request, sends: nat, succeeds: bool, rows: nat) returns (result: ScheduledResult)
      requires Valid() && q.kind == Scheduled && CanArrive(Abstract(), q) && rows <= if succeeds then 1 else 0
      modifies this
      ensures Valid()
      ensures var s := old(Abstract()).(loops := AfterFire(old(loops), q));
              if old(Busy(Abstract(), q.zone))
              then result == (if q.policy == SkipNew then Displayed(false) else StillWaiting) &&
                   Abstract() == if q.policy == SkipNew then s.(jobs := s.jobs + [Job(q, Dropped, false)])
                                 else s.(jobs := s.jobs + [Job(q, Waiting, false)], currentJob := Some(LoopJob(q.loop)),
                                         currentScheduled := Some(q.scheduleId))
              else result == Displayed(succeeds) &&
                   Abstract() == s.(jobs := s.jobs + [Job(q, Done, false)], currentJob := None,
                                    currentScheduled := None, log := s.log + RenderLog(|s.jobs|, q, sends, rows))
    {
      ghost var s := Abstract();
      LockedMeansBusy(s, q);
      hide Busy;
      ScheduledAdmitted(s, q);
      ScheduledLeaves(s, q, sends, rows);
      if KeyOf(q) !in s.locked { ScheduledFinishes(s, q, sends, rows); }
      assert ScheduledDropped(s, q) <==> q.policy == SkipNew && KeyOf(q) in s.locked;
      hide Sound, KeyOf, CanArrive, Effects, BlockRun, RenderLog;
      hide Arrived, AfterFire, Stored, FinallyUnlocked, Forgotten;
      var r := |jobs|;
      var phase := Admit(q, true);
      if phase == Dropped { return Displayed(false); }
      StoreSchedule(r);
      var waits := WithMutex(r, sends, rows);
      if waits { return StillWaiting; }
      UnlockFinally(r);
      ForgetSchedule(r);
      result := Displayed(succeeds);
    }

    /**
     broadcastImmediate: so many zones are sent to, so many of them get a row, and then a SKIP_NEW mutex is
     free again.
     */
    method BroadcastImmediate(r: Rid, sends: nat, rows: nat)
      requires Valid() && At(Abstract(), r, Sending) && rows <= sends
      modifies this`jobs, this`mutexes, this`log
      ensures Valid() && jobs == To(old(Abstract()), r, Done).jobs
      ensures var q := old(jobs)[r].request;
              var key, guarded := if q.zone.Some? then q.zone.value else "broadcast", q.policy == SkipNew;
              var effects := seq(sends, _ => Event.Sent(r, key, guarded)) + seq(rows, _ => Recorded(r, key, guarded));
              if q.policy == SkipNew
              then Locked() == old(Locked()) - {key} && key in old(Locked()) &&
                   log == old(log) + effects + [Released(r, key)]
              else Locked() == old(Locked()) && log == old(log) + effects
    {
      SkipNewFindsLocked(Abstract(), r);
      PhaseOf(Abstract(), r);
      KeyNames(jobs[r].request);
      EffectsAre(r, jobs[r].request, sends, rows, KeyOf(jobs[r].request));
      hide Sound, KeyOf, Effects;
      SendAndRecord(r, sends, rows);
      FinishBroadcast(r);
    }
  }
}
