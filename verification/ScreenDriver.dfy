/**
 ScreenDriverService: display requests and the mutex each of them takes, per zone or for "broadcast".
 Under SKIP_NEW the caller takes the mutex and the render releases it; under INTERRUPT the render takes
 and releases it itself.  The state machine advances one request by one atomic section at a time.
 */
module ScreenDriver {
  import opened Wrappers

  type Key = string
  type Rid = nat
  type LoopId = nat

  datatype Policy = SkipNew | Interrupt

  /** Immediate: displayImmediate with a zone, rendered by a launched job; Broadcast: without one. */
  datatype Kind = Immediate | Broadcast | Scheduled

  /** A scheduled request is a fire of schedule `scheduleId`, made by the coroutine `loop`. */
  datatype Request = Request(kind: Kind, zone: Option<Key>, policy: Policy, scheduleId: string, loop: LoopId)

  /** The key of the mutex: a zone named "broadcast" shares the broadcasts' mutex. */
  function KeyOf(q: Request): Key { if q.zone.Some? then q.zone.value else "broadcast" }

  /** Requests for one zone compete for one mutex, whatever their kinds and policies. */
  predicate SameZone(a: Option<Key>, b: Option<Key>)
  {
    a == b || (a == None && b == Some("broadcast")) || (a == Some("broadcast") && b == None)
  }

  lemma SharesMutexIff(a: Request, b: Request)
    ensures KeyOf(a) == KeyOf(b) <==> SameZone(a.zone, b.zone)
  {
  }

  datatype Phase =
    | Rejected     // zone unknown or OFFLINE
    | Dropped      // SKIP_NEW found the mutex locked
    | Admitted     // acquireMutex returned the mutex
    | Preempted    // the current job has been cancelled
    | Cleared      // currentScheduledId has been cleared
    | Registered   // displayScheduled has stored its schedule id
    | Queued       // the job is launched
    | Waiting      // inside the render, before the mutex (INTERRUPT)
    | Inside       // in the block that withMutex guards
    | Sending      // in broadcastImmediate
    | Leaving      // the block is over, the finally block is not
    | Releasing    // Immediate: the in-flight counter is already down
    | Clearing     // Scheduled: before it looks whether the current id is its own
    | ClearingId   // it is, and is about to be cleared
    | ClearingJob  // the id is cleared, the job is about to be
    | Abandoned    // cancelled before the job started, or while broadcasting
    | Done

  /** A request; `cancelled` is that of the job that renders it, unless that is the job of a loop. */
  datatype Job = Job(request: Request, phase: Phase, cancelled: bool)

  /** The coroutine of a schedule; awake between the end of a delay and the fire that follows. */
  datatype Loop = Loop(scheduleId: string, cancelled: bool, awake: bool)

  /** A fire renders in the coroutine of its loop, so that the loop's job is what becomes the current job. */
  datatype Coroutine = RenderJob(r: Rid) | LoopJob(l: LoopId)

  /** `guarded` tells a render, which needs the mutex, from an INTERRUPT broadcast, which never takes it. */
  datatype Event =
    | Took(r: Rid, key: Key)
    | Released(r: Rid, key: Key)
    | Sent(r: Rid, key: Key, guarded: bool)
    | Recorded(r: Rid, key: Key, guarded: bool)
    | CancelRequested(r: Rid, key: Key)

  datatype State = State(
    jobs: seq<Job>, loops: seq<Loop>, locked: set<Key>, currentJob: Option<Coroutine>,
    currentScheduled: Option<string>, inFlight: int, log: seq<Event>)

  const INITIAL := State([], [], {}, None, None, 0, [])

  datatype Action =
    | LaunchLoop(scheduleId: string)
    | Wake(l: LoopId)
    | Arrive(request: Request, zoneOk: bool)
    | CancelCurrent(r: Rid)
    | ClearScheduled(r: Rid)
    | LaunchJob(r: Rid)
    | BeginBroadcast(r: Rid)
    | StoreScheduled(r: Rid)
    | StoreJob(r: Rid)
    | StartJob(r: Rid)
    | AbandonJob(r: Rid)
    | TakeMutex(r: Rid)
    | GiveUpWaiting(r: Rid)
    | SendText(r: Rid)
    | RecordHistory(r: Rid)
    | LeaveBlock(r: Rid)
    | CountDown(r: Rid)
    | FinallyUnlock(r: Rid)
    | CheckOwnSchedule(r: Rid)
    | ForgetId(r: Rid)
    | ForgetJob(r: Rid)
    | EndBroadcast(r: Rid)
    | AbandonBroadcast(r: Rid)
    | CancelFromOutside(c: Coroutine)

  predicate At(s: State, r: Rid, phase: Phase) { r < |s.jobs| && s.jobs[r].phase == phase }

  function To(s: State, r: Rid, phase: Phase): State
    requires r < |s.jobs|
  {
    s.(jobs := s.jobs[r := s.jobs[r].(phase := phase)])
  }

  function Lock(s: State, r: Rid, key: Key): State { s.(locked := s.locked + {key}, log := s.log + [Took(r, key)]) }

  function Unlock(s: State, r: Rid, key: Key): State
  {
    s.(locked := s.locked - {key}, log := s.log + [Released(r, key)])
  }

  predicate Guarded(q: Request) { q.kind != Broadcast || q.policy == SkipNew }

  /** A scheduled request without a zone goes through its render without sending anything. */
  predicate Sends(q: Request) { q.zone.Some? || q.kind == Broadcast }

  predicate FireOf(j: Job, l: LoopId) { j.request.kind == Scheduled && j.request.loop == l }

  /** No fire of loop l is under way. */
  predicate Idle(s: State, l: LoopId)
  {
    forall r | 0 <= r < |s.jobs| && FireOf(s.jobs[r], l) :: s.jobs[r].phase in {Dropped, Done}
  }

  /** displayImmediate broadcasts exactly when it is given no zone; a fire comes from its loop. */
  predicate CanArrive(s: State, q: Request)
  {
    match q.kind
    case Immediate => q.zone.Some?
    case Broadcast => q.zone.None?
    case Scheduled => q.loop < |s.loops| && s.loops[q.loop].awake && s.loops[q.loop].scheduleId == q.scheduleId
  }

  /** The loop that makes a fire is no longer awake for it. */
  function AfterFire(loops: seq<Loop>, q: Request): seq<Loop>
  {
    if q.kind == Scheduled && q.loop < |loops| then loops[q.loop := loops[q.loop].(awake := false)] else loops
  }

  /** A request comes in: displayImmediate or displayScheduled up to the result of acquireMutex. */
  function Arrived(s: State, q: Request, zoneOk: bool): State
  {
    var r, key := |s.jobs|, KeyOf(q);
    var phase :=
      if q.kind == Immediate && !zoneOk then Rejected
      else if q.policy == SkipNew && key in s.locked then Dropped
      else Admitted;
    var s1 := s.(jobs := s.jobs + [Job(q, phase, false)], loops := AfterFire(s.loops, q));
    if phase == Admitted && q.policy == SkipNew then Lock(s1, r, key) else s1
  }

  function Marked(s: State, c: Coroutine): State
  {
    match c
    case RenderJob(r) => if r < |s.jobs| then s.(jobs := s.jobs[r := s.jobs[r].(cancelled := true)]) else s
    case LoopJob(l) => if l < |s.loops| then s.(loops := s.loops[l := s.loops[l].(cancelled := true)]) else s
  }

  /** Is the coroutine that renders request r cancelled? */
  predicate IsCancelled(s: State, r: Rid)
    requires r < |s.jobs|
  {
    var q := s.jobs[r].request;
    if q.kind == Scheduled then q.loop < |s.loops| && s.loops[q.loop].cancelled else s.jobs[r].cancelled
  }

  // ----- what the sections do -----

  /** Request r has the current job, if there is one, cancelled. */
  function CurrentCancelled(s: State, r: Rid): State
    requires r < |s.jobs|
  {
    if s.currentJob.None? then s
    else Marked(s, s.currentJob.value).(log := s.log + [CancelRequested(r, KeyOf(s.jobs[r].request))])
  }

  /** Where withMutex begins: a SKIP_NEW request has its mutex already. */
  function BlockPhase(q: Request): Phase { if q.policy == SkipNew then Inside else Waiting }

  function Started(s: State, r: Rid): State
    requires r < |s.jobs|
  {
    To(s, r, BlockPhase(s.jobs[r].request)).(inFlight := s.inFlight + 1)
  }

  function Entered(s: State, r: Rid): State
    requires r < |s.jobs|
  {
    Lock(To(s, r, Inside), r, KeyOf(s.jobs[r].request))
  }

  function SentBy(r: Rid, q: Request): Event { Event.Sent(r, KeyOf(q), Guarded(q)) }

  function RecordedBy(r: Rid, q: Request): Event { Recorded(r, KeyOf(q), Guarded(q)) }

  function Exited(s: State, r: Rid): State
    requires r < |s.jobs|
  {
    if s.jobs[r].request.policy == SkipNew then To(s, r, Leaving)
    else Unlock(To(s, r, Leaving), r, KeyOf(s.jobs[r].request))
  }

  /** After counting down a SKIP_NEW mutex is still to be released. */
  function CountedPhase(q: Request): Phase { if q.policy == SkipNew then Releasing else Done }

  function CountedDown(s: State, r: Rid): State
    requires r < |s.jobs|
  {
    To(s, r, CountedPhase(s.jobs[r].request)).(inFlight := s.inFlight - 1)
  }

  /** In the finally block of either render only a SKIP_NEW mutex is unlocked. */
  function FinallyUnlocked(s: State, r: Rid): State
    requires r < |s.jobs|
  {
    var s1 := To(s, r, if s.jobs[r].request.kind == Scheduled then Clearing else Done);
    if s.jobs[r].request.policy == SkipNew then Unlock(s1, r, KeyOf(s.jobs[r].request)) else s1
  }

  function BroadcastEnded(s: State, r: Rid): State
    requires r < |s.jobs|
  {
    if s.jobs[r].request.policy == SkipNew then Unlock(To(s, r, Done), r, KeyOf(s.jobs[r].request))
    else To(s, r, Done)
  }

  /** One atomic section; an action that is not next for its request changes nothing. */
  function Step(s: State, a: Action): State
  {
    match a
    case LaunchLoop(id) => s.(loops := s.loops + [Loop(id, false, false)])
    case Wake(l) =>
      if l < |s.loops| && !s.loops[l].cancelled && Idle(s, l)
      then s.(loops := s.loops[l := s.loops[l].(awake := true)]) else s
    case Arrive(q, zoneOk) => if CanArrive(s, q) then Arrived(s, q, zoneOk) else s
    case CancelCurrent(r) =>
      if At(s, r, Admitted) && s.jobs[r].request.kind != Scheduled then CurrentCancelled(To(s, r, Preempted), r) else s
    case ClearScheduled(r) => if At(s, r, Preempted) then To(s, r, Cleared).(currentScheduled := None) else s
    case LaunchJob(r) =>
      if At(s, r, Cleared) && s.jobs[r].request.kind == Immediate
      then To(s, r, Queued).(currentJob := Some(RenderJob(r))) else s
    case BeginBroadcast(r) =>
      if At(s, r, Cleared) && s.jobs[r].request.kind == Broadcast then To(s, r, Sending) else s
    case StoreScheduled(r) =>
      if At(s, r, Admitted) && s.jobs[r].request.kind == Scheduled
      then To(s, r, Registered).(currentScheduled := Some(s.jobs[r].request.scheduleId)) else s
    case StoreJob(r) =>
      if At(s, r, Registered)
      then To(s, r, BlockPhase(s.jobs[r].request)).(currentJob := Some(LoopJob(s.jobs[r].request.loop))) else s
    case StartJob(r) => if At(s, r, Queued) && !s.jobs[r].cancelled then Started(s, r) else s
    case AbandonJob(r) => if At(s, r, Queued) && s.jobs[r].cancelled then To(s, r, Abandoned) else s
    case TakeMutex(r) => if At(s, r, Waiting) && KeyOf(s.jobs[r].request) !in s.locked then Entered(s, r) else s
    case GiveUpWaiting(r) => if At(s, r, Waiting) && IsCancelled(s, r) then To(s, r, Leaving) else s
    case SendText(r) =>
      if (At(s, r, Inside) || At(s, r, Sending)) && Sends(s.jobs[r].request)
      then s.(log := s.log + [SentBy(r, s.jobs[r].request)]) else s
    case RecordHistory(r) =>
      if At(s, r, Inside) || At(s, r, Sending) then s.(log := s.log + [RecordedBy(r, s.jobs[r].request)]) else s
    case LeaveBlock(r) => if At(s, r, Inside) then Exited(s, r) else s
    case CountDown(r) =>
      if At(s, r, Leaving) && s.jobs[r].request.kind == Immediate then CountedDown(s, r) else s
    case FinallyUnlock(r) =>
      if At(s, r, Releasing) || (At(s, r, Leaving) && s.jobs[r].request.kind == Scheduled)
      then FinallyUnlocked(s, r) else s
    case CheckOwnSchedule(r) =>
      if At(s, r, Clearing)
      then To(s, r, if s.currentScheduled == Some(s.jobs[r].request.scheduleId) then ClearingId else Done)
      else s
    case ForgetId(r) => if At(s, r, ClearingId) then To(s, r, ClearingJob).(currentScheduled := None) else s
    case ForgetJob(r) => if At(s, r, ClearingJob) then To(s, r, Done).(currentJob := None) else s
    case EndBroadcast(r) => if At(s, r, Sending) then BroadcastEnded(s, r) else s
    case AbandonBroadcast(r) => if At(s, r, Sending) && s.jobs[r].cancelled then To(s, r, Abandoned) else s
    case CancelFromOutside(c) => Marked(s, c)
  }

  function Run(s: State, actions: seq<Action>): State
  {
    if actions == [] then s else Step(Run(s, actions[..|actions| - 1]), actions[|actions| - 1])
  }

  // ----- the log --------------------------------------------------------------------------------

  /** Who holds which mutex after the events of the log. */
  function Holders(log: seq<Event>): map<Key, Rid>
  {
    if log == [] then map[] else After(Holders(log[..|log| - 1]), log[|log| - 1])
  }

  function After(holders: map<Key, Rid>, e: Event): map<Key, Rid>
  {
    if e.Took? then holders[e.key := e.r] else if e.Released? then holders - {e.key} else holders
  }

  /** A mutex is taken only when free, released only by its holder, and a guarded render is its holder. */
  ghost predicate Lawful(holders: map<Key, Rid>, e: Event)
  {
    match e
    case Took(_, key) => key !in holders
    case Released(r, key) => key in holders && holders[key] == r
    case Sent(r, key, guarded) => guarded ==> key in holders && holders[key] == r
    case Recorded(r, key, guarded) => guarded ==> key in holders && holders[key] == r
    case CancelRequested(_, _) => true
  }

  ghost predicate Disciplined(log: seq<Event>)
  {
    log == [] || (Disciplined(log[..|log| - 1]) && Lawful(Holders(log[..|log| - 1]), log[|log| - 1]))
  }

  // ----- what every section keeps ---------------------------------------------------------------

  /** Between taking and releasing: under SKIP_NEW from admission on, under INTERRUPT inside the block. */
  predicate HoldsMutex(j: Job)
  {
    if j.request.policy == SkipNew
    then j.phase in {Admitted, Preempted, Cleared, Registered, Queued, Inside, Sending, Leaving, Releasing, Abandoned}
    else j.phase == Inside
  }

  ghost predicate LocksMatch(s: State)
  {
    var h := Holders(s.log);
    h.Keys == s.locked &&
    (forall r | 0 <= r < |s.jobs| && HoldsMutex(s.jobs[r]) ::
       KeyOf(s.jobs[r].request) in h && h[KeyOf(s.jobs[r].request)] == r) &&
    (forall k | k in h :: h[k] < |s.jobs| && HoldsMutex(s.jobs[h[k]]) && KeyOf(s.jobs[h[k]].request) == k)
  }

  /** Refused at the door. */
  predicate Refused(j: Job) { j.phase in {Rejected, Dropped} }

  /** The phases from which the mutex has been taken, or never will be. */
  predicate MayHaveTaken(j: Job)
  {
    if j.request.policy == SkipNew then !Refused(j)
    else j.phase in {Inside, Leaving, Releasing, Clearing, ClearingId, ClearingJob, Done}
  }

  predicate MayHaveReleased(j: Job)
  {
    j.phase in {Clearing, ClearingId, ClearingJob, Done} ||
    (j.request.policy == Interrupt && j.phase in {Leaving, Releasing})
  }

  /** Which phases a request can be in. */
  predicate PhaseFits(j: Job)
  {
    match j.phase
    case Dropped => j.request.policy == SkipNew
    case Preempted => j.request.kind != Scheduled
    case Cleared => j.request.kind != Scheduled
    case Registered => j.request.kind == Scheduled
    case Queued => j.request.kind == Immediate
    case Waiting => j.request.policy == Interrupt && j.request.kind != Broadcast
    case Inside => j.request.kind != Broadcast
    case Sending => j.request.kind == Broadcast
    case Leaving => j.request.kind != Broadcast
    case Releasing => j.request.kind == Immediate && j.request.policy == SkipNew
    case Clearing => j.request.kind == Scheduled
    case ClearingId => j.request.kind == Scheduled
    case ClearingJob => j.request.kind == Scheduled
    case Abandoned => j.request.kind != Scheduled && j.cancelled
    case _ => true
  }

  ghost predicate EventsFit(s: State)
  {
    forall i | 0 <= i < |s.log| ::
      s.log[i].r < |s.jobs| && !Refused(s.jobs[s.log[i].r]) &&
      (s.log[i].Took? ==> MayHaveTaken(s.jobs[s.log[i].r])) &&
      (s.log[i].Released? ==> MayHaveReleased(s.jobs[s.log[i].r]))
  }

  /** No request takes a mutex twice or releases one twice. */
  ghost predicate OnceEach(log: seq<Event>)
  {
    forall i, j | 0 <= i < j < |log| && ((log[i].Took? && log[j].Took?) || (log[i].Released? && log[j].Released?)) ::
      log[i].r != log[j].r
  }

  ghost predicate PhasesFit(s: State) { forall r | 0 <= r < |s.jobs| :: PhaseFits(s.jobs[r]) }

  ghost predicate Inv(s: State)
  {
    LocksMatch(s) && Disciplined(s.log) && EventsFit(s) && OnceEach(s.log) && PhasesFit(s)
  }

  lemma LogAppended(log: seq<Event>, e: Event)
    ensures Holders(log + [e]) == After(Holders(log), e)
    ensures Disciplined(log + [e]) <==> Disciplined(log) && Lawful(Holders(log), e)
  {
    assert (log + [e])[..|log|] == log;
  }

  /** A request moves on without touching mutex or log. */
  lemma MoveKeeps(s: State, s': State, r: Rid)
    requires Inv(s) && r < |s.jobs| && |s'.jobs| == |s.jobs| && s'.locked == s.locked && s'.log == s.log
    requires forall q | 0 <= q < |s.jobs| && q != r :: s'.jobs[q] == s.jobs[q]
    requires var j, j' := s.jobs[r], s'.jobs[r];
             j'.request == j.request && HoldsMutex(j') == HoldsMutex(j) && PhaseFits(j') &&
             (Refused(j') ==> Refused(j)) && (MayHaveTaken(j) ==> MayHaveTaken(j')) &&
             (MayHaveReleased(j) ==> MayHaveReleased(j'))
    ensures Inv(s')
  {
    hide Holders, Disciplined, HoldsMutex, MayHaveTaken, MayHaveReleased, PhaseFits, OnceEach;
    assert LocksMatch(s');
    assert EventsFit(s');
  }

  /** A request sends, records or asks for a cancellation. */
  lemma LogKeeps(s: State, e: Event)
    requires Inv(s) && !e.Took? && !e.Released? && e.r < |s.jobs| && !Refused(s.jobs[e.r]) && Lawful(Holders(s.log), e)
    ensures Inv(s.(log := s.log + [e]))
  {
    LogAppended(s.log, e);
    hide Holders, Disciplined, HoldsMutex, MayHaveTaken, MayHaveReleased, PhaseFits;
    var s' := s.(log := s.log + [e]);
    assert LocksMatch(s');
    assert EventsFit(s');
    assert OnceEach(s'.log);
  }

  /** A request that holds nothing takes a free mutex. */
  lemma TakeKeeps(s: State, s': State, r: Rid, key: Key)
    requires Inv(s) && key !in s.locked && r < |s'.jobs| && |s.jobs| <= |s'.jobs| <= |s.jobs| + 1
    requires s'.log == s.log + [Took(r, key)] && s'.locked == s.locked + {key}
    requires forall q | 0 <= q < |s.jobs| && q != r :: s'.jobs[q] == s.jobs[q]
    requires |s.jobs| < |s'.jobs| ==> r == |s.jobs|
    requires var j' := s'.jobs[r];
             HoldsMutex(j') && KeyOf(j'.request) == key && MayHaveTaken(j') && PhaseFits(j') && !Refused(j')
    requires r < |s.jobs| ==>
               s'.jobs[r].request == s.jobs[r].request && !HoldsMutex(s.jobs[r]) && !MayHaveTaken(s.jobs[r]) &&
               (MayHaveReleased(s.jobs[r]) ==> MayHaveReleased(s'.jobs[r]))
    ensures Inv(s')
  {
    LogAppended(s.log, Took(r, key));
    hide Holders, Disciplined, HoldsMutex, MayHaveTaken, MayHaveReleased, PhaseFits, Refused;
    assert LocksMatch(s');
    assert EventsFit(s');
    assert OnceEach(s'.log);
  }

  lemma ReleaseKeepsLocks(s: State, s': State, r: Rid, key: Key)
    requires LocksMatch(s) && r < |s.jobs| && |s'.jobs| == |s.jobs| && key == KeyOf(s.jobs[r].request)
    requires Holders(s'.log) == Holders(s.log) - {key} && s'.locked == s.locked - {key}
    requires forall q | 0 <= q < |s.jobs| && q != r :: s'.jobs[q] == s.jobs[q]
    requires s'.jobs[r].request == s.jobs[r].request && HoldsMutex(s.jobs[r]) && !HoldsMutex(s'.jobs[r])
    ensures LocksMatch(s')
  {
    hide Holders, HoldsMutex, KeyOf;
    var h, h' := Holders(s.log), Holders(s'.log);
    forall q | 0 <= q < |s'.jobs| && HoldsMutex(s'.jobs[q])
      ensures KeyOf(s'.jobs[q].request) in h' && h'[KeyOf(s'.jobs[q].request)] == q
    {
      assert h[KeyOf(s.jobs[q].request)] == q;
    }
  }

  /** A request that holds its mutex releases it. */
  lemma ReleaseKeeps(s: State, s': State, r: Rid)
    requires Inv(s) && r < |s.jobs| && |s'.jobs| == |s.jobs|
    requires var key := KeyOf(s.jobs[r].request); s'.log == s.log + [Released(r, key)] && s'.locked == s.locked - {key}
    requires forall q | 0 <= q < |s.jobs| && q != r :: s'.jobs[q] == s.jobs[q]
    requires var j, j' := s.jobs[r], s'.jobs[r];
             j'.request == j.request && HoldsMutex(j) && !HoldsMutex(j') && PhaseFits(j') &&
             !Refused(j) && !Refused(j') && (MayHaveTaken(j) ==> MayHaveTaken(j')) &&
             !MayHaveReleased(j) && MayHaveReleased(j')
    ensures Inv(s')
  {
    LogAppended(s.log, Released(r, KeyOf(s.jobs[r].request)));
    hide Holders, Disciplined, HoldsMutex, MayHaveTaken, MayHaveReleased, PhaseFits, Refused;
    ReleaseKeepsLocks(s, s', r, KeyOf(s.jobs[r].request));
    hide LocksMatch;
    assert EventsFit(s');
    assert OnceEach(s'.log);
  }

  lemma MarkKeeps(s: State, c: Coroutine)
    requires Inv(s)
    ensures Inv(Marked(s, c))
  {
    if c.RenderJob? && c.r < |s.jobs| {
      MarkedFits(s.jobs[c.r]);
      hide Inv, HoldsMutex, MayHaveTaken, MayHaveReleased, PhaseFits, Refused;
      assert PhaseFits(s.jobs[c.r]) by { PhaseOf(s, c.r); }
      MoveKeeps(s, Marked(s, c), c.r);
    } else {
      SameJobsKeep(s, Marked(s, c));
    }
  }

  lemma SameJobsKeep(s: State, s': State)
    requires Inv(s) && s'.jobs == s.jobs && s'.locked == s.locked && s'.log == s.log
    ensures Inv(s')
  {
  }

  lemma PhaseOf(s: State, r: Rid)
    requires Inv(s) && r < |s.jobs|
    ensures PhaseFits(s.jobs[r])
  {
  }

  lemma MarkedFits(j: Job)
    ensures var j' := j.(cancelled := true);
            HoldsMutex(j') == HoldsMutex(j) && (PhaseFits(j) ==> PhaseFits(j')) && Refused(j') == Refused(j) &&
            MayHaveTaken(j') == MayHaveTaken(j) && MayHaveReleased(j') == MayHaveReleased(j)
  {
  }

  lemma ArriveKeeps(s: State, q: Request, zoneOk: bool)
    requires Inv(s)
    ensures Inv(Arrived(s, q, zoneOk))
  {
    var s' := Arrived(s, q, zoneOk);
    var r := |s.jobs|;
    if s'.jobs[r].phase == Admitted && q.policy == SkipNew {
      TakeKeeps(s, s', r, KeyOf(q));
    } else {
      hide Holders, Disciplined, PhaseFits, MayHaveTaken, MayHaveReleased;
      assert LocksMatch(s');
      assert EventsFit(s');
      assert PhaseFits(s'.jobs[r]) by { NewFits(s'.jobs[r]); }
    }
  }

  lemma NewFits(j: Job)
    requires j.phase in {Rejected, Admitted} || (j.phase == Dropped && j.request.policy == SkipNew)
    ensures PhaseFits(j)
  {
  }

  lemma CancelCurrentKeeps(s: State, r: Rid)
    requires Inv(s)
    ensures Inv(Step(s, CancelCurrent(r)))
  {
    if At(s, r, Admitted) && s.jobs[r].request.kind != Scheduled {
      hide Inv, KeyOf;
      var s1 := To(s, r, Preempted);
      PhaseOf(s, r);
      PlainMoveKeeps(s, s1, r, Preempted);
      if s.currentJob.Some? {
        var s2 := Marked(s1, s.currentJob.value);
        MarkKeeps(s1, s.currentJob.value);
        AsksKeeps(s2, CancelRequested(r, KeyOf(s.jobs[r].request)));
      }
    }
  }

  lemma AsksKeeps(s: State, e: Event)
    requires Inv(s) && e.CancelRequested? && e.r < |s.jobs| && !Refused(s.jobs[e.r])
    ensures Inv(s.(log := s.log + [e]))
  {
    LogKeeps(s, e);
  }

  lemma EffectKeeps(s: State, r: Rid, e: Event)
    requires Inv(s) && (At(s, r, Inside) || At(s, r, Sending))
    requires e == SentBy(r, s.jobs[r].request) || e == RecordedBy(r, s.jobs[r].request)
    ensures Inv(s.(log := s.log + [e]))
  {
    hide Holders, Disciplined;
    PhaseOf(s, r);
    assert Guarded(s.jobs[r].request) ==> HoldsMutex(s.jobs[r]);
    assert HoldsMutex(s.jobs[r]) ==> Holders(s.log)[KeyOf(s.jobs[r].request)] == r;
    LogKeeps(s, e);
  }

  /** A request's move within its life: what MoveKeeps asks of the job alone. */
  ghost predicate PlainMove(j: Job, phase: Phase)
  {
    var j' := j.(phase := phase);
    HoldsMutex(j') == HoldsMutex(j) && PhaseFits(j') && (Refused(j') ==> Refused(j)) &&
    (MayHaveTaken(j) ==> MayHaveTaken(j')) && (MayHaveReleased(j) ==> MayHaveReleased(j'))
  }

  lemma PlainMoveKeeps(s: State, s': State, r: Rid, phase: Phase)
    requires Inv(s) && r < |s.jobs| && PlainMove(s.jobs[r], phase)
    requires s'.jobs == To(s, r, phase).jobs && s'.locked == s.locked && s'.log == s.log
    ensures Inv(s')
  {
    hide Inv, HoldsMutex, MayHaveTaken, MayHaveReleased, PhaseFits, Refused;
    MoveKeeps(s, s', r);
  }

  lemma AdmissionKeeps(s: State, a: Action)
    requires Inv(s) && (a.ClearScheduled? || a.LaunchJob? || a.BeginBroadcast? || a.StoreScheduled? || a.StoreJob?)
    ensures Inv(Step(s, a))
  {
    hide Inv;
    var s' := Step(s, a);
    if a.r < |s.jobs| && s' != s {
      PhaseOf(s, a.r);
      PlainMoveKeeps(s, s', a.r, s'.jobs[a.r].phase);
    }
  }

  lemma JobKeeps(s: State, a: Action)
    requires Inv(s)
    requires a.StartJob? || a.AbandonJob? || a.GiveUpWaiting? || a.AbandonBroadcast? || a.CountDown?
    ensures Inv(Step(s, a))
  {
    hide Inv;
    var s' := Step(s, a);
    if a.r < |s.jobs| && s' != s {
      PhaseOf(s, a.r);
      PlainMoveKeeps(s, s', a.r, s'.jobs[a.r].phase);
    }
  }

  lemma ForgettingKeeps(s: State, a: Action)
    requires Inv(s) && (a.CheckOwnSchedule? || a.ForgetId? || a.ForgetJob?)
    ensures Inv(Step(s, a))
  {
    hide Inv;
    var s' := Step(s, a);
    if a.r < |s.jobs| && s' != s {
      PhaseOf(s, a.r);
      PlainMoveKeeps(s, s', a.r, s'.jobs[a.r].phase);
    }
  }

  lemma TakeMutexKeeps(s: State, r: Rid)
    requires Inv(s)
    ensures Inv(Step(s, TakeMutex(r)))
  {
    hide Inv;
    if At(s, r, Waiting) && KeyOf(s.jobs[r].request) !in s.locked {
      PhaseOf(s, r);
      TakeKeeps(s, Step(s, TakeMutex(r)), r, KeyOf(s.jobs[r].request));
    }
  }

  lemma UnlockKeeps(s: State, a: Action)
    requires Inv(s) && (a.LeaveBlock? || a.FinallyUnlock? || a.EndBroadcast?)
    ensures Inv(Step(s, a))
  {
    hide Inv;
    var s' := Step(s, a);
    if a.r < |s.jobs| && s' != s {
      PhaseOf(s, a.r);
      if s'.log == s.log {
        PlainMoveKeeps(s, s', a.r, s'.jobs[a.r].phase);
      } else {
        ReleaseKeeps(s, s', a.r);
      }
    }
  }

  lemma StepKeeps(s: State, a: Action)
    requires Inv(s)
    ensures Inv(Step(s, a))
  {
    hide Inv;
    match a
    case Arrive(q, zoneOk) => if CanArrive(s, q) { ArriveKeeps(s, q, zoneOk); }
    case CancelCurrent(r) => CancelCurrentKeeps(s, r);
    case TakeMutex(r) => TakeMutexKeeps(s, r);
    case SendText(r) =>
      if At(s, r, Inside) || At(s, r, Sending) { EffectKeeps(s, r, SentBy(r, s.jobs[r].request)); }
    case RecordHistory(r) =>
      if At(s, r, Inside) || At(s, r, Sending) { EffectKeeps(s, r, RecordedBy(r, s.jobs[r].request)); }
    case CancelFromOutside(c) => MarkKeeps(s, c);
    case LaunchLoop(_) => SameJobsKeep(s, Step(s, a));
    case Wake(_) => SameJobsKeep(s, Step(s, a));
    case _ =>
      if a.LeaveBlock? || a.FinallyUnlock? || a.EndBroadcast? {
        UnlockKeeps(s, a);
      } else if a.ClearScheduled? || a.LaunchJob? || a.BeginBroadcast? || a.StoreScheduled? || a.StoreJob? {
        AdmissionKeeps(s, a);
      } else if a.CheckOwnSchedule? || a.ForgetId? || a.ForgetJob? {
        ForgettingKeeps(s, a);
      } else {
        JobKeeps(s, a);
      }
  }

  // ----- the theorems ---------------------------------------------------------------------------

  lemma {:induction false} RunsKeep(actions: seq<Action>)
    ensures Inv(Run(INITIAL, actions))
  {
    if actions != [] {
      hide Step, Inv;
      RunsKeep(actions[..|actions| - 1]);
      StepKeeps(Run(INITIAL, actions[..|actions| - 1]), actions[|actions| - 1]);
    }
  }

  /** Some request for that zone holds the zone's mutex. */
  ghost predicate Busy(s: State, zone: Option<Key>)
  {
    exists r :: 0 <= r < |s.jobs| && HoldsMutex(s.jobs[r]) && SameZone(s.jobs[r].request.zone, zone)
  }

  lemma BusyMeansLocked(s: State, q: Request)
    requires LocksMatch(s)
    ensures Busy(s, q.zone) <==> KeyOf(q) in s.locked
  {
    hide HoldsMutex, KeyOf, SameZone, Holders;
    forall r | 0 <= r < |s.jobs|
      ensures KeyOf(s.jobs[r].request) == KeyOf(q) <==> SameZone(s.jobs[r].request.zone, q.zone)
    {
      SharesMutexIff(s.jobs[r].request, q);
    }
    if KeyOf(q) in s.locked {
      var r := Holders(s.log)[KeyOf(q)];
      assert 0 <= r < |s.jobs| && HoldsMutex(s.jobs[r]) && SameZone(s.jobs[r].request.zone, q.zone);
    }
  }

  /** At most one render per zone is inside the block that the zone's mutex guards. */
  lemma {:induction false} MutualExclusion(actions: seq<Action>, q: Rid, r: Rid)
    requires var s := Run(INITIAL, actions); At(s, q, Inside) && At(s, r, Inside)
    requires var s := Run(INITIAL, actions); SameZone(s.jobs[q].request.zone, s.jobs[r].request.zone)
    ensures q == r
  {
    var s := Run(INITIAL, actions);
    RunsKeep(actions);
    hide Run;
    SharesMutexIff(s.jobs[q].request, s.jobs[r].request);
    PhaseOf(s, q);
    PhaseOf(s, r);
    InsideHolds(s.jobs[q]);
    InsideHolds(s.jobs[r]);
    assert Holders(s.log)[KeyOf(s.jobs[q].request)] == q;
  }

  lemma InsideHolds(j: Job)
    requires j.phase == Inside
    ensures HoldsMutex(j)
  {
  }

  lemma {:induction false} LawfulAt(log: seq<Event>, i: nat)
    requires Disciplined(log) && i < |log|
    ensures Lawful(Holders(log[..i]), log[i])
  {
    if i < |log| - 1 {
      LawfulAt(log[..|log| - 1], i);
      assert log[..|log| - 1][..i] == log[..i];
    }
  }

  /**
   Over every run: a mutex is taken only when free; it is released by the request that took it, at most
   once; and every send and every history row of a guarded render falls between the two.  The mutex is that
   of the request's zone, and all renders are guarded but the broadcasts under INTERRUPT.
   */
  lemma {:induction false} LogIsDisciplined(actions: seq<Action>)
    ensures var log := Run(INITIAL, actions).log;
            OnceEach(log) && forall i | 0 <= i < |log| :: Lawful(Holders(log[..i]), log[i])
    ensures EventsSay(Run(INITIAL, actions))
  {
    RunsKeep(actions);
    RunsSay(actions);
    var log := Run(INITIAL, actions).log;
    forall i | 0 <= i < |log|
      ensures Lawful(Holders(log[..i]), log[i])
    {
      LawfulAt(log, i);
    }
  }

  /** Is this one of the first sections of a request, or none of a request's own? */
  predicate Early(a: Action)
  {
    a.LaunchLoop? || a.Wake? || a.Arrive? || a.CancelCurrent? || a.ClearScheduled? || a.LaunchJob? ||
    a.BeginBroadcast? || a.StoreScheduled? || a.StoreJob? || a.CancelFromOutside?
  }

  lemma EarlyJob(s: State, a: Action, r: Rid)
    requires r < |s.jobs| && Early(a)
    ensures r < |Step(s, a).jobs| && Step(s, a).jobs[r].request == s.jobs[r].request
    ensures s.jobs[r].phase in {Rejected, Dropped, Done} ==> Step(s, a).jobs[r].phase == s.jobs[r].phase
  {
    hide Idle, CanArrive, KeyOf;
  }

  lemma LateJob(s: State, a: Action, r: Rid)
    requires r < |s.jobs| && !Early(a)
    ensures r < |Step(s, a).jobs| && Step(s, a).jobs[r].request == s.jobs[r].request
    ensures s.jobs[r].phase in {Rejected, Dropped, Done} ==> Step(s, a).jobs[r].phase == s.jobs[r].phase
  {
    hide IsCancelled, KeyOf, Guarded;
  }

  /** A request stays what it is, and once it is refused or done it stays so. */
  lemma JobStays(s: State, a: Action, r: Rid)
    requires r < |s.jobs|
    ensures r < |Step(s, a).jobs| && Step(s, a).jobs[r].request == s.jobs[r].request
    ensures s.jobs[r].phase in {Rejected, Dropped, Done} ==> Step(s, a).jobs[r].phase == s.jobs[r].phase
  {
    hide Step, Early;
    if Early(a) { EarlyJob(s, a, r); } else { LateJob(s, a, r); }
  }

  lemma {:induction false} RefusedForever(s: State, actions: seq<Action>, r: Rid)
    requires r < |s.jobs| && Refused(s.jobs[r])
    ensures r < |Run(s, actions).jobs| && Run(s, actions).jobs[r].phase == s.jobs[r].phase
  {
    if actions != [] {
      hide Step;
      RefusedForever(s, actions[..|actions| - 1], r);
      JobStays(Run(s, actions[..|actions| - 1]), actions[|actions| - 1], r);
    }
  }

  lemma {:induction false} RunOf(s: State, a: seq<Action>, b: seq<Action>)
    ensures Run(s, a + b) == Run(Run(s, a), b)
  {
    hide Step;
    if b == [] {
      assert a + b == a;
    } else {
      RunOf(s, a, b[..|b| - 1]);
      assert (a + b)[..|a + b| - 1] == a + b[..|b| - 1];
    }
  }

  /**
   A request that is dropped or rejected on arrival changes nothing but the list of requests, and its loop
   goes to sleep, then and ever after: it takes no mutex, sends nothing, records nothing and cancels nothing.
   */
  lemma {:induction false} RefusedDoesNothing(before: seq<Action>, q: Request, zoneOk: bool, after: seq<Action>)
    requires var s := Run(INITIAL, before); CanArrive(s, q) && Refused(Arrived(s, q, zoneOk).jobs[|s.jobs|])
    ensures var s := Run(INITIAL, before);
            Arrived(s, q, zoneOk) == s.(jobs := Arrived(s, q, zoneOk).jobs, loops := Arrived(s, q, zoneOk).loops) &&
            s.jobs <= Arrived(s, q, zoneOk).jobs
    ensures var s, end := Run(INITIAL, before), Run(INITIAL, before + [Arrive(q, zoneOk)] + after);
            forall i | 0 <= i < |end.log| :: end.log[i].r != |s.jobs|
  {
    var s := Run(INITIAL, before);
    var arrived := before + [Arrive(q, zoneOk)];
    assert arrived[..|before|] == before;
    assert Run(INITIAL, arrived) == Arrived(s, q, zoneOk);
    RunOf(INITIAL, arrived, after);
    RefusedForever(Arrived(s, q, zoneOk), after, |s.jobs|);
    RunsKeep(arrived + after);
  }

  /** SKIP_NEW drops a request exactly when another request for its zone holds the mutex. */
  lemma {:induction false} DroppedIffBusy(actions: seq<Action>, q: Request, zoneOk: bool)
    requires q.policy == SkipNew && (q.kind == Immediate ==> zoneOk)
    ensures var s := Run(INITIAL, actions);
            Arrived(s, q, zoneOk).jobs[|s.jobs|].phase == Dropped
            <==> exists r :: 0 <= r < |s.jobs| && HoldsMutex(s.jobs[r]) && SameZone(s.jobs[r].request.zone, q.zone)
  {
    RunsKeep(actions);
    var s := Run(INITIAL, actions);
    hide Run, HoldsMutex, SameZone;
    BusyMeansLocked(s, q);
  }

  /** Nothing is under way any more. */
  predicate Quiescent(s: State)
  {
    forall r | 0 <= r < |s.jobs| :: s.jobs[r].phase in {Rejected, Dropped, Done, Abandoned}
  }

  /**
   Once nothing is under way, a mutex is still locked if and only if some SKIP_NEW request for it was
   cancelled before its job started, or while it broadcast.
   */
  lemma {:induction false} LockedAtRestIffAbandoned(actions: seq<Action>, key: Key)
    requires Quiescent(Run(INITIAL, actions))
    ensures var s := Run(INITIAL, actions);
            key in s.locked <==> exists r :: 0 <= r < |s.jobs| && s.jobs[r].phase == Abandoned && s.jobs[r].cancelled &&
                                             s.jobs[r].request.policy == SkipNew && KeyOf(s.jobs[r].request) == key
  {
    RunsKeep(actions);
    var s := Run(INITIAL, actions);
    hide Run;
    forall r | 0 <= r < |s.jobs|
      ensures HoldsMutex(s.jobs[r]) <==> s.jobs[r].phase == Abandoned && s.jobs[r].request.policy == SkipNew
      ensures s.jobs[r].phase == Abandoned ==> s.jobs[r].cancelled
    {
      PhaseOf(s, r);
    }
    hide HoldsMutex;
    if key in s.locked {
      var r := Holders(s.log)[key];
      assert 0 <= r < |s.jobs| && HoldsMutex(s.jobs[r]);
    }
  }

  lemma RunOne(s: State, a: Action)
    ensures Run(s, [a]) == Step(s, a)
  {
    hide Step;
    assert [a][..0] == [];
    assert Run(s, [a]) == Step(Run(s, [a][..0]), a);
  }

  lemma RunThree(s: State, a: Action, b: Action, c: Action)
    ensures Run(s, [a, b, c]) == Step(Step(Step(s, a), b), c)
  {
    hide Step, Run;
    RunOf(s, [a], [b]);
    RunOf(s, [a, b], [c]);
    RunOne(s, a);
    RunOne(Step(s, a), b);
    RunOne(Step(Step(s, a), b), c);
    assert [a] + [b] == [a, b] && [a, b] + [c] == [a, b, c];
  }

  /** A SKIP_NEW request alone, past clearing the current schedule. */
  function ClearedAlone(q: Request): State
  {
    State([Job(q, Cleared, false)], [], {KeyOf(q)}, None, None, 0, [Took(0, KeyOf(q))])
  }

  lemma AdmittedAlone(q: Request)
    requires q.kind != Scheduled && q.policy == SkipNew && CanArrive(INITIAL, q)
    ensures Run(INITIAL, [Arrive(q, true), CancelCurrent(0), ClearScheduled(0)]) == ClearedAlone(q)
  {
    hide Run, KeyOf;
    RunThree(INITIAL, Arrive(q, true), CancelCurrent(0), ClearScheduled(0));
    var s1 := State([Job(q, Admitted, false)], [], {KeyOf(q)}, None, None, 0, [Took(0, KeyOf(q))]);
    assert Step(INITIAL, Arrive(q, true)) == s1;
    assert Step(s1, CancelCurrent(0)) == s1.(jobs := [Job(q, Preempted, false)]);
  }

  lemma Marks(s: State, r: Rid)
    ensures Step(s, CancelFromOutside(RenderJob(r))) == Marked(s, RenderJob(r))
  {
  }

  lemma Launches(s: State, r: Rid)
    requires At(s, r, Cleared) && s.jobs[r].request.kind == Immediate
    ensures Step(s, LaunchJob(r)) == To(s, r, Queued).(currentJob := Some(RenderJob(r)))
  {
  }

  lemma Begins(s: State, r: Rid)
    requires At(s, r, Cleared) && s.jobs[r].request.kind == Broadcast
    ensures Step(s, BeginBroadcast(r)) == To(s, r, Sending)
  {
  }

  lemma Abandons(s: State, r: Rid)
    requires r < |s.jobs| && s.jobs[r].cancelled
    ensures At(s, r, Queued) ==> Step(s, AbandonJob(r)) == To(s, r, Abandoned)
    ensures At(s, r, Sending) ==> Step(s, AbandonBroadcast(r)) == To(s, r, Abandoned)
  {
  }

  lemma CancelledBeforeItStarts(s: State, q: Request)
    requires s == ClearedAlone(q) && q.kind == Immediate
    ensures Run(s, [LaunchJob(0), CancelFromOutside(RenderJob(0)), AbandonJob(0)])
         == s.(jobs := [Job(q, Abandoned, true)], currentJob := Some(RenderJob(0)))
  {
    hide Run, Step, KeyOf;
    RunThree(s, LaunchJob(0), CancelFromOutside(RenderJob(0)), AbandonJob(0));
    var s1 := s.(jobs := [Job(q, Queued, false)], currentJob := Some(RenderJob(0)));
    var s2 := s1.(jobs := [Job(q, Queued, true)]);
    Launches(s, 0);
    assert Step(s, LaunchJob(0)) == s1;
    Marks(s1, 0);
    assert Step(s1, CancelFromOutside(RenderJob(0))) == s2;
    Abandons(s2, 0);
    assert Step(s2, AbandonJob(0)).jobs == [Job(q, Abandoned, true)];
  }

  lemma CancelledBroadcast(s: State, q: Request)
    requires s == ClearedAlone(q) && q.kind == Broadcast
    ensures Run(s, [BeginBroadcast(0), CancelFromOutside(RenderJob(0)), AbandonBroadcast(0)])
         == s.(jobs := [Job(q, Abandoned, true)])
  {
    hide Run, Step, KeyOf;
    RunThree(s, BeginBroadcast(0), CancelFromOutside(RenderJob(0)), AbandonBroadcast(0));
    var s1 := s.(jobs := [Job(q, Sending, false)]);
    var s2 := s1.(jobs := [Job(q, Sending, true)]);
    Begins(s, 0);
    assert Step(s, BeginBroadcast(0)) == s1;
    Marks(s1, 0);
    assert Step(s1, CancelFromOutside(RenderJob(0))) == s2;
    Abandons(s2, 0);
    assert Step(s2, AbandonBroadcast(0)).jobs == [Job(q, Abandoned, true)];
  }

  /** This does happen, to any SKIP_NEW display or broadcast: cancelled at that moment, it locks its mutex for good. */
  lemma AbandonedKeepsLock(q: Request)
    requires q.kind != Scheduled && q.policy == SkipNew && CanArrive(INITIAL, q)
    ensures var begin := [Arrive(q, true), CancelCurrent(0), ClearScheduled(0)];
            var end := if q.kind == Immediate then [LaunchJob(0), CancelFromOutside(RenderJob(0)), AbandonJob(0)]
                       else [BeginBroadcast(0), CancelFromOutside(RenderJob(0)), AbandonBroadcast(0)];
            var s := Run(INITIAL, begin + end);
            Quiescent(s) && KeyOf(q) in s.locked && s.jobs == [Job(q, Abandoned, true)]
  {
    var begin := [Arrive(q, true), CancelCurrent(0), ClearScheduled(0)];
    AdmittedAlone(q);
    hide Run, KeyOf;
    var s := Run(INITIAL, begin);
    if q.kind == Immediate {
      RunOf(INITIAL, begin, [LaunchJob(0), CancelFromOutside(RenderJob(0)), AbandonJob(0)]);
      CancelledBeforeItStarts(s, q);
    } else {
      RunOf(INITIAL, begin, [BeginBroadcast(0), CancelFromOutside(RenderJob(0)), AbandonBroadcast(0)]);
      CancelledBroadcast(s, q);
    }
  }

  // ----- what the events of a request say -------------------------------------------------------

  /** The event names the zone of its request, and all but an INTERRUPT broadcast send and record under the mutex. */
  predicate EventOf(e: Event, q: Request)
  {
    e.key == (match q.zone case Some(zone) => zone case None => "broadcast") &&
    (e.Sent? || e.Recorded? ==> (e.guarded <==> q.kind == Immediate || q.kind == Scheduled || q.policy == SkipNew))
  }

  /** So it is with all events, and nothing but displays with a zone and broadcasts sends. */
  ghost predicate EventsSay(s: State)
  {
    forall i | 0 <= i < |s.log| ::
      s.log[i].r < |s.jobs| && EventOf(s.log[i], s.jobs[s.log[i].r].request) &&
      (s.log[i].Sent? ==> s.jobs[s.log[i].r].request.zone.Some? || s.jobs[s.log[i].r].request.kind == Broadcast)
  }

  /** At most one event is new, and it says what it should. */
  ghost predicate NewEventSays(s: State, s': State)
  {
    s.log <= s'.log && |s'.log| <= |s.log| + 1 &&
    (|s'.log| > |s.log| ==>
       var e := s'.log[|s.log|];
       e.r < |s'.jobs| && EventOf(e, s'.jobs[e.r].request) &&
       (e.Sent? ==> s'.jobs[e.r].request.zone.Some? || s'.jobs[e.r].request.kind == Broadcast))
  }

  lemma EarlyEvent(s: State, a: Action)
    requires Early(a)
    ensures NewEventSays(s, Step(s, a))
  {
    hide Idle, CanArrive;
  }

  lemma LateEvent(s: State, a: Action)
    requires !Early(a)
    ensures NewEventSays(s, Step(s, a))
  {
    hide IsCancelled;
  }

  lemma StepSays(s: State, a: Action)
    requires EventsSay(s)
    ensures EventsSay(Step(s, a))
  {
    hide Step, EventOf, Early;
    var s' := Step(s, a);
    if Early(a) { EarlyEvent(s, a); } else { LateEvent(s, a); }
    forall i | 0 <= i < |s.log|
      ensures s'.log[i] == s.log[i] && s.log[i].r < |s'.jobs|
      ensures s'.jobs[s.log[i].r].request == s.jobs[s.log[i].r].request
    {
      JobStays(s, a, s.log[i].r);
    }
  }

  lemma {:induction false} RunsSay(actions: seq<Action>)
    ensures EventsSay(Run(INITIAL, actions))
  {
    if actions != [] {
      hide Step, EventsSay;
      RunsSay(actions[..|actions| - 1]);
      StepSays(Run(INITIAL, actions[..|actions| - 1]), actions[|actions| - 1]);
    }
  }

  /**
   In every run, a scheduled request without a zone never sends, even where it records that it was displayed;
   and the scheduler gives none of its fires a zone.
   */
  lemma {:induction false} ZonelessFiresNeverSend(actions: seq<Action>, i: nat)
    requires var s := Run(INITIAL, actions); i < |s.log| && s.log[i].Sent?
    ensures var s := Run(INITIAL, actions);
            s.log[i].r < |s.jobs| &&
            var q := s.jobs[s.log[i].r].request; !(q.kind == Scheduled && q.zone == None)
  {
    RunsSay(actions);
  }

  // ----- the in-flight counter ------------------------------------------------------------------

  /** An immediate render that has been started and not finished. */
  predicate InFlight(j: Job) { j.request.kind == Immediate && j.phase in {Waiting, Inside, Leaving} }

  function Count(jobs: seq<Job>): nat
  {
    if jobs == [] then 0 else Count(jobs[..|jobs| - 1]) + if InFlight(jobs[|jobs| - 1]) then 1 else 0
  }

  lemma {:induction false} CountUpdated(jobs: seq<Job>, r: nat, j: Job)
    requires r < |jobs|
    ensures Count(jobs[r := j]) == Count(jobs) - (if InFlight(jobs[r]) then 1 else 0) + if InFlight(j) then 1 else 0
  {
    hide InFlight;
    var last := |jobs| - 1;
    if r == last {
      assert jobs[r := j][..last] == jobs[..last];
    } else {
      CountUpdated(jobs[..last], r, j);
      assert jobs[r := j][..last] == jobs[..last][r := j];
    }
  }

  lemma CountMarked(s: State, c: Coroutine)
    ensures Count(Marked(s, c).jobs) == Count(s.jobs)
  {
    if c.RenderJob? && c.r < |s.jobs| { CountUpdated(s.jobs, c.r, s.jobs[c.r].(cancelled := true)); }
  }

  lemma CountMoved(s: State, r: Rid, phase: Phase)
    requires r < |s.jobs|
    ensures Count(To(s, r, phase).jobs)
         == Count(s.jobs) - (if InFlight(s.jobs[r]) then 1 else 0)
            + if InFlight(s.jobs[r].(phase := phase)) then 1 else 0
  {
    CountUpdated(s.jobs, r, s.jobs[r].(phase := phase));
  }

  lemma AdmissionCounts(s: State, a: Action)
    requires PhasesFit(s) && s.inFlight == Count(s.jobs)
    requires a.ClearScheduled? || a.LaunchJob? || a.BeginBroadcast? || a.StoreScheduled? || a.StoreJob? ||
             a.CheckOwnSchedule? || a.ForgetId? || a.ForgetJob?
    ensures Step(s, a).inFlight == Count(Step(s, a).jobs)
  {
    hide Count, KeyOf, Guarded;
    var s' := Step(s, a);
    if a.r < |s.jobs| && s'.jobs != s.jobs {
      assert PhaseFits(s.jobs[a.r]);
      CountMoved(s, a.r, s'.jobs[a.r].phase);
    }
  }

  lemma SectionCounts(s: State, a: Action)
    requires PhasesFit(s) && s.inFlight == Count(s.jobs)
    requires a.AbandonJob? || a.TakeMutex? || a.GiveUpWaiting? || a.SendText? || a.RecordHistory? ||
             a.LeaveBlock? || a.FinallyUnlock? || a.EndBroadcast? || a.AbandonBroadcast?
    ensures Step(s, a).inFlight == Count(Step(s, a).jobs)
  {
    hide Count, KeyOf, Guarded;
    var s' := Step(s, a);
    if a.r < |s.jobs| && s'.jobs != s.jobs {
      assert PhaseFits(s.jobs[a.r]);
      CountMoved(s, a.r, s'.jobs[a.r].phase);
    }
  }

  lemma ArriveCounts(s: State, q: Request, zoneOk: bool)
    ensures Count(Arrived(s, q, zoneOk).jobs) == Count(s.jobs)
  {
    assert Arrived(s, q, zoneOk).jobs[..|s.jobs|] == s.jobs;
  }

  lemma StepCounts(s: State, a: Action)
    requires PhasesFit(s) && s.inFlight == Count(s.jobs)
    ensures Step(s, a).inFlight == Count(Step(s, a).jobs)
  {
    hide Count;
    var s' := Step(s, a);
    match a
    case Arrive(q, zoneOk) => ArriveCounts(s, q, zoneOk);
    case LaunchLoop(_) =>
    case Wake(_) =>
    case CancelCurrent(r) =>
      if At(s, r, Admitted) {
        CountMoved(s, r, Preempted);
        if s.currentJob.Some? { CountMarked(To(s, r, Preempted), s.currentJob.value); }
      }
    case CancelFromOutside(c) => CountMarked(s, c);
    case StartJob(r) => if At(s, r, Queued) { assert PhaseFits(s.jobs[r]); CountMoved(s, r, s'.jobs[r].phase); }
    case CountDown(r) => if At(s, r, Leaving) { CountMoved(s, r, s'.jobs[r].phase); }
    case _ =>
      if a.ClearScheduled? || a.LaunchJob? || a.BeginBroadcast? || a.StoreScheduled? || a.StoreJob? ||
         a.CheckOwnSchedule? || a.ForgetId? || a.ForgetJob? {
        AdmissionCounts(s, a);
      } else {
        SectionCounts(s, a);
      }
  }

  /** The in-flight counter is always the number of immediate renders started and not finished. */
  lemma {:induction false} InFlightIsExact(actions: seq<Action>)
    ensures Run(INITIAL, actions).inFlight == Count(Run(INITIAL, actions).jobs)
  {
    if actions != [] {
      hide Step, Count;
      InFlightIsExact(actions[..|actions| - 1]);
      RunsKeep(actions[..|actions| - 1]);
      StepCounts(Run(INITIAL, actions[..|actions| - 1]), actions[|actions| - 1]);
    } else {
      assert Count([]) == 0;
    }
  }
}
