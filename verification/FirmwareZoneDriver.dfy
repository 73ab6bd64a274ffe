/**
 The driver's calls as sequences of the atomic actions of FirmwareZone: what they keep when each runs to its
 end undisturbed, what overlapping calls can do to the current job, and the class that makes the calls.
 */
module FirmwareZoneDriver {
  import opened FirmwareZone
  import opened Wrappers

  datatype Call =
    | Attach(session: Session)
    | Detach
    | Send(message: Message)
    | Stop
    | DrainStarts(drain: DrainId)
    | DrainReceives(drain: DrainId)
    | DrainSends(drain: DrainId)
    | DrainCompletes(drain: DrainId)
    | DrainEnds(drain: DrainId)

  function Actions(s: State, c: Call): seq<Action>
  {
    match c
    case Attach(x) => [TakeJobAndCancel, SetSession(x), Launch(x), SetJob(|s.drains|)]
    case Detach => [TakeJobAndCancel, ClearSession]
    case Send(m) => if s.session.None? then [] else [TrySend(m)]
    case Stop => [CloseChannel]
    case DrainStarts(d) => [Start(d)]
    case DrainReceives(d) => [Receive(d)]
    case DrainSends(d) => [Deliver(d)]
    case DrainCompletes(d) => [Complete(d)]
    case DrainEnds(d) => [End(d)]
  }

  function Perform(s: State, c: Call): State { Run(s, Actions(s, c)) }

  function PerformAll(s: State, calls: seq<Call>): State
  {
    if calls == [] then s else Perform(PerformAll(s, calls[..|calls| - 1]), calls[|calls| - 1])
  }

  lemma {:induction false} PerformAllOf(s: State, a: seq<Call>, b: seq<Call>)
    ensures PerformAll(s, a + b) == PerformAll(PerformAll(s, a), b)
  {
    hide Perform;
    if b == [] {
      assert a + b == a;
    } else {
      PerformAllOf(s, a, b[..|b| - 1]);
      assert (a + b)[..|a + b| - 1] == a + b[..|b| - 1];
    }
  }

  lemma PerformFirst(s: State, c: Call, rest: seq<Call>)
    ensures PerformAll(s, [c] + rest) == PerformAll(Perform(s, c), rest)
  {
    hide Perform;
    PerformAllOf(s, [c], rest);
    assert [c][..0] == [];
    assert PerformAll(s, [c]) == Perform(PerformAll(s, [c][..0]), c);
  }

  /** status() reports ONLINE. */
  predicate Online(s: State)
  {
    s.session.Some? && s.job.Some? && s.job.value < |s.drains| && !s.drains[s.job.value].cancelled
  }

  lemma RunOne(s: State, a: Action)
    ensures Run(s, [a]) == Step(s, a)
  {
    hide Step;
    assert [a][..0] == [];
    assert Run(s, [a]) == Step(Run(s, [a][..0]), a);
  }

  /** What a call does, action by action. */
  lemma PerformIs(s: State, c: Call)
    ensures Perform(s, c) ==
            match c
            case Attach(x) => Step(Step(Step(Step(s, TakeJobAndCancel), SetSession(x)), Launch(x)), SetJob(|s.drains|))
            case Detach => Step(Step(s, TakeJobAndCancel), ClearSession)
            case Send(m) => if s.session.None? then s else Step(s, TrySend(m))
            case Stop => Step(s, CloseChannel)
            case DrainStarts(d) => Step(s, Start(d))
            case DrainReceives(d) => Step(s, Receive(d))
            case DrainSends(d) => Step(s, Deliver(d))
            case DrainCompletes(d) => Step(s, Complete(d))
            case DrainEnds(d) => Step(s, End(d))
  {
    hide Step;
    match c
    case Attach(x) => RunFour(s, TakeJobAndCancel, SetSession(x), Launch(x), SetJob(|s.drains|));
    case Detach => RunTwo(s, TakeJobAndCancel, ClearSession);
    case Send(m) => RunOne(s, TrySend(m));
    case Stop => RunOne(s, CloseChannel);
    case DrainStarts(d) => RunOne(s, Start(d));
    case DrainReceives(d) => RunOne(s, Receive(d));
    case DrainSends(d) => RunOne(s, Deliver(d));
    case DrainCompletes(d) => RunOne(s, Complete(d));
    case DrainEnds(d) => RunOne(s, End(d));
  }

  /** Whole calls are runs of actions, so everything proved of runs holds of them. */
  lemma {:induction false} CallsAreRuns(s: State, calls: seq<Call>) returns (actions: seq<Action>)
    ensures PerformAll(s, calls) == Run(s, actions)
    ensures NoAttach(calls) ==> forall n | 0 <= n < |actions| :: !actions[n].Launch?
  {
    hide Step, Actions;
    actions := [];
    if calls != [] {
      var front, c := calls[..|calls| - 1], calls[|calls| - 1];
      var before := CallsAreRuns(s, front);
      var next := Actions(Run(s, before), c);
      RunOf(s, before, next);
      OnlyAttachLaunches(Run(s, before), c);
      actions := before + next;
    }
  }

  lemma OnlyAttachLaunches(s: State, c: Call)
    ensures !c.Attach? ==> forall n | 0 <= n < |Actions(s, c)| :: !Actions(s, c)[n].Launch?
  {
  }

  ghost predicate NoAttach(calls: seq<Call>) { forall n | 0 <= n < |calls| :: !calls[n].Attach? }

  // ----- calls that do not overlap --------------------------------------------------------------

  /**
   No attach is half done, the current job's drain is the only one at work, and as long as it is not
   cancelled and a session is set, it runs and serves that session.
   */
  ghost predicate OneDrain(s: State)
  {
    s.pending == {} &&
    (forall d | 0 <= d < |s.drains| && Working(s, d) :: s.job == Some(d)) &&
    (s.job.Some? ==> s.job.value < |s.drains|) &&
    (Online(s) ==> Live(s, s.job.value) && s.drains[s.job.value].session == s.session.value)
  }

  /** Taking the job off and cancelling it leaves no drain at work. */
  lemma CancelStopsWork(s: State)
    requires OneDrain(s)
    ensures var s' := Step(s, TakeJobAndCancel);
            s'.job.None? && s'.session == s.session && |s'.drains| == |s.drains| && s'.pending == {} &&
            forall d | 0 <= d < |s.drains| ::
              !Working(s', d) && s'.drains[d].session == s.drains[d].session &&
              s'.drains[d].ended == s.drains[d].ended && (Able(s', d) ==> Able(s, d))
  {
    forall d | 0 <= d < |s.drains|
      ensures !Working(Step(s, TakeJobAndCancel), d)
    {
      if Working(s, d) { assert s.job == Some(d); }
    }
  }

  /** The other calls leave session, job and every drain's standing as they are. */
  lemma QuietCall(s: State, c: Call)
    requires !c.Attach? && !c.Detach? && !c.DrainCompletes? && !c.DrainEnds?
    ensures var s' := Perform(s, c);
            s'.session == s.session && s'.job == s.job && |s'.drains| == |s.drains| && s'.pending == s.pending &&
            forall d | 0 <= d < |s.drains| ::
              Working(s', d) == Working(s, d) && Able(s', d) == Able(s, d) &&
              s'.drains[d].session == s.drains[d].session && s'.drains[d].ended == s.drains[d].ended &&
              s'.drains[d].cancelled == s.drains[d].cancelled
  {
    PerformIs(s, c);
  }

  /** Attach leaves its own drain at work, and no other. */
  lemma Attached(s: State, x: Session)
    requires OneDrain(s)
    ensures var s1, s' := Step(s, TakeJobAndCancel), Perform(s, Attach(x));
            s'.drains == s1.drains + [Drain(x, false, false, false, None)] && s'.job == Some(|s.drains|) &&
            s'.session == Some(x) && s'.pending == {} && s'.replaced == s.replaced && Working(s', |s.drains|) &&
            forall d | 0 <= d < |s.drains| :: !Working(s', d) && s'.drains[d] == s1.drains[d]
  {
    PerformIs(s, Attach(x));
    CancelStopsWork(s);
    var s1, s' := Step(s, TakeJobAndCancel), Perform(s, Attach(x));
    assert forall d | 0 <= d < |s.drains| :: !Working(s1, d) && s'.drains[d] == s1.drains[d];
  }

  lemma DetachStopsWork(s: State)
    requires OneDrain(s)
    ensures var s' := Perform(s, Detach);
            s'.job.None? && s'.session.None? && |s'.drains| == |s.drains| && s'.pending == {} &&
            forall d | 0 <= d < |s.drains| ::
              !Working(s', d) && s'.drains[d].session == s.drains[d].session &&
              s'.drains[d].ended == s.drains[d].ended && (Able(s', d) ==> Able(s, d))
  {
    PerformIs(s, Detach);
    CancelStopsWork(s);
    var s1 := Step(s, TakeJobAndCancel);
    assert forall d | 0 <= d < |s.drains| :: !Working(s1, d);
    assert Perform(s, Detach).drains == s1.drains;
  }

  lemma EndKeepsOneDrain(s: State, d: DrainId, failed: bool)
    requires OneDrain(s) && (!failed ==> CanComplete(s, d))
    ensures OneDrain(Ended(s, d, failed))
  {
    assert forall e | 0 <= e < |s.drains| && Working(Ended(s, d, failed), e) :: Working(s, e);
  }

  lemma PerformKeepsOneDrain(s: State, c: Call)
    requires OneDrain(s)
    ensures OneDrain(Perform(s, c))
  {
    hide Perform, Working, Able;
    match c
    case Attach(x) => Attached(s, x);
    case Detach => DetachStopsWork(s);
    case DrainCompletes(d) => PerformIs(s, c); if CanComplete(s, d) { EndKeepsOneDrain(s, d, false); }
    case DrainEnds(d) => PerformIs(s, c); EndKeepsOneDrain(s, d, true);
    case _ => QuietCall(s, c);
  }

  /**
   When calls do not overlap, at most one drain is at work, and a zone reported ONLINE has one, which serves
   the session that is set.
   */
  lemma {:induction false} OnlineMeansServed(calls: seq<Call>)
    ensures var s := PerformAll(INITIAL, calls);
            OneDrain(s) &&
            (Online(s) ==> Working(s, s.job.value) && s.drains[s.job.value].session == s.session.value)
  {
    hide Perform;
    if calls != [] {
      OnlineMeansServed(calls[..|calls| - 1]);
      PerformKeepsOneDrain(PerformAll(INITIAL, calls[..|calls| - 1]), calls[|calls| - 1]);
    }
  }

  /** No drain of x may still receive. */
  predicate SessionFree(s: State, x: Session)
  {
    forall d | 0 <= d < |s.drains| && Able(s, d) :: s.drains[d].session != x
  }

  /** Each attach, once it has cancelled the current job, finds its session free. */
  ghost predicate ExclusiveCalls(calls: seq<Call>)
  {
    forall n | 0 <= n < |calls| && calls[n].Attach? ::
      SessionFree(Step(PerformAll(INITIAL, calls[..n]), TakeJobAndCancel), calls[n].session)
  }

  /** A drain at work keeps its session set, since no other drain shares it. */
  ghost predicate Served(s: State)
  {
    (forall d | 0 <= d < |s.drains| && Working(s, d) :: s.session == Some(s.drains[d].session)) &&
    (forall d, e | 0 <= d < e < |s.drains| && Able(s, d) && Able(s, e) :: s.drains[d].session != s.drains[e].session)
  }

  lemma AttachKeepsServed(s: State, x: Session)
    requires OneDrain(s) && Served(s) && SessionFree(Step(s, TakeJobAndCancel), x)
    ensures Served(Perform(s, Attach(x)))
  {
    Attached(s, x);
    CancelStopsWork(s);
    var s1, s' := Step(s, TakeJobAndCancel), Perform(s, Attach(x));
    assert forall d | 0 <= d < |s.drains| :: Able(s', d) == Able(s1, d);
    hide Perform, Step, Working, OneDrain;
  }

  lemma EndKeepsServed(s: State, d: DrainId, failed: bool)
    requires Served(s)
    ensures Served(Ended(s, d, failed))
  {
    var s' := Ended(s, d, failed);
    assert forall e | 0 <= e < |s.drains| && Working(s', e) :: Working(s, e);
    assert forall e | 0 <= e < |s.drains| && Able(s', e) :: Able(s, e);
  }

  lemma PerformKeepsServed(s: State, c: Call)
    requires OneDrain(s) && Served(s) && (c.Attach? ==> SessionFree(Step(s, TakeJobAndCancel), c.session))
    ensures Served(Perform(s, c))
  {
    hide Perform, Working, Able, OneDrain;
    match c
    case Attach(x) => AttachKeepsServed(s, x);
    case Detach => DetachStopsWork(s);
    case DrainCompletes(d) => PerformIs(s, c); EndKeepsServed(s, d, false);
    case DrainEnds(d) => PerformIs(s, c); EndKeepsServed(s, d, true);
    case _ => QuietCall(s, c);
  }

  /** Then ONLINE is reported exactly while some drain is at work. */
  lemma {:induction false} OnlineIffServed(calls: seq<Call>)
    requires ExclusiveCalls(calls)
    ensures var s := PerformAll(INITIAL, calls);
            Served(s) && (Online(s) <==> exists d :: 0 <= d < |s.drains| && Working(s, d))
  {
    hide Perform, Step, SessionFree;
    OnlineMeansServed(calls);
    if calls != [] {
      var before := calls[..|calls| - 1];
      assert forall n | 0 <= n < |before| :: before[..n] == calls[..n];
      assert calls[..|before|] == before;
      OnlineMeansServed(before);
      OnlineIffServed(before);
      PerformKeepsServed(PerformAll(INITIAL, before), calls[|calls| - 1]);
    }
  }

  /** Whoever calls detach, a stale session included, takes the newest session off the zone. */
  lemma DetachDropsNewest(s: State, newest: Session)
    requires OneDrain(s)
    ensures var s' := Perform(Perform(s, Attach(newest)), Detach);
            !Online(s') && s'.session.None? && (forall d | 0 <= d < |s'.drains| :: !Working(s', d))
  {
    PerformKeepsOneDrain(s, Attach(newest));
    hide Perform;
    DetachStopsWork(Perform(s, Attach(newest)));
  }

  // ----- calls that overlap ---------------------------------------------------------------------

  /**
   In every interleaving, what a detach leaves at work are exactly the drains whose attach has yet to store
   its job and the drains whose job has been overwritten by another attach.
   */
  lemma {:induction false} DetachLeaves(actions: seq<Action>, d: DrainId)
    ensures var s := Run(INITIAL, actions);
            Working(Perform(s, Detach), d) <==> Working(s, d) && d in s.pending + s.replaced
  {
    RunsAccount(actions);
    var s := Run(INITIAL, actions);
    hide Run;
    PerformIs(s, Detach);
  }

  /**
   Between attach calls, some drain at work is not the current job, and detach does not reach it, if and
   only if a drain whose job was overwritten is still at work.
   */
  lemma {:induction false} DetachReachesAllIff(actions: seq<Action>)
    requires Run(INITIAL, actions).pending == {}
    ensures var s := Run(INITIAL, actions);
            var leaks := exists d: DrainId :: d in s.replaced && Working(s, d);
            (leaks <==> exists d: DrainId :: Working(s, d) && s.job != Some(d)) &&
            (leaks <==> exists d: DrainId :: Working(Perform(s, Detach), d))
  {
    RunsAccount(actions);
    var s := Run(INITIAL, actions);
    forall d: DrainId
      ensures Working(Perform(s, Detach), d) <==> Working(s, d) && d in s.replaced
      ensures Working(s, d) && s.job != Some(d) <==> Working(s, d) && d in s.replaced
    {
      DetachLeaves(actions, d);
    }
    hide Run, Perform, Accounted, Working;
  }

  /** The drain has run to the end of a closed channel. */
  predicate Completed(s: State, d: DrainId) { d < |s.drains| && s.drains[d].ended && !s.drains[d].cancelled }

  /**
   In every interleaving, ONLINE is reported exactly while a session is set and some drain is at work that is
   neither pending nor overwritten, or the current one has run to the end of a closed channel.
   */
  lemma {:induction false} OnlineIff(actions: seq<Action>)
    ensures var s := Run(INITIAL, actions);
            Online(s) <==> s.session.Some? && exists d: DrainId ::
                             (Working(s, d) && d !in s.pending + s.replaced) || (Completed(s, d) && s.job == Some(d))
    ensures var s := Run(INITIAL, actions); forall d: DrainId :: Completed(s, d) ==> s.closed
  {
    RunsAccount(actions);
    var s := Run(INITIAL, actions);
    hide Run;
    if Online(s) { assert Working(s, s.job.value) || Completed(s, s.job.value); }
  }

  /** Overlapping attach calls do overwrite jobs: here drain 0 stays at work, out of reach of detach. */
  lemma OverlappingAttachLeaksDrain(x: Session, y: Session)
    ensures var s := Run(Run(INITIAL, [TakeJobAndCancel, TakeJobAndCancel, SetSession(x), SetSession(y)]),
                         [Launch(x), Launch(y), SetJob(0), SetJob(1)]);
            s.pending == {} && 0 in s.replaced && Working(s, 0) && Working(s, 1) && Working(Perform(s, Detach), 0)
  {
    RunFour(INITIAL, TakeJobAndCancel, TakeJobAndCancel, SetSession(x), SetSession(y));
    var s1 := INITIAL.(session := Some(y));
    RunFour(s1, Launch(x), Launch(y), SetJob(0), SetJob(1));
    PerformIs(Run(s1, [Launch(x), Launch(y), SetJob(0), SetJob(1)]), Detach);
  }

  // ----- attaching a session again --------------------------------------------------------------

  /** Attaching x is safe: once the current job is cancelled, launching a drain for x is. */
  ghost predicate SafeAttach(s: State, x: Session) { Safe(Step(s, TakeJobAndCancel), x) }

  ghost predicate SafeAttaches(s: State, calls: seq<Call>, x: Session)
  {
    forall n | 0 <= n < |calls| && calls[n] == Attach(x) :: SafeAttach(PerformAll(s, calls[..n]), x)
  }

  lemma PerformKeepsInv(s: State, c: Call)
    requires Inv(s)
    ensures Inv(Perform(s, c))
  {
    RunKeeps(s, Actions(s, c));
  }

  lemma SafeWhateverSession(s: State, x: Session, y: Session)
    requires Safe(s, x)
    ensures Safe(Step(s, SetSession(y)), x)
  {
    var s' := Step(s, SetSession(y));
    assert forall d | 0 <= d < |s.drains| ::
        Of(s', d, x) == Of(s, d, x) && Able(s', d) == Able(s, d) && InHandOf(s', d) == InHandOf(s, d);
  }

  lemma AttachKeepsOrderly(s: State, y: Session, x: Session)
    requires Inv(s) && Orderly(s, x) && (y == x ==> SafeAttach(s, x))
    ensures Orderly(Perform(s, Attach(y)), x)
  {
    PerformIs(s, Attach(y));
    var s1 := Step(s, TakeJobAndCancel);
    if y == x { SafeWhateverSession(s1, x, y); }
    hide Perform, Inv, Orderly, Safe;
    var s2 := Step(s1, SetSession(y));
    StepKeepsOrderly(s, TakeJobAndCancel, x);
    StepKeeps(s, TakeJobAndCancel);
    StepKeepsOrderly(s1, SetSession(y), x);
    StepKeeps(s1, SetSession(y));
    StepKeepsOrderly(s2, Launch(y), x);
    StepKeeps(s2, Launch(y));
    StepKeepsOrderly(Step(s2, Launch(y)), SetJob(|s.drains|), x);
  }

  lemma PerformKeepsOrderly(s: State, c: Call, x: Session)
    requires Inv(s) && Orderly(s, x) && (c == Attach(x) ==> SafeAttach(s, x))
    ensures Orderly(Perform(s, c), x)
  {
    hide Perform, Step, Inv, Orderly;
    match c
    case Attach(y) => AttachKeepsOrderly(s, y, x);
    case Detach =>
      PerformIs(s, c);
      StepKeepsOrderly(s, TakeJobAndCancel, x);
      StepKeeps(s, TakeJobAndCancel);
      StepKeepsOrderly(Step(s, TakeJobAndCancel), ClearSession, x);
    case Send(m) => PerformIs(s, c); StepKeepsOrderly(s, TrySend(m), x);
    case Stop => PerformIs(s, c); StepKeepsOrderly(s, CloseChannel, x);
    case DrainStarts(d) => PerformIs(s, c); StepKeepsOrderly(s, Start(d), x);
    case DrainReceives(d) => PerformIs(s, c); StepKeepsOrderly(s, Receive(d), x);
    case DrainSends(d) => PerformIs(s, c); StepKeepsOrderly(s, Deliver(d), x);
    case DrainCompletes(d) => PerformIs(s, c); StepKeepsOrderly(s, Complete(d), x);
    case DrainEnds(d) => PerformIs(s, c); StepKeepsOrderly(s, End(d), x);
  }

  lemma {:induction false} CallsKeepOrderly(s: State, calls: seq<Call>, x: Session)
    requires Inv(s) && Orderly(s, x) && SafeAttaches(s, calls, x)
    ensures Inv(PerformAll(s, calls)) && Orderly(PerformAll(s, calls), x)
  {
    if calls != [] {
      var before := calls[..|calls| - 1];
      assert forall n | 0 <= n < |before| :: before[..n] == calls[..n];
      assert calls[..|before|] == before;
      hide Perform, Inv, Orderly, SafeAttach;
      CallsKeepOrderly(s, before, x);
      PerformKeepsOrderly(PerformAll(s, before), calls[|calls| - 1], x);
      PerformKeepsInv(PerformAll(s, before), calls[|calls| - 1]);
    }
  }

  /** Two drains of x that run, the older of which can still get a message to send after the younger one's. */
  ghost predicate Rivals(s: State, d: DrainId, e: DrainId, x: Session)
  {
    Inv(s) && d != e && Of(s, d, x) && Of(s, e, x) && Running(s, d) && Running(s, e) && s.session.Some?
  }

  predicate Running(s: State, d: DrainId) { Live(s, d) && s.drains[d].started }

  lemma LateDelivery(s: State, d: DrainId, e: DrainId, x: Session) returns (calls: seq<Call>)
    requires Rivals(s, d, e, x) && s.drains[d].hand.Some? && s.drains[e].hand.Some?
    requires s.drains[d].hand.value < s.drains[e].hand.value
    ensures NoAttach(calls) && !InOrder(PerformAll(s, calls), x)
  {
    calls := [DrainSends(e), DrainSends(d)];
    var s1 := Perform(s, DrainSends(e));
    PerformFirst(s, DrainSends(e), [DrainSends(d)]);
    PerformFirst(s1, DrainSends(d), []);
    assert [DrainSends(d)] + [] == [DrainSends(d)] && [DrainSends(e)] + [DrainSends(d)] == calls;
    PerformIs(s, DrainSends(e));
    PerformIs(s1, DrainSends(d));
    hide Perform;
    var end := Perform(s1, DrainSends(d));
    var n := |s.deliveries|;
    assert end.deliveries[n].1 > end.deliveries[n + 1].1;
  }

  /** The younger drain takes the head of the queue while the older one holds an earlier message. */
  lemma LateReceive(s: State, d: DrainId, e: DrainId, x: Session) returns (calls: seq<Call>)
    requires Rivals(s, d, e, x) && s.drains[d].hand.Some? && s.drains[e].hand.None? && s.queue != []
    ensures NoAttach(calls) && !InOrder(PerformAll(s, calls), x)
  {
    var s1 := Perform(s, DrainReceives(e));
    PerformKeepsInv(s, DrainReceives(e));
    PerformIs(s, DrainReceives(e));
    hide Perform, InOrder;
    assert Rivals(s1, d, e, x);
    var rest := LateDelivery(s1, d, e, x);
    calls := [DrainReceives(e)] + rest;
    PerformFirst(s, DrainReceives(e), rest);
  }

  /** With a message in the older drain's hand, one in the queue is enough; an open channel takes one. */
  lemma HeldThenQueued(s: State, d: DrainId, e: DrainId, x: Session) returns (calls: seq<Call>)
    requires Rivals(s, d, e, x) && s.drains[d].hand.Some? && s.drains[e].hand.None?
    requires s.queue != [] || !s.closed
    ensures NoAttach(calls) && !InOrder(PerformAll(s, calls), x)
  {
    hide InOrder, PerformAll, Conserved, HandsMatch, LossesBounded, DeliveredOnce, DrainsInOrder;
    if s.queue != [] {
      calls := LateReceive(s, d, e, x);
    } else {
      var s1 := Perform(s, Send(""));
      PerformKeepsInv(s, Send(""));
      PerformIs(s, Send(""));
      hide Perform;
      assert Rivals(s1, d, e, x);
      var rest := LateReceive(s1, d, e, x);
      calls := [Send("")] + rest;
      PerformFirst(s, Send(""), rest);
    }
  }

  lemma TakesThenQueued(s: State, d: DrainId, e: DrainId, x: Session) returns (calls: seq<Call>)
    requires Rivals(s, d, e, x) && s.drains[d].hand.None? && s.drains[e].hand.None?
    requires s.queue != [] && (|s.queue| > 1 || !s.closed)
    ensures NoAttach(calls) && !InOrder(PerformAll(s, calls), x)
  {
    hide InOrder, PerformAll, Conserved, HandsMatch, LossesBounded, DeliveredOnce, DrainsInOrder;
    var s1 := Perform(s, DrainReceives(d));
    PerformKeepsInv(s, DrainReceives(d));
    PerformIs(s, DrainReceives(d));
    hide Perform;
    assert Rivals(s1, d, e, x);
    var rest := HeldThenQueued(s1, d, e, x);
    calls := [DrainReceives(d)] + rest;
    PerformFirst(s, DrainReceives(d), rest);
  }

  /** Whatever the older drain holds, two messages left for the two of them can go out the wrong way round. */
  lemma RivalsReorder(s: State, d: DrainId, e: DrainId, x: Session) returns (calls: seq<Call>)
    requires Rivals(s, d, e, x) && s.drains[e].hand.None? && (!s.closed || |s.queue| + InHandOf(s, d) > 1)
    ensures NoAttach(calls) && !InOrder(PerformAll(s, calls), x)
  {
    hide InOrder, PerformAll, Conserved, HandsMatch, LossesBounded, DeliveredOnce, DrainsInOrder;
    if s.drains[d].hand.Some? {
      calls := HeldThenQueued(s, d, e, x);
    } else if s.queue != [] {
      calls := TakesThenQueued(s, d, e, x);
    } else {
      var s1 := Perform(s, Send(""));
      PerformKeepsInv(s, Send(""));
      PerformIs(s, Send(""));
      hide Perform;
      assert Rivals(s1, d, e, x);
      var rest := TakesThenQueued(s1, d, e, x);
      calls := [Send("")] + rest;
      PerformFirst(s, Send(""), rest);
    }
  }

  /** An able drain can be got to run without touching anything else. */
  lemma StartRuns(s: State, d: DrainId)
    requires Inv(s) && Able(s, d)
    ensures var s' := Step(s, Start(d));
            Inv(s') && Running(s', d) && s' == s.(drains := s'.drains) && |s'.drains| == |s.drains| &&
            forall e | 0 <= e < |s.drains| ::
              s'.drains[e].session == s.drains[e].session && s'.drains[e].hand == s.drains[e].hand &&
              (Able(s, e) ==> Able(s', e)) && (Running(s, e) ==> Running(s', e))
  {
    StepKeeps(s, Start(d));
    hide Inv;
  }

  /** Both drains of an unsafe launch can be got to run. */
  lemma RivalsStart(s: State, x: Session, d: DrainId, e: DrainId)
    requires Inv(s) && d != e && Of(s, d, x) && Of(s, e, x) && Able(s, d) && Able(s, e)
    ensures var s' := Step(Step(s, Start(d)), Start(e));
            Inv(s') && Of(s', d, x) && Of(s', e, x) && Running(s', d) && Running(s', e) &&
            s' == s.(drains := s'.drains) && |s'.drains| == |s.drains| && InHandOf(s', d) == InHandOf(s, d) &&
            s'.drains[e].hand == s.drains[e].hand
  {
    hide Step, Inv, Able, Running;
    StartRuns(s, d);
    StartRuns(Step(s, Start(d)), e);
  }

  /** An older drain d of x and the younger e can both still get a message, and there are two to be had. */
  ghost predicate Contested(s: State, d: DrainId, e: DrainId, x: Session)
  {
    Inv(s) && d != e && Of(s, d, x) && Of(s, e, x) && Able(s, d) && Able(s, e) && s.drains[e].hand.None? &&
    (!s.closed || |s.queue| + InHandOf(s, d) > 1)
  }

  lemma UnsafeLaunchContests(s: State, x: Session) returns (d: DrainId)
    requires Inv(s) && !Safe(s, x)
    ensures Contested(Step(s, Launch(x)), d, |s.drains|, x)
  {
    d :| 0 <= d < |s.drains| && Of(s, d, x) && Able(s, d) && (!s.closed || |s.queue| + InHandOf(s, d) > 1);
    StepKeeps(s, Launch(x));
    hide Inv;
    var s1 := Step(s, Launch(x));
    assert s1.drains[d] == s.drains[d] && s1.drains[|s.drains|] == Drain(x, false, false, false, None);
  }

  lemma UnsafeAttachContests(s: State, x: Session) returns (d: DrainId)
    requires Inv(s) && s.pending == {} && !SafeAttach(s, x)
    ensures Contested(Perform(s, Attach(x)), d, |s.drains|, x) && Perform(s, Attach(x)).session == Some(x)
  {
    var t, s1 := Step(s, TakeJobAndCancel), Perform(s, Attach(x));
    d :| 0 <= d < |t.drains| && Of(t, d, x) && Able(t, d) && (!t.closed || |t.queue| + InHandOf(t, d) > 1);
    AttachIs(s, x);
    PerformKeepsInv(s, Attach(x));
    hide Inv, Perform, Step;
    assert s1.drains[d] == t.drains[d];
  }

  lemma AttachIs(s: State, x: Session)
    ensures var t, s1 := Step(s, TakeJobAndCancel), Perform(s, Attach(x));
            s1.drains == t.drains + [Drain(x, false, false, false, None)] && |t.drains| == |s.drains| &&
            s1.queue == t.queue && s1.closed == t.closed && s1.session == Some(x)
  {
    PerformIs(s, Attach(x));
    hide Perform;
  }

  lemma StartBoth(s: State, d: DrainId, e: DrainId, rest: seq<Call>)
    ensures PerformAll(s, [DrainStarts(d)] + ([DrainStarts(e)] + rest))
         == PerformAll(Step(Step(s, Start(d)), Start(e)), rest)
  {
    hide Perform, PerformAll, Step;
    PerformFirst(s, DrainStarts(d), [DrainStarts(e)] + rest);
    PerformIs(s, DrainStarts(d));
    PerformFirst(Step(s, Start(d)), DrainStarts(e), rest);
    PerformIs(Step(s, Start(d)), DrainStarts(e));
  }

  lemma ContestedReorders(s: State, d: DrainId, e: DrainId, x: Session) returns (calls: seq<Call>)
    requires Contested(s, d, e, x) && s.session.Some?
    ensures NoAttach(calls) && !InOrder(PerformAll(s, calls), x)
  {
    hide PerformAll, Step, InOrder, Inv, Able, Running, Of, InHandOf;
    RivalsStart(s, x, d, e);
    var rest := RivalsReorder(Step(Step(s, Start(d)), Start(e)), d, e, x);
    calls := [DrainStarts(d)] + ([DrainStarts(e)] + rest);
    StartBoth(s, d, e, rest);
  }

  lemma UnsafeAttachReorders(s: State, x: Session) returns (calls: seq<Call>)
    requires Inv(s) && s.pending == {} && !SafeAttach(s, x)
    ensures NoAttach(calls) && !InOrder(PerformAll(Perform(s, Attach(x)), calls), x)
  {
    hide Perform, PerformAll, InOrder, Contested, SafeAttach, Inv;
    var d := UnsafeAttachContests(s, x);
    calls := ContestedReorders(Perform(s, Attach(x)), d, |s.drains|, x);
  }

  /** Once the rivals run, another attach that gets as far as setting the session lets sends through. */
  lemma SessionSetContests(s: State, d: DrainId, e: DrainId, x: Session) returns (actions: seq<Action>)
    requires Contested(s, d, e, x)
    ensures forall n | 0 <= n < |actions| :: !actions[n].Launch?
    ensures Rivals(Run(s, actions), d, e, x) && Run(s, actions).drains[e].hand.None?
    ensures var s' := Run(s, actions); !s'.closed || |s'.queue| + InHandOf(s', d) > 1
  {
    hide Run, Inv;
    RivalsStart(s, x, d, e);
    actions := [Start(d), Start(e), TakeJobAndCancel, SetSession(x)];
    RunFour(s, Start(d), Start(e), TakeJobAndCancel, SetSession(x));
    SessionSet(Step(Step(s, Start(d)), Start(e)), x);
    hide Step;
  }

  /** The same, whatever calls are under way. */
  lemma UnsafeLaunchReorders(s: State, x: Session) returns (actions: seq<Action>)
    requires Inv(s) && !Safe(s, x)
    ensures (forall n | 0 <= n < |actions| :: !actions[n].Launch?) && !InOrder(Run(Step(s, Launch(x)), actions), x)
  {
    hide Step, Run, PerformAll, InOrder, Safe, Contested, Rivals, Inv, InHandOf;
    var s1, e := Step(s, Launch(x)), |s.drains|;
    var d := UnsafeLaunchContests(s, x);
    var begin := SessionSetContests(s1, d, e, x);
    var calls := RivalsReorder(Run(s1, begin), d, e, x);
    var rest := CallsAreRuns(Run(s1, begin), calls);
    RunOf(s1, begin, rest);
    actions := begin + rest;
  }

  lemma SessionSet(s: State, x: Session)
    requires Inv(s)
    ensures var s' := Step(Step(s, TakeJobAndCancel), SetSession(x));
            Inv(s') && s'.session == Some(x) && s'.queue == s.queue && s'.closed == s.closed &&
            |s'.drains| == |s.drains| &&
            forall d | 0 <= d < |s.drains| ::
              s'.drains[d].session == s.drains[d].session && s'.drains[d].hand == s.drains[d].hand &&
              (Running(s, d) ==> Running(s', d))
  {
    StepKeeps(s, TakeJobAndCancel);
    StepKeeps(Step(s, TakeJobAndCancel), SetSession(x));
    hide Inv;
  }

  lemma CallsStart(calls: seq<Call>, x: Session)
    requires SafeAttaches(INITIAL, calls, x)
    ensures var s := PerformAll(INITIAL, calls); Inv(s) && Orderly(s, x) && s.pending == {}
  {
    CallsKeepOrderly(INITIAL, calls, x);
    OnlineMeansServed(calls);
  }

  /**
   Session x, attached safely so far, is attached once more.  However things go on, as long as later
   attaches of x are safe, it sees its messages in order, if and only if this attach is safe: if no drain
   of x may still receive once the current job is cancelled, or the channel is closed and at most one
   message is left for it.
   */
  lemma {:induction false} SessionSeesOrderIff(calls: seq<Call>, x: Session)
    requires SafeAttaches(INITIAL, calls, x)
    ensures var s := PerformAll(INITIAL, calls);
            var s1 := Perform(s, Attach(x));
            SafeAttach(s, x)
            <==> forall more | SafeAttaches(s1, more, x) :: InOrder(PerformAll(s1, more), x)
  {
    CallsStart(calls, x);
    var s := PerformAll(INITIAL, calls);
    var s1 := Perform(s, Attach(x));
    hide PerformAll, Perform, SafeAttach, InOrder, Inv;
    if SafeAttach(s, x) {
      PerformKeepsInv(s, Attach(x));
      PerformKeepsOrderly(s, Attach(x), x);
      forall more | SafeAttaches(s1, more, x)
        ensures InOrder(PerformAll(s1, more), x)
      {
        CallsKeepOrderly(s1, more, x);
      }
    } else {
      var more := UnsafeAttachReorders(s, x);
      assert SafeAttaches(s1, more, x);
    }
  }

  /**
   In every interleaving, a drain is launched for x, whose launches have been safe so far.  However things go
   on, as long as later launches for x are safe, x sees its messages in order, if and only if this launch is
   safe.
   */
  lemma {:induction false} LaunchKeepsOrderIff(actions: seq<Action>, x: Session)
    requires SafeLaunches(INITIAL, actions, x)
    ensures var s := Run(INITIAL, actions);
            var s1 := Step(s, Launch(x));
            Safe(s, x) <==> forall more | SafeLaunches(s1, more, x) :: InOrder(Run(s1, more), x)
  {
    StartsOrderly(x);
    RunKeepsOrderly(INITIAL, actions, x);
    var s := Run(INITIAL, actions);
    var s1 := Step(s, Launch(x));
    hide Run, Step, Safe, Inv, InOrder, HandsNewer, OneAble, FewLeft;
    if Safe(s, x) {
      StepKeeps(s, Launch(x));
      StepKeepsOrderly(s, Launch(x), x);
      forall more | SafeLaunches(s1, more, x)
        ensures InOrder(Run(s1, more), x)
      {
        RunKeepsOrderly(s1, more, x);
      }
    } else {
      var more := UnsafeLaunchReorders(s, x);
      assert SafeLaunches(s1, more, x);
    }
  }

  lemma AttachedAndStarted(x: Session)
    ensures Perform(Perform(INITIAL, Attach(x)), DrainStarts(0))
         == State([], false, Some(x), Some(0), [Drain(x, true, false, false, None)], {}, {}, [], [], [], [])
  {
    PerformIs(INITIAL, Attach(x));
    var s1 := State([], false, Some(x), Some(0), [Drain(x, false, false, false, None)], {}, {}, [], [], [], []);
    assert Perform(INITIAL, Attach(x)) == s1;
    PerformIs(s1, DrainStarts(0));
  }

  /** For instance: a session attached again while its first drain runs can see messages out of order. */
  lemma DoubleAttachReorders(x: Session) returns (more: seq<Call>)
    ensures NoAttach(more)
    ensures !InOrder(PerformAll(Perform(Perform(Perform(INITIAL, Attach(x)), DrainStarts(0)), Attach(x)), more), x)
  {
    var s := Perform(Perform(INITIAL, Attach(x)), DrainStarts(0));
    AttachedAndStarted(x);
    hide Perform, PerformAll, InOrder;
    assert Of(Step(s, TakeJobAndCancel), 0, x) && Able(Step(s, TakeJobAndCancel), 0);
    more := UnsafeAttachReorders(s, x);
  }

  lemma OnlyItsDrain(s: State, x: Session)
    requires OneDrain(s)
    ensures forall d: DrainId :: Working(Perform(s, Attach(x)), d) <==> d == |s.drains|
  {
    Attached(s, x);
    hide Perform;
  }

  lemma StartsValid()
    ensures Inv(INITIAL) && OneDrain(INITIAL) && Reachable(INITIAL)
  {
    assert INITIAL == PerformAll(INITIAL, []);
  }

  lemma FinishIs(s: State, d: DrainId, failed: bool)
    requires failed || CanComplete(s, d)
    ensures Perform(s, if failed then DrainEnds(d) else DrainCompletes(d)) == Ended(s, d, failed)
  {
    PerformIs(s, if failed then DrainEnds(d) else DrainCompletes(d));
  }

  /** Some sequence of calls leads to s. */
  ghost predicate Reachable(s: State) { exists calls :: s == PerformAll(INITIAL, calls) }

  lemma ReachableCall(s: State, c: Call)
    requires Reachable(s)
    ensures Reachable(Perform(s, c))
  {
    hide Perform;
    var calls :| s == PerformAll(INITIAL, calls);
    assert (calls + [c])[..|calls|] == calls;
    assert Perform(s, c) == PerformAll(INITIAL, calls + [c]);
  }

  lemma PerformKeeps(s: State, c: Call)
    requires Inv(s) && OneDrain(s) && Reachable(s)
    ensures Inv(Perform(s, c)) && OneDrain(Perform(s, c)) && Reachable(Perform(s, c))
  {
    hide Perform, Inv, OneDrain, Reachable;
    PerformKeepsInv(s, c);
    PerformKeepsOneDrain(s, c);
    ReachableCall(s, c);
  }

  // ----- the driver -----------------------------------------------------------------------------

  /** The driver, its calls and drains taken one at a time. */
  class Driver {
    var channel: seq<Message>
    var closed: bool
    var sessionRef: Option<Session>
    var drainJob: Option<DrainId>
    /** The drain coroutines launched so far. */
    var drains: seq<Drain>
    /** History, which the driver itself does not keep. */
    var accepted: seq<Message>
    var received: seq<Message>
    var fates: seq<Fate>
    var deliveries: seq<(DrainId, nat)>

    ghost function Abstract(): State
      reads this
    {
      State(channel, closed, sessionRef, drainJob, drains, {}, {}, accepted, received, fates, deliveries)
    }

    /** The driver is where some calls lead: the books balance, and the current job is the only drain at work. */
    ghost predicate Valid()
      reads this
    {
      Inv(Abstract()) && OneDrain(Abstract()) && Reachable(Abstract())
    }

    constructor ()
      ensures Valid() && Abstract() == INITIAL
    {
      hide Inv, OneDrain, Reachable;
      StartsValid();
      channel, closed, sessionRef, drainJob, drains := [], false, None, None, [];
      accepted, received, fates, deliveries := [], [], [], [];
    }

    /** Afterwards the session is set, and its new drain is the only one at work. */
    method AttachSession(session: Session)
      requires Valid()
      modifies this
      ensures Valid() && Abstract() == Perform(old(Abstract()), Attach(session))
      ensures sessionRef == Some(session) && |drains| == |old(drains)| + 1 && drains[|old(drains)|].session == session
      ensures forall d: DrainId :: Working(Abstract(), d) <==> d == |old(drains)|
      ensures channel == old(channel) && deliveries == old(deliveries)
      ensures drains[|old(drains)|] == Drain(session, false, false, false, None) && drainJob == Some(|old(drains)|)
    {
      ghost var s := Abstract();
      OnlyItsDrain(s, session);
      PerformIs(s, Attach(session));
      PerformKeeps(s, Attach(session));
      assert drainJob.Some? ==> drainJob.value < |drains|;
      hide Perform, Inv, OneDrain, Reachable, Working;
      CancelJob();
      sessionRef := Some(session);
      var job := |drains|;
      drains := drains + [Drain(session, false, false, false, None)];
      drainJob := Some(job);
      assert Abstract() == Perform(s, Attach(session));
    }

    /** Afterwards no session is set and no drain is at work; what is queued stays. */
    method DetachSession()
      requires Valid()
      modifies this
      ensures Valid() && Abstract() == Perform(old(Abstract()), Detach)
      ensures sessionRef.None? && (forall d: DrainId :: !Working(Abstract(), d)) && channel == old(channel)
      ensures drainJob.None? && |drains| == |old(drains)|
    {
      ghost var s := Abstract();
      DetachStopsWork(s);
      PerformIs(s, Detach);
      PerformKeeps(s, Detach);
      assert drainJob.Some? ==> drainJob.value < |drains|;
      hide Perform, Inv, OneDrain, Reachable;
      CancelJob();
      sessionRef := None;
    }

    method CancelJob()
      requires drainJob.Some? ==> drainJob.value < |drains|
      modifies this
      ensures Abstract() == Step(old(Abstract()), TakeJobAndCancel)
    {
      var job := drainJob;
      drainJob := None;
      if job.Some? && !drains[job.value].ended {
        drains := drains[job.value := drains[job.value].(cancelled := true)];
      }
    }

    /** A send that returns false changes nothing; one that returns true queues exactly its message, last. */
    method SendMessage(message: Message) returns (ok: bool)
      requires Valid()
      modifies this
      ensures Valid() && Abstract() == Perform(old(Abstract()), Send(message))
      ensures ok <==> old(sessionRef.Some? && !closed && |channel| < 64)
      ensures !ok ==> Abstract() == old(Abstract())
      ensures ok ==> channel == old(channel) + [message] && accepted == old(accepted) + [message]
    {
      hide Perform, Inv, OneDrain, Reachable;
      PerformIs(Abstract(), Send(message));
      PerformKeeps(Abstract(), Send(message));
      if sessionRef.None? { return false; }
      if closed || |channel| >= CAPACITY { return false; }
      channel := channel + [message];
      accepted := accepted + [message];
      ok := true;
    }

    /** ONLINE means that a drain is at work for the session that is set, OFFLINE that none is or none is set. */
    method Status() returns (online: bool)
      requires Valid()
      ensures online <==> sessionRef.Some? && exists d: DrainId :: Working(Abstract(), d) &&
                                                                   drains[d].session == sessionRef.value
    {
      online := sessionRef.Some? && drainJob.Some? && !drains[drainJob.value].cancelled;
      assert online ==> Working(Abstract(), drainJob.value);
    }

    method StopDriver()
      requires Valid()
      modifies this
      ensures Valid() && Abstract() == Perform(old(Abstract()), Stop)
      ensures closed && channel == old(channel)
    {
      hide Perform, Inv, OneDrain, Reachable;
      PerformIs(Abstract(), Stop);
      PerformKeeps(Abstract(), Stop);
      closed := true;
    }

    /** The drain's body begins. */
    method BeginDrain(d: DrainId)
      requires Valid() && Working(Abstract(), d)
      modifies this
      ensures Valid() && Abstract() == Perform(old(Abstract()), DrainStarts(d))
      ensures channel == old(channel) && sessionRef == old(sessionRef)
      ensures drains == old(drains)[d := old(drains)[d].(started := true)]
    {
      hide Perform, Inv, OneDrain, Reachable;
      PerformIs(Abstract(), DrainStarts(d));
      PerformKeeps(Abstract(), DrainStarts(d));
      drains := drains[d := drains[d].(started := true)];
    }

    /** The drain's loop head: the next message of the channel. */
    method ReceiveNext(d: DrainId)
      requires Valid() && CanReceive(Abstract(), d)
      modifies this
      ensures Valid() && Abstract() == Perform(old(Abstract()), DrainReceives(d))
      ensures channel == old(channel)[1..] && received == old(received) + [old(channel)[0]]
      ensures drains == old(drains)[d := old(drains)[d].(hand := Some(|old(received)|))]
    {
      hide Perform, Inv, OneDrain, Reachable;
      PerformIs(Abstract(), DrainReceives(d));
      PerformKeeps(Abstract(), DrainReceives(d));
      var msg := channel[0];
      channel := channel[1..];
      drains := drains[d := drains[d].(hand := Some(|received|))];
      fates := fates + [InHand(d)];
      received := received + [msg];
    }

    /** session.send returns. */
    method Sent(d: DrainId)
      requires Valid() && CanDeliver(Abstract(), d)
      modifies this
      ensures Valid() && Abstract() == Perform(old(Abstract()), DrainSends(d))
      ensures deliveries == old(deliveries) + [(d, old(drains)[d].hand.value)] && channel == old(channel)
    {
      hide Perform, Inv, OneDrain, Reachable;
      PerformIs(Abstract(), DrainSends(d));
      PerformKeeps(Abstract(), DrainSends(d));
      var i := drains[d].hand.value;
      fates := fates[i := Delivered(d, |deliveries|)];
      deliveries := deliveries + [(d, i)];
      drains := drains[d := drains[d].(hand := None)];
    }

    /**
     The drain is over: its loop has run out of messages, or it is cancelled or has failed.  Only one that
     has started has a finally block, and only its own session is cleared.
     */
    method Finish(d: DrainId, failed: bool)
      requires Valid() && Live(Abstract(), d) && (failed || CanComplete(Abstract(), d))
      modifies this
      ensures Valid()
      ensures Abstract() == Perform(old(Abstract()), if failed then DrainEnds(d) else DrainCompletes(d))
      ensures sessionRef == if old(drains)[d].started && old(sessionRef) == Some(old(drains)[d].session)
                            then None else old(sessionRef)
      ensures channel == old(channel) && deliveries == old(deliveries) && !Live(Abstract(), d)
      ensures drains == old(drains)[d := Drain(old(drains)[d].session, old(drains)[d].started,
                                               old(drains)[d].cancelled || failed, true, None)]
      ensures fates == match old(drains)[d].hand
                       case Some(i) => old(fates)[i := Lost(d)]
                       case None => old(fates)
    {
      ghost var c := if failed then DrainEnds(d) else DrainCompletes(d);
      assert drains[d].hand.Some? ==> drains[d].hand.value < |fates|;
      hide Perform, Inv, OneDrain, Reachable;
      FinishIs(Abstract(), d, failed);
      PerformKeeps(Abstract(), c);
      if drains[d].started && sessionRef == Some(drains[d].session) { sessionRef := None; }
      if drains[d].hand.Some? { fates := fates[drains[d].hand.value := Lost(d)]; }
      drains := drains[d := drains[d].(ended := true, cancelled := drains[d].cancelled || failed, hand := None)];
    }
  }
}
