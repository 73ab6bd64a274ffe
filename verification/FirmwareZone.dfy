/**
 FirmwareZoneDriver: a bounded queue of messages for one firmware display, drained by a coroutine of
 whichever WebSocket session is attached.  The state machine takes one atomic action at a time, so its
 runs include every interleaving of the driver's calls and of its drains.
 */
module FirmwareZone {
  import opened Wrappers

  type Message = string
  type Session = nat
  type DrainId = nat

  const CAPACITY := 64

  /**
   A drain coroutine, launched at first and started later; `cancelled` is Job.isCancelled, and `hand` is
   the message received but not yet sent, as an index into `received`.
   */
  datatype Drain = Drain(session: Session, started: bool, cancelled: bool, ended: bool, hand: Option<nat>)

  /** What became of a received message; a delivered one is entry `at` of the deliveries. */
  datatype Fate = InHand(drain: DrainId) | Delivered(drain: DrainId, at: nat) | Lost(drain: DrainId)

  /**
   `drains` holds every drain ever launched, `pending` those whose attach call has yet to store its job.
   `replaced`, the jobs that another attach stored its own over, and `accepted`, `received`, `fates` and
   `deliveries` are history.
   */
  datatype State = State(
    queue: seq<Message>, closed: bool, session: Option<Session>, job: Option<DrainId>, drains: seq<Drain>,
    pending: set<DrainId>, replaced: set<DrainId>,
    accepted: seq<Message>, received: seq<Message>, fates: seq<Fate>, deliveries: seq<(DrainId, nat)>)

  const INITIAL := State([], false, None, None, [], {}, {}, [], [], [], [])

  datatype Action =
    | TakeJobAndCancel              // drainJob.getAndSet(null)?.cancel()
    | SetSession(session: Session)
    | ClearSession
    | Launch(session: Session)
    | SetJob(drain: DrainId)
    | TrySend(message: Message)
    | CloseChannel
    | Start(drain: DrainId)         // the body begins; a drain cancelled before that never runs
    | Receive(drain: DrainId)
    | Deliver(drain: DrainId)
    | Complete(drain: DrainId)      // the channel is closed and drained: the loop is over
    | End(drain: DrainId)           // cancelled or failed

  predicate Live(s: State, d: DrainId) { d < |s.drains| && !s.drains[d].ended }

  /** A drain that is neither over nor cancelled. */
  predicate Working(s: State, d: DrainId) { Live(s, d) && !s.drains[d].cancelled }

  predicate Accepts(s: State) { !s.closed && |s.queue| < CAPACITY }

  /** One action; an action that cannot happen in a state leaves it as it is. */
  function Step(s: State, a: Action): State
  {
    match a
    case TakeJobAndCancel => (if s.job.Some? then Cancelled(s, s.job.value) else s).(job := None)
    case SetSession(x) => s.(session := Some(x))
    case ClearSession => s.(session := None)
    case Launch(x) =>
      s.(drains := s.drains + [Drain(x, false, false, false, None)], pending := s.pending + {|s.drains|})
    case SetJob(d) => JobSet(s, d)
    case TrySend(m) => if Accepts(s) then s.(queue := s.queue + [m], accepted := s.accepted + [m]) else s
    case CloseChannel => s.(closed := true)
    case Start(d) => if Working(s, d) then s.(drains := s.drains[d := s.drains[d].(started := true)]) else s
    case Receive(d) => Received(s, d)
    case Deliver(d) => Sent(s, d)
    case Complete(d) => if CanComplete(s, d) then Ended(s, d, false) else s
    case End(d) => Ended(s, d, true)
  }

  /** Job.cancel(), which does nothing to a job that is over. */
  function Cancelled(s: State, d: DrainId): State
  {
    if Live(s, d) then s.(drains := s.drains[d := s.drains[d].(cancelled := true)]) else s
  }

  function JobSet(s: State, d: DrainId): State
  {
    if d in s.pending
    then s.(job := Some(d), pending := s.pending - {d},
            replaced := if s.job.Some? then s.replaced + {s.job.value} else s.replaced)
    else s
  }

  predicate CanReceive(s: State, d: DrainId)
  {
    Live(s, d) && s.drains[d].started && s.drains[d].hand.None? && s.queue != []
  }

  function Received(s: State, d: DrainId): State
  {
    if CanReceive(s, d)
    then s.(queue := s.queue[1..], received := s.received + [s.queue[0]], fates := s.fates + [InHand(d)],
            drains := s.drains[d := s.drains[d].(hand := Some(|s.received|))])
    else s
  }

  predicate CanDeliver(s: State, d: DrainId)
  {
    Live(s, d) && s.drains[d].hand.Some? && s.drains[d].hand.value < |s.fates|
  }

  function Sent(s: State, d: DrainId): State
  {
    if CanDeliver(s, d)
    then s.(fates := s.fates[s.drains[d].hand.value := Delivered(d, |s.deliveries|)],
            deliveries := s.deliveries + [(d, s.drains[d].hand.value)],
            drains := s.drains[d := s.drains[d].(hand := None)])
    else s
  }

  predicate CanComplete(s: State, d: DrainId)
  {
    Live(s, d) && s.drains[d].started && s.drains[d].hand.None? && s.closed && s.queue == []
  }

  /** Only a drain that has started has a finally block to run; it clears the session if it is its own. */
  function Ended(s: State, d: DrainId, failed: bool): State
  {
    if Live(s, d)
    then s.(session := if s.drains[d].started && s.session == Some(s.drains[d].session) then None else s.session,
            fates := if CanDeliver(s, d) then s.fates[s.drains[d].hand.value := Lost(d)] else s.fates,
            drains := s.drains[d := s.drains[d].(ended := true, cancelled := s.drains[d].cancelled || failed,
                                                 hand := None)])
    else s
  }

  function Run(s: State, actions: seq<Action>): State
  {
    if actions == [] then s else Step(Run(s, actions[..|actions| - 1]), actions[|actions| - 1])
  }

  lemma {:induction false} RunOf(s: State, a: seq<Action>, b: seq<Action>)
    ensures Run(s, a + b) == Run(Run(s, a), b)
  {
    hide Step;
    if b == [] {
      assert a + b == a;
    } else {
      RunOf(s, a, b[..|b| - 1]);
      assert (a + b)[..|a + b| - 1] == a + b[..|b| - 1];
    }
  }

  // ----- conservation ---------------------------------------------------------------------------

  /** Nothing is invented, dropped from the queue or reordered, and the queue is bounded. */
  ghost predicate Conserved(s: State)
  {
    s.accepted == s.received + s.queue && |s.queue| <= 64 && |s.fates| == |s.received|
  }

  /** A message is in a drain's hand exactly if that drain, started and not over, holds it. */
  ghost predicate HandsMatch(s: State)
  {
    (forall d | 0 <= d < |s.drains| && s.drains[d].hand.Some? ::
       s.drains[d].started && !s.drains[d].ended && s.drains[d].hand.value < |s.fates| &&
       s.fates[s.drains[d].hand.value] == InHand(d)) &&
    (forall i | 0 <= i < |s.fates| && s.fates[i].InHand? ::
       s.fates[i].drain < |s.drains| && s.drains[s.fates[i].drain].hand == Some(i))
  }

  /** Only a drain that has ended can have lost a message, and no drain loses two. */
  ghost predicate LossesBounded(s: State)
  {
    (forall i | 0 <= i < |s.fates| && s.fates[i].Lost? ::
       s.fates[i].drain < |s.drains| && s.drains[s.fates[i].drain].ended) &&
    (forall i, j | 0 <= i < j < |s.fates| && s.fates[i].Lost? :: s.fates[i] != s.fates[j])
  }

  /** The deliveries are the messages whose fate says so, each once. */
  ghost predicate DeliveredOnce(s: State)
  {
    (forall k | 0 <= k < |s.deliveries| ::
       s.deliveries[k].0 < |s.drains| && s.deliveries[k].1 < |s.fates| &&
       s.fates[s.deliveries[k].1] == Delivered(s.deliveries[k].0, k)) &&
    (forall i | 0 <= i < |s.fates| && s.fates[i].Delivered? ::
       s.fates[i].at < |s.deliveries| && s.deliveries[s.fates[i].at] == (s.fates[i].drain, i))
  }

  /** A drain delivers in the order of acceptance. */
  ghost predicate DrainsInOrder(s: State)
  {
    (forall k, l | 0 <= k < l < |s.deliveries| && s.deliveries[k].0 == s.deliveries[l].0 ::
       s.deliveries[k].1 < s.deliveries[l].1) &&
    (forall k | 0 <= k < |s.deliveries| && s.deliveries[k].0 < |s.drains| && s.drains[s.deliveries[k].0].hand.Some? ::
       s.deliveries[k].1 < s.drains[s.deliveries[k].0].hand.value)
  }

  ghost predicate Inv(s: State)
  {
    Conserved(s) && HandsMatch(s) && LossesBounded(s) && DeliveredOnce(s) && DrainsInOrder(s)
  }

  lemma ReceiveKeepsHands(s: State, d: DrainId)
    requires Conserved(s) && HandsMatch(s) && CanReceive(s, d)
    ensures Conserved(Received(s, d)) && HandsMatch(Received(s, d))
  {
  }

  lemma ReceiveKeepsLosses(s: State, d: DrainId)
    requires HandsMatch(s) && LossesBounded(s) && CanReceive(s, d)
    ensures LossesBounded(Received(s, d))
  {
  }

  lemma ReceiveKeepsDeliveries(s: State, d: DrainId)
    requires Conserved(s) && HandsMatch(s) && DeliveredOnce(s) && DrainsInOrder(s) && CanReceive(s, d)
    ensures DeliveredOnce(Received(s, d)) && DrainsInOrder(Received(s, d))
  {
  }

  lemma DeliverKeepsHands(s: State, d: DrainId)
    requires Conserved(s) && HandsMatch(s) && CanDeliver(s, d)
    ensures Conserved(Sent(s, d)) && HandsMatch(Sent(s, d))
  {
  }

  lemma DeliverKeepsLosses(s: State, d: DrainId)
    requires HandsMatch(s) && LossesBounded(s) && CanDeliver(s, d)
    ensures LossesBounded(Sent(s, d))
  {
  }

  lemma DeliverKeepsDeliveries(s: State, d: DrainId)
    requires HandsMatch(s) && DeliveredOnce(s) && CanDeliver(s, d)
    ensures DeliveredOnce(Sent(s, d))
  {
  }

  lemma DeliverKeepsOrder(s: State, d: DrainId)
    requires DrainsInOrder(s) && CanDeliver(s, d)
    ensures DrainsInOrder(Sent(s, d))
  {
  }

  lemma EndKeepsHands(s: State, d: DrainId, failed: bool)
    requires Conserved(s) && HandsMatch(s) && Live(s, d)
    ensures Conserved(Ended(s, d, failed)) && HandsMatch(Ended(s, d, failed))
  {
  }

  lemma EndKeepsLosses(s: State, d: DrainId, failed: bool)
    requires HandsMatch(s) && LossesBounded(s) && Live(s, d)
    ensures LossesBounded(Ended(s, d, failed))
  {
  }

  lemma EndKeepsDeliveries(s: State, d: DrainId, failed: bool)
    requires Conserved(s) && HandsMatch(s) && DeliveredOnce(s) && DrainsInOrder(s) && Live(s, d)
    ensures DeliveredOnce(Ended(s, d, failed)) && DrainsInOrder(Ended(s, d, failed))
  {
  }

  lemma EndKeeps(s: State, d: DrainId, failed: bool)
    requires Inv(s)
    ensures Inv(Ended(s, d, failed))
  {
    hide HandsMatch, LossesBounded, DeliveredOnce, DrainsInOrder, Conserved;
    if Live(s, d) {
      EndKeepsHands(s, d, failed);
      EndKeepsLosses(s, d, failed);
      EndKeepsDeliveries(s, d, failed);
    }
  }

  /** The books do not depend on sessions, jobs and cancellations, and a fresh drain has an empty hand. */
  lemma SameBooks(s: State, s': State)
    requires Inv(s) && Conserved(s') && s'.fates == s.fates && s'.deliveries == s.deliveries
    requires |s.drains| <= |s'.drains|
    requires forall d | 0 <= d < |s.drains| ::
               s'.drains[d].hand == s.drains[d].hand && s'.drains[d].ended == s.drains[d].ended &&
               (s.drains[d].started ==> s'.drains[d].started)
    requires forall d | |s.drains| <= d < |s'.drains| :: s'.drains[d].hand == None
    ensures Inv(s')
  {
    assert HandsMatch(s');
    assert LossesBounded(s');
    assert DeliveredOnce(s');
    assert DrainsInOrder(s');
  }

  lemma OtherKeeps(s: State, a: Action)
    requires Inv(s) && !a.Receive? && !a.Deliver? && !a.Complete? && !a.End?
    ensures Inv(Step(s, a))
  {
    hide HandsMatch, LossesBounded, DeliveredOnce, DrainsInOrder;
    SameBooks(s, Step(s, a));
  }

  lemma StepKeeps(s: State, a: Action)
    requires Inv(s)
    ensures Inv(Step(s, a))
  {
    hide HandsMatch, LossesBounded, DeliveredOnce, DrainsInOrder, Conserved;
    match a
    case Receive(d) =>
      if CanReceive(s, d) { ReceiveKeepsHands(s, d); ReceiveKeepsLosses(s, d); ReceiveKeepsDeliveries(s, d); }
    case Deliver(d) =>
      if CanDeliver(s, d) {
        DeliverKeepsHands(s, d);
        DeliverKeepsLosses(s, d);
        DeliverKeepsDeliveries(s, d);
        DeliverKeepsOrder(s, d);
      }
    case Complete(d) => EndKeeps(s, d, false);
    case End(d) => EndKeeps(s, d, true);
    case _ => OtherKeeps(s, a);
  }

  lemma {:induction false} RunKeeps(s: State, actions: seq<Action>)
    requires Inv(s)
    ensures Inv(Run(s, actions))
  {
    if actions != [] {
      hide Step, Inv;
      RunKeeps(s, actions[..|actions| - 1]);
      StepKeeps(Run(s, actions[..|actions| - 1]), actions[|actions| - 1]);
    }
  }

  /** In every interleaving the books balance. */
  lemma {:induction false} RunsConserve(actions: seq<Action>)
    ensures Inv(Run(INITIAL, actions))
  {
    RunKeeps(INITIAL, actions);
  }

  lemma {:induction false} InjectionBound(indices: set<nat>, drains: set<nat>, fates: seq<Fate>)
    requires forall i | i in indices :: i < |fates| && fates[i].Lost? && fates[i].drain in drains
    requires forall i, j | i in indices && j in indices && i != j :: fates[i].drain != fates[j].drain
    ensures |indices| <= |drains|
  {
    if i :| i in indices {
      InjectionBound(indices - {i}, drains - {fates[i].drain}, fates);
    }
  }

  function LostMessages(s: State): set<nat> { set i: nat | i < |s.fates| && s.fates[i].Lost? }

  function EndedDrains(s: State): set<nat> { set d: nat | d < |s.drains| && s.drains[d].ended }

  /** There are at most as many lost messages as ended drains. */
  lemma {:induction false} LossesAtMostEndedDrains(actions: seq<Action>)
    ensures |LostMessages(Run(INITIAL, actions))| <= |EndedDrains(Run(INITIAL, actions))|
  {
    RunsConserve(actions);
    var s := Run(INITIAL, actions);
    InjectionBound(LostMessages(s), EndedDrains(s), s.fates);
  }

  // ----- the order in which a session sees its messages -----------------------------------------

  /** A drain that may still receive: one cancelled before it started never will. */
  predicate Able(s: State, d: DrainId) { Live(s, d) && (s.drains[d].started || !s.drains[d].cancelled) }

  predicate Of(s: State, d: DrainId, x: Session) { d < |s.drains| && s.drains[d].session == x }

  /** Session x sees its messages in the order of acceptance. */
  ghost predicate InOrder(s: State, x: Session)
  {
    forall k, l | 0 <= k < l < |s.deliveries| && Of(s, s.deliveries[k].0, x) && Of(s, s.deliveries[l].0, x) ::
      s.deliveries[k].1 < s.deliveries[l].1
  }

  /** A message in hand for x is newer than all that x has seen. */
  ghost predicate HandsNewer(s: State, x: Session)
  {
    forall k, d | 0 <= k < |s.deliveries| && 0 <= d < |s.drains| && s.drains[d].hand.Some? &&
                  Of(s, s.deliveries[k].0, x) && Of(s, d, x) ::
      s.deliveries[k].1 < s.drains[d].hand.value
  }

  ghost predicate OneAble(s: State, x: Session)
  {
    forall d, e | 0 <= d < e < |s.drains| && Of(s, d, x) && Of(s, e, x) :: !Able(s, d) || !Able(s, e)
  }

  function InHandOf(s: State, d: DrainId): nat { if d < |s.drains| && s.drains[d].hand.Some? then 1 else 0 }

  /** Nothing new comes in, and of all that may still reach x there is at most one message. */
  ghost predicate FewLeft(s: State, x: Session)
  {
    s.closed && |s.queue| <= 1 &&
    (forall d | 0 <= d < |s.drains| && Of(s, d, x) :: |s.queue| + InHandOf(s, d) <= 1) &&
    (forall d, e | 0 <= d < e < |s.drains| && Of(s, d, x) && Of(s, e, x) :: InHandOf(s, d) + InHandOf(s, e) <= 1)
  }

  ghost predicate Orderly(s: State, x: Session)
  {
    InOrder(s, x) && HandsNewer(s, x) && (OneAble(s, x) || FewLeft(s, x))
  }

  /**
   Launching a drain for x is safe: no older drain of x may still receive, or the channel is closed and
   there is at most one message left for the two of them.
   */
  ghost predicate Safe(s: State, x: Session)
  {
    forall d | 0 <= d < |s.drains| && Of(s, d, x) && Able(s, d) :: s.closed && |s.queue| + InHandOf(s, d) <= 1
  }

  /** Nothing that matters to a session has been added. */
  lemma NothingNew(s: State, s': State, x: Session)
    requires Orderly(s, x) && s'.deliveries == s.deliveries && |s'.drains| == |s.drains|
    requires s.closed ==> s'.closed && |s'.queue| <= |s.queue|
    requires forall d | 0 <= d < |s.drains| ::
               s'.drains[d].session == s.drains[d].session && (Able(s', d) ==> Able(s, d)) &&
               (s'.drains[d].hand.Some? ==> s'.drains[d].hand == s.drains[d].hand)
    ensures Orderly(s', x)
  {
    hide Able;
    assert forall d | 0 <= d < |s.drains| :: Of(s', d, x) == Of(s, d, x) && InHandOf(s', d) <= InHandOf(s, d);
    hide Of, InHandOf;
    assert InOrder(s', x);
    assert HandsNewer(s', x) by {
      assert forall k | 0 <= k < |s.deliveries| :: Of(s', s.deliveries[k].0, x) == Of(s, s.deliveries[k].0, x);
    }
    if OneAble(s, x) { assert OneAble(s', x); } else { assert FewLeft(s', x); }
  }

  lemma ReceiveKeepsSession(s: State, d: DrainId, x: Session)
    requires Conserved(s) && DeliveredOnce(s) && InOrder(s, x) && HandsNewer(s, x) && CanReceive(s, d)
    ensures InOrder(Received(s, d), x) && HandsNewer(Received(s, d), x)
  {
  }

  lemma ReceiveKeepsApart(s: State, d: DrainId, x: Session)
    requires (OneAble(s, x) || FewLeft(s, x)) && CanReceive(s, d)
    ensures OneAble(Received(s, d), x) || FewLeft(Received(s, d), x)
  {
    var s' := Received(s, d);
    assert forall e | 0 <= e < |s.drains| ::
        Of(s', e, x) == Of(s, e, x) && Able(s', e) == Able(s, e) && (e != d ==> InHandOf(s', e) == InHandOf(s, e));
    hide Of, Able, InHandOf;
    if FewLeft(s, x) {
      assert |s'.queue| == 0;
      assert FewLeft(s', x);
    } else {
      assert OneAble(s', x);
    }
  }

  /** Two drains of x cannot both hold a message. */
  lemma OneHand(s: State, d: DrainId, e: DrainId, x: Session)
    requires HandsMatch(s) && (OneAble(s, x) || FewLeft(s, x)) && Of(s, d, x) && Of(s, e, x)
    requires s.drains[d].hand.Some? && s.drains[e].hand.Some?
    ensures d == e
  {
    assert Able(s, d) && Able(s, e) && InHandOf(s, d) == 1 && InHandOf(s, e) == 1;
  }

  lemma DeliverKeepsSession(s: State, d: DrainId, x: Session)
    requires HandsMatch(s) && Orderly(s, x) && CanDeliver(s, d)
    ensures InOrder(Sent(s, d), x) && HandsNewer(Sent(s, d), x)
  {
    forall e | 0 <= e < |s.drains| && Of(s, d, x) && Of(s, e, x) && s.drains[e].hand.Some?
      ensures e == d
    {
      OneHand(s, d, e, x);
    }
    hide OneAble, FewLeft;
  }

  lemma DeliverKeepsApart(s: State, d: DrainId, x: Session)
    requires (OneAble(s, x) || FewLeft(s, x)) && CanDeliver(s, d)
    ensures OneAble(Sent(s, d), x) || FewLeft(Sent(s, d), x)
  {
    var s' := Sent(s, d);
    assert forall e | 0 <= e < |s.drains| ::
        Of(s', e, x) == Of(s, e, x) && Able(s', e) == Able(s, e) && InHandOf(s', e) <= InHandOf(s, e);
    hide Of, Able, InHandOf;
    if FewLeft(s, x) { assert FewLeft(s', x); } else { assert OneAble(s', x); }
  }

  lemma LaunchKeepsSession(s: State, y: Session, x: Session)
    requires DeliveredOnce(s) && InOrder(s, x) && HandsNewer(s, x)
    ensures InOrder(Step(s, Launch(y)), x) && HandsNewer(Step(s, Launch(y)), x)
  {
  }

  lemma LaunchKeepsApart(s: State, y: Session, x: Session)
    requires HandsMatch(s) && (OneAble(s, x) || FewLeft(s, x)) && (y == x ==> Safe(s, x))
    ensures OneAble(Step(s, Launch(y)), x) || FewLeft(Step(s, Launch(y)), x)
  {
    var s', n := Step(s, Launch(y)), |s.drains|;
    assert forall e | 0 <= e < n :: s'.drains[e] == s.drains[e];
    assert forall e | 0 <= e < n ::
        Of(s', e, x) == Of(s, e, x) && Able(s', e) == Able(s, e) && InHandOf(s', e) == InHandOf(s, e);
    assert Of(s', n, x) == (x == y) && InHandOf(s', n) == 0;
    assert forall e | 0 <= e < n && InHandOf(s, e) == 1 :: Able(s, e);
    hide HandsMatch, Of, Able, InHandOf;
    if FewLeft(s, x) {
      assert FewLeft(s', x);
    } else if d :| 0 <= d < n && Of(s, d, x) && Able(s, d) && x == y {
      assert s.closed && |s.queue| + InHandOf(s, d) <= 1;
      assert FewLeft(s', x);
    } else {
      assert OneAble(s', x);
    }
  }

  lemma OtherKeepsOrderly(s: State, a: Action, x: Session)
    requires Orderly(s, x) && !a.Receive? && !a.Deliver? && !a.Launch?
    ensures Orderly(Step(s, a), x)
  {
    hide Orderly;
    NothingNew(s, Step(s, a), x);
  }

  lemma StepKeepsOrderly(s: State, a: Action, x: Session)
    requires Inv(s) && Orderly(s, x) && (a == Launch(x) ==> Safe(s, x))
    ensures Orderly(Step(s, a), x)
  {
    hide InOrder, HandsNewer, OneAble, FewLeft, Safe;
    hide HandsMatch, DeliveredOnce, LossesBounded, DrainsInOrder, Conserved;
    match a
    case Receive(d) => if CanReceive(s, d) { ReceiveKeepsSession(s, d, x); ReceiveKeepsApart(s, d, x); }
    case Deliver(d) => if CanDeliver(s, d) { DeliverKeepsSession(s, d, x); DeliverKeepsApart(s, d, x); }
    case Launch(y) => LaunchKeepsSession(s, y, x); LaunchKeepsApart(s, y, x);
    case _ => OtherKeepsOrderly(s, a, x);
  }

  /** Whenever a drain is launched for x, that is safe. */
  ghost predicate SafeLaunches(s: State, actions: seq<Action>, x: Session)
  {
    forall n | 0 <= n < |actions| && actions[n] == Launch(x) :: Safe(Run(s, actions[..n]), x)
  }

  lemma {:induction false} RunKeepsOrderly(s: State, actions: seq<Action>, x: Session)
    requires Inv(s) && Orderly(s, x) && SafeLaunches(s, actions, x)
    ensures Inv(Run(s, actions)) && Orderly(Run(s, actions), x)
  {
    if actions != [] {
      var before, a := actions[..|actions| - 1], actions[|actions| - 1];
      assert forall n | 0 <= n < |before| :: before[..n] == actions[..n];
      assert actions[..|before|] == before;
      hide Step, Inv, Orderly, Safe;
      RunKeepsOrderly(s, before, x);
      StepKeeps(Run(s, before), a);
      StepKeepsOrderly(Run(s, before), a, x);
    }
  }

  lemma StartsOrderly(x: Session)
    ensures Inv(INITIAL) && Orderly(INITIAL, x)
  {
  }

  /** In every interleaving a session whose launches are safe sees its messages in the order of acceptance. */
  lemma {:induction false} SessionSeesOrder(actions: seq<Action>, x: Session)
    requires SafeLaunches(INITIAL, actions, x)
    ensures InOrder(Run(INITIAL, actions), x)
  {
    hide Inv, Run, SafeLaunches, InOrder, HandsNewer, OneAble, FewLeft;
    StartsOrderly(x);
    RunKeepsOrderly(INITIAL, actions, x);
  }

  lemma {:induction false} NoLaunchNoDrain(actions: seq<Action>, x: Session)
    requires forall n | 0 <= n < |actions| :: actions[n] != Launch(x)
    ensures forall d: DrainId :: !Of(Run(INITIAL, actions), d, x)
  {
    if actions != [] {
      NoLaunchNoDrain(actions[..|actions| - 1], x);
      DrainsOf(Run(INITIAL, actions[..|actions| - 1]), actions[|actions| - 1], x);
      hide Step, Of;
    }
  }

  lemma DrainsOf(s: State, a: Action, x: Session)
    requires a != Launch(x)
    ensures forall d: DrainId :: Of(Step(s, a), d, x) == Of(s, d, x)
  {
  }

  /** In particular, in every interleaving, a session that is attached no more than once does. */
  lemma {:induction false} SessionAttachedOnceSeesOrder(actions: seq<Action>, x: Session)
    requires forall m, n | 0 <= m < n < |actions| :: actions[m] != Launch(x) || actions[n] != Launch(x)
    ensures InOrder(Run(INITIAL, actions), x)
  {
    forall n | 0 <= n < |actions| && actions[n] == Launch(x)
      ensures Safe(Run(INITIAL, actions[..n]), x)
    {
      NoLaunchNoDrain(actions[..n], x);
    }
    hide Run, Safe, InOrder;
    SessionSeesOrder(actions, x);
  }

  // ----- jobs that are overwritten --------------------------------------------------------------

  /**
   A drain at work is the current job, has yet to become it, or was it until another attach stored its
   own; and a drain that is over without having been cancelled has found the channel closed.
   */
  ghost predicate Accounted(s: State)
  {
    (forall d | 0 <= d < |s.drains| && Working(s, d) :: d in s.pending || d in s.replaced || s.job == Some(d)) &&
    (forall d | 0 <= d < |s.drains| && s.drains[d].ended && !s.drains[d].cancelled :: s.closed) &&
    (forall d | d in s.pending :: d < |s.drains| && s.job != Some(d)) &&
    (forall d | d in s.replaced :: d < |s.drains| && s.job != Some(d)) &&
    (s.job.Some? ==> s.job.value < |s.drains|) && s.pending !! s.replaced
  }

  lemma JobSetKeepsAccounted(s: State, d: DrainId)
    requires Accounted(s)
    ensures Accounted(JobSet(s, d))
  {
    assert forall e | 0 <= e < |s.drains| :: Working(JobSet(s, d), e) == Working(s, e);
    hide Working;
  }

  lemma TakeJobKeepsAccounted(s: State)
    requires Accounted(s)
    ensures Accounted(Step(s, TakeJobAndCancel))
  {
  }

  lemma LaunchKeepsAccounted(s: State, x: Session)
    requires Accounted(s)
    ensures Accounted(Step(s, Launch(x)))
  {
  }

  lemma StepKeepsAccounted(s: State, a: Action)
    requires Accounted(s)
    ensures Accounted(Step(s, a))
  {
    match a
    case TakeJobAndCancel => TakeJobKeepsAccounted(s);
    case SetJob(d) => JobSetKeepsAccounted(s, d);
    case Launch(x) => LaunchKeepsAccounted(s, x);
    case _ =>
      var s' := Step(s, a);
      assert forall e | 0 <= e < |s.drains| && Working(s', e) :: Working(s, e);
      hide Working;
  }

  lemma {:induction false} RunsAccount(actions: seq<Action>)
    ensures Accounted(Run(INITIAL, actions))
  {
    if actions != [] {
      hide Step, Accounted;
      RunsAccount(actions[..|actions| - 1]);
      StepKeepsAccounted(Run(INITIAL, actions[..|actions| - 1]), actions[|actions| - 1]);
    }
  }

  // ----- queued messages and a later session ----------------------------------------------------

  lemma QueueStays(s: State, a: Action)
    ensures !a.Receive? ==> s.queue <= Step(s, a).queue
    ensures s.accepted <= Step(s, a).accepted
    ensures s.closed ==> Step(s, a).closed && Step(s, a).accepted == s.accepted
  {
  }

  /** Whatever else happens, what is queued stays queued, in front of what is sent later. */
  lemma {:induction false} QueueSurvives(s: State, actions: seq<Action>)
    requires forall n | 0 <= n < |actions| :: !actions[n].Receive?
    ensures s.queue <= Run(s, actions).queue
  {
    if actions != [] {
      QueueSurvives(s, actions[..|actions| - 1]);
      assert !actions[|actions| - 1].Receive?;
      QueueStays(Run(s, actions[..|actions| - 1]), actions[|actions| - 1]);
      hide Step;
    }
  }

  /** After stop() nothing more is accepted, whatever happens; what is queued can still be drained. */
  lemma {:induction false} ClosedForever(s: State, actions: seq<Action>)
    requires s.closed
    ensures Run(s, actions).closed && Run(s, actions).accepted == s.accepted
  {
    if actions != [] {
      ClosedForever(s, actions[..|actions| - 1]);
      QueueStays(Run(s, actions[..|actions| - 1]), actions[|actions| - 1]);
      hide Step;
    }
  }

  lemma {:induction false} AcceptedGrows(s: State, actions: seq<Action>)
    ensures s.accepted <= Run(s, actions).accepted
  {
    if actions != [] {
      AcceptedGrows(s, actions[..|actions| - 1]);
      QueueStays(Run(s, actions[..|actions| - 1]), actions[|actions| - 1]);
      hide Step;
    }
  }

  /** The messages drain d has delivered, in order. */
  function DeliveredBy(deliveries: seq<(DrainId, nat)>, received: seq<Message>, d: DrainId): seq<Message>
  {
    if deliveries == [] then []
    else
      var last := deliveries[|deliveries| - 1];
      DeliveredBy(deliveries[..|deliveries| - 1], received, d) +
      if last.0 == d && last.1 < |received| then [received[last.1]] else []
  }

  function HeldBy(s: State, d: DrainId): seq<Message>
  {
    if d < |s.drains| && s.drains[d].hand.Some? && s.drains[d].hand.value < |s.received|
    then [s.received[s.drains[d].hand.value]] else []
  }

  /** What drain d has delivered and the message in its hand. */
  function TakenBy(s: State, d: DrainId): seq<Message> { DeliveredBy(s.deliveries, s.received, d) + HeldBy(s, d) }

  lemma {:induction false} ReceivedMore(deliveries: seq<(DrainId, nat)>, received: seq<Message>, m: Message, d: DrainId)
    requires forall k | 0 <= k < |deliveries| :: deliveries[k].1 < |received|
    ensures DeliveredBy(deliveries, received + [m], d) == DeliveredBy(deliveries, received, d)
  {
    if deliveries != [] { ReceivedMore(deliveries[..|deliveries| - 1], received, m, d); }
  }

  lemma {:induction false} NoneDelivered(deliveries: seq<(DrainId, nat)>, received: seq<Message>, d: DrainId)
    requires forall k | 0 <= k < |deliveries| :: deliveries[k].0 != d
    ensures DeliveredBy(deliveries, received, d) == []
  {
    if deliveries != [] { NoneDelivered(deliveries[..|deliveries| - 1], received, d); }
  }

  /** Since `n` messages had been received, everything received has been taken by d. */
  ghost predicate Relays(s: State, d: DrainId, n: nat)
  {
    d < |s.drains| && n <= |s.received| && TakenBy(s, d) == s.received[n..]
  }

  lemma ReceiveRelays(s: State, d: DrainId, n: nat)
    requires Conserved(s) && DeliveredOnce(s) && Relays(s, d, n) && CanReceive(s, d)
    ensures Relays(Received(s, d), d, n)
  {
    ReceivedMore(s.deliveries, s.received, s.queue[0], d);
  }

  lemma DeliverRelays(s: State, e: DrainId, d: DrainId, n: nat)
    requires Conserved(s) && Relays(s, d, n) && CanDeliver(s, e)
    ensures Relays(Sent(s, e), d, n)
  {
    assert Sent(s, e).deliveries[..|s.deliveries|] == s.deliveries;
  }

  /** No drain but d receives, and d is not cut off. */
  ghost predicate OnlyDrain(actions: seq<Action>, d: DrainId)
  {
    forall n | 0 <= n < |actions| :: (actions[n].Receive? ==> actions[n].drain == d) && actions[n] != End(d)
  }

  lemma OtherRelays(s: State, a: Action, d: DrainId, n: nat)
    requires Inv(s) && Relays(s, d, n) && !a.Receive? && !a.Deliver? && a != End(d)
    ensures Relays(Step(s, a), d, n) && Step(s, a).received == s.received
  {
    hide HandsMatch, LossesBounded, DrainsInOrder, DeliveredOnce, DeliveredBy;
    assert HeldBy(Step(s, a), d) == HeldBy(s, d);
  }

  lemma StepRelays(s: State, a: Action, d: DrainId, n: nat)
    requires Inv(s) && Relays(s, d, n) && (a.Receive? ==> a.drain == d) && a != End(d)
    ensures Relays(Step(s, a), d, n) && s.received[..n] == Step(s, a).received[..n]
  {
    hide HandsMatch, LossesBounded, DrainsInOrder, DeliveredBy;
    match a
    case Receive(e) => if CanReceive(s, d) { ReceiveRelays(s, d, n); }
    case Deliver(e) => if CanDeliver(s, e) { DeliverRelays(s, e, d, n); }
    case _ => OtherRelays(s, a, d, n);
  }

  lemma {:induction false} RunRelays(s: State, actions: seq<Action>, d: DrainId, n: nat)
    requires Inv(s) && Relays(s, d, n) && OnlyDrain(actions, d)
    ensures Relays(Run(s, actions), d, n) && s.received[..n] == Run(s, actions).received[..n]
  {
    if actions != [] {
      hide Step, Inv, TakenBy;
      RunRelays(s, actions[..|actions| - 1], d, n);
      RunKeeps(s, actions[..|actions| - 1]);
      StepRelays(Run(s, actions[..|actions| - 1]), actions[|actions| - 1], d, n);
    }
  }

  /** Of all that was accepted, what is taken is the queue of then, followed by what came later. */
  lemma TakenIsBacklog(before: seq<Message>, queue: seq<Message>, taken: seq<Message>, left: seq<Message>,
                       accepted: seq<Message>, delivered: seq<Message>, held: seq<Message>)
    requires accepted == before + taken + left && before + queue <= accepted && taken == delivered + held
    ensures taken <= queue + accepted[|before + queue|..]
    ensures |delivered| >= |queue| ==> queue <= delivered
  {
    assert taken + left == accepted[|before|..];
    assert accepted == before + queue + accepted[|before + queue|..];
    assert queue + accepted[|before + queue|..] == accepted[|before|..];
    assert delivered <= accepted[|before|..] && queue <= accepted[|before|..];
  }

  lemma LaunchRelays(s: State, x: Session)
    requires Inv(s)
    ensures Relays(Step(s, Launch(x)), |s.drains|, |s.received|) && Inv(Step(s, Launch(x)))
  {
    NoneDelivered(s.deliveries, s.received, |s.drains|);
    StepKeeps(s, Launch(x));
  }

  /**
   From s on, everything received has been taken by d: a beginning of the backlog of s followed by what was
   sent later.  Once d has delivered as many messages as were queued, the first of them are the backlog.
   */
  ghost predicate GetsBacklog(s: State, s': State, d: DrainId)
  {
    var delivered := DeliveredBy(s'.deliveries, s'.received, d);
    s.accepted <= s'.accepted && s'.received == s.received + TakenBy(s', d) &&
    TakenBy(s', d) <= s.queue + s'.accepted[|s.accepted|..] &&
    (|delivered| >= |s.queue| ==> s.queue <= delivered)
  }

  lemma RelayedIsBacklog(s: State, s': State, d: DrainId)
    requires Conserved(s) && Conserved(s') && s.accepted <= s'.accepted
    requires Relays(s', d, |s.received|) && s.received == s'.received[..|s.received|]
    ensures GetsBacklog(s, s', d)
  {
    hide DeliveredBy, HeldBy;
    assert s'.received == s'.received[..|s.received|] + s'.received[|s.received|..];
    TakenIsBacklog(s.received, s.queue, TakenBy(s', d), s'.queue, s'.accepted,
                   DeliveredBy(s'.deliveries, s'.received, d), HeldBy(s', d));
  }

  /**
   What a disconnect leaves in the queue goes to the next drain, whatever happens after its launch, as long
   as no other drain receives and it is not cut off.
   */
  lemma {:induction false} NextSessionGetsBacklog(s: State, x: Session, actions: seq<Action>)
    requires Inv(s) && OnlyDrain(actions, |s.drains|)
    ensures GetsBacklog(s, Run(Step(s, Launch(x)), actions), |s.drains|)
  {
    var d, s1 := |s.drains|, Step(s, Launch(x));
    assert s1.received == s.received && s1.accepted == s.accepted;
    LaunchRelays(s, x);
    hide Run, Step, Relays, GetsBacklog, Conserved, HandsMatch, LossesBounded, DeliveredOnce, DrainsInOrder;
    RunRelays(s1, actions, d, |s.received|);
    RunKeeps(s1, actions);
    AcceptedGrows(s1, actions);
    assert s1.received[..|s.received|] == s.received;
    RelayedIsBacklog(s, Run(s1, actions), d);
  }

  function DrainActions(d: DrainId, n: nat): (actions: seq<Action>)
    ensures OnlyDrain(actions, d)
  {
    if n == 0 then [Start(d)] else DrainActions(d, n - 1) + [Receive(d), Deliver(d)]
  }

  lemma RunTwo(s: State, a: Action, b: Action)
    ensures Run(s, [a, b]) == Step(Step(s, a), b)
  {
    hide Step;
    assert [a, b][..1] == [a] && [a][..0] == [];
    assert Run(s, [a]) == Step(s, a);
  }

  lemma RunFour(s: State, a: Action, b: Action, c: Action, d: Action)
    ensures Run(s, [a, b, c, d]) == Step(Step(Step(Step(s, a), b), c), d)
  {
    hide Step, Run;
    assert [a, b, c, d] == [a, b] + [c, d];
    RunOf(s, [a, b], [c, d]);
    RunTwo(s, a, b);
    RunTwo(Step(Step(s, a), b), c, d);
  }

  /** A drain at work hands the head of the queue on. */
  lemma PassesOneOn(s: State, d: DrainId)
    requires Conserved(s) && Live(s, d) && s.drains[d].started && s.drains[d].hand.None? && s.queue != []
    ensures var s' := Step(Step(s, Receive(d)), Deliver(d));
            Live(s', d) && s'.drains[d].started && s'.drains[d].hand.None? && Conserved(s') &&
            s'.queue == s.queue[1..] && s'.accepted == s.accepted
  {
  }

  lemma {:induction false} DrainDelivers(s: State, d: DrainId, n: nat)
    requires Conserved(s) && Working(s, d) && s.drains[d].hand.None? && n <= |s.queue|
    ensures var s' := Run(s, DrainActions(d, n));
            Live(s', d) && s'.drains[d].started && s'.drains[d].hand.None? && Conserved(s') &&
            s'.queue == s.queue[n..] && s'.accepted == s.accepted
  {
    if n == 0 {
      assert [Start(d)][..0] == [];
      assert Run(s, [Start(d)]) == Step(Run(s, []), Start(d));
    } else {
      hide Step;
      DrainDelivers(s, d, n - 1);
      RunOf(s, DrainActions(d, n - 1), [Receive(d), Deliver(d)]);
      RunTwo(Run(s, DrainActions(d, n - 1)), Receive(d), Deliver(d));
      PassesOneOn(Run(s, DrainActions(d, n - 1)), d);
    }
  }

  /** And a run of that kind that delivers the whole backlog, and nothing else, is always possible. */
  lemma {:induction false} BacklogCanBeDelivered(s: State, x: Session) returns (actions: seq<Action>)
    requires Inv(s)
    ensures OnlyDrain(actions, |s.drains|)
    ensures var s' := Run(Step(s, Launch(x)), actions);
            DeliveredBy(s'.deliveries, s'.received, |s.drains|) == s.queue
  {
    var d, s1 := |s.drains|, Step(s, Launch(x));
    actions := DrainActions(d, |s.queue|);
    DrainDelivers(s1, d, |s.queue|);
    NextSessionGetsBacklog(s, x, actions);
    hide Run, Step, DeliveredBy, DrainActions;
    var s' := Run(s1, actions);
    assert s'.accepted == s.received + s.queue == s.received + TakenBy(s', d);
    assert s.queue == s'.accepted[|s.received|..] == TakenBy(s', d);
  }
}
