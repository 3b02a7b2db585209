/** client/src/events.rs: a bounded channel that drops its oldest item when full, with an atomic waker.

    `Shared` is the memory both sides touch, changed only by the atomic operations below. Class
    `Channel` runs them call by call; `Execute` interleaves them between any number of senders and
    one receiver, one atomic operation at a time. */
module LossyChannel {
  import opened Prelude

  /** `waker` is true while a waker is registered; `scheduled` while the receiving task has been woken
      and not polled since. */
  datatype Shared<T> = Shared(capacity: nat, queue: seq<T>, closed: bool, waker: bool, scheduled: bool)

  function Fresh<T>(capacity: nat): Shared<T> {
    Shared(capacity, [], false, false, false)
  }

  /** Under the queue lock: drop the oldest item if the queue is full, then add the new one. */
  function Offer<T>(s: Shared<T>, item: T): Shared<T> {
    s.(queue := (if |s.queue| == s.capacity && s.queue != [] then s.queue[1..] else s.queue) + [item])
  }

  function MarkClosed<T>(s: Shared<T>): Shared<T> {
    s.(closed := true)
  }

  /** Waking takes the registered waker, if there is one, and schedules its task. */
  function Wake<T>(s: Shared<T>): Shared<T> {
    s.(waker := false, scheduled := s.scheduled || s.waker)
  }

  function Register<T>(s: Shared<T>): Shared<T> {
    s.(waker := true)
  }

  function Pop<T>(s: Shared<T>): Shared<T> {
    s.(queue := if s.queue == [] then [] else s.queue[1..])
  }

  /******* The channel, call by call *******/

  datatype Poll<+T> = Pending | Ready(item: Option<T>)

  class Channel<T> {
    const capacity: nat
    var queue: seq<T>
    var closed: bool
    var waker: bool
    var scheduled: bool

    function Memory(): Shared<T>
      reads this
    {
      Shared(capacity, queue, closed, waker, scheduled)
    }

    constructor (capacity: nat)
      ensures Memory() == Fresh(capacity)
    {
      this.capacity := capacity;
      queue, closed, waker, scheduled := [], false, false, false;
    }

    method Notify()
      modifies this
      ensures Memory() == Wake(old(Memory()))
    {
      if waker {
        waker, scheduled := false, true;
      }
    }

    method Push(item: T) returns (accepted: bool)
      modifies this
      ensures accepted == !old(closed)
      ensures Memory() == if accepted then Wake(Offer(old(Memory()), item)) else old(Memory())
      ensures accepted ==> queue != [] && queue[|queue| - 1] == item
      ensures accepted && 0 < capacity && old(|queue|) <= capacity ==> |queue| == Min(old(|queue|) + 1, capacity)
    {
      if closed {
        return false;
      }
      if |queue| == capacity {
        if queue != [] {
          queue := queue[1..];
        }
      }
      queue := queue + [item];
      Notify();
      accepted := true;
    }

    method Close()
      modifies this
      ensures Memory() == Wake(MarkClosed(old(Memory())))
    {
      closed := true;
      Notify();
    }

    method PopFront() returns (item: Option<T>)
      modifies this
      ensures Memory() == Pop(old(Memory()))
      ensures item == if old(queue) == [] then None else Some(old(queue)[0])
    {
      if queue == [] {
        return None;
      }
      item := Some(queue[0]);
      queue := queue[1..];
    }

    /** With no sender in between: the oldest item if there is one, the end only once closed and
        empty, and otherwise pending with a waker left behind. */
    method PollRecv() returns (r: Poll<T>)
      modifies this
      ensures r == if old(queue) != [] then Ready(Some(old(queue)[0]))
                   else if old(closed) then Ready(None)
                   else Pending
      ensures Memory() == if r.Pending? then Register(old(Memory())) else Pop(old(Memory()))
    {
      var first := PopFront();
      if first.Some? {
        return Ready(first);
      }
      if closed {
        return Ready(None);
      }
      waker := true;
      var second := PopFront();
      if second.Some? {
        return Ready(second);
      }
      if closed {
        return Ready(None);
      }
      r := Pending;
    }
  }

  /******* Every interleaving *******/

  /** Where a sender is inside `push` or `close`. */
  datatype Sender<T> = Outside | Admitted(item: T) | PushUnwoken | CloseUnwoken

  /** Where the receiver is inside `poll_recv`; `Idle` between polls after `Ready`, `Parked` after `Pending`. */
  datatype Receiver = Idle | FirstPop | FirstClosed | Registering | SecondPop | SecondClosed | Parked

  type SenderId = nat

  /** `pushed` lists every item ever queued; `head` of them have left the queue, `dropped` by overflow
      and the rest to the receiver: it was handed `items`, which were pushed at positions `received`. */
  datatype System<T> = System(
    shared: Shared<T>, senders: map<SenderId, Sender<T>>, receiver: Receiver,
    pushed: seq<T>, head: nat, dropped: nat, received: seq<nat>, items: seq<T>, ends: nat)

  datatype Action<T> =
    | CheckOpen(id: SenderId, item: T)
    | Enqueue(id: SenderId)
    | StoreClosed(id: SenderId)
    | WakeReceiver(id: SenderId)
    | StartPoll
    | StepPoll

  function At<T>(s: System<T>, id: SenderId): Sender<T> {
    if id in s.senders then s.senders[id] else Outside
  }

  function Initial<T>(capacity: nat): System<T> {
    System(Fresh(capacity), map[], Idle, [], 0, 0, [], [], 0)
  }

  function TakeItem<T>(s: System<T>): System<T>
    requires s.shared.queue != []
  {
    s.(shared := Pop(s.shared), receiver := Idle, items := s.items + [s.shared.queue[0]],
       head := s.head + 1, received := s.received + [s.head])
  }

  /** One atomic operation; an action that is not enabled changes nothing. */
  function Next<T>(s: System<T>, a: Action<T>): System<T> {
    match a
    case CheckOpen(id, item) =>
      if At(s, id).Outside? && !s.shared.closed then s.(senders := s.senders[id := Admitted(item)]) else s
    case Enqueue(id) =>
      if At(s, id).Admitted? then
        var overflow := if |s.shared.queue| == s.shared.capacity && s.shared.queue != [] then 1 else 0;
        s.(shared := Offer(s.shared, At(s, id).item), senders := s.senders[id := PushUnwoken],
           pushed := s.pushed + [At(s, id).item], head := s.head + overflow, dropped := s.dropped + overflow)
      else s
    case StoreClosed(id) =>
      if At(s, id).Outside? then s.(shared := MarkClosed(s.shared), senders := s.senders[id := CloseUnwoken]) else s
    case WakeReceiver(id) =>
      if At(s, id).PushUnwoken? || At(s, id).CloseUnwoken? then
        s.(shared := Wake(s.shared), senders := s.senders[id := Outside])
      else s
    case StartPoll =>
      if s.receiver.Idle? || s.receiver.Parked? then
        s.(receiver := FirstPop, shared := s.shared.(scheduled := false))
      else s
    case StepPoll =>
      match s.receiver
      case FirstPop => if s.shared.queue != [] then TakeItem(s) else s.(receiver := FirstClosed)
      case FirstClosed => if s.shared.closed then s.(receiver := Idle, ends := s.ends + 1) else s.(receiver := Registering)
      case Registering => s.(shared := Register(s.shared), receiver := SecondPop)
      case SecondPop => if s.shared.queue != [] then TakeItem(s) else s.(receiver := SecondClosed)
      case SecondClosed => if s.shared.closed then s.(receiver := Idle, ends := s.ends + 1) else s.(receiver := Parked)
      case _ => s
  }

  function Execute<T>(s: System<T>, actions: seq<Action<T>>): System<T> {
    if actions == [] then s
    else Next(Execute(s, actions[..|actions| - 1]), actions[|actions| - 1])
  }

  /******* No lost wakeup *******/

  ghost predicate PushPending<T>(s: System<T>) {
    exists id :: At(s, id).PushUnwoken?
  }

  ghost predicate ClosePending<T>(s: System<T>) {
    exists id :: At(s, id).CloseUnwoken?
  }

  /** Once the receiver has registered, a waker is in place or it was already taken; and whatever
      appeared after the receiver's own second look is announced or about to be. */
  ghost predicate WakeInv<T>(s: System<T>) {
    && (s.receiver in {SecondPop, SecondClosed, Parked} ==> s.shared.waker || s.shared.scheduled)
    && (s.receiver in {SecondClosed, Parked} && s.shared.queue != [] ==> s.shared.scheduled || PushPending(s))
    && (s.receiver.Parked? && s.shared.closed ==> s.shared.scheduled || ClosePending(s))
  }

  lemma WakeInvStep<T>(s: System<T>, a: Action<T>)
    requires WakeInv(s)
    ensures WakeInv(Next(s, a))
  {
    var t := Next(s, a);
    match a {
      case Enqueue(id) =>
        assert At(s, id).Admitted? ==> At(t, id).PushUnwoken?;
        OthersStay(s, t, id);
      case StoreClosed(id) =>
        assert At(s, id).Outside? ==> At(t, id).CloseUnwoken?;
        OthersStay(s, t, id);
      case CheckOpen(id, _) => OthersStay(s, t, id);
      case WakeReceiver(id) => OthersStay(s, t, id);
      case StartPoll =>
      case StepPoll => assert t.senders == s.senders; SameSenders(s, t);
    }
  }

  lemma OthersStay<T>(s: System<T>, t: System<T>, id: SenderId)
    requires t.senders == s.senders || t.senders == s.senders[id := At(t, id)]
    ensures forall other :: other != id ==> At(t, other) == At(s, other)
    ensures !At(s, id).PushUnwoken? && PushPending(s) ==> PushPending(t)
    ensures !At(s, id).CloseUnwoken? && ClosePending(s) ==> ClosePending(t)
    ensures t.senders == s.senders ==> PushPending(s) == PushPending(t) && ClosePending(s) == ClosePending(t)
  {
    if PushPending(s) {
      var other :| At(s, other).PushUnwoken?;
      assert other != id || t.senders == s.senders ==> At(t, other).PushUnwoken?;
    }
    if ClosePending(s) {
      var other :| At(s, other).CloseUnwoken?;
      assert other != id || t.senders == s.senders ==> At(t, other).CloseUnwoken?;
    }
    if t.senders == s.senders {
      SameSenders(s, t);
    }
  }

  lemma SameSenders<T>(s: System<T>, t: System<T>)
    requires s.senders == t.senders
    ensures PushPending(s) == PushPending(t) && ClosePending(s) == ClosePending(t)
  {
    assert forall id :: At(s, id) == At(t, id);
  }

  /** In every interleaving: a parked receiver that has something to see, an item or the end, is
      already scheduled, or some sender is still before the wake that will schedule it. */
  lemma {:induction false} NoLostWakeup<T>(capacity: nat, actions: seq<Action<T>>)
    ensures
      var s := Execute(Initial<T>(capacity), actions);
      && WakeInv(s)
      && (s.receiver.Parked? && (s.shared.queue != [] || s.shared.closed)
          ==> s.shared.scheduled || PushPending(s) || ClosePending(s))
  {
    if actions != [] {
      var n := |actions| - 1;
      NoLostWakeup(capacity, actions[..n]);
      WakeInvStep(Execute(Initial<T>(capacity), actions[..n]), actions[n]);
    }
  }

  /** ... and that wake does schedule it: a sender's wake leaves the parked receiver scheduled. */
  lemma WakeSchedules<T>(capacity: nat, actions: seq<Action<T>>, id: SenderId)
    ensures
      var s := Execute(Initial<T>(capacity), actions);
      s.receiver.Parked? && (At(s, id).PushUnwoken? || At(s, id).CloseUnwoken?)
      ==> Next(s, WakeReceiver(id)).shared.scheduled
  {
    NoLostWakeup(capacity, actions);
  }

  /******* What the receiver gets *******/

  ghost predicate HistoryInv<T>(s: System<T>) {
    && s.head <= |s.pushed| && s.shared.queue == s.pushed[s.head..]
    && s.head == s.dropped + |s.received|
    && (forall i :: 0 <= i < |s.received| ==> s.received[i] < s.head)
    && (forall i, j :: 0 <= i < j < |s.received| ==> s.received[i] < s.received[j])
    && |s.items| == |s.received| && (forall i :: 0 <= i < |s.items| ==> s.items[i] == s.pushed[s.received[i]])
    && (0 < s.shared.capacity ==> |s.shared.queue| <= s.shared.capacity)
  }

  /** The queue is a contiguous suffix of everything pushed, within capacity; the items handed to the
      receiver are those pushed at strictly increasing positions; and every pushed item is queued,
      received or dropped, none twice. */
  lemma {:induction false} DeliversInOrder<T>(capacity: nat, actions: seq<Action<T>>)
    ensures
      var s := Execute(Initial<T>(capacity), actions);
      HistoryInv(s) && s.shared.capacity == capacity
      && |s.pushed| == |s.shared.queue| + |s.received| + s.dropped
  {
    if actions != [] {
      var n := |actions| - 1;
      DeliversInOrder(capacity, actions[..n]);
      HistoryStep(Execute(Initial<T>(capacity), actions[..n]), actions[n]);
    }
  }

  lemma HistoryStep<T>(s: System<T>, a: Action<T>)
    requires HistoryInv(s)
    ensures HistoryInv(Next(s, a)) && Next(s, a).shared.capacity == s.shared.capacity
  {
    match a {
      case Enqueue(id) => if At(s, id).Admitted? { EnqueueKeepsHistory(s, id); }
      case StepPoll => PollKeepsHistory(s);
      case _ => OthersKeepHistory(s, a);
    }
  }

  lemma PollKeepsHistory<T>(s: System<T>)
    requires HistoryInv(s)
    ensures HistoryInv(Next(s, StepPoll)) && Next(s, StepPoll).shared.capacity == s.shared.capacity
  {
    if s.receiver in {FirstPop, SecondPop} && s.shared.queue != [] {
      TakeKeepsHistory(s);
    } else {
      LookKeepsHistory(s);
    }
  }

  lemma LookKeepsHistory<T>(s: System<T>)
    requires HistoryInv(s) && (s.receiver in {FirstPop, SecondPop} ==> s.shared.queue == [])
    ensures HistoryInv(Next(s, StepPoll)) && Next(s, StepPoll).shared.capacity == s.shared.capacity
  {
  }

  lemma OthersKeepHistory<T>(s: System<T>, a: Action<T>)
    requires HistoryInv(s) && !a.Enqueue? && !a.StepPoll?
    ensures HistoryInv(Next(s, a)) && Next(s, a).shared.capacity == s.shared.capacity
  {
  }

  lemma EnqueueKeepsHistory<T>(s: System<T>, id: SenderId)
    requires HistoryInv(s) && At(s, id).Admitted?
    ensures HistoryInv(Next(s, Enqueue(id)))
  {
    var t := Next(s, Enqueue(id));
    assert t.received == s.received && s.head <= t.head;
    assert t.shared.queue == t.pushed[t.head..];
  }

  lemma TakeKeepsHistory<T>(s: System<T>)
    requires HistoryInv(s) && s.shared.queue != []
    ensures HistoryInv(TakeItem(s))
  {
    assert s.pushed[s.head..][1..] == s.pushed[s.head + 1..];
    assert s.shared.queue[0] == s.pushed[s.head];
  }

  /** The capacity bound holds in every run exactly when the capacity is not zero. */
  lemma BoundedExactlyWhenPositive(capacity: nat)
    ensures (forall actions: seq<Action<int>> :: |Execute(Initial<int>(capacity), actions).shared.queue| <= capacity)
            <==> capacity > 0
  {
    if capacity > 0 {
      forall actions: seq<Action<int>>
        ensures |Execute(Initial<int>(capacity), actions).shared.queue| <= capacity
      {
        DeliversInOrder(capacity, actions);
      }
    } else {
      var one: seq<Action<int>> := [CheckOpen(0, 7)];
      var two := one + [Enqueue(0)];
      assert two[..1] == one && one[..0] == [];
      assert Execute(Initial<int>(0), two).shared.queue == [7];
    }
  }

  lemma ExecuteOneMore<T>(s: System<T>, actions: seq<Action<T>>, a: Action<T>)
    ensures Execute(s, actions + [a]) == Next(Execute(s, actions), a)
  {
    assert (actions + [a])[..|actions|] == actions;
  }

  lemma ExecuteTwoMore<T>(s: System<T>, actions: seq<Action<T>>, a: Action<T>, b: Action<T>)
    ensures Execute(s, actions + [a, b]) == Next(Next(Execute(s, actions), a), b)
  {
    OneByOne(actions, a, b);
    ExecuteOneMore(s, actions, a);
    ExecuteOneMore(s, actions + [a], b);
  }

  lemma OneByOne<A>(actions: seq<A>, a: A, b: A)
    ensures actions + [a, b] == actions + [a] + [b]
  {
  }

  lemma ExecuteTwo<T>(s: System<T>, a: Action<T>, b: Action<T>)
    ensures Execute(s, [a, b]) == Next(Next(s, a), b)
  {
    ExecuteTwoMore(s, [], a, b);
    assert [] + [a, b] == [a, b];
  }

  /** The receiver has found an empty queue and is about to look at the closed flag. */
  lemma ReachesCheck<T>(capacity: nat)
    ensures
      var s := Execute(Initial<T>(capacity), [StartPoll, StepPoll]);
      s.receiver == FirstClosed && !s.shared.closed && s.shared.queue == [] && s.senders == map[] && s.ends == 0
  {
    ExecuteTwo(Initial<T>(capacity), StartPoll, StepPoll);
  }

  /** The end can be reported while an item is queued, even to a sender whose push returned before it
      closed: push and close may both land between the receiver's pop and its closed check. */
  lemma EndBeforeDrained<T>(capacity: nat, item: T)
    ensures
      var s := Execute(Initial<T>(capacity), [StartPoll, StepPoll]);
      var pushed := Execute(s, [CheckOpen(0, item), Enqueue(0)]);
      var closed := Execute(pushed, [WakeReceiver(0), StoreClosed(0)]);
      && At(Next(pushed, WakeReceiver(0)), 0).Outside?
      && Next(closed, StepPoll).ends == 1 && Next(closed, StepPoll).shared.queue == [item]
  {
    ReachesCheck<T>(capacity);
    var s := Execute(Initial<T>(capacity), [StartPoll, StepPoll]);
    ExecuteTwo(s, CheckOpen(0, item), Enqueue(0));
    ExecuteTwo(Execute(s, [CheckOpen(0, item), Enqueue(0)]), WakeReceiver(0), StoreClosed(0));
  }

  /** Between a pop that found nothing and the closed check, the queue stays empty exactly while no push
      reaches it. */
  lemma {:induction false} DrainedExactlyWhenNothingPushed<T>(s: System<T>, meanwhile: seq<Action<T>>)
    requires s.receiver in {FirstClosed, SecondClosed} && s.shared.queue == []
    requires forall i :: 0 <= i < |meanwhile| ==> !meanwhile[i].StartPoll? && !meanwhile[i].StepPoll?
    ensures
      var t := Execute(s, meanwhile);
      && t.receiver == s.receiver && |s.pushed| <= |t.pushed|
      && (t.shared.queue == [] <==> |t.pushed| == |s.pushed|)
  {
    if meanwhile != [] {
      DrainedExactlyWhenNothingPushed(s, meanwhile[..|meanwhile| - 1]);
    }
  }

  ghost predicate SendersOnly<T>(actions: seq<Action<T>>) {
    forall i :: 0 <= i < |actions| ==> !actions[i].StartPoll? && !actions[i].StepPoll?
  }

  ghost predicate NoneAdmitted<T>(s: System<T>) {
    forall id :: !At(s, id).Admitted?
  }

  /** Whatever the senders still do before the closed check, an end it reports is a drained one. */
  ghost predicate EndWillBeDrained<T(!new)>(s: System<T>) {
    forall meanwhile :: SendersOnly(meanwhile) && Execute(s, meanwhile).shared.closed ==>
      Execute(s, meanwhile).shared.queue == []
  }

  /** A closed channel that no sender is admitted to takes nothing more, whatever happens. */
  lemma {:induction false} ClosedTakesNothing<T>(s: System<T>, actions: seq<Action<T>>)
    requires s.shared.closed && NoneAdmitted(s)
    ensures
      var t := Execute(s, actions);
      && t.shared.closed && NoneAdmitted(t) && t.pushed == s.pushed
      && (s.shared.queue == [] ==> t.shared.queue == [])
  {
    if actions != [] {
      var n := |actions| - 1;
      ClosedTakesNothing(s, actions[..n]);
      NextTakesNothing(Execute(s, actions[..n]), actions[n]);
    }
  }

  lemma NextTakesNothing<T>(s: System<T>, a: Action<T>)
    requires s.shared.closed && NoneAdmitted(s)
    ensures
      var t := Next(s, a);
      && t.shared.closed && NoneAdmitted(t) && t.pushed == s.pushed
      && (s.shared.queue == [] ==> t.shared.queue == [])
  {
    forall id
      ensures !At(Next(s, a), id).Admitted?
    {
      assert !At(s, id).Admitted?;
    }
  }

  /** An admitted sender can push and close before the check. */
  lemma AdmittedCanLose<T>(s: System<T>, id: SenderId)
    requires At(s, id).Admitted?
    ensures
      var t := Execute(s, [Enqueue(id), WakeReceiver(id)] + [StoreClosed(id)]);
      t.shared.closed && t.shared.queue != []
  {
    var actions: seq<Action<T>> := [Enqueue(id), WakeReceiver(id)];
    ExecuteTwo(s, Enqueue(id), WakeReceiver(id));
    ExecuteOneMore(s, actions, StoreClosed(id));
  }

  /** So can any sender while the channel is open. */
  lemma OpenCanLose<T>(s: System<T>, id: SenderId, item: T)
    requires !s.shared.closed && NoneAdmitted(s)
    ensures
      var t := Execute(s, [WakeReceiver(id), CheckOpen(id, item)] + [Enqueue(id), WakeReceiver(id)] + [StoreClosed(id)]);
      t.shared.closed && t.shared.queue != []
  {
    var admitted: seq<Action<T>> := [WakeReceiver(id), CheckOpen(id, item)];
    var pushed := admitted + [Enqueue(id), WakeReceiver(id)];
    assert !At(s, id).Admitted?;
    ExecuteTwo(s, WakeReceiver(id), CheckOpen(id, item));
    ExecuteTwoMore(s, admitted, Enqueue(id), WakeReceiver(id));
    ExecuteOneMore(s, pushed, StoreClosed(id));
  }

  /** Between an empty pop and the closed check, an end is sure to be a drained one exactly when the
      channel is already closed and no sender is between its open check and its push. */
  lemma EndIsDrainedIff<T(!new)>(s: System<T>, item: T)
    requires s.receiver in {FirstClosed, SecondClosed} && s.shared.queue == []
    ensures EndWillBeDrained(s) <==> s.shared.closed && NoneAdmitted(s)
  {
    if !NoneAdmitted(s) {
      var id :| At(s, id).Admitted?;
      AdmittedCanLose(s, id);
      assert SendersOnly<T>([Enqueue(id), WakeReceiver(id)] + [StoreClosed(id)]);
    } else if !s.shared.closed {
      OpenCanLose(s, 0, item);
      assert SendersOnly<T>([WakeReceiver(0), CheckOpen(0, item)] + [Enqueue(0), WakeReceiver(0)] + [StoreClosed(0)]);
    } else {
      forall meanwhile | SendersOnly(meanwhile)
        ensures Execute(s, meanwhile).shared.queue == []
      {
        ClosedTakesNothing(s, meanwhile);
      }
    }
  }

  /******* Closing after every push has returned *******/

  /** Every close happens while no push is under way. */
  ghost predicate ClosesBetweenPushes<T>(s: System<T>, actions: seq<Action<T>>) {
    forall k {:trigger actions[k]} :: 0 <= k < |actions| && actions[k].StoreClosed? ==> NoneAdmitted(Execute(s, actions[..k]))
  }

  lemma {:induction false} NoneAdmittedOnceClosed<T>(s: System<T>, actions: seq<Action<T>>)
    requires ClosesBetweenPushes(s, actions) && (s.shared.closed ==> NoneAdmitted(s))
    ensures Execute(s, actions).shared.closed ==> NoneAdmitted(Execute(s, actions))
  {
    if actions != [] {
      var n := |actions| - 1;
      forall k | 0 <= k < n && actions[..n][k].StoreClosed?
        ensures NoneAdmitted(Execute(s, actions[..n][..k]))
      {
        assert actions[..n][..k] == actions[..k] && actions[k].StoreClosed?;
      }
      NoneAdmittedOnceClosed(s, actions[..n]);
      var t := Execute(s, actions[..n]);
      if t.shared.closed {
        NextTakesNothing(t, actions[n]);
      } else if actions[n].StoreClosed? {
        assert NoneAdmitted(t);
        forall id
          ensures !At(Next(t, actions[n]), id).Admitted?
        {
          assert !At(t, id).Admitted?;
        }
      }
    }
  }

  /** A poll that begins on a closed channel: past an empty pop the queue is and stays empty. */
  ghost predicate PolledAfterClose<T>(s: System<T>, endsBefore: nat) {
    && s.shared.closed && NoneAdmitted(s) && endsBefore <= s.ends
    && (s.receiver in {FirstClosed, SecondClosed} || s.ends > endsBefore ==> s.shared.queue == [])
  }

  lemma {:induction false} PollsStayDrained<T>(s: System<T>, actions: seq<Action<T>>, endsBefore: nat)
    requires PolledAfterClose(s, endsBefore)
    ensures PolledAfterClose(Execute(s, actions), endsBefore)
  {
    if actions != [] {
      var n := |actions| - 1;
      PollsStayDrained(s, actions[..n], endsBefore);
      NextTakesNothing(Execute(s, actions[..n]), actions[n]);
    }
  }

  /** When the senders close only after their pushes have returned, no end reported by a poll that begins
      after the close loses an item: by then every item pushed was received or dropped for a newer one. */
  lemma OrderlyCloseLosesNothing<T>(capacity: nat, before: seq<Action<T>>, later: seq<Action<T>>)
    requires ClosesBetweenPushes(Initial<T>(capacity), before)
    requires
      var s := Execute(Initial<T>(capacity), before);
      s.shared.closed && s.receiver in {Idle, FirstPop, Parked}
    ensures
      var s := Execute(Initial<T>(capacity), before);
      var t := Execute(s, later);
      t.ends > s.ends ==> t.shared.queue == [] && |t.pushed| == |t.items| + t.dropped
  {
    var s := Execute(Initial<T>(capacity), before);
    NoneAdmittedOnceClosed(Initial<T>(capacity), before);
    PollsStayDrained(s, later, s.ends);
    DeliversInOrder<T>(capacity, before);
    HistoryGoesOn(s, later);
  }

  lemma {:induction false} HistoryGoesOn<T>(s: System<T>, actions: seq<Action<T>>)
    requires HistoryInv(s)
    ensures HistoryInv(Execute(s, actions))
  {
    if actions != [] {
      var n := |actions| - 1;
      HistoryGoesOn(s, actions[..n]);
      HistoryStep(Execute(s, actions[..n]), actions[n]);
    }
  }

  /******* Calls without interference *******/

  /** A push between whose steps nothing else happens does what `Push` says: a closed channel takes nothing;
      an open one takes the item last, without its oldest item if it was full, and wakes the receiver. */
  lemma PushAlone<T>(s: System<T>, id: SenderId, item: T)
    requires At(s, id).Outside?
    ensures
      var t := Execute(s, [CheckOpen(id, item), Enqueue(id), WakeReceiver(id)]);
      var full := |s.shared.queue| == s.shared.capacity && s.shared.queue != [];
      if s.shared.closed then t == s
      else
        && At(t, id).Outside? && t.receiver == s.receiver && t.pushed == s.pushed + [item]
        && t.shared == Shared(s.shared.capacity, (if full then s.shared.queue[1..] else s.shared.queue) + [item],
                              false, false, s.shared.scheduled || s.shared.waker)
        && t.dropped == s.dropped + if full then 1 else 0
  {
    ExecuteTwo(s, CheckOpen(id, item), Enqueue(id));
    ExecuteOneMore(s, [CheckOpen(id, item), Enqueue(id)], WakeReceiver(id));
    assert [CheckOpen(id, item), Enqueue(id)] + [WakeReceiver(id)] == [CheckOpen(id, item), Enqueue(id), WakeReceiver(id)];
  }

  /** A poll that finds an item hands over the oldest one. */
  lemma PollFindsItem<T>(s: System<T>)
    requires s.receiver in {Idle, Parked} && s.shared.queue != []
    ensures
      var t := Execute(s, [StartPoll, StepPoll]);
      && t.receiver == Idle && t.items == s.items + [s.shared.queue[0]] && t.shared.queue == s.shared.queue[1..]
      && t.ends == s.ends && t.shared.closed == s.shared.closed && t.shared.waker == s.shared.waker
  {
    ExecuteTwo(s, StartPoll, StepPoll);
  }

  /** The first look of a poll of an empty channel: the end if it is closed. */
  lemma PollLooksOnce<T>(s: System<T>)
    requires s.receiver in {Idle, Parked} && s.shared.queue == []
    ensures
      var looked := Execute(s, [StartPoll, StepPoll] + [StepPoll]);
      && looked.items == s.items && looked.shared.queue == [] && looked.shared.closed == s.shared.closed
      && looked.receiver == (if s.shared.closed then Idle else Registering)
      && looked.ends == s.ends + if s.shared.closed then 1 else 0
  {
    ExecuteTwo(s, StartPoll, StepPoll);
    ExecuteOneMore(s, [StartPoll, StepPoll], StepPoll);
  }

  /** The second look: with a waker left behind, the receiver parks. */
  lemma PollLooksAgain<T>(s: System<T>)
    requires s.receiver == Registering && s.shared.queue == [] && !s.shared.closed
    ensures
      var t := Execute(s, [StepPoll, StepPoll] + [StepPoll]);
      t.receiver == Parked && t.shared.waker && t.ends == s.ends && t.items == s.items && t.shared.queue == []
  {
    ExecuteTwo(s, StepPoll, StepPoll);
    ExecuteOneMore(s, [StepPoll, StepPoll], StepPoll);
  }

  /** A close between whose steps nothing else happens marks the channel and wakes the receiver. */
  lemma CloseAlone<T>(s: System<T>, id: SenderId)
    requires At(s, id).Outside?
    ensures
      var t := Execute(s, [StoreClosed(id), WakeReceiver(id)]);
      && t.shared == Shared(s.shared.capacity, s.shared.queue, true, false, s.shared.scheduled || s.shared.waker)
      && t.receiver == s.receiver && At(t, id).Outside?
  {
    ExecuteTwo(s, StoreClosed(id), WakeReceiver(id));
  }
}
