/** The delay queue of `collections/delayqueue/delay_queue.go`: a heap of fixed deadlines, a signal
    channel with room for one token, and a timer, under any interleaving of producers and
    consumers. */
module DelayQueues {
  import opened FiniteSets
  import opened Options
  import opened PriorityQueues

  datatype Entry<T> = Entry(item: T, deadline: int)

  predicate Earlier<T>(a: Entry<T>, b: Entry<T>) { a.deadline < b.deadline }

  lemma EarlierIsOrder<T(!new)>()
    ensures StrictWeakOrder<Entry<T>>(Earlier)
  {
  }

  // ---------- The sections under the mutex ----------

  /** `Enqueue` signals iff the new entry is alone or strictly earlier than the old top. */
  function EnqueueSignals<T>(heap: seq<Entry<T>>, e: Entry<T>): bool {
    var pushed := Pushed(Earlier, heap, e);
    heap == [] || (pushed != [] && pushed[0].deadline < heap[0].deadline)
  }

  datatype Check<T> = Empty | Due(entry: Entry<T>) | NotYet(deadline: int, delay: int)

  /** What `Dequeue` finds under the mutex at time `now`. */
  function Checked<T>(heap: seq<Entry<T>>, now: int): Check<T> {
    if heap == [] then Empty
    else if heap[0].deadline - now <= 0 then Due(heap[0])
    else NotYet(heap[0].deadline, heap[0].deadline - now)
  }

  /** The answer of `Dequeue`, from the entries alone. */
  ghost predicate Answers<T>(entries: seq<Entry<T>>, now: int, check: Check<T>) {
    match check
    case Empty => entries == []
    case Due(e) => e in entries && e.deadline <= now && forall x :: x in entries ==> e.deadline <= x.deadline
    case NotYet(deadline, delay) =>
      && now < deadline && now + delay == deadline
      && (exists x :: x in entries && x.deadline == deadline)
      && (forall x :: x in entries ==> deadline <= x.deadline)
  }

  lemma CheckedAnswers<T(!new)>(heap: seq<Entry<T>>, now: int)
    requires Heap(Earlier, heap)
    ensures Answers(heap, now, Checked(heap, now))
  {
    if heap != [] {
      TopIsLeast(heap);
      assert heap[0] in heap;
    }
  }

  lemma TopIsLeast<T(!new)>(heap: seq<Entry<T>>)
    requires Heap(Earlier, heap) && heap != []
    ensures forall x :: x in heap ==> heap[0].deadline <= x.deadline
  {
    EarlierIsOrder<T>();
    forall x | x in heap ensures heap[0].deadline <= x.deadline {
      var i :| 0 <= i < |heap| && heap[i] == x;
      HeapTop(Earlier, heap, i);
      assert !Earlier(x, heap[0]);
    }
  }

  /** A signal is due exactly when the new entry is earlier than every other. */
  lemma SignalsIffEarliest<T(!new)>(heap: seq<Entry<T>>, e: Entry<T>)
    requires Heap(Earlier, heap)
    ensures EnqueueSignals(heap, e) <==> forall x :: x in heap ==> e.deadline < x.deadline
  {
    EarlierIsOrder<T>();
    PushOrders(Earlier, heap, e);
    var pushed := Pushed(Earlier, heap, e);
    assert forall x :: x in multiset(pushed) <==> x in multiset(heap) || x == e;
    assert e in multiset(pushed);
    if heap != [] {
      assert heap[0] in heap;
      TopIsLeast(heap);
      TopIsLeast(pushed);
      assert pushed[0] in multiset(pushed);
      assert e in pushed;
    }
  }

  class DelayQueue<T(!new)> {
    const pq: PriorityQueue<Entry<T>>
    var token: bool

    ghost predicate Valid()
      reads this, pq
    {
      pq.Valid() && pq.less == Earlier
    }

    constructor ()
      ensures Valid() && fresh(pq) && pq.data == [] && !token
    {
      EarlierIsOrder<T>();
      pq := new PriorityQueue(Earlier);
      token := false;
    }

    method EnqueueLocked(e: Entry<T>) returns (shouldSignal: bool)
      requires Valid()
      modifies pq
      ensures Valid() && pq.data == Pushed(Earlier, old(pq.data), e)
      ensures multiset(pq.data) == multiset(old(pq.data)) + multiset{e}
      ensures shouldSignal == EnqueueSignals(old(pq.data), e)
      ensures shouldSignal <==> forall x :: x in old(pq.data) ==> e.deadline < x.deadline
    {
      SignalsIffEarliest(pq.data, e);
      ghost var heap := pq.data;
      var oldTop := pq.Peek();
      pq.Push([e]);
      assert PushedAll(Earlier, Pushed(Earlier, heap, e), []) == pq.data;
      var newTop := pq.Peek();
      shouldSignal := oldTop.None? || (newTop.Some? && newTop.value.deadline < oldTop.value.deadline);
    }

    method Notify()
      modifies this
      ensures token
    {
      token := true;
    }

    method DequeueLocked(now: int) returns (check: Check<T>)
      requires Valid()
      modifies pq
      ensures Valid() && check == Checked(old(pq.data), now)
      ensures pq.data == if check.Due? then Popped(Earlier, old(pq.data)) else old(pq.data)
      ensures Answers(old(pq.data), now, check)
      ensures check.Due? ==> multiset(old(pq.data)) == multiset(pq.data) + multiset{check.entry}
    {
      CheckedAnswers(pq.data, now);
      var top := pq.Peek();
      if top.None? {
        return Empty;
      }
      var delay := top.value.deadline - now;
      if delay <= 0 {
        var e := pq.Pop();
        return Due(e.value);
      }
      return NotYet(top.value.deadline, delay);
    }
  }

  // ---------- The step system ----------

  datatype Producer<T> =
    | Out                   // not in Enqueue
    | Ready(e: Entry<T>)    // the deadline is fixed, the mutex not yet taken
    | Notifying             // the mutex released, notify still to come

  datatype Consumer =
    | Away                                   // not in Dequeue
    | Looping                                // before taking the mutex
    | ParkedEmpty                            // waiting for a signal on an empty queue
    // the mutex, taken at `since`, released; the timer not yet started
    | Arming(deadline: int, delay: int, since: int)
    // waiting for a signal or the timer, which was started at `armed`
    | ParkedTimer(deadline: int, fires: int, since: int, armed: int)

  datatype State<T> = State(
    heap: seq<Entry<T>>, token: bool, now: int,
    producers: map<nat, Producer<T>>, consumers: map<nat, Consumer>,
    accepted: seq<Entry<T>>,        // everything ever pushed
    returned: seq<(Entry<T>, int)>) // everything ever returned, with the time of the check

  datatype Action<T> =
    | Tick(dt: nat)
    | Enqueue(p: nat, item: T, delay: int)
    | Push(p: nat)
    | Notify(p: nat)
    | Dequeue(c: nat)
    | Lock(c: nat)
    | Arm(c: nat)
    | TakeToken(c: nat)
    | TimerFires(c: nat)
    | Cancel(c: nat)

  function ProducerAt<T>(s: State<T>, p: nat): Producer<T> { if p in s.producers then s.producers[p] else Out }

  predicate Enabled<T>(s: State<T>, a: Action<T>) {
    match a
    case Tick(_) => true
    case Enqueue(p, _, _) => ProducerAt(s, p).Out?
    case Push(p) => ProducerAt(s, p).Ready?
    case Notify(p) => ProducerAt(s, p).Notifying?
    case Dequeue(c) => c in s.consumers && s.consumers[c].Away?
    case Lock(c) => c in s.consumers && s.consumers[c].Looping?
    case Arm(c) => c in s.consumers && s.consumers[c].Arming?
    case TakeToken(c) => c in s.consumers && s.token && (s.consumers[c].ParkedEmpty? || s.consumers[c].ParkedTimer?)
    case TimerFires(c) => c in s.consumers && s.consumers[c].ParkedTimer? && s.now >= s.consumers[c].fires
    case Cancel(c) => c in s.consumers && !s.consumers[c].Away? && !s.consumers[c].Arming?
  }

  function Next<T>(s: State<T>, a: Action<T>): State<T>
    requires Enabled(s, a)
  {
    match a
    case Tick(dt) => s.(now := s.now + dt)
    case Enqueue(p, item, delay) => s.(producers := s.producers[p := Ready(Entry(item, s.now + delay))])
    case Push(p) =>
      var e := s.producers[p].e;
      s.(heap := Pushed(Earlier, s.heap, e),
         producers := s.producers[p := if EnqueueSignals(s.heap, e) then Notifying else Out],
         accepted := s.accepted + [e])
    case Notify(p) => s.(token := true, producers := s.producers[p := Out])
    case Dequeue(c) => s.(consumers := s.consumers[c := Looping])
    case Lock(c) =>
      (match Checked(s.heap, s.now)
       case Empty => s.(consumers := s.consumers[c := ParkedEmpty])
       case Due(e) => s.(heap := Popped(Earlier, s.heap), consumers := s.consumers[c := Away],
                         returned := s.returned + [(e, s.now)])
       case NotYet(deadline, delay) => s.(consumers := s.consumers[c := Arming(deadline, delay, s.now)]))
    case Arm(c) =>
      var w := s.consumers[c];
      s.(consumers := s.consumers[c := ParkedTimer(w.deadline, s.now + w.delay, w.since, s.now)])
    case TakeToken(c) => s.(token := false, consumers := s.consumers[c := Looping])
    case TimerFires(c) => s.(consumers := s.consumers[c := Looping])
    case Cancel(c) => s.(consumers := s.consumers[c := Away])
  }

  function Init<T>(consumers: set<nat>): State<T> {
    State([], false, 0, map[], map c | c in consumers :: Away, [], [])
  }

  ghost predicate IsRun<T>(s: State<T>, run: seq<Action<T>>)
    decreases |run|
  {
    run == [] || (Enabled(s, run[0]) && IsRun(Next(s, run[0]), run[1..]))
  }

  function After<T>(s: State<T>, run: seq<Action<T>>): State<T>
    requires IsRun(s, run)
    decreases |run|
  {
    if run == [] then s else After(Next(s, run[0]), run[1..])
  }

  // ---------- No wakeup is lost ----------

  /** What a waiting consumer saw is out of date: there is something for it to do earlier. */
  predicate OutOfDate<T>(heap: seq<Entry<T>>, c: Consumer) {
    match c
    case ParkedEmpty => heap != []
    case Arming(deadline, _, _) => heap != [] && heap[0].deadline < deadline
    case ParkedTimer(deadline, _, _, _) => heap != [] && heap[0].deadline < deadline
    case _ => false
  }

  ghost predicate SignalOnItsWay<T>(s: State<T>) {
    s.token || exists p :: p in s.producers && s.producers[p].Notifying?
  }

  ghost predicate NoLostWakeup<T>(s: State<T>) {
    forall c :: c in s.consumers && OutOfDate(s.heap, s.consumers[c]) ==> SignalOnItsWay(s)
  }

  ghost predicate Returned<T>(s: State<T>, i: nat)
    requires i < |s.returned|
  {
    s.returned[i].0.deadline <= s.returned[i].1 <= s.now
  }

  function Entries<T>(r: seq<(Entry<T>, int)>): seq<Entry<T>> {
    if r == [] then [] else Entries(r[..|r| - 1]) + [r[|r| - 1].0]
  }

  /** Nothing is lost or made up, and whatever was returned was due. */
  ghost predicate QueueInv<T>(s: State<T>) {
    && Heap(Earlier, s.heap)
    && multiset(s.accepted) == multiset(s.heap) + multiset(Entries(s.returned))
    && (forall i :: 0 <= i < |s.returned| ==> Returned(s, i))
  }

  /** A timer fires after the deadline it was set for by exactly the time that passed between looking
      at the heap and starting the timer. */
  ghost predicate TimerInv<T>(s: State<T>) {
    forall c :: c in s.consumers ==> TimerSound(s.consumers[c], s.now)
  }

  predicate TimerSound(c: Consumer, now: int) {
    && (c.Arming? ==> c.deadline == c.since + c.delay && c.since <= now)
    && (c.ParkedTimer? ==> c.fires - c.deadline == c.armed - c.since && c.since <= c.armed <= now)
  }

  ghost predicate Inv<T>(s: State<T>) { QueueInv(s) && TimerInv(s) }

  /** Under the mutex, `Dequeue` takes out an entry that is due and that no other precedes. */
  lemma LockTakesDueLeast<T(!new)>(s: State<T>, c: nat)
    requires Inv(s) && Enabled(s, Lock(c)) && |Next(s, Lock(c)).returned| > |s.returned|
    ensures var (e, at) := Next(s, Lock(c)).returned[|s.returned|];
            && e in s.heap && e.deadline <= at == s.now
            && (forall x :: x in s.heap ==> e.deadline <= x.deadline)
            && multiset(s.heap) == multiset(Next(s, Lock(c)).heap) + multiset{e}
  {
    EarlierIsOrder<T>();
    PopOrders(Earlier, s.heap);
    forall x | x in s.heap ensures s.heap[0].deadline <= x.deadline {
      assert !Earlier(x, s.heap[0]);
    }
  }

  lemma LockTakes<T>(s: State<T>, c: nat)
    requires Enabled(s, Lock(c)) && s.heap != [] && s.heap[0].deadline <= s.now
    ensures var s' := Next(s, Lock(c));
            && s'.heap == Popped(Earlier, s.heap) && s'.now == s.now && s'.accepted == s.accepted
            && s'.returned == s.returned + [(s.heap[0], s.now)]
  {
  }

  lemma EntriesGrow<T>(r: seq<(Entry<T>, int)>, x: (Entry<T>, int))
    ensures Entries(r + [x]) == Entries(r) + [x.0]
  {
    assert (r + [x])[..|r|] == r;
  }

  lemma TopMoves<T(!new)>(accepted: seq<Entry<T>>, heap: seq<Entry<T>>, returned: seq<Entry<T>>)
    requires Heap(Earlier, heap) && heap != []
    requires multiset(accepted) == multiset(heap) + multiset(returned)
    ensures Heap(Earlier, Popped(Earlier, heap))
    ensures multiset(accepted) == multiset(Popped(Earlier, heap)) + multiset(returned + [heap[0]])
  {
    EarlierIsOrder<T>();
    PopOrders(Earlier, heap);
  }

  lemma LockKeepsQueue<T(!new)>(s: State<T>, c: nat)
    requires QueueInv(s) && Enabled(s, Lock(c)) && s.heap != [] && s.heap[0].deadline <= s.now
    ensures QueueInv(Next(s, Lock(c)))
  {
    var s' := Next(s, Lock(c));
    LockTakes(s, c);
    EntriesGrow(s.returned, (s.heap[0], s.now));
    TopMoves(s.accepted, s.heap, Entries(s.returned));
    forall i | 0 <= i < |s'.returned| ensures Returned(s', i) {
      if i < |s.returned| {
        assert Returned(s, i);
      }
    }
  }

  lemma PushKeepsQueue<T(!new)>(s: State<T>, p: nat)
    requires QueueInv(s) && Enabled(s, Push(p))
    ensures QueueInv(Next(s, Push(p)))
  {
    EarlierIsOrder<T>();
    PushOrders(Earlier, s.heap, s.producers[p].e);
    forall i | 0 <= i < |s.returned| ensures Returned(Next(s, Push(p)), i) {
      assert Returned(s, i);
    }
  }

  lemma QueueStep<T(!new)>(s: State<T>, a: Action<T>)
    requires QueueInv(s) && Enabled(s, a)
    ensures QueueInv(Next(s, a))
  {
    if a.Lock? && s.heap != [] && s.heap[0].deadline <= s.now {
      LockKeepsQueue(s, a.c);
    } else if a.Push? {
      PushKeepsQueue(s, a.p);
    } else {
      var s' := Next(s, a);
      assert s'.heap == s.heap && s'.accepted == s.accepted && s'.returned == s.returned;
      forall i | 0 <= i < |s.returned| ensures Returned(s', i) {
        assert Returned(s, i);
      }
    }
  }

  lemma TimerStep<T>(s: State<T>, a: Action<T>)
    requires TimerInv(s) && Enabled(s, a)
    ensures TimerInv(Next(s, a))
  {
    var s' := Next(s, a);
    forall c | c in s'.consumers ensures TimerSound(s'.consumers[c], s'.now) {
      assert TimerSound(s.consumers[c], s.now);
    }
  }

  lemma InvStep<T(!new)>(s: State<T>, a: Action<T>)
    requires Inv(s) && Enabled(s, a)
    ensures Inv(Next(s, a))
  {
    QueueStep(s, a);
    TimerStep(s, a);
  }

  /** Pushing never leaves a waiting consumer out of date without a signal on its way. */
  lemma WakeupStep<T(!new)>(s: State<T>, a: Action<T>)
    requires Inv(s) && NoLostWakeup(s) && Enabled(s, a)
    requires |s.consumers| <= 1
    ensures NoLostWakeup(Next(s, a)) && |Next(s, a).consumers| <= 1
  {
    var s' := Next(s, a);
    assert s'.consumers.Keys == s.consumers.Keys;
    assert |s'.consumers| == |s'.consumers.Keys|;
    forall c | c in s'.consumers && OutOfDate(s'.heap, s'.consumers[c])
      ensures SignalOnItsWay(s')
    {
      match a
      case Notify(p) =>
      case Push(p) =>
        if EnqueueSignals(s.heap, s.producers[p].e) {
          assert s'.producers[p].Notifying?;
        } else {
          PushedNotEmpty(s.heap, s.producers[p].e);
          assert OutOfDate(s.heap, s.consumers[c]);
          SignalKept(s, s', p);
        }
      case Enqueue(p, _, _) =>
        SignalKept(s, s', p);
      case TakeToken(c') =>
        OnlyConsumer(s, c, c');
      case Lock(c') =>
        OnlyConsumer(s, c, c');
      case _ =>
        SignalKept(s, s', 0);
    }
  }

  lemma PushedNotEmpty<T>(heap: seq<Entry<T>>, e: Entry<T>)
    ensures Pushed(Earlier, heap, e) != []
  {
    SiftUpKeepsElements(Earlier, heap + [e], |heap|);
  }

  lemma SignalKept<T>(s: State<T>, s': State<T>, p: nat)
    requires SignalOnItsWay(s) && s'.token == s.token
    requires ProducerAt(s, p).Notifying? ==> ProducerAt(s', p).Notifying?
    requires forall q :: q in s.producers && q != p ==> q in s'.producers && s'.producers[q] == s.producers[q]
    ensures SignalOnItsWay(s')
  {
    if !s.token {
      var q :| q in s.producers && s.producers[q].Notifying?;
      assert ProducerAt(s, q).Notifying? && q in s'.producers && s'.producers[q].Notifying?;
    }
  }

  lemma OnlyConsumer<T>(s: State<T>, c: nat, c': nat)
    requires |s.consumers| <= 1 && c in s.consumers && c' in s.consumers
    ensures c == c'
  {
    if c != c' {
      assert {c, c'} <= s.consumers.Keys;
      SubsetCount({c, c'}, s.consumers.Keys);
    }
  }

  lemma {:induction false} RunKeeps<T(!new)>(s: State<T>, run: seq<Action<T>>)
    requires Inv(s) && IsRun(s, run)
    ensures Inv(After(s, run))
    ensures |s.consumers| <= 1 && NoLostWakeup(s) ==> NoLostWakeup(After(s, run))
    decreases |run|
  {
    if run != [] {
      InvStep(s, run[0]);
      if |s.consumers| <= 1 && NoLostWakeup(s) {
        WakeupStep(s, run[0]);
      }
      RunKeeps(Next(s, run[0]), run[1..]);
    }
  }

  /** With one consumer, in every run: it never waits on an empty queue beside an entry, and it never
      waits for a timer beyond the least deadline by more than the time that it took to start that
      timer, unless a signal is on its way to it; and a timer that is up can fire. */
  lemma NeverOversleeps<T(!new)>(ids: set<nat>, run: seq<Action<T>>, c: nat)
    requires |ids| <= 1 && c in ids && IsRun(Init<T>(ids), run)
    ensures var s := After(Init<T>(ids), run);
            && c in s.consumers
            && (s.heap != [] && !SignalOnItsWay(s) ==>
                  match s.consumers[c]
                  case ParkedEmpty => false
                  case ParkedTimer(_, fires, since, armed) =>
                    && fires <= s.heap[0].deadline + (armed - since) && since <= armed
                    && (s.now >= s.heap[0].deadline + (armed - since) ==> Enabled(s, TimerFires(c)))
                  case _ => true)
  {
    assert Init<T>(ids).consumers.Keys == ids;
    RunKeeps(Init<T>(ids), run);
    ConsumersKept(Init<T>(ids), run);
    var s := After(Init<T>(ids), run);
    assert TimerSound(s.consumers[c], s.now);
  }

  lemma {:induction false} ConsumersKept<T>(s: State<T>, run: seq<Action<T>>)
    requires IsRun(s, run)
    ensures After(s, run).consumers.Keys == s.consumers.Keys
    decreases |run|
  {
    if run != [] {
      assert Next(s, run[0]).consumers.Keys == s.consumers.Keys;
      ConsumersKept(Next(s, run[0]), run[1..]);
    }
  }

  lemma {:induction false} RunAppend<T>(s: State<T>, r1: seq<Action<T>>, r2: seq<Action<T>>)
    requires IsRun(s, r1) && IsRun(After(s, r1), r2)
    ensures IsRun(s, r1 + r2) && After(s, r1 + r2) == After(After(s, r1), r2)
    decreases |r1|
  {
    if r1 == [] {
      assert r1 + r2 == r2;
    } else {
      assert (r1 + r2)[1..] == r1[1..] + r2;
      RunAppend(Next(s, r1[0]), r1[1..], r2);
    }
  }

  lemma Extend<T>(s: State<T>, run: seq<Action<T>>, a: Action<T>)
    requires IsRun(s, run) && Enabled(After(s, run), a)
    ensures IsRun(s, run + [a]) && After(s, run + [a]) == Next(After(s, run), a)
  {
    var t := After(s, run);
    var n := Next(t, a);
    assert [a][1..] == [];
    assert IsRun(n, []) && After(n, []) == n;
    assert IsRun(t, [a]) && After(t, [a]) == After(n, [a][1..]);
    RunAppend(s, run, [a]);
  }

  /** Steps of the consumer's own call, time that passes, and notifications under way. */
  ghost predicate OnItsOwn<T>(run: seq<Action<T>>, c: nat) {
    forall a :: a in run ==> a.Tick? || a.Notify? || ((a.Lock? || a.Arm? || a.TakeToken? || a.TimerFires?) && a.c == c)
  }

  lemma LoopingReturns<T(!new)>(s: State<T>, c: nat) returns (run: seq<Action<T>>)
    requires Inv(s) && c in s.consumers && s.consumers[c].Looping? && s.heap != []
    ensures IsRun(s, run) && OnItsOwn(run, c)
    ensures |After(s, run).returned| > |s.returned|
  {
    var wait := if s.heap[0].deadline > s.now then s.heap[0].deadline - s.now else 0;
    run := [];
    Extend(s, run, Tick(wait));
    run := run + [Tick(wait)];
    Extend(s, run, Lock(c));
    run := run + [Lock(c)];
  }

  lemma {:induction false} TimerReturns<T(!new)>(s: State<T>, c: nat) returns (run: seq<Action<T>>)
    requires Inv(s) && c in s.consumers && s.consumers[c].ParkedTimer? && s.heap != []
    ensures IsRun(s, run) && OnItsOwn(run, c)
    ensures |After(s, run).returned| > |s.returned|
  {
    var fires := s.consumers[c].fires;
    var wait := if fires > s.now then fires - s.now else 0;
    var first := [];
    Extend(s, first, Tick(wait));
    first := first + [Tick(wait)];
    Extend(s, first, TimerFires(c));
    first := first + [TimerFires(c)];
    RunKeeps(s, first);
    var rest := LoopingReturns(After(s, first), c);
    RunAppend(s, first, rest);
    run := first + rest;
  }

  lemma SignalReturns<T(!new)>(s: State<T>, c: nat) returns (run: seq<Action<T>>)
    requires Inv(s) && c in s.consumers && s.consumers[c].ParkedEmpty? && s.heap != [] && SignalOnItsWay(s)
    ensures IsRun(s, run) && OnItsOwn(run, c)
    ensures |After(s, run).returned| > |s.returned|
  {
    var first := [];
    if !s.token {
      var p :| p in s.producers && s.producers[p].Notifying?;
      Extend(s, first, Notify(p));
      first := first + [Notify(p)];
    }
    Extend(s, first, TakeToken(c));
    first := first + [TakeToken(c)];
    RunKeeps(s, first);
    var rest := LoopingReturns(After(s, first), c);
    RunAppend(s, first, rest);
    run := first + rest;
  }

  /** A lone consumer that has called `Dequeue` is never stuck: in any reachable state with an entry in
      the heap, nothing but time, notifications under way and its own steps are needed for it to return
      one; no further call of a producer is. */
  lemma AlwaysReturns<T(!new)>(ids: set<nat>, before: seq<Action<T>>, c: nat) returns (run: seq<Action<T>>)
    requires |ids| <= 1 && c in ids && IsRun(Init<T>(ids), before)
    requires var s := After(Init<T>(ids), before); c in s.consumers && !s.consumers[c].Away? && s.heap != []
    ensures var s := After(Init<T>(ids), before);
            && IsRun(s, run) && OnItsOwn(run, c)
            && |After(s, run).returned| > |s.returned|
  {
    assert Init<T>(ids).consumers.Keys == ids;
    RunKeeps(Init<T>(ids), before);
    var s := After(Init<T>(ids), before);
    match s.consumers[c]
    case Looping => run := LoopingReturns(s, c);
    case ParkedTimer(_, _, _, _) => run := TimerReturns(s, c);
    case ParkedEmpty => run := SignalReturns(s, c);
    case Arming(_, _, _) =>
      Extend(s, [], Arm(c));
      RunKeeps(s, [] + [Arm(c)]);
      var rest := TimerReturns(Next(s, Arm(c)), c);
      RunAppend(s, [] + [Arm(c)], rest);
      run := [Arm(c)] + rest;
  }

  // ---------- No entry is returned before its delay is over ----------

  /** The time after a run, by its ticks alone. */
  function Clock<T>(run: seq<Action<T>>): int {
    if run == [] then 0
    else Clock(run[..|run| - 1]) + if run[|run| - 1].Tick? then run[|run| - 1].dt else 0
  }

  /** Some call of `Enqueue` in the run asked for the entry, that delay after the time of the call. */
  ghost predicate Requested<T>(run: seq<Action<T>>, e: Entry<T>) {
    exists k :: 0 <= k < |run| && run[k].Enqueue? && e == Entry(run[k].item, Clock(run[..k]) + run[k].delay)
  }

  ghost predicate AllRequested<T>(s: State<T>, run: seq<Action<T>>) {
    && s.now == Clock(run)
    && (forall p :: p in s.producers && s.producers[p].Ready? ==> Requested(run, s.producers[p].e))
    && (forall e :: e in s.accepted ==> Requested(run, e))
  }

  lemma RequestedGrows<T>(run: seq<Action<T>>, a: Action<T>, e: Entry<T>)
    ensures Requested(run, e) ==> Requested(run + [a], e)
    ensures a.Enqueue? && e == Entry(a.item, Clock(run) + a.delay) ==> Requested(run + [a], e)
  {
    var r := run + [a];
    assert r[..|run|] == run && r[|run|] == a;
    if Requested(run, e) {
      var k :| 0 <= k < |run| && run[k].Enqueue? && e == Entry(run[k].item, Clock(run[..k]) + run[k].delay);
      assert r[k] == run[k] && r[..k] == run[..k];
    }
  }

  lemma RequestedStep<T>(s: State<T>, run: seq<Action<T>>, a: Action<T>)
    requires AllRequested(s, run) && Enabled(s, a)
    ensures AllRequested(Next(s, a), run + [a])
  {
    var s', r := Next(s, a), run + [a];
    assert r[..|r| - 1] == run;
    forall p | p in s'.producers && s'.producers[p].Ready? ensures Requested(r, s'.producers[p].e) {
      RequestedGrows(run, a, s'.producers[p].e);
    }
    forall e | e in s'.accepted ensures Requested(r, e) {
      RequestedGrows(run, a, e);
    }
  }

  lemma {:induction false} RunRequested<T>(s: State<T>, done: seq<Action<T>>, run: seq<Action<T>>)
    requires AllRequested(s, done) && IsRun(s, run)
    ensures AllRequested(After(s, run), done + run)
    decreases |run|
  {
    if run == [] {
      assert done + run == done;
    } else {
      RequestedStep(s, done, run[0]);
      RunRequested(Next(s, run[0]), done + [run[0]], run[1..]);
      assert (done + [run[0]]) + run[1..] == done + run;
    }
  }

  lemma {:induction false} EntriesAt<T>(r: seq<(Entry<T>, int)>, i: nat)
    requires i < |r|
    ensures r[i].0 in Entries(r)
  {
    if i < |r| - 1 {
      EntriesAt(r[..|r| - 1], i);
    }
  }

  /** In every run, with any number of producers and consumers: whatever was returned had been asked
      for by a call of `Enqueue`, and its whole delay had passed since that call. */
  lemma ReturnedAfterDelay<T(!new)>(ids: set<nat>, run: seq<Action<T>>, i: nat)
    requires IsRun(Init<T>(ids), run) && i < |After(Init<T>(ids), run).returned|
    ensures var (e, at) := After(Init<T>(ids), run).returned[i];
            exists k :: 0 <= k < |run| && run[k].Enqueue? && e.item == run[k].item
                        && e.deadline == Clock(run[..k]) + run[k].delay <= at
  {
    var s := After(Init<T>(ids), run);
    RunKeeps(Init<T>(ids), run);
    RunRequested(Init<T>(ids), [], run);
    assert [] + run == run;
    EntriesAt(s.returned, i);
    assert s.returned[i].0 in multiset(Entries(s.returned));
    assert s.returned[i].0 in multiset(s.accepted);
    assert Returned(s, i) && Requested(run, s.returned[i].0);
    var k :| 0 <= k < |run| && run[k].Enqueue?
             && s.returned[i].0 == Entry(run[k].item, Clock(run[..k]) + run[k].delay);
  }

  // ---------- Several consumers ----------

  /** A consumer waits for a signal although an entry is due, no signal is on its way, and no
      other consumer is about to look: it stays asleep until somebody enqueues or cancels. */
  ghost predicate Stranded<T>(s: State<T>, c: nat) {
    && c in s.consumers && s.consumers[c].ParkedEmpty?
    && s.heap != [] && s.heap[0].deadline <= s.now
    && !SignalOnItsWay(s)
    && (forall d :: d in s.consumers && d != c ==> s.consumers[d].Away?)
    && (forall p :: p in s.producers ==> s.producers[p].Out?)
  }

  function BothWaiting<T>(ids: set<nat>, a: nat, b: nat): State<T> {
    Init<T>(ids).(consumers := Init<T>(ids).consumers[a := ParkedEmpty][b := ParkedEmpty])
  }

  lemma BothPark<T>(ids: set<nat>, a: nat, b: nat) returns (run: seq<Action<T>>)
    requires a in ids && b in ids && a != b
    ensures IsRun(Init<T>(ids), run) && After(Init<T>(ids), run) == BothWaiting(ids, a, b)
  {
    var s := Init<T>(ids);
    run := [];
    Extend(s, run, Dequeue(a));
    run := run + [Dequeue(a)];
    Extend(s, run, Lock(a));
    run := run + [Lock(a)];
    Extend(s, run, Dequeue(b));
    run := run + [Dequeue(b)];
    Extend(s, run, Lock(b));
    run := run + [Lock(b)];
  }

  lemma TwoArrive<T>(s: State<T>, item: T) returns (run: seq<Action<T>>)
    requires s.heap == [] && s.producers == map[]
    ensures var e := Entry(item, s.now);
            IsRun(s, run) && After(s, run) == s.(heap := [e, e], producers := map[0 := Notifying, 1 := Out],
                                                 accepted := s.accepted + [e] + [e])
  {
    var e := Entry(item, s.now);
    assert Pushed(Earlier, [], e) == [e] && Pushed(Earlier, [e], e) == [e, e];
    var s1 := s.(heap := [e], producers := map[0 := Notifying], accepted := s.accepted + [e]);
    var r1 := Arrives(s, 0, item);
    var r2 := Arrives(s1, 1, item);
    RunAppend(s, r1, r2);
    run := r1 + r2;
  }

  lemma Arrives<T>(s: State<T>, p: nat, item: T) returns (run: seq<Action<T>>)
    requires ProducerAt(s, p).Out?
    ensures var e := Entry(item, s.now);
            && IsRun(s, run)
            && After(s, run) == s.(heap := Pushed(Earlier, s.heap, e), accepted := s.accepted + [e],
                                   producers := s.producers[p := if EnqueueSignals(s.heap, e) then Notifying else Out])
  {
    run := [];
    Extend(s, run, Enqueue(p, item, 0));
    run := run + [Enqueue(p, item, 0)];
    Extend(s, run, Push(p));
    run := run + [Push(p)];
  }

  lemma OneWakes<T>(s: State<T>, a: nat, e: Entry<T>) returns (run: seq<Action<T>>)
    requires s.heap == [e, e] && s.producers == map[0 := Notifying, 1 := Out] && e.deadline == s.now
    requires a in s.consumers && s.consumers[a].ParkedEmpty?
    ensures IsRun(s, run)
    ensures After(s, run) == s.(heap := [e], token := false, producers := map[0 := Out, 1 := Out],
                                consumers := s.consumers[a := Away], returned := s.returned + [(e, s.now)])
  {
    assert Popped(Earlier, [e, e]) == [e];
    run := [];
    Extend(s, run, Notify(0));
    run := run + [Notify(0)];
    Extend(s, run, TakeToken(a));
    run := run + [TakeToken(a)];
    Extend(s, run, Lock(a));
    run := run + [Lock(a)];
  }

  /** Two consumers wait on an empty queue and two due entries arrive. The second is not earlier
      than the first, so there is one signal, and it wakes one consumer. */
  lemma TwoConsumersStrand<T>(ids: set<nat>, a: nat, b: nat, item: T) returns (run: seq<Action<T>>)
    requires a in ids && b in ids && a != b
    ensures IsRun(Init<T>(ids), run) && Stranded(After(Init<T>(ids), run), b)
  {
    var s0 := Init<T>(ids);
    var r1 := BothPark(ids, a, b);
    var r2 := TwoArrive(BothWaiting(ids, a, b), item);
    var s2 := After(BothWaiting(ids, a, b), r2);
    var r3 := OneWakes(s2, a, Entry(item, 0));
    RunAppend(s0, r1, r2);
    RunAppend(s0, r1 + r2, r3);
    run := r1 + r2 + r3;
  }

  ghost predicate StrandsNobody<T>(s: State<T>, run: seq<Action<T>>) {
    IsRun(s, run) ==> forall c :: !Stranded(After(s, run), c)
  }

  /** Whatever producers do, no consumer can be left asleep next to a due entry exactly when there
      is at most one consumer. */
  lemma NobodyStrandedIffOneConsumer<T(!new)>(ids: set<nat>, item: T)
    ensures (forall run :: StrandsNobody(Init<T>(ids), run)) <==> |ids| <= 1
  {
    var s := Init<T>(ids);
    assert s.consumers.Keys == ids;
    if |ids| <= 1 {
      forall run ensures StrandsNobody(s, run) {
        if IsRun(s, run) {
          RunKeeps(s, run);
        }
      }
    } else {
      var a :| a in ids;
      assert |ids - {a}| == |ids| - 1;
      var b :| b in ids - {a};
      var run := TwoConsumersStrand(ids, a, b, item);
      assert !StrandsNobody(s, run);
    }
  }
}
