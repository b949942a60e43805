/** The bounded queue of `collections/blockingqueue/blocking_queue.go`: a ring under a mutex, and two
    counting semaphores that are taken and given back outside the mutex, under any interleaving
    of any number of threads. */
module BlockingQueues {
  import opened RingIndex

  // ---------- The ring under the mutex ----------

  datatype Ring<T> = Ring(data: seq<T>, head: nat, tail: nat, count: int)

  ghost predicate RingOk<T>(r: Ring<T>) {
    && r.head < |r.data| && 0 <= r.count <= |r.data|
    && r.tail == Slot(r.head, r.count, |r.data|)
  }

  /** The queued items, oldest first. */
  ghost function Items<T>(r: Ring<T>): seq<T>
    requires RingOk(r)
  {
    seq(r.count, i requires 0 <= i < r.count => r.data[Slot(r.head, i, |r.data|)])
  }

  function Written<T>(r: Ring<T>, item: T): Ring<T>
    requires r.tail < |r.data|
  {
    Ring(r.data[r.tail := item], r.head, (r.tail + 1) % |r.data|, r.count + 1)
  }

  function Taken<T>(r: Ring<T>, zero: T): Ring<T>
    requires r.head < |r.data|
  {
    Ring(r.data[r.head := zero], (r.head + 1) % |r.data|, r.tail, r.count - 1)
  }

  ghost predicate RingCleared<T>(r: Ring<T>, zero: T)
    requires RingOk(r)
  {
    Cleared(r.data, r.head, r.count, zero)
  }

  /** With a free slot, writing appends and overwrites no item. */
  lemma WriteAppends<T>(r: Ring<T>, item: T, zero: T)
    requires RingOk(r) && r.count < |r.data|
    ensures RingOk(Written(r, item)) && Items(Written(r, item)) == Items(r) + [item]
    ensures RingCleared(r, zero) ==> RingCleared(Written(r, item), zero)
  {
    SlotIsRemainder(r.tail, 1, |r.data|);
    if RingCleared(r, zero) {
      ClearedPushBack(r.data, r.head, r.count, zero, item);
    }
  }

  /** With an item there, reading at the head yields the oldest one, leaves the rest, and clears its
      slot. */
  lemma TakeRemoves<T>(r: Ring<T>, zero: T)
    requires RingOk(r) && r.count > 0
    ensures RingOk(Taken(r, zero))
    ensures Items(r) == [r.data[r.head]] + Items(Taken(r, zero))
    ensures RingCleared(r, zero) ==> RingCleared(Taken(r, zero), zero)
  {
    SlotIsRemainder(r.head, 1, |r.data|);
    if RingCleared(r, zero) {
      ClearedPopFront(r.data, r.head, r.count, zero);
    }
  }

  // ---------- The objects ----------

  /** `semaphore.Weighted`: `cur` of `size` are taken; giving back more than is taken panics. */
  class Semaphore {
    const size: int
    var cur: int

    constructor (size: int)
      ensures this.size == size && cur == 0
    {
      this.size, cur := size, 0;
    }

    function Permits(): int
      reads this
    {
      size - cur
    }

    method TryAcquire(n: int) returns (ok: bool)
      modifies this
      ensures ok == (old(Permits()) >= n)
      ensures Permits() == if ok then old(Permits()) - n else old(Permits())
    {
      ok := size - cur >= n;
      if ok {
        cur := cur + n;
      }
    }

    method Release(n: int)
      requires cur >= n
      modifies this
      ensures Permits() == old(Permits()) + n
    {
      cur := cur - n;
    }
  }

  class ArrayBlockingQueue<T> {
    const data: array<T>
    const zero: T
    const capacity: int
    const enqueueCap: Semaphore
    const dequeueCap: Semaphore
    var head: nat
    var tail: nat
    var count: int

    ghost function Contents(): Ring<T>
      reads this, data
    {
      Ring(data[..], head, tail, count)
    }

    ghost predicate Valid()
      reads this, data
    {
      data.Length == capacity && enqueueCap != dequeueCap && RingOk(Contents()) && RingCleared(Contents(), zero)
    }

    constructor (capacity: int, zero: T)
      requires capacity > 0
      ensures Valid() && fresh(data) && fresh(enqueueCap) && fresh(dequeueCap)
      ensures Items(Contents()) == [] && data.Length == capacity
      ensures enqueueCap.Permits() == capacity && dequeueCap.Permits() == 0
      ensures enqueueCap.size == dequeueCap.size == capacity
    {
      this.zero, this.capacity := zero, capacity;
      data := new T[capacity](_ => zero);
      head, tail, count := 0, 0, 0;
      enqueueCap := new Semaphore(capacity);
      dequeueCap := new Semaphore(capacity);
      new;
      var ok := dequeueCap.TryAcquire(capacity);
    }

    /** The part of `Enqueue` under the mutex. */
    method EnqueueLocked(item: T)
      requires Valid() && count < capacity
      modifies this, data
      ensures Valid() && Contents() == Written(old(Contents()), item)
      ensures Items(Contents()) == old(Items(Contents())) + [item]
    {
      WriteAppends(Contents(), item, zero);
      data[tail] := item;
      tail := (tail + 1) % capacity;
      count := count + 1;
    }

    /** The part of `Dequeue` under the mutex. */
    method DequeueLocked() returns (item: T)
      requires Valid() && count > 0
      modifies this, data
      ensures Valid() && item == old(data[head]) && Contents() == Taken(old(Contents()), zero)
      ensures old(Items(Contents())) == [item] + Items(Contents())
    {
      TakeRemoves(Contents(), zero);
      item := data[head];
      data[head] := zero;
      head := (head + 1) % capacity;
      count := count - 1;
    }
  }

  // ---------- The step system ----------

  datatype Thread<T> =
    | Out                // not inside Enqueue or Dequeue, or still blocked in Acquire
    | Writing(item: T)   // enqueueCap acquired, not yet under the mutex
    | Wrote              // written, dequeueCap not yet released
    | Reading            // dequeueCap acquired, not yet under the mutex
    | HasRead(item: T)   // read, enqueueCap not yet released

  datatype Kind = KOut | KWriting | KWrote | KReading | KHasRead

  function KindOf<T>(t: Thread<T>): Kind {
    match t
    case Out => KOut
    case Writing(_) => KWriting
    case Wrote => KWrote
    case Reading => KReading
    case HasRead(_) => KHasRead
  }

  datatype State<T> = State(
    ring: Ring<T>, zero: T, enqueuePermits: int, dequeuePermits: int,
    threads: map<nat, Thread<T>>,
    written: seq<T>, read: seq<T>)  // in the order of the mutex

  datatype Action<T> =
    | AcquireEnqueue(t: nat, item: T)
    | Write(t: nat)
    | ReleaseDequeue(t: nat)
    | AcquireDequeue(t: nat)
    | Read(t: nat)
    | ReleaseEnqueue(t: nat)

  function ThreadAt<T>(s: State<T>, t: nat): Thread<T> { if t in s.threads then s.threads[t] else Out }

  /** Nothing here asks whether the ring has room, or an item: only the semaphores hold a thread
      back. */
  predicate Enabled<T>(s: State<T>, a: Action<T>) {
    match a
    case AcquireEnqueue(t, _) => ThreadAt(s, t).Out? && s.enqueuePermits >= 1
    case Write(t) => ThreadAt(s, t).Writing? && s.ring.tail < |s.ring.data|
    case ReleaseDequeue(t) => ThreadAt(s, t).Wrote?
    case AcquireDequeue(t) => ThreadAt(s, t).Out? && s.dequeuePermits >= 1
    case Read(t) => ThreadAt(s, t).Reading? && s.ring.head < |s.ring.data|
    case ReleaseEnqueue(t) => ThreadAt(s, t).HasRead?
  }

  function Goes<T>(s: State<T>, t: nat, to: Thread<T>): State<T> { s.(threads := s.threads[t := to]) }

  function Next<T>(s: State<T>, a: Action<T>): State<T>
    requires Enabled(s, a)
  {
    match a
    case AcquireEnqueue(t, item) => Goes(s, t, Writing(item)).(enqueuePermits := s.enqueuePermits - 1)
    case Write(t) =>
      var item := s.threads[t].item;
      Goes(s, t, Wrote).(ring := Written(s.ring, item), written := s.written + [item])
    case ReleaseDequeue(t) => Goes(s, t, Out).(dequeuePermits := s.dequeuePermits + 1)
    case AcquireDequeue(t) => Goes(s, t, Reading).(dequeuePermits := s.dequeuePermits - 1)
    case Read(t) =>
      var item := s.ring.data[s.ring.head];
      Goes(s, t, HasRead(item)).(ring := Taken(s.ring, s.zero), read := s.read + [item])
    case ReleaseEnqueue(t) => Goes(s, t, Out).(enqueuePermits := s.enqueuePermits + 1)
  }

  function Init<T>(capacity: nat, zero: T): State<T> {
    State(Ring(seq(capacity, _ => zero), 0, 0, 0), zero, capacity, 0, map[], [], [])
  }

  ghost function Having<T>(threads: map<nat, Thread<T>>, k: Kind): set<nat> {
    set t | t in threads && KindOf(threads[t]) == k
  }

  ghost function Count<T>(threads: map<nat, Thread<T>>, k: Kind): nat { |Having(threads, k)| }

  lemma CountUpdate<T>(threads: map<nat, Thread<T>>, t: nat, to: Thread<T>, k: Kind)
    requires k != KOut
    ensures Count(threads[t := to], k)
         == Count(threads, k)
            - (if t in threads && KindOf(threads[t]) == k then 1 else 0)
            + (if KindOf(to) == k then 1 else 0)
  {
    var was, now := Having(threads, k), Having(threads[t := to], k);
    if KindOf(to) == k {
      assert now == was + {t};
    } else {
      assert now == was - {t};
    }
  }

  /** The two conservation laws of the semaphores, and the ring as a first-in first-out queue. */
  ghost predicate Inv<T>(s: State<T>) {
    RingOk(s.ring) && RingCleared(s.ring, s.zero) && Conserved(s) && s.written == s.read + Items(s.ring)
  }

  ghost predicate Conserved<T>(s: State<T>) {
    && s.enqueuePermits >= 0 && s.dequeuePermits >= 0
    && s.enqueuePermits + Count(s.threads, KWriting) + s.ring.count + Count(s.threads, KHasRead) == |s.ring.data|
    && s.dequeuePermits + Count(s.threads, KWrote) + Count(s.threads, KReading) == s.ring.count
  }

  lemma InitInv<T>(capacity: nat, zero: T)
    requires capacity > 0
    ensures Inv(Init(capacity, zero))
  {
  }

  lemma CountPositive<T>(threads: map<nat, Thread<T>>, t: nat)
    requires t in threads
    ensures Count(threads, KindOf(threads[t])) >= 1
  {
    assert t in Having(threads, KindOf(threads[t]));
  }

  /** What the semaphores guarantee at every step: room to write, an item to read, and never a
      release beyond the capacity (which would panic). */
  lemma StepIsSafe<T>(s: State<T>, a: Action<T>)
    requires Inv(s) && Enabled(s, a)
    ensures a.Write? ==> s.ring.count < |s.ring.data|
    ensures a.Read? ==> s.ring.count > 0 && s.ring.data[s.ring.head] == Items(s.ring)[0]
    ensures a.ReleaseEnqueue? ==> s.enqueuePermits < |s.ring.data|
    ensures a.ReleaseDequeue? ==> s.dequeuePermits < |s.ring.data|
  {
    if a.t in s.threads {
      CountPositive(s.threads, a.t);
    }
  }

  lemma ConservedStep<T>(s: State<T>, a: Action<T>)
    requires Inv(s) && Enabled(s, a)
    ensures Conserved(Next(s, a))
  {
    StepIsSafe(s, a);
    var to := Next(s, a).threads[a.t];
    CountUpdate(s.threads, a.t, to, KWriting);
    CountUpdate(s.threads, a.t, to, KWrote);
    CountUpdate(s.threads, a.t, to, KReading);
    CountUpdate(s.threads, a.t, to, KHasRead);
  }

  lemma InvStep<T>(s: State<T>, a: Action<T>)
    requires Inv(s) && Enabled(s, a)
    ensures Inv(Next(s, a)) && |Next(s, a).ring.data| == |s.ring.data|
  {
    StepIsSafe(s, a);
    ConservedStep(s, a);
    match a
    case Write(t) => WriteAppends(s.ring, s.threads[t].item, s.zero);
    case Read(t) => TakeRemoves(s.ring, s.zero);
    case _ =>
  }

  ghost predicate IsRun<T>(s: State<T>, run: seq<Action<T>>)
    decreases |run|
  {
    run == [] || (Enabled(s, run[0]) && IsRun(Next(s, run[0]), run[1..]))
  }

  function After<T>(s: State<T>, run: seq<Action<T>>): State<T>
    requires IsRun(s, run)
    decreases |run|
  {
    if run == [] then s else After(Next(s, run[0]), run[1..])
  }

  /** In every interleaving: the conservation laws are kept, and the items read stay a prefix of the
      items written, at most `capacity` behind. */
  lemma {:induction false} RunKeeps<T>(s: State<T>, run: seq<Action<T>>)
    requires Inv(s) && IsRun(s, run)
    ensures var e := After(s, run);
            && Inv(e) && |e.ring.data| == |s.ring.data|
            && e.read <= e.written && |e.written| - |e.read| == e.ring.count <= |s.ring.data|
    decreases |run|
  {
    if run != [] {
      InvStep(s, run[0]);
      RunKeeps(Next(s, run[0]), run[1..]);
    }
  }

  /** In every interleaving from a new queue: items come out in the order in which they went in, the
      queue never holds more than its capacity, and whatever step comes next, a write finds room, a
      read finds the oldest item, and no release panics. */
  lemma RunsAreFifo<T>(capacity: nat, zero: T, run: seq<Action<T>>, a: Action<T>)
    requires capacity > 0 && IsRun(Init(capacity, zero), run)
    ensures var s := After(Init(capacity, zero), run);
            && Conserved(s) && |s.ring.data| == capacity
            && s.read <= s.written && |s.written| - |s.read| == s.ring.count <= capacity
            && (Enabled(s, a) ==>
                  && (a.Write? ==> s.ring.count < capacity)
                  && (a.Read? ==> |s.read| < |s.written| && Next(s, a).read == s.read + [s.written[|s.read|]])
                  && (a.ReleaseEnqueue? ==> s.enqueuePermits < capacity)
                  && (a.ReleaseDequeue? ==> s.dequeuePermits < capacity))
  {
    InitInv(capacity, zero);
    RunKeeps(Init(capacity, zero), run);
    var s := After(Init(capacity, zero), run);
    if Enabled(s, a) {
      StepIsSafe(s, a);
    }
  }

  /** Once every thread has left, all permits are back where the contents say they belong. */
  lemma QuietPermits<T>(s: State<T>)
    requires Inv(s) && forall t :: t in s.threads ==> s.threads[t].Out?
    ensures s.dequeuePermits == s.ring.count && s.enqueuePermits == |s.ring.data| - s.ring.count
  {
    assert forall k :: k != KOut ==> Having(s.threads, k) == {};
  }
}
