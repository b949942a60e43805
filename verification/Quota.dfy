/** The in-memory quota manager of `bizx/ratelimit/ratelimit.go`: a fixed window for each key, 64-bit
    counters, and a clock read on every call. */
module Quotas {
  import opened Options

  const MAX_INT64 := 0x7FFF_FFFF_FFFF_FFFF

  predicate IsInt64(x: int) { -MAX_INT64 - 1 <= x <= MAX_INT64 }

  /** What 64-bit signed arithmetic makes of the sum or difference of two 64-bit numbers. */
  function Wrap(x: int): int {
    if x > MAX_INT64 then x - 0x1_0000_0000_0000_0000
    else if x < -MAX_INT64 - 1 then x + 0x1_0000_0000_0000_0000
    else x
  }

  datatype Quota = Quota(limit: int, window: int) {
    predicate Valid() { IsInt64(limit) }
    function Cap(): nat { if limit < 0 then 0 else limit }
  }

  /** `Truncate`: down to a multiple of the window, counted from the zero time. */
  function WindowStart(window: int, now: int): int {
    if window <= 0 then now else now - now % window
  }

  /** What is kept for a key. The window's key is the quota's key and the window's start; as an entry
      is only looked at under its own key, the start is all that tells windows apart. */
  datatype Entry = Entry(used: int, start: int)

  /** `getOrCreate` in the window that starts at `start`. */
  function Current(e: Option<Entry>, start: int): Entry {
    if e.Some? && e.value.start == start then e.value else Entry(0, start)
  }

  /** A call for one key, with the start of the window in which the clock finds it: consuming `n`, or
      only looking. */
  datatype Req = Consume(start: int, n: int) | Look(start: int)

  predicate Grants(q: Quota, e: Option<Entry>, r: Req) {
    r.Consume? && Wrap(Current(e, r.start).used + r.n) <= q.limit
  }

  function Kept(q: Quota, e: Option<Entry>, r: Req): Entry {
    var c := Current(e, r.start);
    if Grants(q, e, r) then c.(used := Wrap(c.used + r.n)) else c
  }

  datatype Usage = Usage(used: int, remaining: int, limit: int)

  /** What is reported of a counter: the limit, what is used, and what is left, if anything, unless it is
      too much for 64 bits. */
  predicate Reports(u: Usage, used: int, q: Quota) {
    && u.used == used && u.limit == q.limit && u.remaining >= 0
    && (0 <= used <= q.limit ==> u.used + u.remaining == q.limit)
    && (IsInt64(q.limit - used) ==> u.remaining == if q.limit > used then q.limit - used else 0)
  }

  class QuotaManager {
    var entries: map<string, Entry>

    function Find(key: string): Option<Entry>
      reads this
    {
      if key in entries then Some(entries[key]) else None
    }

    ghost predicate Valid()
      reads this
    {
      forall k :: k in entries ==> IsInt64(entries[k].used)
    }

    constructor ()
      ensures Valid() && entries == map[]
    {
      entries := map[];
    }

    method GetOrCreate(key: string, q: Quota, now: int) returns (e: Entry)
      modifies this
      ensures e == Current(old(Find(key)), WindowStart(q.window, now)) && entries == old(entries)[key := e]
    {
      var start := WindowStart(q.window, now);
      if key !in entries || entries[key].start != start {
        entries := entries[key := Entry(0, start)];
      }
      e := entries[key];
      assert entries == entries[key := e];
    }

    method BuildUsage(e: Entry, q: Quota) returns (u: Usage)
      requires IsInt64(e.used) && q.Valid()
      ensures Reports(u, e.used, q)
    {
      var remaining := Wrap(q.limit - e.used);
      if remaining < 0 {
        remaining := 0;
      }
      u := Usage(e.used, remaining, q.limit);
    }

    /** A refusal changes no usage; and, unless the sum is too big for 64 bits, it is given exactly
        when the request would overrun what is left of the window. */
    method Consume(key: string, q: Quota, n: int, now: int) returns (u: Usage, ok: bool)
      requires Valid() && q.Valid() && IsInt64(n)
      modifies this
      ensures Valid()
      ensures ok == Grants(q, old(Find(key)), Req.Consume(WindowStart(q.window, now), n))
      ensures entries == old(entries)[key := Kept(q, old(Find(key)), Req.Consume(WindowStart(q.window, now), n))]
      ensures var before := Current(old(Find(key)), WindowStart(q.window, now)).used;
              && (!ok ==> entries[key].used == before)
              && (IsInt64(before + n) ==> (ok <==> before + n <= q.limit) && (ok ==> entries[key].used == before + n))
      ensures Reports(u, entries[key].used, q)
    {
      var e := GetOrCreate(key, q, now);
      if Wrap(e.used + n) > q.limit {
        u := BuildUsage(e, q);
        return u, false;
      }
      e := e.(used := Wrap(e.used + n));
      entries := entries[key := e];
      u := BuildUsage(e, q);
      return u, true;
    }

    method Check(key: string, q: Quota, now: int) returns (u: Usage)
      requires Valid() && q.Valid()
      modifies this
      ensures Valid()
      ensures entries == old(entries)[key := Kept(q, old(Find(key)), Look(WindowStart(q.window, now)))]
      ensures Reports(u, Current(old(Find(key)), WindowStart(q.window, now)).used, q)
    {
      var e := GetOrCreate(key, q, now);
      u := BuildUsage(e, q);
    }

    method Reset(key: string)
      requires Valid()
      modifies this
      ensures Valid() && entries == old(entries) - {key}
    {
      entries := entries - {key};
    }
  }

  // ---------- Runs of calls for one key ----------

  /** The entry after all the requests. */
  function Left(q: Quota, reqs: seq<Req>): Option<Entry> {
    if reqs == [] then None else Some(Kept(q, Left(q, reqs[..|reqs| - 1]), reqs[|reqs| - 1]))
  }

  predicate Granted(q: Quota, reqs: seq<Req>, k: nat)
    requires k < |reqs|
  {
    Grants(q, Left(q, reqs[..k]), reqs[k])
  }

  /** How much has been granted in the window that starts at `start`. */
  function InWindow(q: Quota, reqs: seq<Req>, start: int): int {
    if reqs == [] then 0
    else
      var k := |reqs| - 1;
      InWindow(q, reqs[..k], start)
      + if Granted(q, reqs, k) && reqs[k].start == start then reqs[k].n else 0
  }

  ghost predicate KeepsLimit(q: Quota, reqs: seq<Req>) {
    forall start :: InWindow(q, reqs, start) <= q.Cap()
  }

  // ---------- When the limit is kept ----------

  ghost predicate NonNegative(reqs: seq<Req>) {
    forall k :: 0 <= k < |reqs| && reqs[k].Consume? ==> 0 <= reqs[k].n <= MAX_INT64
  }

  /** No request makes the counter overflow. */
  predicate NoOverflow(q: Quota, reqs: seq<Req>) {
    reqs == [] ||
    (var p, r := reqs[..|reqs| - 1], reqs[|reqs| - 1];
     NoOverflow(q, p) && (r.Consume? ==> Current(Left(q, p), r.start).used + r.n <= MAX_INT64))
  }

  /** The clock does not come back to a window it has left. */
  ghost predicate NoReturn(ws: seq<int>) {
    forall i: nat, j: nat, k: nat :: !Returns(ws, i, j, k)
  }

  /** The clock is in a window at `i`, elsewhere at `j`, and back at `k`. */
  predicate Returns(ws: seq<int>, i: nat, j: nat, k: nat) {
    i < j < k < |ws| && ws[i] == ws[k] != ws[j]
  }

  function Starts(reqs: seq<Req>): (ws: seq<int>)
    ensures |ws| == |reqs| && forall k :: 0 <= k < |reqs| ==> ws[k] == reqs[k].start
  {
    seq(|reqs|, k requires 0 <= k < |reqs| => reqs[k].start)
  }

  lemma PrefixKeeps(q: Quota, reqs: seq<Req>)
    requires reqs != [] && NonNegative(reqs) && NoOverflow(q, reqs) && NoReturn(Starts(reqs))
    ensures var p := reqs[..|reqs| - 1]; NonNegative(p) && NoOverflow(q, p) && NoReturn(Starts(p))
  {
    var p := reqs[..|reqs| - 1];
    forall i: nat, j: nat, k: nat ensures !Returns(Starts(p), i, j, k) {
      assert !Returns(Starts(reqs), i, j, k);
    }
  }

  ghost predicate Visited(q: Quota, reqs: seq<Req>, start: int) {
    exists k :: 0 <= k < |reqs| && reqs[k].start == start
  }

  lemma {:induction false} NothingIfNotVisited(q: Quota, reqs: seq<Req>, start: int)
    requires !Visited(q, reqs, start)
    ensures InWindow(q, reqs, start) == 0
  {
    if reqs != [] {
      NothingIfNotVisited(q, reqs[..|reqs| - 1], start);
    }
  }

  lemma LeftStart(q: Quota, reqs: seq<Req>)
    requires reqs != []
    ensures Left(q, reqs).value.start == reqs[|reqs| - 1].start
  {
  }

  /** As long as nothing overflows and no window is come back to, a window's counter is what has been
      granted in it, and never more than the limit. */
  lemma {:induction false} LimitKept(q: Quota, reqs: seq<Req>, start: int)
    requires q.Valid() && NonNegative(reqs) && NoOverflow(q, reqs) && NoReturn(Starts(reqs))
    ensures 0 <= InWindow(q, reqs, start) <= q.Cap()
    ensures var e := Left(q, reqs); e.Some? && e.value.start == start ==> e.value.used == InWindow(q, reqs, start)
  {
    if reqs != [] {
      var p, r := reqs[..|reqs| - 1], reqs[|reqs| - 1];
      PrefixKeeps(q, reqs);
      LimitKept(q, p, start);
      if r.start == start {
        if !(Left(q, p).Some? && Left(q, p).value.start == start) {
          NotVisitedBefore(q, reqs, start);
          NothingIfNotVisited(q, p, start);
        }
        assert Current(Left(q, p), r.start).used == InWindow(q, p, start);
      }
    }
  }

  lemma NotVisitedBefore(q: Quota, reqs: seq<Req>, start: int)
    requires reqs != [] && NoReturn(Starts(reqs)) && reqs[|reqs| - 1].start == start
    requires var e := Left(q, reqs[..|reqs| - 1]); !(e.Some? && e.value.start == start)
    ensures !Visited(q, reqs[..|reqs| - 1], start)
  {
    var p, ws := reqs[..|reqs| - 1], Starts(reqs);
    if p != [] {
      LeftStart(q, p);
      assert ws[|p| - 1] != start == ws[|p|];
    }
    forall k | 0 <= k < |p| ensures p[k].start != start {
      assert !Returns(ws, k, |p| - 1, |p|);
    }
  }

  // ---------- Exactly when ----------

  lemma Snoc(q: Quota, p: seq<Req>, r: Req)
    ensures Left(q, p + [r]) == Some(Kept(q, Left(q, p), r))
    ensures NoOverflow(q, p) && (r.Consume? ==> Current(Left(q, p), r.start).used + r.n <= MAX_INT64) ==>
              NoOverflow(q, p + [r])
  {
    var s := p + [r];
    assert s[..|s| - 1] == p;
  }

  lemma SnocWindow(q: Quota, p: seq<Req>, r: Req, start: int)
    ensures InWindow(q, p + [r], start)
         == InWindow(q, p, start) + if Grants(q, Left(q, p), r) && r.start == start then r.n else 0
  {
    var s := p + [r];
    assert s[..|s| - 1] == p;
  }

  /** Asks for the whole limit whenever the clock has just come to a window. */
  function Greedy(q: Quota, ws: seq<int>): (reqs: seq<Req>)
  {
    if ws == [] then [] else Greedy(q, ws[..|ws| - 1]) + [Ask(q, ws)]
  }

  function Ask(q: Quota, ws: seq<int>): Req
    requires ws != []
  {
    var k := |ws| - 1;
    Consume(ws[k], if k > 0 && ws[k - 1] == ws[k] then 0 else q.limit)
  }

  lemma {:induction false} GreedyUsesAll(q: Quota, ws: seq<int>)
    requires q.Valid() && q.limit > 0
    ensures var g := Greedy(q, ws);
            && NonNegative(g) && NoOverflow(q, g) && |g| == |ws|
            && Starts(g) == ws
            && Left(q, g) == if ws == [] then None else Some(Entry(q.limit, ws[|ws| - 1]))
  {
    if ws != [] {
      GreedyUsesAll(q, ws[..|ws| - 1]);
      Snoc(q, Greedy(q, ws[..|ws| - 1]), Ask(q, ws));
    }
  }

  /** Each time the clock comes to a window, the limit is granted there. */
  lemma GreedyStep(q: Quota, ws: seq<int>, start: int)
    requires q.Valid() && q.limit > 0 && ws != []
    ensures var last, p := |ws| - 1, ws[..|ws| - 1];
            InWindow(q, Greedy(q, ws), start) == InWindow(q, Greedy(q, p), start)
              + if ws[last] == start && (p == [] || ws[last - 1] != start)
                then q.limit else 0
  {
    var p := ws[..|ws| - 1];
    GreedyUsesAll(q, p);
    SnocWindow(q, Greedy(q, p), Ask(q, ws), start);
    assert Grants(q, Left(q, Greedy(q, p)), Ask(q, ws));
  }

  lemma {:induction false} GreedyOnce(q: Quota, ws: seq<int>, start: int)
    requires q.Valid() && q.limit > 0
    ensures var total := InWindow(q, Greedy(q, ws), start);
            total >= if ws != [] && ws[|ws| - 1] == start then q.limit else 0
  {
    if ws != [] {
      GreedyStep(q, ws, start);
      GreedyOnce(q, ws[..|ws| - 1], start);
    }
  }

  function GreedyTotal(q: Quota, ws: seq<int>, start: int, m: nat): int
    requires m <= |ws|
  {
    InWindow(q, Greedy(q, ws[..m]), start)
  }

  lemma GreedyStepAt(q: Quota, ws: seq<int>, start: int, m: nat)
    requires q.Valid() && q.limit > 0 && 0 < m <= |ws|
    ensures GreedyTotal(q, ws, start, m) == GreedyTotal(q, ws, start, m - 1)
              + if ws[m - 1] == start && (m == 1 || ws[m - 2] != start) then q.limit else 0
  {
    assert ws[..m][..m - 1] == ws[..m - 1];
    GreedyStep(q, ws[..m], start);
  }

  /** The limit is granted again between `j` and `k`. */
  lemma {:induction false} GreedyTwice(q: Quota, ws: seq<int>, i: nat, j: nat, k: nat, m: nat)
    requires q.Valid() && q.limit > 0 && Returns(ws, i, j, k) && i < m <= |ws|
    ensures GreedyTotal(q, ws, ws[i], m) >= q.limit
    ensures m > k || (m - 1 > j && ws[m - 1] == ws[i]) ==> GreedyTotal(q, ws, ws[i], m) >= 2 * q.limit
  {
    if m - 1 == i {
      GreedyOnce(q, ws[..m], ws[i]);
    } else {
      GreedyStepAt(q, ws, ws[i], m);
      GreedyTwice(q, ws, i, j, k, m - 1);
    }
  }

  /** With the clock going `ws`: whatever is asked for, if no counter overflows, no window exceeds the
      limit. */
  ghost predicate ClockIsGood(q: Quota, ws: seq<int>, reqs: seq<Req>) {
    Starts(reqs) == ws && NonNegative(reqs) && NoOverflow(q, reqs) ==> KeepsLimit(q, reqs)
  }

  lemma ReturnExceeds(q: Quota, ws: seq<int>, i: nat, j: nat, k: nat)
    requires q.Valid() && q.limit > 0 && Returns(ws, i, j, k)
    ensures !ClockIsGood(q, ws, Greedy(q, ws))
  {
    GreedyUsesAll(q, ws);
    GreedyTwice(q, ws, i, j, k, |ws|);
    assert ws[..|ws|] == ws;
    assert InWindow(q, Greedy(q, ws), ws[i]) == GreedyTotal(q, ws, ws[i], |ws|) > q.Cap();
  }

  lemma NoReturnKeepsLimit(q: Quota, reqs: seq<Req>)
    requires q.Valid() && NoReturn(Starts(reqs))
    ensures ClockIsGood(q, Starts(reqs), reqs)
  {
    if NonNegative(reqs) && NoOverflow(q, reqs) {
      forall start ensures InWindow(q, reqs, start) <= q.Cap() {
        LimitKept(q, reqs, start);
      }
    }
  }

  lemma {:induction false} NothingGranted(q: Quota, reqs: seq<Req>, start: int)
    requires q.Valid() && q.limit <= 0 && NonNegative(reqs)
    ensures InWindow(q, reqs, start) == 0 && (Left(q, reqs).Some? ==> Left(q, reqs).value.used == 0)
  {
    if reqs != [] {
      NothingGranted(q, reqs[..|reqs| - 1], start);
    }
  }

  /** Exactly the clocks that do not come back to a window keep a positive limit, whatever is asked
      for. */
  lemma LimitKeptIffNoReturn(q: Quota, ws: seq<int>)
    requires q.Valid()
    ensures (forall reqs :: ClockIsGood(q, ws, reqs)) <==> NoReturn(ws) || q.limit <= 0
  {
    if NoReturn(ws) {
      forall reqs ensures ClockIsGood(q, ws, reqs) {
        if Starts(reqs) == ws {
          NoReturnKeepsLimit(q, reqs);
        }
      }
    } else if q.limit <= 0 {
      forall reqs ensures ClockIsGood(q, ws, reqs) {
        forall start | NonNegative(reqs) ensures InWindow(q, reqs, start) <= q.Cap() {
          NothingGranted(q, reqs, start);
        }
      }
    } else {
      var i, j, k :| Returns(ws, i, j, k);
      ReturnExceeds(q, ws, i, j, k);
    }
  }

  /** The windows in which the clock finds the calls, going `ts`. */
  function StartsOf(window: int, ts: seq<int>): (ws: seq<int>)
    ensures |ws| == |ts| && forall k :: 0 <= k < |ts| ==> ws[k] == WindowStart(window, ts[k])
  {
    seq(|ts|, k requires 0 <= k < |ts| => WindowStart(window, ts[k]))
  }

  /** A clock that never goes back does not come back to a window. */
  lemma MonotoneNeverReturns(window: int, ts: seq<int>)
    requires forall i, j :: 0 <= i < j < |ts| ==> ts[i] <= ts[j]
    ensures NoReturn(StartsOf(window, ts))
  {
    var ws := StartsOf(window, ts);
    forall i: nat, j: nat, k: nat ensures !Returns(ws, i, j, k) {
      if i < j < k < |ts| {
        StartIsMonotone(window, ts[i], ts[j]);
        StartIsMonotone(window, ts[j], ts[k]);
      }
    }
  }

  lemma StartIsMonotone(window: int, a: int, b: int)
    requires a <= b
    ensures WindowStart(window, a) <= WindowStart(window, b)
  {
    if window > 0 {
      StartIsMultiple(window, a);
      StartIsMultiple(window, b);
      if a / window > b / window {
        MultiplesAreMonotone(window, b / window + 1, a / window);
      } else {
        MultiplesAreMonotone(window, a / window, b / window);
      }
    }
  }

  lemma StartIsMultiple(window: int, t: int)
    requires window > 0
    ensures WindowStart(window, t) == (t / window) * window
    ensures WindowStart(window, t) <= t < (t / window + 1) * window == WindowStart(window, t) + window
  {
  }

  lemma MultiplesAreMonotone(window: int, x: int, y: int)
    requires window > 0 && x <= y
    ensures x * window <= y * window
  {
    assert (y - x) * window >= 0;
  }

  // ---------- Large requests ----------

  ghost predicate AtMost(reqs: seq<Req>, bound: int) {
    forall k :: 0 <= k < |reqs| && reqs[k].Consume? ==> 0 <= reqs[k].n <= bound
  }

  lemma {:induction false} SmallNeverOverflow(q: Quota, reqs: seq<Req>, bound: int)
    requires q.Valid() && AtMost(reqs, bound) && bound + q.Cap() <= MAX_INT64
    ensures NoOverflow(q, reqs) && (Left(q, reqs).Some? ==> 0 <= Left(q, reqs).value.used <= q.Cap())
  {
    if reqs != [] {
      var k := |reqs| - 1;
      SmallNeverOverflow(q, reqs[..k], bound);
      Snoc(q, reqs[..k], reqs[k]);
      assert reqs[..k] + [reqs[k]] == reqs;
    }
  }

  function Ones(k: nat): (reqs: seq<Req>)
    ensures |reqs| == k && forall j :: 0 <= j < k ==> reqs[j] == Consume(0, 1)
  {
    if k == 0 then [] else Ones(k - 1) + [Consume(0, 1)]
  }

  lemma {:induction false} OnesFill(q: Quota, k: nat)
    requires q.Valid() && k <= q.limit
    ensures InWindow(q, Ones(k), 0) == k && Left(q, Ones(k)) == if k == 0 then None else Some(Entry(k, 0))
  {
    if k > 0 {
      OnesFill(q, k - 1);
      Snoc(q, Ones(k - 1), Consume(0, 1));
      SnocWindow(q, Ones(k - 1), Consume(0, 1), 0);
    }
  }

  /** A full counter wraps around and so grants what takes it beyond 64 bits. */
  lemma OverflowGrants(q: Quota, bound: int)
    requires q.Valid() && q.limit > 0 && bound <= MAX_INT64 < bound + q.limit
    ensures var reqs := Ones(q.limit) + [Consume(0, bound)];
            AtMost(reqs, bound) && NoReturn(Starts(reqs)) && InWindow(q, reqs, 0) == q.limit + bound
  {
    var reqs := Ones(q.limit) + [Consume(0, bound)];
    OnesFill(q, q.limit);
    SnocWindow(q, Ones(q.limit), Consume(0, bound), 0);
    assert forall k :: 0 <= k < |reqs| ==> Starts(reqs)[k] == 0;
  }

  /** With requests up to `bound` and a clock that does not come back, no window exceeds the limit. */
  ghost predicate BoundIsGood(q: Quota, bound: int, reqs: seq<Req>) {
    AtMost(reqs, bound) && NoReturn(Starts(reqs)) ==> KeepsLimit(q, reqs)
  }

  /** The sum with the counter is compared with the limit after it has wrapped around. So the limit is
      kept exactly when callers ask for no more at a time than 64 bits leave above the limit. */
  lemma LimitKeptIffRequestsFit(q: Quota, bound: int)
    requires q.Valid() && 0 <= bound <= MAX_INT64
    ensures (forall reqs :: BoundIsGood(q, bound, reqs)) <==> bound + q.Cap() <= MAX_INT64
  {
    if bound + q.Cap() <= MAX_INT64 {
      forall reqs ensures BoundIsGood(q, bound, reqs) {
        if AtMost(reqs, bound) && NoReturn(Starts(reqs)) {
          SmallNeverOverflow(q, reqs, bound);
          NoReturnKeepsLimit(q, reqs);
        }
      }
    } else {
      OverflowGrants(q, bound);
      assert !BoundIsGood(q, bound, Ones(q.limit) + [Consume(0, bound)]);
    }
  }

  // ---------- Sliding intervals ----------

  /** How much has been granted at times from `lo` to `hi`, with the clock going `ts`. */
  function InSpan(q: Quota, reqs: seq<Req>, ts: seq<int>, lo: int, hi: int): int
    requires |reqs| == |ts|
  {
    if reqs == [] then 0
    else
      var k := |reqs| - 1;
      InSpan(q, reqs[..k], ts[..k], lo, hi) + if Granted(q, reqs, k) && lo <= ts[k] <= hi then reqs[k].n else 0
  }

  lemma TwoWindows(window: int, lo: int, t: int)
    requires window > 0 && lo <= t <= lo + window
    ensures var w := WindowStart(window, lo); WindowStart(window, t) == w || WindowStart(window, t) == w + window
  {
    var x, y := lo / window, t / window;
    StartIsMultiple(window, lo);
    StartIsMultiple(window, t);
    if y < x {
      MultiplesAreMonotone(window, y + 1, x);
    } else if y > x + 1 {
      MultiplesAreMonotone(window, x + 2, y);
    }
  }

  lemma {:induction false} SpanWithinWindows(q: Quota, reqs: seq<Req>, ts: seq<int>, lo: int, hi: int)
    requires q.window > 0 && NonNegative(reqs) && lo <= hi <= lo + q.window
    requires Starts(reqs) == StartsOf(q.window, ts)
    ensures var w := WindowStart(q.window, lo);
            InSpan(q, reqs, ts, lo, hi) <= InWindow(q, reqs, w) + InWindow(q, reqs, w + q.window)
  {
    if reqs != [] {
      var k := |reqs| - 1;
      assert Starts(reqs)[k] == reqs[k].start;
      assert Starts(reqs[..k]) == Starts(reqs)[..k] == StartsOf(q.window, ts)[..k] == StartsOf(q.window, ts[..k]);
      SpanWithinWindows(q, reqs[..k], ts[..k], lo, hi);
      if lo <= ts[k] <= hi {
        TwoWindows(q.window, lo, ts[k]);
      }
    }
  }

  /** With a clock that never goes back, any interval no longer than a window is granted at most twice
      the limit. */
  lemma SlidingLimit(q: Quota, reqs: seq<Req>, ts: seq<int>, lo: int, hi: int)
    requires q.Valid() && q.window > 0 && NonNegative(reqs) && NoOverflow(q, reqs) && lo <= hi <= lo + q.window
    requires Starts(reqs) == StartsOf(q.window, ts)
    requires forall i, j :: 0 <= i < j < |ts| ==> ts[i] <= ts[j]
    ensures InSpan(q, reqs, ts, lo, hi) <= 2 * q.Cap()
  {
    MonotoneNeverReturns(q.window, ts);
    SpanWithinWindows(q, reqs, ts, lo, hi);
    LimitKept(q, reqs, WindowStart(q.window, lo));
    LimitKept(q, reqs, WindowStart(q.window, lo) + q.window);
  }

  /** And no less will do: twice the limit can be had within one tick. */
  lemma SlidingLimitIsReached(q: Quota)
    requires q.Valid() && q.window > 0 && q.limit >= 0
    ensures var reqs, ts := [Consume(0, q.limit), Consume(q.window, q.limit)], [q.window - 1, q.window];
            Starts(reqs) == StartsOf(q.window, ts) && InSpan(q, reqs, ts, q.window - 1, q.window) == 2 * q.limit
  {
    var reqs, ts := [Consume(0, q.limit), Consume(q.window, q.limit)], [q.window - 1, q.window];
    assert reqs[..1] == [Consume(0, q.limit)] && reqs[..1][..0] == [] && ts[..1][..0] == [];
    assert Left(q, reqs[..1]) == Some(Entry(q.limit, 0));
    assert Granted(q, reqs[..1], 0) && Granted(q, reqs, 1);
    assert InSpan(q, reqs[..1], ts[..1], q.window - 1, q.window) == q.limit;
  }
}
