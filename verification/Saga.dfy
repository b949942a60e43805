/** Saga runs, `domain/saga/saga.go`: actions in order, each with retries; after a failure, the
    compensations of the completed steps in reverse order. */
module Sagas {

  datatype Step = Step(compensates: bool)  // whether a compensation function was given

  /** How the outside world answers: each action attempt and each compensation, whether the context
      is done before a step, and whether it is done first during the wait before a retry. */
  datatype World = World(
    acts: (nat, nat) -> bool, compensates: nat -> bool,
    doneBefore: nat -> bool, doneInWait: (nat, nat) -> bool)

  datatype Event = Acted(step: nat, attempt: nat, ok: bool) | Compensated(step: nat, ok: bool)

  datatype StepStatus = StepPending | StepRunning | StepCompleted | StepFailed
                      | StepCompensating | StepCompensated | StepCompensateFailed

  datatype SagaStatus = Running | Completed | Compensating | AllCompensated | CompensateFailed

  // ---------- What a run does ----------

  /** The attempts of step `i` from attempt `j` on. */
  function Attempts(w: World, retries: int, i: nat, j: nat): seq<Event>
    decreases retries - j
  {
    if j > retries || (j > 0 && w.doneInWait(i, j)) then []
    else [Acted(i, j, w.acts(i, j))] + if w.acts(i, j) then [] else Attempts(w, retries, i, j + 1)
  }

  /** Whether `executeStepWithRetry` returns nil. Without any attempt there is no error either. */
  function StepOk(w: World, retries: int, i: nat, j: nat): bool
    decreases retries - j
  {
    if j > retries then j == 0
    else if j > 0 && w.doneInWait(i, j) then false
    else w.acts(i, j) || StepOk(w, retries, i, j + 1)
  }

  /** How many of the steps `i..n` complete, counted from 0: the first one that does not. */
  function Reached(w: World, retries: int, n: nat, i: nat): (k: nat)
    requires i <= n
    ensures i <= k <= n
    decreases n - i
  {
    if i == n || w.doneBefore(i) || !StepOk(w, retries, i, 0) then i else Reached(w, retries, n, i + 1)
  }

  /** The actions of the steps from `i` on. */
  function Forward(w: World, retries: int, n: nat, i: nat): seq<Event>
    requires i <= n
    decreases n - i
  {
    if i == n || w.doneBefore(i) then []
    else Attempts(w, retries, i, 0) + if StepOk(w, retries, i, 0) then Forward(w, retries, n, i + 1) else []
  }

  lemma ForwardUnrolls(w: World, retries: int, n: nat, i: nat, before: seq<Event>)
    requires i < n
    ensures w.doneBefore(i) ==> before + Forward(w, retries, n, i) == before
    ensures !w.doneBefore(i) ==>
              before + Forward(w, retries, n, i)
              == (before + Attempts(w, retries, i, 0))
                 + if StepOk(w, retries, i, 0) then Forward(w, retries, n, i + 1) else []
  {
  }

  /** The compensations of steps `k - 1` down to 0. */
  function Backward(w: World, steps: seq<Step>, k: nat): seq<Event>
    requires k <= |steps|
  {
    if k == 0 then []
    else (if steps[k - 1].compensates then [Compensated(k - 1, w.compensates(k - 1))] else [])
         + Backward(w, steps, k - 1)
  }

  function CompensationsOk(w: World, steps: seq<Step>, k: nat): bool
    requires k <= |steps|
  {
    forall i :: 0 <= i < k && steps[i].compensates ==> w.compensates(i)
  }

  function Trace(w: World, retries: int, steps: seq<Step>): seq<Event> {
    var k := Reached(w, retries, |steps|, 0);
    Forward(w, retries, |steps|, 0) + if k == |steps| then [] else Backward(w, steps, k)
  }

  function FinalStep(w: World, retries: int, steps: seq<Step>, i: nat): StepStatus
    requires i < |steps|
  {
    var k := Reached(w, retries, |steps|, 0);
    if k == |steps| then StepCompleted
    else if i < k then
      if !steps[i].compensates || w.compensates(i) then StepCompensated else StepCompensateFailed
    else if i == k && !w.doneBefore(i) then StepFailed
    else StepPending
  }

  function FinalStatus(w: World, retries: int, steps: seq<Step>): SagaStatus {
    var k := Reached(w, retries, |steps|, 0);
    if k == |steps| then Completed
    else if CompensationsOk(w, steps, k) then AllCompensated else CompensateFailed
  }

  lemma Associates(a: seq<Event>, b: seq<Event>, c: seq<Event>)
    ensures a + (b + c) == (a + b) + c
  {
  }

  // ---------- The run itself ----------

  class Execution {
    const steps: seq<Step>
    const retryCount: int
    var status: SagaStatus
    var currentStep: nat
    var results: seq<StepStatus>
    ghost var trace: seq<Event>

    constructor (steps: seq<Step>, retryCount: int)
      ensures this.steps == steps && this.retryCount == retryCount && trace == []
      ensures status == Running && results == seq(|steps|, _ => StepPending)
    {
      this.steps, this.retryCount := steps, retryCount;
      status, currentStep, results := Running, 0, seq(|steps|, _ => StepPending);
      trace := [];
    }

    method ExecuteStepWithRetry(w: World, i: nat) returns (ok: bool)
      modifies this`trace
      ensures ok == StepOk(w, retryCount, i, 0)
      ensures trace == old(trace) + Attempts(w, retryCount, i, 0)
    {
      var attempt, failed := 0, false;
      ghost var done: seq<Event> := [];
      while attempt <= retryCount
        invariant attempt >= 0 && (failed <==> attempt > 0)
        invariant StepOk(w, retryCount, i, 0) == StepOk(w, retryCount, i, attempt)
        invariant trace == old(trace) + done
        invariant done + Attempts(w, retryCount, i, attempt) == Attempts(w, retryCount, i, 0)
        decreases retryCount - attempt
      {
        if attempt > 0 {
          if w.doneInWait(i, attempt) {
            assert done + [] == done;
            return false;
          }
        }
        ghost var e := [Acted(i, attempt, w.acts(i, attempt))];
        trace := trace + e;
        Associates(done, e, Attempts(w, retryCount, i, attempt + 1));
        done := done + e;
        if w.acts(i, attempt) {
          assert e + [] == e;
          return true;
        }
        failed := true;
        attempt := attempt + 1;
      }
      assert done + [] == done;
      return !failed;
    }

    method Compensate(w: World, completedSteps: nat) returns (ok: bool)
      requires completedSteps <= |steps| == |results|
      modifies this`results, this`trace
      ensures ok == CompensationsOk(w, steps, completedSteps)
      ensures trace == old(trace) + Backward(w, steps, completedSteps)
      ensures |results| == |steps|
      ensures forall j :: 0 <= j < |steps| ==>
                results[j] == if j >= completedSteps then old(results)[j]
                              else if !steps[j].compensates || w.compensates(j) then StepCompensated
                              else StepCompensateFailed
    {
      ok := true;
      var i := completedSteps - 1;
      while i >= 0
        invariant -1 <= i < completedSteps && |results| == |steps|
        invariant ok == forall j :: i < j < completedSteps && steps[j].compensates ==> w.compensates(j)
        invariant trace + Backward(w, steps, i + 1) == old(trace) + Backward(w, steps, completedSteps)
        invariant forall j :: 0 <= j < |steps| ==>
                    results[j] == if j <= i || j >= completedSteps then old(results)[j]
                                  else if !steps[j].compensates || w.compensates(j) then StepCompensated
                                  else StepCompensateFailed
      {
        if !steps[i].compensates {
          results := results[i := StepCompensated];
          i := i - 1;
          continue;
        }
        results := results[i := StepCompensating];
        trace := trace + [Compensated(i, w.compensates(i))];
        if !w.compensates(i) {
          results := results[i := StepCompensateFailed];
          ok := false;
          i := i - 1;
          continue;
        }
        results := results[i := StepCompensated];
        i := i - 1;
      }
    }

    /** The loop over the steps. */
    method RunSteps(w: World) returns (failed: bool, completedSteps: nat)
      requires trace == [] && results == seq(|steps|, _ => StepPending)
      modifies this`currentStep, this`results, this`trace
      ensures completedSteps == Reached(w, retryCount, |steps|, 0) && (failed <==> completedSteps < |steps|)
      ensures trace == Forward(w, retryCount, |steps|, 0)
      ensures |results| == |steps| && forall j :: 0 <= j < |steps| ==>
                results[j] == if j < completedSteps then StepCompleted
                              else if j == completedSteps && !w.doneBefore(j) then StepFailed else StepPending
    {
      failed, completedSteps := false, 0;
      var i := 0;
      while i < |steps|
        invariant 0 <= i <= |steps| == |results| && completedSteps == i
        invariant Reached(w, retryCount, |steps|, 0) == Reached(w, retryCount, |steps|, i)
        invariant trace + Forward(w, retryCount, |steps|, i) == Forward(w, retryCount, |steps|, 0)
        invariant forall j :: 0 <= j < |steps| ==> results[j] == if j < i then StepCompleted else StepPending
      {
        ForwardUnrolls(w, retryCount, |steps|, i, trace);
        if w.doneBefore(i) {
          return true, completedSteps;
        }
        currentStep := i;
        results := results[i := StepRunning];
        var stepOk := ExecuteStepWithRetry(w, i);
        if !stepOk {
          results := results[i := StepFailed];
          assert trace + [] == trace;
          return true, completedSteps;
        }
        results := results[i := StepCompleted];
        completedSteps := i + 1;
        i := i + 1;
      }
      assert trace + [] == trace;
    }

    method Execute(w: World) returns (ok: bool)
      requires trace == [] && status == Running && results == seq(|steps|, _ => StepPending)
      modifies this
      ensures trace == Trace(w, retryCount, steps) && status == FinalStatus(w, retryCount, steps)
      ensures |results| == |steps| && forall i :: 0 <= i < |steps| ==> results[i] == FinalStep(w, retryCount, steps, i)
      ensures ok <==> status == Completed
    {
      var failed, completedSteps := RunSteps(w);
      if !failed {
        status := Completed;
        return true;
      }
      status := Compensating;
      var compensated := Compensate(w, completedSteps);
      if !compensated {
        status := CompensateFailed;
        return false;
      }
      status := AllCompensated;
      return false;
    }
  }

  // ---------- What the trace looks like ----------

  /** Within a step: attempts 0, 1, 2, ... of that step, at most `retries + 1`, none after one that
      succeeds; the step completes exactly if the last one does. */
  lemma {:induction false} AttemptsShape(w: World, retries: int, i: nat, j: nat)
    requires j <= retries + 1
    ensures var t := Attempts(w, retries, i, j);
            && |t| <= retries + 1 - j
            && (forall n :: 0 <= n < |t| ==> t[n] == Acted(i, j + n, n == |t| - 1 && StepOk(w, retries, i, j)))
            && (j == 0 && retries >= 0 ==> t != [])
            && (t == [] && j > 0 ==> !StepOk(w, retries, i, j))
    decreases retries + 1 - j
  {
    if j <= retries && !(j > 0 && w.doneInWait(i, j)) && !w.acts(i, j) {
      AttemptsShape(w, retries, i, j + 1);
    }
  }

  /** How often step `i` occurs in a trace. */
  function Count(t: seq<Event>, i: nat, compensation: bool): nat {
    if t == [] then 0
    else (if t[0].step == i && t[0].Compensated? == compensation then 1 else 0) + Count(t[1..], i, compensation)
  }

  lemma {:induction false} CountConcat(a: seq<Event>, b: seq<Event>, i: nat, compensation: bool)
    ensures Count(a + b, i, compensation) == Count(a, i, compensation) + Count(b, i, compensation)
  {
    if a == [] {
      assert a + b == b;
    } else {
      assert (a + b)[1..] == a[1..] + b;
      CountConcat(a[1..], b, i, compensation);
    }
  }

  lemma {:induction false} CountAll(t: seq<Event>, i: nat, j: nat, compensation: bool)
    requires forall n :: 0 <= n < |t| ==> t[n].step == i && t[n].Acted?
    ensures Count(t, j, compensation) == if j == i && !compensation then |t| else 0
  {
    if t != [] {
      CountAll(t[1..], i, j, compensation);
    }
  }

  /** Actions only, of steps `lo..hi`, in step order, and within a step in order of attempt; nothing
      of a step follows its success. */
  ghost predicate ActsInOrder(t: seq<Event>, lo: nat, hi: nat) {
    && (forall m :: 0 <= m < |t| ==> t[m].Acted? && lo <= t[m].step < hi)
    && (forall l, m :: 0 <= l < m < |t| ==>
          t[l].step < t[m].step || (t[l].step == t[m].step && t[l].attempt < t[m].attempt && !t[l].ok))
  }

  lemma ActsInOrderConcat(a: seq<Event>, b: seq<Event>, lo: nat, mid: nat, hi: nat)
    requires ActsInOrder(a, lo, mid) && ActsInOrder(b, mid, hi) && lo <= mid <= hi
    ensures ActsInOrder(a + b, lo, hi)
  {
  }

  /** The action part: nothing follows the first step that does not complete. */
  lemma {:induction false} ForwardOrder(w: World, retries: int, n: nat, i: nat)
    requires i <= n
    ensures var k := Reached(w, retries, n, i);
            ActsInOrder(Forward(w, retries, n, i), i, if k < n then k + 1 else n)
    decreases n - i
  {
    if retries < 0 {
      NegativeSkips(w, retries, n, i);
    } else if i < n && !w.doneBefore(i) {
      AttemptsInOrder(w, retries, i);
      var a := Attempts(w, retries, i, 0);
      if StepOk(w, retries, i, 0) {
        ForwardOrder(w, retries, n, i + 1);
        var k := Reached(w, retries, n, i);
        ActsInOrderConcat(a, Forward(w, retries, n, i + 1), i, i + 1, if k < n then k + 1 else n);
      } else {
        assert a + [] == a;
      }
    }
  }

  lemma AttemptsInOrder(w: World, retries: int, i: nat)
    requires retries >= 0
    ensures ActsInOrder(Attempts(w, retries, i, 0), i, i + 1)
  {
    AttemptsShape(w, retries, i, 0);
  }

  /** A step that completes is tried at least once and at most `retries + 1` times, the first that
      does not at most so often, and later ones never. No compensation is among the actions. */
  lemma {:induction false} ForwardCounts(w: World, retries: int, n: nat, i: nat, j: nat)
    requires i <= n && retries >= 0
    ensures var f, k := Forward(w, retries, n, i), Reached(w, retries, n, i);
            && Count(f, j, true) == 0
            && (if i <= j < k then 1 <= Count(f, j, false) <= retries + 1
                else if j == k then Count(f, j, false) <= retries + 1
                else Count(f, j, false) == 0)
    decreases n - i
  {
    if i < n && !w.doneBefore(i) {
      var a, more := Attempts(w, retries, i, 0), StepOk(w, retries, i, 0);
      var rest := if more then Forward(w, retries, n, i + 1) else [];
      AttemptsShape(w, retries, i, 0);
      forall c ensures Count(a + rest, j, c) == (if j == i && !c then |a| else 0) + Count(rest, j, c) {
        CountConcat(a, rest, j, c);
        CountAll(a, i, j, c);
      }
      if more {
        ForwardCounts(w, retries, n, i + 1, j);
      }
    }
  }

  /** The compensation part is in reverse order of the steps, and goes on whatever is answered. */
  lemma {:induction false} BackwardOrder(w: World, steps: seq<Step>, k: nat)
    requires k <= |steps|
    ensures var b := Backward(w, steps, k);
            && (forall m :: 0 <= m < |b| ==> b[m].Compensated? && b[m].step < k && b[m].ok == w.compensates(b[m].step))
            && (forall l, m :: 0 <= l < m < |b| ==> b[l].step > b[m].step)
  {
    if k > 0 {
      BackwardOrder(w, steps, k - 1);
      var head := if steps[k - 1].compensates then [Compensated(k - 1, w.compensates(k - 1))] else [];
      assert Backward(w, steps, k) == head + Backward(w, steps, k - 1);
    }
  }

  /** It holds each completed step that has a compensation once, and nothing else. */
  lemma {:induction false} BackwardCounts(w: World, steps: seq<Step>, k: nat, j: nat)
    requires k <= |steps|
    ensures Count(Backward(w, steps, k), j, false) == 0
    ensures Count(Backward(w, steps, k), j, true) == if j < k && steps[j].compensates then 1 else 0
  {
    if k > 0 {
      BackwardCounts(w, steps, k - 1, j);
      var head := if steps[k - 1].compensates then [Compensated(k - 1, w.compensates(k - 1))] else [];
      CountConcat(head, Backward(w, steps, k - 1), j, false);
      CountConcat(head, Backward(w, steps, k - 1), j, true);
    }
  }

  /** The whole trace: with `k` the first step that does not complete, every step before `k` is tried
      1 to `retries + 1` times; if there is such a `k`, exactly the steps before it that have a
      compensation are compensated, once each; otherwise none is. */
  lemma RunCounts(w: World, retries: int, steps: seq<Step>, j: nat)
    requires retries >= 0 && j < |steps|
    ensures var t, k := Trace(w, retries, steps), Reached(w, retries, |steps|, 0);
            && Count(t, j, false) <= retries + 1
            && (j < k ==> Count(t, j, false) >= 1) && (j > k ==> Count(t, j, false) == 0)
            && Count(t, j, true) == if k < |steps| && j < k && steps[j].compensates then 1 else 0
  {
    var k := Reached(w, retries, |steps|, 0);
    var f, b := Forward(w, retries, |steps|, 0), if k == |steps| then [] else Backward(w, steps, k);
    ForwardCounts(w, retries, |steps|, 0, j);
    if k < |steps| {
      BackwardCounts(w, steps, k, j);
    }
    CountConcat(f, b, j, false);
    CountConcat(f, b, j, true);
  }

  lemma {:induction false} BackwardHas(w: World, steps: seq<Step>, k: nat, j: nat, ok: bool)
    requires k <= |steps|
    ensures Compensated(j, ok) in Backward(w, steps, k) <==> j < k && steps[j].compensates && w.compensates(j) == ok
  {
    if k > 0 {
      BackwardHas(w, steps, k - 1, j, ok);
    }
  }

  lemma TraceHas(w: World, retries: int, steps: seq<Step>, j: nat, ok: bool)
    ensures var k := Reached(w, retries, |steps|, 0);
            Compensated(j, ok) in Trace(w, retries, steps)
            <==> k < |steps| && j < k && steps[j].compensates && w.compensates(j) == ok
  {
    var k := Reached(w, retries, |steps|, 0);
    ForwardOrder(w, retries, |steps|, 0);
    BackwardHas(w, steps, k, j, ok);
    assert Compensated(j, ok) !in Forward(w, retries, |steps|, 0);
  }

  /** The trace holds a successful attempt of step `i`. */
  ghost predicate Succeeded(t: seq<Event>, i: nat) {
    exists e :: e in t && e.Acted? && e.step == i && e.ok
  }

  lemma SucceededConcat(a: seq<Event>, b: seq<Event>, i: nat)
    ensures Succeeded(a + b, i) <==> Succeeded(a, i) || Succeeded(b, i)
  {
  }

  /** A step has a successful attempt exactly if it completes. */
  lemma {:induction false} ForwardSucceeds(w: World, retries: int, n: nat, i: nat, j: nat)
    requires i <= n && retries >= 0
    ensures Succeeded(Forward(w, retries, n, i), j) <==> i <= j < Reached(w, retries, n, i)
    decreases n - i
  {
    if i < n && !w.doneBefore(i) {
      var a, more := Attempts(w, retries, i, 0), StepOk(w, retries, i, 0);
      var rest := if more then Forward(w, retries, n, i + 1) else [];
      assert Forward(w, retries, n, i) == a + rest;
      AttemptsSucceed(w, retries, i, j);
      SucceededConcat(a, rest, j);
      if more {
        ForwardSucceeds(w, retries, n, i + 1, j);
      } else {
        assert !Succeeded(rest, j);
      }
    }
  }

  lemma AttemptsSucceed(w: World, retries: int, i: nat, j: nat)
    requires retries >= 0
    ensures Succeeded(Attempts(w, retries, i, 0), j) <==> j == i && StepOk(w, retries, i, 0)
  {
    AttemptsShape(w, retries, i, 0);
    var t := Attempts(w, retries, i, 0);
    if j == i && StepOk(w, retries, i, 0) {
      assert t[|t| - 1] in t;
    }
  }

  lemma TraceSucceeds(w: World, retries: int, steps: seq<Step>, i: nat)
    requires retries >= 0
    ensures Succeeded(Trace(w, retries, steps), i) <==> i < Reached(w, retries, |steps|, 0)
  {
    var k := Reached(w, retries, |steps|, 0);
    var b := if k == |steps| then [] else Backward(w, steps, k);
    ForwardSucceeds(w, retries, |steps|, 0, i);
    if k < |steps| {
      BackwardOrder(w, steps, k);
      forall e | e in b ensures e.Compensated? {
        var m :| 0 <= m < |b| && b[m] == e;
        assert Backward(w, steps, k)[m].Compensated?;
      }
    }
    SucceededConcat(Forward(w, retries, |steps|, 0), b, i);
  }

  /** The status of a step, as the trace of a saga with `n` steps tells it: untried, tried in vain, or
      successful, and then whether it had to be compensated, and how that went. */
  ghost function Told(t: seq<Event>, n: nat, i: nat): StepStatus {
    if Count(t, i, false) == 0 then StepPending
    else if !Succeeded(t, i) then StepFailed
    else if forall j :: 0 <= j < n ==> Succeeded(t, j) then StepCompleted
    else if Compensated(i, false) in t then StepCompensateFailed
    else StepCompensated
  }

  /** Every final step status is the one that the trace tells; and whatever the retry count, it says
      that a compensation failed or was made exactly when the trace does. */
  lemma StepStatusMatchesTrace(w: World, retries: int, steps: seq<Step>, i: nat)
    requires i < |steps|
    ensures retries >= 0 ==> FinalStep(w, retries, steps, i) == Told(Trace(w, retries, steps), |steps|, i)
    ensures FinalStep(w, retries, steps, i) == StepCompensateFailed
            <==> Compensated(i, false) in Trace(w, retries, steps)
    ensures FinalStep(w, retries, steps, i) == StepCompensated && steps[i].compensates
            <==> Compensated(i, true) in Trace(w, retries, steps)
  {
    TraceHas(w, retries, steps, i, false);
    TraceHas(w, retries, steps, i, true);
    if retries >= 0 {
      StatusTold(w, retries, steps, i);
    }
  }

  lemma StatusTold(w: World, retries: int, steps: seq<Step>, i: nat)
    requires i < |steps| && retries >= 0
    ensures FinalStep(w, retries, steps, i) == Told(Trace(w, retries, steps), |steps|, i)
  {
    var k, t := Reached(w, retries, |steps|, 0), Trace(w, retries, steps);
    forall j: nat ensures Succeeded(t, j) <==> j < k {
      TraceSucceeds(w, retries, steps, j);
    }
    assert !Succeeded(t, k);
    TriedCounts(w, retries, steps, i);
    TraceHas(w, retries, steps, i, false);
  }

  /** Steps are tried up to the first that does not complete, and that one too unless the context was
      done before it. */
  lemma TriedCounts(w: World, retries: int, steps: seq<Step>, i: nat)
    requires i < |steps| && retries >= 0
    ensures var k := Reached(w, retries, |steps|, 0);
            Count(Trace(w, retries, steps), i, false) == 0 <==> i > k || (i == k && w.doneBefore(k))
  {
    var k := Reached(w, retries, |steps|, 0);
    RunCounts(w, retries, steps, i);
    if i == k {
      FirstMissedCount(w, retries, |steps|, 0);
      BackwardCounts(w, steps, k, i);
      CountConcat(Forward(w, retries, |steps|, 0), Backward(w, steps, k), i, false);
    }
  }

  lemma {:induction false} FirstMissedCount(w: World, retries: int, n: nat, i: nat)
    requires i <= n && retries >= 0 && Reached(w, retries, n, i) < n
    ensures var k := Reached(w, retries, n, i); Count(Forward(w, retries, n, i), k, false) == 0 <==> w.doneBefore(k)
    decreases n - i
  {
    if !w.doneBefore(i) {
      var k, a, more := Reached(w, retries, n, i), Attempts(w, retries, i, 0), StepOk(w, retries, i, 0);
      var rest := if more then Forward(w, retries, n, i + 1) else [];
      AttemptsShape(w, retries, i, 0);
      CountConcat(a, rest, k, false);
      CountAll(a, i, k, false);
      if more {
        FirstMissedCount(w, retries, n, i + 1);
      }
    }
  }

  /** The saga is marked compensation-failed exactly when the trace holds a failed compensation. */
  lemma CompensateFailedMatchesTrace(w: World, retries: int, steps: seq<Step>)
    ensures FinalStatus(w, retries, steps) == CompensateFailed
            <==> exists i: nat :: Compensated(i, false) in Trace(w, retries, steps)
  {
    var k := Reached(w, retries, |steps|, 0);
    if FinalStatus(w, retries, steps) == CompensateFailed {
      var i :| 0 <= i < k && steps[i].compensates && !w.compensates(i);
      TraceHas(w, retries, steps, i, false);
    }
    if i: nat :| Compensated(i, false) in Trace(w, retries, steps) {
      TraceHas(w, retries, steps, i, false);
      assert !CompensationsOk(w, steps, k);
    }
  }

  /** The saga is completed, and only then is the result nil, exactly when every step is. */
  lemma CompletedIffAllSteps(w: World, retries: int, steps: seq<Step>)
    ensures FinalStatus(w, retries, steps) == Completed
            <==> forall i :: 0 <= i < |steps| ==> FinalStep(w, retries, steps, i) == StepCompleted
  {
    var k := Reached(w, retries, |steps|, 0);
    if k < |steps| {
      assert FinalStep(w, retries, steps, k) != StepCompleted;
    }
  }

  /** The saga is marked compensated exactly when some step did not complete and no compensation in the
      trace failed. */
  lemma CompensatedMatchesTrace(w: World, retries: int, steps: seq<Step>)
    ensures FinalStatus(w, retries, steps) == AllCompensated
            <==> (exists i :: 0 <= i < |steps| && FinalStep(w, retries, steps, i) != StepCompleted)
                 && forall i: nat :: Compensated(i, false) !in Trace(w, retries, steps)
  {
    CompensateFailedMatchesTrace(w, retries, steps);
    CompletedIffAllSteps(w, retries, steps);
  }

  /** The status of the whole saga, as its trace tells it. */
  ghost function SagaTold(t: seq<Event>, n: nat): SagaStatus {
    if forall j :: 0 <= j < n ==> Succeeded(t, j) then Completed
    else if exists i: nat :: Compensated(i, false) in t then CompensateFailed
    else AllCompensated
  }

  lemma StatusMatchesTrace(w: World, retries: int, steps: seq<Step>)
    requires retries >= 0
    ensures FinalStatus(w, retries, steps) == SagaTold(Trace(w, retries, steps), |steps|)
  {
    CompensateFailedMatchesTrace(w, retries, steps);
    var k := Reached(w, retries, |steps|, 0);
    forall j: nat ensures Succeeded(Trace(w, retries, steps), j) <==> j < k {
      TraceSucceeds(w, retries, steps, j);
    }
    assert !Succeeded(Trace(w, retries, steps), k);
  }

  // ---------- Which attempts there are ----------

  /** All attempts before `a` fail, and the context is not done in any wait up to then. */
  ghost predicate Waits(w: World, i: nat, from: nat, a: nat) {
    forall b: nat {:trigger w.acts(i, b)} :: from <= b < a ==> !w.acts(i, b) && !w.doneInWait(i, b + 1)
  }

  /** A successful attempt comes of step `i`. */
  ghost predicate Succeeds(w: World, retries: int, i: nat) {
    exists a: nat :: a <= retries && w.acts(i, a) && Waits(w, i, 0, a)
  }

  /** The saga gets from step `i` to the actions of step `s`. */
  ghost predicate Gets(w: World, retries: int, i: nat, s: nat) {
    && (forall j: nat {:trigger w.doneBefore(j)} :: i <= j <= s ==> !w.doneBefore(j))
    && (forall j: nat {:trigger Succeeds(w, retries, j)} :: i <= j < s ==> Succeeds(w, retries, j))
  }

  lemma WaitsFrom(w: World, i: nat, j: nat, a: nat)
    requires j < a
    ensures Waits(w, i, j, a) <==> !w.acts(i, j) && !w.doneInWait(i, j + 1) && Waits(w, i, j + 1, a)
  {
    if !w.acts(i, j) && !w.doneInWait(i, j + 1) && Waits(w, i, j + 1, a) {
      forall b: nat {:trigger w.acts(i, b)} | j <= b < a ensures !w.acts(i, b) && !w.doneInWait(i, b + 1) {
      }
    }
  }

  lemma {:induction false} AttemptsHas(w: World, retries: int, i: nat, j: nat, e: Event)
    ensures e in Attempts(w, retries, i, j)
            <==> e.Acted? && e.step == i && j <= e.attempt <= retries && e.ok == w.acts(i, e.attempt)
                 && Waits(w, i, j, e.attempt) && (j > 0 ==> !w.doneInWait(i, j))
    decreases retries - j
  {
    if j <= retries && !(j > 0 && w.doneInWait(i, j)) && !w.acts(i, j) {
      var head, rest := Acted(i, j, false), Attempts(w, retries, i, j + 1);
      assert Attempts(w, retries, i, j) == [head] + rest;
      assert e in Attempts(w, retries, i, j) <==> e == head || e in rest;
      if e.Acted? && e.attempt > j {
        WaitsFrom(w, i, j, e.attempt);
      }
      AttemptsHas(w, retries, i, j + 1, e);
    }
  }

  lemma StepOkIffSucceeds(w: World, retries: int, i: nat)
    requires retries >= 0
    ensures StepOk(w, retries, i, 0) <==> Succeeds(w, retries, i)
  {
    AttemptsSucceed(w, retries, i, i);
    var t := Attempts(w, retries, i, 0);
    if StepOk(w, retries, i, 0) {
      var e :| e in t && e.Acted? && e.step == i && e.ok;
      AttemptsHas(w, retries, i, 0, e);
    }
    if Succeeds(w, retries, i) {
      var a: nat :| a <= retries && w.acts(i, a) && Waits(w, i, 0, a);
      AttemptsHas(w, retries, i, 0, Acted(i, a, true));
    }
  }

  lemma {:induction false} ForwardHas(w: World, retries: int, n: nat, i: nat, s: nat, a: nat, ok: bool)
    requires i <= n
    ensures Acted(s, a, ok) in Forward(w, retries, n, i)
            <==> i <= s < n && Gets(w, retries, i, s) && a <= retries && ok == w.acts(s, a) && Waits(w, s, 0, a)
    decreases n - i
  {
    if retries < 0 {
      NegativeSkips(w, retries, n, i);
    } else if i < n && !w.doneBefore(i) {
      AttemptsHas(w, retries, i, 0, Acted(s, a, ok));
      StepOkIffSucceeds(w, retries, i);
      ForwardHas(w, retries, n, i + 1, s, a, ok);
      if s > i {
        assert Gets(w, retries, i, s) <==> Succeeds(w, retries, i) && Gets(w, retries, i + 1, s);
      }
    }
  }

  /** An attempt is in the trace exactly if the context was not done before its step or an earlier one,
      every earlier step had a successful attempt, and it was a retry within the count, after failures
      and waits that were not cut short; and it went as the action answered. */
  lemma TraceActs(w: World, retries: int, steps: seq<Step>, s: nat, a: nat, ok: bool)
    ensures Acted(s, a, ok) in Trace(w, retries, steps)
            <==> s < |steps| && Gets(w, retries, 0, s) && a <= retries && ok == w.acts(s, a) && Waits(w, s, 0, a)
  {
    var k := Reached(w, retries, |steps|, 0);
    ForwardHas(w, retries, |steps|, 0, s, a, ok);
    if k < |steps| {
      BackwardOrder(w, steps, k);
      assert Acted(s, a, ok) !in Backward(w, steps, k);
    }
  }

  // ---------- Negative retry counts ----------

  /** Every step that counts as completed has been tried with success. */
  ghost predicate CompletedWereTried(w: World, retries: int, steps: seq<Step>) {
    forall i :: 0 <= i < Reached(w, retries, |steps|, 0) ==> Succeeded(Trace(w, retries, steps), i)
  }

  lemma {:induction false} NegativeSkips(w: World, retries: int, n: nat, i: nat)
    requires retries < 0 && i <= n
    ensures Forward(w, retries, n, i) == []
    ensures (forall j :: !w.doneBefore(j)) ==> Reached(w, retries, n, i) == n
    decreases n - i
  {
    if i < n {
      NegativeSkips(w, retries, n, i + 1);
    }
  }

  /** `WithRetry` accepts any count. A saga with steps can be relied on exactly when the count is not
      negative: otherwise every step counts as completed without its action having been run. */
  lemma TriedIffRetriesNotNegative(retries: int, steps: seq<Step>)
    requires steps != []
    ensures (forall w :: CompletedWereTried(w, retries, steps)) <==> retries >= 0
  {
    if retries >= 0 {
      forall w ensures CompletedWereTried(w, retries, steps) {
        forall i | 0 <= i < Reached(w, retries, |steps|, 0) ensures Succeeded(Trace(w, retries, steps), i) {
          TraceSucceeds(w, retries, steps, i);
        }
      }
    } else {
      var w := World((i, j) => true, i => true, i => false, (i, j) => false);
      NegativeSkips(w, retries, |steps|, 0);
      assert Trace(w, retries, steps) == [];
      assert !Succeeded(Trace(w, retries, steps), 0);
      assert !CompletedWereTried(w, retries, steps);
    }
  }
}
