/** One scheduled job, `scheduler/cron.go` and `scheduler/job.go`: any number of invocations, started
    by ticks and triggers, run at the same time and share the job's state and its statistics. */
module Schedulers {
  import opened FiniteSets

  datatype Job = Job(singleton: bool, distributed: bool, retryCount: int, retryInterval: int)

  datatype JobState = Idle | Running

  datatype LockAnswer = Acquired | Held | LockFailed

  /** Where an invocation stands. `AtSkip(finishes)` tells whether `finish` has been deferred. */
  datatype Point =
    | AtStart | AtLock | AtSkip(finishes: bool) | AtBefore
    | AtLoop(attempt: int) | InHandler(attempt: int) | AtWait(attempt: int)
    | AtErrorHooks | AtAfterHooks
    | AtUnlock | AtFinish | Done

  /** An invocation, and what it has done so far. `passed`: the before-hooks let it through. */
  datatype Invocation = Invocation(
    at: Point, passed: bool, starts: nat, oks: nat, fails: nat, errorHooks: nat, afterHooks: nat, skips: nat)

  const NEW_INVOCATION := Invocation(AtStart, false, 0, 0, 0, 0, 0, 0)

  datatype State = State(
    state: JobState, runCount: nat, successCount: nat, failCount: nat, skipCount: nat,
    invocations: map<nat, Invocation>)

  // ---------- Steps ----------

  /** One access to what invocations share, or one call to code outside, with its answer. */
  datatype Action =
    | Fire(i: nat)
    | TryStart(i: nat)
    | TryLock(i: nat, answer: LockAnswer)
    | RecordSkip(i: nat)
    | BeforeHooks(i: nat, ok: bool)
    | RecordStart(i: nat)
    | RecordResult(i: nat, ok: bool)
    | WaitInterval(i: nat)
    | ErrorHooks(i: nat)
    | AfterHooks(i: nat)
    | Unlock(i: nat)
    | Finish(i: nat)

  predicate Enabled(s: State, a: Action) {
    if a.Fire? then a.i !in s.invocations
    else
      && a.i in s.invocations
      && var at := s.invocations[a.i].at;
         match a
         case TryStart(_) => at.AtStart?
         case TryLock(_, _) => at.AtLock?
         case RecordSkip(_) => at.AtSkip?
         case BeforeHooks(_, _) => at.AtBefore?
         case RecordStart(_) => at.AtLoop?
         case RecordResult(_, _) => at.InHandler?
         case WaitInterval(_) => at.AtWait?
         case ErrorHooks(_) => at.AtErrorHooks?
         case AfterHooks(_) => at.AtAfterHooks?
         case Unlock(_) => at.AtUnlock?
         case Finish(_) => at.AtFinish?
  }

  /** What a step does to the invocation that takes it. */
  function Moved(job: Job, s: State, a: Action): Invocation
    requires Enabled(s, a)
  {
    if a.Fire? then NEW_INVOCATION
    else
      var v := s.invocations[a.i];
      match a
      case TryStart(_) => v.(at := if job.singleton && s.state == Running then AtSkip(false) else AtLock)
      case TryLock(_, answer) => v.(at := if job.distributed && answer != Acquired then AtSkip(true) else AtBefore)
      case RecordSkip(_) => v.(at := if v.at.finishes then AtFinish else Done, skips := v.skips + 1)
      case BeforeHooks(_, ok) => if ok then v.(at := AtLoop(1), passed := true) else v.(at := AtUnlock)
      case RecordStart(_) =>
        if v.at.attempt <= job.retryCount + 1 then v.(at := InHandler(v.at.attempt), starts := v.starts + 1)
        else v.(at := AtUnlock)
      case RecordResult(_, ok) =>
        if ok then v.(at := AtAfterHooks, oks := v.oks + 1)
        else v.(at := if v.at.attempt >= job.retryCount + 1 then AtErrorHooks
                      else if job.retryInterval > 0 then AtWait(v.at.attempt)
                      else AtLoop(v.at.attempt + 1),
                fails := v.fails + 1)
      case WaitInterval(_) => v.(at := AtLoop(v.at.attempt + 1))
      case ErrorHooks(_) => v.(at := AtAfterHooks, errorHooks := v.errorHooks + 1)
      case AfterHooks(_) => v.(at := AtUnlock, afterHooks := v.afterHooks + 1)
      case Unlock(_) => v.(at := AtFinish)
      case Finish(_) => v.(at := Done)
  }

  function Next(job: Job, s: State, a: Action): State
    requires Enabled(s, a)
  {
    var v := Moved(job, s, a);
    var s' := s.(invocations := s.invocations[a.i := v]);
    match a
    case TryStart(_) => if job.singleton && v.at.AtLock? then s'.(state := Running) else s'
    case RecordSkip(_) => s'.(skipCount := s.skipCount + 1)
    case RecordStart(_) => if v.at.InHandler? then s'.(runCount := s.runCount + 1) else s'
    case RecordResult(_, ok) =>
      if ok then s'.(successCount := s.successCount + 1) else s'.(failCount := s.failCount + 1)
    case Finish(_) => if job.singleton then s'.(state := Idle) else s'
    case _ => s'
  }

  const INITIAL := State(Idle, 0, 0, 0, 0, map[])

  ghost predicate IsRun(job: Job, s: State, run: seq<Action>)
    decreases |run|
  {
    run == [] || (Enabled(s, run[0]) && IsRun(job, Next(job, s, run[0]), run[1..]))
  }

  ghost function After(job: Job, s: State, run: seq<Action>): State
    requires IsRun(job, s, run)
    decreases |run|
  {
    if run == [] then s else After(job, Next(job, s, run[0]), run[1..])
  }

  // ---------- What every step keeps ----------

  /** The invocation has taken the job and will give it back: it stands between a successful
      `tryStart` and the deferred `finish`. */
  predicate Claims(job: Job, v: Invocation) {
    job.singleton && !v.at.AtStart? && v.at != AtSkip(false) && !v.at.Done?
  }

  /** What an invocation has done by the time its deferred calls run. */
  predicate Ended(job: Job, v: Invocation) {
    if v.passed && job.retryCount >= 0 then
      && v.afterHooks == 1 && v.skips == 0
      && 1 <= v.starts == v.oks + v.fails <= job.retryCount + 1
      && v.oks <= 1 && v.errorHooks == 1 - v.oks
      && (v.oks == 0 ==> v.fails == job.retryCount + 1)
    else
      && v.starts == v.oks == v.fails == v.errorHooks == v.afterHooks == 0
      && v.skips <= if v.passed then 0 else 1
  }

  predicate Untouched(v: Invocation) {
    v.starts == v.oks == v.fails == v.errorHooks == v.afterHooks == v.skips == 0 && !v.passed
  }

  /** A passed invocation that has not come to its hooks, with `n` attempts failed. */
  predicate Trying(job: Job, v: Invocation, n: int) {
    v.passed && v.oks == v.errorHooks == v.afterHooks == v.skips == 0 && v.fails == n
  }

  predicate Sane(job: Job, v: Invocation) {
    && v.starts == v.oks + v.fails + (if v.at.InHandler? then 1 else 0)
    && match v.at
       case AtStart | AtLock | AtSkip(_) | AtBefore => Untouched(v)
       case AtLoop(a) => Trying(job, v, a - 1) && 1 <= a && (a > 1 ==> a <= job.retryCount + 1)
       case InHandler(a) => Trying(job, v, a - 1) && 1 <= a <= job.retryCount + 1
       case AtWait(a) => Trying(job, v, a) && 1 <= a <= job.retryCount
       case AtErrorHooks => Trying(job, v, job.retryCount + 1) && v.starts >= 1
       case AtAfterHooks => Ended(job, v.(afterHooks := 1)) && v.afterHooks == 0 && v.passed && job.retryCount >= 0
       case AtUnlock | AtFinish | Done => Ended(job, v)
  }

  datatype Group = Claimants | InFlight | Skipped

  predicate Belongs(job: Job, g: Group, v: Invocation) {
    match g
    case Claimants => Claims(job, v)
    case InFlight => v.at.InHandler?
    case Skipped => v.skips > 0
  }

  function Members(job: Job, g: Group, m: map<nat, Invocation>): set<nat> {
    set i | i in m && Belongs(job, g, m[i])
  }

  lemma MembersUpdate(job: Job, g: Group, m: map<nat, Invocation>, i: nat, v: Invocation)
    ensures |Members(job, g, m[i := v])|
            == |Members(job, g, m)| - (if i in m && Belongs(job, g, m[i]) then 1 else 0)
               + (if Belongs(job, g, v) then 1 else 0)
  {
    assert Members(job, g, m[i := v])
        == if Belongs(job, g, v) then Members(job, g, m) + {i} else Members(job, g, m) - {i};
  }

  function Count(job: Job, g: Group, s: State): nat { |Members(job, g, s.invocations)| }

  ghost predicate AllSane(job: Job, s: State) {
    forall i :: i in s.invocations ==> Sane(job, s.invocations[i])
  }

  /** The job is marked running exactly when an invocation has taken it, and never two have; every
      start is accounted for as a success, a failure or an attempt in flight; and so is every skip. */
  ghost predicate Inv(job: Job, s: State) {
    && AllSane(job, s)
    && Count(job, Claimants, s) == (if s.state == Running then 1 else 0)
    && s.runCount == s.successCount + s.failCount + Count(job, InFlight, s)
    && s.skipCount == Count(job, Skipped, s)
  }

  lemma SaneStep(job: Job, s: State, a: Action)
    requires AllSane(job, s) && Enabled(s, a)
    ensures AllSane(job, Next(job, s, a))
  {
    assert Sane(job, Moved(job, s, a)) by {
      assert a.i in s.invocations ==> Sane(job, s.invocations[a.i]);
    }
  }

  lemma ClaimStep(job: Job, s: State, a: Action)
    requires AllSane(job, s) && Count(job, Claimants, s) == (if s.state == Running then 1 else 0) && Enabled(s, a)
    ensures var s' := Next(job, s, a); Count(job, Claimants, s') == (if s'.state == Running then 1 else 0)
  {
    MembersUpdate(job, Claimants, s.invocations, a.i, Moved(job, s, a));
    OneClaims(job, s, a.i);
  }

  lemma RunCountStep(job: Job, s: State, a: Action)
    requires s.runCount == s.successCount + s.failCount + Count(job, InFlight, s) && Enabled(s, a)
    ensures var s' := Next(job, s, a); s'.runCount == s'.successCount + s'.failCount + Count(job, InFlight, s')
  {
    MembersUpdate(job, InFlight, s.invocations, a.i, Moved(job, s, a));
  }

  lemma SkipCountStep(job: Job, s: State, a: Action)
    requires AllSane(job, s) && s.skipCount == Count(job, Skipped, s) && Enabled(s, a)
    ensures var s' := Next(job, s, a); s'.skipCount == Count(job, Skipped, s')
  {
    MembersUpdate(job, Skipped, s.invocations, a.i, Moved(job, s, a));
    assert a.i in s.invocations ==> Sane(job, s.invocations[a.i]);
  }

  lemma InvStep(job: Job, s: State, a: Action)
    requires Inv(job, s) && Enabled(s, a)
    ensures Inv(job, Next(job, s, a))
  {
    SaneStep(job, s, a);
    ClaimStep(job, s, a);
    RunCountStep(job, s, a);
    SkipCountStep(job, s, a);
  }

  lemma OneClaims(job: Job, s: State, i: nat)
    requires Count(job, Claimants, s) == (if s.state == Running then 1 else 0)
    ensures i in s.invocations && Claims(job, s.invocations[i]) ==> s.state == Running
  {
    if i in s.invocations && Claims(job, s.invocations[i]) {
      assert i in Members(job, Claimants, s.invocations);
    }
  }

  lemma {:induction false} RunKeeps(job: Job, s: State, run: seq<Action>)
    requires Inv(job, s) && IsRun(job, s, run)
    ensures Inv(job, After(job, s, run))
    decreases |run|
  {
    if run != [] {
      InvStep(job, s, run[0]);
      RunKeeps(job, Next(job, s, run[0]), run[1..]);
    }
  }

  lemma InitialInv(job: Job)
    ensures Inv(job, INITIAL)
  {
    forall g ensures Members(job, g, map[]) == {} {}
  }

  lemma {:induction false} RunAppend(job: Job, s: State, r1: seq<Action>, r2: seq<Action>)
    requires IsRun(job, s, r1) && IsRun(job, After(job, s, r1), r2)
    ensures IsRun(job, s, r1 + r2) && After(job, s, r1 + r2) == After(job, After(job, s, r1), r2)
    decreases |r1|
  {
    if r1 == [] {
      assert r1 + r2 == r2;
    } else {
      assert (r1 + r2)[1..] == r1[1..] + r2;
      RunAppend(job, Next(job, s, r1[0]), r1[1..], r2);
    }
  }

  lemma Extend(job: Job, s: State, run: seq<Action>, a: Action)
    requires IsRun(job, s, run) && Enabled(After(job, s, run), a)
    ensures IsRun(job, s, run + [a]) && After(job, s, run + [a]) == Next(job, After(job, s, run), a)
  {
    var t := After(job, s, run);
    var n := Next(job, t, a);
    assert [a][1..] == [];
    assert IsRun(job, n, []) && After(job, n, []) == n;
    assert IsRun(job, t, [a]) && After(job, t, [a]) == After(job, n, [a][1..]);
    RunAppend(job, s, run, [a]);
  }

  /** A singleton's invocation is skipped as busy exactly while another one has the job; and when all
      invocations are done the job is idle again and every start has ended as a success or a failure. */
  lemma BusyExactlyWhileTaken(job: Job, s: State, i: nat)
    requires Inv(job, s) && job.singleton && Enabled(s, TryStart(i))
    ensures Moved(job, s, TryStart(i)).at.AtSkip?
            <==> exists j :: j in s.invocations && j != i && Claims(job, s.invocations[j])
  {
    if s.state == Running {
      var j :| j in Members(job, Claimants, s.invocations);
    } else if j :| j in s.invocations && Claims(job, s.invocations[j]) {
      OneClaims(job, s, j);
    }
  }

  lemma QuietIsIdle(job: Job, s: State)
    requires Inv(job, s) && forall i :: i in s.invocations ==> s.invocations[i].at.Done?
    ensures s.state == Idle && s.runCount == s.successCount + s.failCount
  {
    assert Members(job, Claimants, s.invocations) == Members(job, InFlight, s.invocations) == {};
  }

  // ---------- Overlap ----------

  /** No attempt overlaps another, whatever ticks and triggers do. */
  ghost predicate NoOverlap(job: Job, run: seq<Action>) {
    IsRun(job, INITIAL, run) ==> Count(job, InFlight, After(job, INITIAL, run)) <= 1
  }

  lemma SingletonNeverOverlaps(job: Job, s: State)
    requires Inv(job, s) && job.singleton
    ensures Count(job, InFlight, s) <= 1
  {
    var f, c := Members(job, InFlight, s.invocations), Members(job, Claimants, s.invocations);
    assert f <= c;
    SubsetCount(f, c);
  }

  lemma NothingStarts(job: Job, s: State)
    requires Inv(job, s) && job.retryCount < 0
    ensures Count(job, InFlight, s) == 0
  {
    forall i | i in s.invocations ensures !s.invocations[i].at.InHandler? {
      assert Sane(job, s.invocations[i]);
    }
    assert Members(job, InFlight, s.invocations) == {};
  }

  function Standing(i: nat, at: Point): Invocation { Invocation(at, true, 1, 0, 0, 0, 0, 0) }

  /** The steps that bring invocation `i` from the start into its first attempt. */
  lemma EntersHandler(job: Job, s: State, i: nat) returns (run: seq<Action>)
    requires i !in s.invocations && (job.singleton ==> s.state == Idle) && job.retryCount >= 0
    ensures IsRun(job, s, run)
    ensures var t := After(job, s, run);
            && t.invocations == s.invocations[i := Standing(i, InHandler(1))]
            && (!job.singleton ==> t.state == s.state)
  {
    run := [];
    Extend(job, s, run, Fire(i));
    run := run + [Fire(i)];
    Extend(job, s, run, TryStart(i));
    run := run + [TryStart(i)];
    Extend(job, s, run, TryLock(i, Acquired));
    run := run + [TryLock(i, Acquired)];
    Extend(job, s, run, BeforeHooks(i, true));
    run := run + [BeforeHooks(i, true)];
    Extend(job, s, run, RecordStart(i));
    run := run + [RecordStart(i)];
  }

  lemma TwoOverlap(job: Job) returns (run: seq<Action>)
    requires !job.singleton && job.retryCount >= 0
    ensures IsRun(job, INITIAL, run) && Count(job, InFlight, After(job, INITIAL, run)) == 2
  {
    var r1 := EntersHandler(job, INITIAL, 0);
    var s1 := After(job, INITIAL, r1);
    var r2 := EntersHandler(job, s1, 1);
    RunAppend(job, INITIAL, r1, r2);
    run := r1 + r2;
    assert Members(job, InFlight, After(job, INITIAL, run).invocations) == {0, 1};
  }

  /** One process runs the job at most once at a time exactly when the job is a singleton (or never
      runs at all); a lock that other processes hold may be answered as it likes. */
  lemma NoOverlapIffSingleton(job: Job)
    ensures (forall run :: NoOverlap(job, run)) <==> job.singleton || job.retryCount < 0
  {
    InitialInv(job);
    if job.singleton || job.retryCount < 0 {
      forall run ensures NoOverlap(job, run) {
        if IsRun(job, INITIAL, run) {
          RunKeeps(job, INITIAL, run);
          if job.singleton {
            SingletonNeverOverlaps(job, After(job, INITIAL, run));
          } else {
            NothingStarts(job, After(job, INITIAL, run));
          }
        }
      }
    } else {
      var run := TwoOverlap(job);
      assert !NoOverlap(job, run);
    }
  }

  // ---------- After-hooks ----------

  /** Every finished invocation that the before-hooks let through has called the after-hooks once. */
  ghost predicate HooksComplete(job: Job, run: seq<Action>) {
    IsRun(job, INITIAL, run) ==>
      var m := After(job, INITIAL, run).invocations;
      forall i :: i in m && m[i].at.Done? && m[i].passed ==> m[i].afterHooks == 1
  }

  lemma PassesWithoutTrying(job: Job) returns (run: seq<Action>)
    requires job.retryCount < 0
    ensures IsRun(job, INITIAL, run)
    ensures var m := After(job, INITIAL, run).invocations;
            && 0 in m && m[0].at.Done? && m[0].passed
            && m[0].starts == m[0].errorHooks == m[0].afterHooks == m[0].skips == 0
  {
    var s := INITIAL;
    run := [];
    Extend(job, s, run, Fire(0));
    run := run + [Fire(0)];
    Extend(job, s, run, TryStart(0));
    run := run + [TryStart(0)];
    Extend(job, s, run, TryLock(0, Acquired));
    run := run + [TryLock(0, Acquired)];
    Extend(job, s, run, BeforeHooks(0, true));
    run := run + [BeforeHooks(0, true)];
    Extend(job, s, run, RecordStart(0));
    run := run + [RecordStart(0)];
    Extend(job, s, run, Unlock(0));
    run := run + [Unlock(0)];
    Extend(job, s, run, Finish(0));
    run := run + [Finish(0)];
  }

  /** The hooks promise to be called whatever happens. They are, in every run, exactly when the retry
      count is not negative, which `Validate` does not check: otherwise the handler is never called
      and the invocation ends without a word. */
  lemma HooksCompleteIffRetriesNotNegative(job: Job)
    ensures (forall run :: HooksComplete(job, run)) <==> job.retryCount >= 0
  {
    InitialInv(job);
    if job.retryCount >= 0 {
      forall run ensures HooksComplete(job, run) {
        if IsRun(job, INITIAL, run) {
          RunKeeps(job, INITIAL, run);
          var m := After(job, INITIAL, run).invocations;
          forall i | i in m && m[i].at.Done? && m[i].passed ensures m[i].afterHooks == 1 {
            assert Sane(job, m[i]);
          }
        }
      }
    } else {
      var run := PassesWithoutTrying(job);
      assert !HooksComplete(job, run);
    }
  }

  // ---------- What the lock's answer does ----------

  /** The answers that the lock gave to invocation `i` in a run, and those of the before-hooks. */
  function LockAnswers(run: seq<Action>, i: nat): seq<LockAnswer> {
    if run == [] then []
    else
      var last := run[|run| - 1];
      LockAnswers(run[..|run| - 1], i) + if last.TryLock? && last.i == i then [last.answer] else []
  }

  function BeforeAnswers(run: seq<Action>, i: nat): seq<bool> {
    if run == [] then []
    else
      var last := run[|run| - 1];
      BeforeAnswers(run[..|run| - 1], i) + if last.BeforeHooks? && last.i == i then [last.ok] else []
  }

  /** The lock let the invocation through, or the job does not use it. */
  predicate LetThrough(job: Job, locks: seq<LockAnswer>) {
    |locks| == 1 && (job.distributed ==> locks[0] == Acquired)
  }

  /** What the answers so far say about an invocation, wherever it stands. */
  predicate Tells(job: Job, v: Invocation, locks: seq<LockAnswer>, befores: seq<bool>) {
    match v.at
    case AtStart | AtLock => locks == [] && befores == [] && Untouched(v)
    case AtSkip(locked) => !LetThrough(job, locks) && befores == [] && Untouched(v) && (locked <==> locks != [])
    case AtBefore => LetThrough(job, locks) && befores == [] && Untouched(v)
    case AtLoop(_) | InHandler(_) | AtWait(_) | AtErrorHooks | AtAfterHooks =>
      LetThrough(job, locks) && befores == [true] && v.passed && v.skips == 0
    case _ =>
      if LetThrough(job, locks)
      then |befores| == 1 && v.passed == befores[0] && v.skips == 0 && (v.starts > 0 ==> v.passed)
      else befores == [] && !v.passed && v.starts == 0 && v.skips == 1
  }

  ghost predicate AllTold(job: Job, s: State, run: seq<Action>) {
    && (forall i :: i in s.invocations ==> Tells(job, s.invocations[i], LockAnswers(run, i), BeforeAnswers(run, i)))
    && (forall i :: i !in s.invocations ==> LockAnswers(run, i) == [] && BeforeAnswers(run, i) == [])
  }

  lemma ToldMoves(job: Job, s: State, a: Action, locks: seq<LockAnswer>, befores: seq<bool>)
    requires Enabled(s, a) && AllSane(job, s)
    requires if a.i in s.invocations then Tells(job, s.invocations[a.i], locks, befores)
             else locks == [] && befores == []
    ensures Tells(job, Moved(job, s, a), locks + (if a.TryLock? then [a.answer] else []),
                  befores + if a.BeforeHooks? then [a.ok] else [])
  {
    assert a.i in s.invocations ==> Sane(job, s.invocations[a.i]);
  }

  lemma ToldStep(job: Job, s: State, a: Action, run: seq<Action>)
    requires AllTold(job, s, run) && AllSane(job, s) && Enabled(s, a)
    ensures AllTold(job, Next(job, s, a), run + [a])
  {
    var s', r := Next(job, s, a), run + [a];
    assert s'.invocations == s.invocations[a.i := Moved(job, s, a)];
    forall i ensures i in s'.invocations ==> Tells(job, s'.invocations[i], LockAnswers(r, i), BeforeAnswers(r, i))
             ensures i !in s'.invocations ==> LockAnswers(r, i) == [] && BeforeAnswers(r, i) == []
    {
      AnswersGrow(run, a, i);
      if i == a.i {
        ToldMoves(job, s, a, LockAnswers(run, i), BeforeAnswers(run, i));
      }
    }
  }

  lemma AnswersGrow(run: seq<Action>, a: Action, i: nat)
    ensures LockAnswers(run + [a], i) == LockAnswers(run, i) + if a.TryLock? && a.i == i then [a.answer] else []
    ensures BeforeAnswers(run + [a], i) == BeforeAnswers(run, i) + if a.BeforeHooks? && a.i == i then [a.ok] else []
  {
    assert (run + [a])[..|run|] == run;
  }

  lemma {:induction false} RunTells(job: Job, s: State, done: seq<Action>, run: seq<Action>)
    requires AllTold(job, s, done) && Inv(job, s) && IsRun(job, s, run)
    ensures AllTold(job, After(job, s, run), done + run)
    decreases |run|
  {
    if run == [] {
      assert done + run == done;
    } else {
      ToldStep(job, s, run[0], done);
      InvStep(job, s, run[0]);
      RunTells(job, Next(job, s, run[0]), done + [run[0]], run[1..]);
      assert (done + [run[0]]) + run[1..] == done + run;
    }
  }

  /** Attempts only with the lock. One that is over was either let through by the lock, and then it was
      not skipped and went as the before-hooks said; or it was refused, or not even asked, being busy:
      then it was skipped once, and no hook or handler was called. */
  predicate Obeys(job: Job, v: Invocation, locks: seq<LockAnswer>, befores: seq<bool>) {
    && (v.starts > 0 ==> |locks| == 1 && (job.distributed ==> locks[0] == Acquired))
    && (v.at.Done? ==>
          if |locks| == 1 && (job.distributed ==> locks[0] == Acquired)
          then |befores| == 1 && v.skips == 0 && (v.starts > 0 <==> befores[0] && job.retryCount >= 0)
          else befores == [] && v.skips == 1 && v.starts == v.errorHooks == v.afterHooks == 0)
  }

  lemma TellsObeys(job: Job, v: Invocation, locks: seq<LockAnswer>, befores: seq<bool>)
    requires Sane(job, v) && Tells(job, v, locks, befores)
    ensures Obeys(job, v, locks, befores)
  {
  }

  /** So goes every invocation in every run, by the answers that the lock and the before-hooks gave. */
  lemma LockDecides(job: Job, run: seq<Action>, i: nat)
    requires IsRun(job, INITIAL, run) && i in After(job, INITIAL, run).invocations
    ensures Obeys(job, After(job, INITIAL, run).invocations[i], LockAnswers(run, i), BeforeAnswers(run, i))
  {
    InitialInv(job);
    RunKeeps(job, INITIAL, run);
    RunTells(job, INITIAL, [], run);
    assert [] + run == run;
    TellsObeys(job, After(job, INITIAL, run).invocations[i], LockAnswers(run, i), BeforeAnswers(run, i));
  }

  // ---------- The code of one invocation ----------

  /** How everything outside answers invocation `i`, and what other invocations do in between:
      before the step at each point, the listed steps that are possible are taken. */
  datatype World = World(
    lock: LockAnswer, before: bool, handler: int -> bool, others: Point -> seq<Action>)

  /** The number of attempts from `a` on. */
  function Tries(job: Job, handler: int -> bool, a: int): nat
    decreases job.retryCount + 2 - a
  {
    if a > job.retryCount + 1 then 0 else if handler(a) then 1 else 1 + Tries(job, handler, a + 1)
  }

  class CronJob {
    const job: Job
    var state: JobState
    var runCount: nat
    var successCount: nat
    var failCount: nat
    var skipCount: nat
    var invocations: map<nat, Invocation>  // where each goroutine stands
    ghost var history: seq<Action>

    function Now(): State
      reads this
    {
      State(state, runCount, successCount, failCount, skipCount, invocations)
    }

    /** The fields are what the steps taken so far make of the initial state. */
    ghost predicate Valid()
      reads this
    {
      IsRun(job, INITIAL, history) && After(job, INITIAL, history) == Now()
    }

    ghost predicate Ready(a: Action)
      reads this
    {
      Valid() && Enabled(Now(), a)
    }

    twostate predicate Did(a: Action)
      requires Enabled(old(Now()), a)
      reads this
    {
      Valid() && history == old(history) + [a] && Now() == Next(job, old(Now()), a)
    }

    lemma ValidInv()
      requires Valid()
      ensures Inv(job, Now())
    {
      InitialInv(job);
      RunKeeps(job, INITIAL, history);
    }

    constructor (job: Job)
      ensures this.job == job && Valid() && Now() == INITIAL
    {
      this.job := job;
      state, runCount, successCount, failCount, skipCount := Idle, 0, 0, 0, 0;
      invocations, history := map[], [];
    }

    /** Moves the invocation on and writes down its step, whose effect on the shared fields has just
        taken place. */
    method Note(a: Action, before: State)
      requires IsRun(job, INITIAL, history) && After(job, INITIAL, history) == before && Enabled(before, a)
      requires Now() == Next(job, before, a).(invocations := before.invocations)
      modifies this`invocations, this`history
      ensures Valid() && history == old(history) + [a] && Now() == Next(job, before, a)
    {
      Extend(job, INITIAL, history, a);
      invocations, history := Next(job, before, a).invocations, history + [a];
    }

    method TryStart(i: nat) returns (ok: bool)
      requires Ready(Action.TryStart(i))
      modifies this
      ensures Did(Action.TryStart(i)) && ok == !invocations[i].at.AtSkip?
    {
      var before := Now();
      ok := !job.singleton || state == Idle;
      if job.singleton && state == Idle {
        state := Running;
      }
      Note(Action.TryStart(i), before);
    }

    method Finish(i: nat)
      requires Ready(Action.Finish(i))
      modifies this
      ensures Did(Action.Finish(i))
    {
      var before := Now();
      if job.singleton {
        state := Idle;
      }
      Note(Action.Finish(i), before);
    }

    method RecordSkip(i: nat)
      requires Ready(Action.RecordSkip(i))
      modifies this
      ensures Did(Action.RecordSkip(i))
    {
      var before := Now();
      skipCount := skipCount + 1;
      Note(Action.RecordSkip(i), before);
    }

    method RecordStart(i: nat)
      requires Ready(Action.RecordStart(i)) && invocations[i].at.attempt <= job.retryCount + 1
      modifies this
      ensures Did(Action.RecordStart(i))
    {
      var before := Now();
      runCount := runCount + 1;
      Note(Action.RecordStart(i), before);
    }

    method RecordResult(i: nat, ok: bool)
      requires Ready(Action.RecordResult(i, ok))
      modifies this
      ensures Did(Action.RecordResult(i, ok))
    {
      var before := Now();
      if ok {
        successCount := successCount + 1;
      } else {
        failCount := failCount + 1;
      }
      Note(Action.RecordResult(i, ok), before);
    }

    /** Takes one step of whichever invocation the action names. */
    method Perform(a: Action)
      requires Ready(a)
      modifies this
      ensures Did(a)
    {
      match a {
        case TryStart(i) => var _ := TryStart(i);
        case RecordSkip(i) => RecordSkip(i);
        case RecordStart(i) =>
          if invocations[i].at.attempt <= job.retryCount + 1 {
            RecordStart(i);
          } else {
            Note(a, Now());
          }
        case RecordResult(i, ok) => RecordResult(i, ok);
        case Finish(i) => Finish(i);
        case _ => Note(a, Now());
      }
    }

    /** What other invocations do while invocation `i` stands still. */
    method Others(i: nat, steps: seq<Action>)
      requires Valid() && i in invocations
      modifies this
      ensures Valid() && old(history) <= history
      ensures i in invocations && invocations[i] == old(invocations[i])
    {
      for k := 0 to |steps|
        invariant Valid() && old(history) <= history
        invariant i in invocations && invocations[i] == old(invocations[i])
      {
        if steps[k].i != i && Enabled(Now(), steps[k]) {
          Perform(steps[k]);
        }
      }
    }

    /** Invocation `i` from beginning to end. */
    method ExecuteJob(i: nat, w: World)
      requires Ready(Fire(i))
      modifies this
      ensures Valid() && old(history) <= history
      ensures i in invocations && invocations[i].at.Done?
      ensures SkippedOnce(invocations[i]) || Went(w, invocations[i])
      ensures SkippedOnce(invocations[i]) ==> job.singleton || (job.distributed && w.lock != Acquired)
      ensures job.distributed && w.lock != Acquired ==> SkippedOnce(invocations[i])
    {
      Note(Fire(i), Now());
      Others(i, w.others(AtStart));
      var started := TryStart(i);
      if !started {
        Skip(i, w, AtSkip(false));
        return;
      }
      RunStarted(i, w);
    }

    /** After `tryStart`: whichever way it goes, `finish` is called last. */
    method RunStarted(i: nat, w: World)
      requires Valid() && i in invocations && invocations[i] == NEW_INVOCATION.(at := AtLock)
      modifies this
      ensures Valid() && old(history) <= history
      ensures i in invocations && invocations[i].at.Done?
      ensures if job.distributed && w.lock != Acquired then SkippedOnce(invocations[i])
              else Went(w, invocations[i])
    {
      Others(i, w.others(AtLock));
      Note(TryLock(i, w.lock), Now());
      if job.distributed && w.lock != Acquired {
        Skip(i, w, AtSkip(true));
      } else {
        RunLocked(i, w);
        Others(i, w.others(AtUnlock));
        Note(Unlock(i), Now());
      }
      Others(i, w.others(AtFinish));
      Finish(i);
    }

    method Skip(i: nat, w: World, at: Point)
      requires Valid() && i in invocations && invocations[i].at == at && at.AtSkip?
      modifies this
      ensures Valid() && old(history) <= history && i in invocations
      ensures var v := old(invocations[i]);
              invocations[i] == v.(at := if at.finishes then AtFinish else Done, skips := v.skips + 1)
    {
      Others(i, w.others(at));
      RecordSkip(i);
    }

    /** The attempts are those up to the first that succeeds, and no more than allowed. */
    predicate AttemptsDone(w: World, v: Invocation)
    {
      && v.starts == Tries(job, w.handler, 1)
      && (v.oks == 1 <==> exists a :: 1 <= a <= job.retryCount + 1 && w.handler(a))
    }

    predicate SkippedOnce(v: Invocation) { v.skips == 1 && v.starts == 0 && !v.passed }

    /** Not skipped: the before-hooks decide whether there are attempts. */
    predicate Went(w: World, v: Invocation) {
      v.skips == 0 && v.passed == w.before && if w.before then AttemptsDone(w, v) else v.starts == 0
    }

    method RunLocked(i: nat, w: World)
      requires Valid() && i in invocations && invocations[i] == NEW_INVOCATION.(at := AtBefore)
      modifies this
      ensures Valid() && old(history) <= history
      ensures i in invocations && invocations[i].at.AtUnlock?
      ensures Went(w, invocations[i])
    {
      Others(i, w.others(AtBefore));
      Note(BeforeHooks(i, w.before), Now());
      if w.before {
        RunWithRetry(i, w);
      }
    }

    method RunWithRetry(i: nat, w: World)
      requires Valid() && i in invocations && invocations[i] == NEW_INVOCATION.(at := AtLoop(1), passed := true)
      modifies this
      ensures Valid() && old(history) <= history
      ensures i in invocations && invocations[i].at.AtUnlock?
      ensures invocations[i].passed && invocations[i].skips == 0 && AttemptsDone(w, invocations[i])
    {
      var attempt := 1;
      while attempt <= job.retryCount + 1
        invariant Valid() && old(history) <= history
        invariant attempt >= 1 && i in invocations && invocations[i].at == AtLoop(attempt)
        invariant invocations[i].passed && invocations[i].skips == invocations[i].oks == 0
        invariant invocations[i].starts == attempt - 1
        invariant Tries(job, w.handler, 1) == attempt - 1 + Tries(job, w.handler, attempt)
        invariant forall a :: 1 <= a < attempt ==> !w.handler(a)
        decreases job.retryCount + 2 - attempt
      {
        var again := Attempt(i, w, attempt);
        if !again {
          return;
        }
        attempt := attempt + 1;
      }
      Others(i, w.others(AtLoop(attempt)));
      Note(Action.RecordStart(i), Now());
    }

    /** One round of the loop. */
    method Attempt(i: nat, w: World, attempt: int) returns (again: bool)
      requires Valid() && i in invocations && invocations[i].at == AtLoop(attempt) && attempt <= job.retryCount + 1
      modifies this
      ensures Valid() && old(history) <= history
      ensures again <==> !w.handler(attempt) && attempt < job.retryCount + 1
      ensures i in invocations
      ensures var v, v' := old(invocations[i]), invocations[i];
              && v'.at == (if again then AtLoop(attempt + 1) else AtUnlock)
              && v'.passed == v.passed && v'.skips == v.skips && v'.starts == v.starts + 1
              && v'.oks == v.oks + (if w.handler(attempt) then 1 else 0)
    {
      var ok := CallHandler(i, w, attempt);
      again := !ok && attempt < job.retryCount + 1;
      if again {
        CallWait(i, w, attempt);
      } else {
        CallHooks(i, w, !ok);
      }
    }

    /** The start is counted, the handler called, and its answer counted. */
    method CallHandler(i: nat, w: World, attempt: int) returns (ok: bool)
      requires Valid() && i in invocations && invocations[i].at == AtLoop(attempt) && attempt <= job.retryCount + 1
      modifies this
      ensures Valid() && old(history) <= history && ok == w.handler(attempt) && i in invocations
      ensures var v, v' := old(invocations[i]), invocations[i];
              && v'.at == (if ok then AtAfterHooks else if attempt >= job.retryCount + 1 then AtErrorHooks
                           else if job.retryInterval > 0 then AtWait(attempt) else AtLoop(attempt + 1))
              && v'.passed == v.passed && v'.skips == v.skips && v'.starts == v.starts + 1
              && v'.oks == v.oks + (if ok then 1 else 0)
    {
      Others(i, w.others(AtLoop(attempt)));
      RecordStart(i);
      Others(i, w.others(InHandler(attempt)));
      ok := w.handler(attempt);
      RecordResult(i, ok);
    }

    method CallWait(i: nat, w: World, attempt: int)
      requires Valid() && i in invocations
      requires invocations[i].at == if job.retryInterval > 0 then AtWait(attempt) else AtLoop(attempt + 1)
      modifies this
      ensures Valid() && old(history) <= history
      ensures i in invocations && invocations[i] == old(invocations[i]).(at := AtLoop(attempt + 1))
    {
      if job.retryInterval > 0 {
        Others(i, w.others(AtWait(attempt)));
        Note(WaitInterval(i), Now());
      }
    }

    /** Error-hooks after the last failure, and after-hooks. */
    method CallHooks(i: nat, w: World, failed: bool)
      requires Valid() && i in invocations
      requires invocations[i].at == if failed then AtErrorHooks else AtAfterHooks
      modifies this
      ensures Valid() && old(history) <= history
      ensures i in invocations
      ensures var v := old(invocations[i]);
              invocations[i] == v.(at := AtUnlock, afterHooks := v.afterHooks + 1,
                                   errorHooks := v.errorHooks + if failed then 1 else 0)
    {
      if failed {
        Others(i, w.others(AtErrorHooks));
        Note(ErrorHooks(i), Now());
      }
      Others(i, w.others(AtAfterHooks));
      Note(AfterHooks(i), Now());
    }
  }
}
