/** The thread pool as a protocol of atomic steps: any number of threads append, any number of
    workers run, in every interleaving (threadpool.h, 64-105; the mutex and semaphore of
    locker.h are the fields `owner` and `sem`). */
module ThreadPool {

  type Job = nat

  /** Where a thread stands inside `append`. */
  datatype Appender =
    | Outside
    | WantsLock(job: Job)
    | Locked(job: Job)        // holds the mutex, about to test the size
    | Refused(job: Job)       // holds the mutex, will return false
    | Pushed(job: Job)        // holds the mutex, has pushed
    | Unposted(job: Job)      // has released the mutex, has not posted yet

  /** Where a worker stands inside `run`. */
  datatype Worker =
    | Waiting
    | Awake                   // returned from wait, wants the mutex
    | Looking                 // holds the mutex, about to test for an empty queue
    | FoundNone               // holds the mutex, queue was empty
    | Holds(job: Job)         // holds the mutex, has popped
    | Processing(job: Job)

  datatype Owner = Nobody | ByAppender(a: nat) | ByWorker(w: nat)

  /** `accepted` and `taken` record the jobs pushed and popped so far, `failedWaits` the waits
      that returned without a wakeup; `called` the jobs `append` was called with, `confirmed` and
      `refused` those for which it returned true and false, `processed` those a worker is done with. */
  datatype Pool = Pool(max: nat, queue: seq<Job>, sem: nat, owner: Owner,
                       appenders: seq<Appender>, workers: seq<Worker>,
                       accepted: seq<Job>, taken: seq<Job>, failedWaits: nat,
                       called: multiset<Job>, confirmed: multiset<Job>, refused: multiset<Job>,
                       processed: multiset<Job>)

  datatype Step =
    | Call(a: nat, job: Job) | LockA(a: nat) | Refuse(a: nat) | Push(a: nat) | UnlockA(a: nat) | Post(a: nat)
    | Wait(w: nat) | FailedWait(w: nat) | LockW(w: nat) | FindNone(w: nat) | Pop(w: nat) | UnlockW(w: nat)
    | Finish(w: nat)

  predicate Enabled(p: Pool, t: Step) {
    match t
    case Call(a, _) => a < |p.appenders| && p.appenders[a].Outside?
    case LockA(a) => a < |p.appenders| && p.appenders[a].WantsLock? && p.owner.Nobody?
    case Refuse(a) => a < |p.appenders| && p.appenders[a].Locked? && |p.queue| > p.max
    case Push(a) => a < |p.appenders| && p.appenders[a].Locked? && |p.queue| <= p.max
    case UnlockA(a) => a < |p.appenders| && (p.appenders[a].Refused? || p.appenders[a].Pushed?)
    case Post(a) => a < |p.appenders| && p.appenders[a].Unposted?
    case Wait(w) => w < |p.workers| && p.workers[w].Waiting? && p.sem > 0
    case FailedWait(w) => w < |p.workers| && p.workers[w].Waiting?
    case LockW(w) => w < |p.workers| && p.workers[w].Awake? && p.owner.Nobody?
    case FindNone(w) => w < |p.workers| && p.workers[w].Looking? && p.queue == []
    case Pop(w) => w < |p.workers| && p.workers[w].Looking? && p.queue != []
    case UnlockW(w) => w < |p.workers| && (p.workers[w].FoundNone? || p.workers[w].Holds?)
    case Finish(w) => w < |p.workers| && p.workers[w].Processing?
  }

  function Apply(p: Pool, t: Step): Pool
    requires Enabled(p, t)
  {
    match t
    case Call(a, job) => p.(appenders := p.appenders[a := WantsLock(job)], called := p.called + multiset{job})
    case LockA(a) => p.(appenders := p.appenders[a := Locked(p.appenders[a].job)], owner := ByAppender(a))
    case Refuse(a) => p.(appenders := p.appenders[a := Refused(p.appenders[a].job)])
    case Push(a) =>
      var job := p.appenders[a].job;
      p.(appenders := p.appenders[a := Pushed(job)], queue := p.queue + [job], accepted := p.accepted + [job])
    case UnlockA(a) =>
      var job := p.appenders[a].job;
      if p.appenders[a].Pushed? then p.(appenders := p.appenders[a := Unposted(job)], owner := Nobody)
      else p.(appenders := p.appenders[a := Outside], owner := Nobody, refused := p.refused + multiset{job})
    case Post(a) =>
      var job := p.appenders[a].job;
      p.(appenders := p.appenders[a := Outside], sem := p.sem + 1, confirmed := p.confirmed + multiset{job})
    case Wait(w) => p.(workers := p.workers[w := Awake], sem := p.sem - 1)
    case FailedWait(w) => p.(workers := p.workers[w := Awake], failedWaits := p.failedWaits + 1)
    case LockW(w) => p.(workers := p.workers[w := Looking], owner := ByWorker(w))
    case FindNone(w) => p.(workers := p.workers[w := FoundNone])
    case Pop(w) =>
      var job := p.queue[0];
      p.(workers := p.workers[w := Holds(job)], queue := p.queue[1..], taken := p.taken + [job])
    case UnlockW(w) =>
      var next := if p.workers[w].Holds? then Processing(p.workers[w].job) else Waiting;
      p.(workers := p.workers[w := next], owner := Nobody)
    case Finish(w) =>
      p.(workers := p.workers[w := Waiting], processed := p.processed + multiset{p.workers[w].job})
  }

  /** Every step of the run is enabled when its turn comes. */
  predicate Feasible(p: Pool, run: seq<Step>)
    decreases |run|
  {
    run == [] || (Enabled(p, run[0]) && Feasible(Apply(p, run[0]), run[1..]))
  }

  function After(p: Pool, run: seq<Step>): Pool
    requires Feasible(p, run)
    decreases |run|
  {
    if run == [] then p else After(Apply(p, run[0]), run[1..])
  }

  function Init(max: nat, appenders: nat, workers: nat): Pool {
    Pool(max, [], 0, Nobody, seq(appenders, _ => Outside), seq(workers, _ => Waiting), [], [], 0,
         multiset{}, multiset{}, multiset{}, multiset{})
  }

  // ---------------------------------------------------------------- counting threads

  function Sum<T>(s: seq<T>, f: T -> nat): nat {
    if s == [] then 0 else Sum(s[..|s| - 1], f) + f(s[|s| - 1])
  }

  lemma {:induction false} SumUpdate<T>(s: seq<T>, i: nat, x: T, f: T -> nat)
    requires i < |s|
    ensures Sum(s[i := x], f) + f(s[i]) == Sum(s, f) + f(x)
  {
    var n := |s| - 1;
    if i == n {
      assert s[i := x][..n] == s[..n];
    } else {
      assert s[i := x][..n] == s[..n][i := x];
      SumUpdate(s[..n], i, x, f);
    }
  }

  lemma {:induction false} SumPart<T>(s: seq<T>, i: nat, f: T -> nat)
    requires i < |s|
    ensures f(s[i]) <= Sum(s, f)
  {
    if i < |s| - 1 { SumPart(s[..|s| - 1], i, f); }
  }

  lemma {:induction false} SumZero<T>(s: seq<T>, f: T -> nat)
    requires forall i :: 0 <= i < |s| ==> f(s[i]) == 0
    ensures Sum(s, f) == 0
  {
    if s != [] { SumZero(s[..|s| - 1], f); }
  }

  /** Appenders that pushed a job and still owe its post. */
  const OWES := (x: Appender) => if x.Pushed? || x.Unposted? then 1 else 0

  /** Workers that hold a wakeup they have not spent on a look at the queue. */
  const ARMED := (x: Worker) => if x.Awake? || x.Looking? then 1 else 0

  function Owing(p: Pool): nat { Sum(p.appenders, OWES) }

  function Armed(p: Pool): nat { Sum(p.workers, ARMED) }

  // ---------------------------------------------------------------- jobs in the threads' hands

  /** Calls of `append` with `job` that have not returned. */
  function InCall(job: Job): Appender -> nat { (x: Appender) => if !x.Outside? && x.job == job then 1 else 0 }

  /** Such calls that have pushed the job. */
  function Admitted(job: Job): Appender -> nat {
    (x: Appender) => if (x.Pushed? || x.Unposted?) && x.job == job then 1 else 0
  }

  /** Workers that have popped `job` and are not done with it. */
  function InHand(job: Job): Worker -> nat {
    (x: Worker) => if (x.Holds? || x.Processing?) && x.job == job then 1 else 0
  }

  // ---------------------------------------------------------------- the invariant

  predicate AppenderInside(x: Appender) { x.Locked? || x.Refused? || x.Pushed? }

  predicate WorkerInside(x: Worker) { x.Looking? || x.FoundNone? || x.Holds? }

  /** The mutex is held exactly by the one thread inside a critical section. */
  predicate MutualExclusion(p: Pool) {
    && (forall a :: 0 <= a < |p.appenders| ==> (AppenderInside(p.appenders[a]) <==> p.owner == ByAppender(a)))
    && (forall w :: 0 <= w < |p.workers| ==> (WorkerInside(p.workers[w]) <==> p.owner == ByWorker(w)))
    && (p.owner.ByAppender? ==> p.owner.a < |p.appenders|)
    && (p.owner.ByWorker? ==> p.owner.w < |p.workers|)
  }

  /** Jobs leave in the order they were accepted, none lost and none twice. */
  predicate Fifo(p: Pool) { p.accepted == p.taken + p.queue }

  predicate Bounded(p: Pool) { |p.queue| <= p.max + 1 }

  /** Every queued job is covered by a wakeup that is available, owed or held. */
  predicate Covered(p: Pool) {
    && |p.queue| <= p.sem + Owing(p) + Armed(p)
    && (p.failedWaits == 0 ==> |p.queue| == p.sem + Owing(p) + Armed(p))
  }

  /** Every call of `append` is still inside or was answered true or false. */
  predicate CallsAnswered(p: Pool, job: Job) {
    p.called[job] == Sum(p.appenders, InCall(job)) + p.confirmed[job] + p.refused[job]
  }

  /** A job is accepted exactly as often as a call with it has returned true or is about to. */
  predicate TrueMeansAccepted(p: Pool, job: Job) {
    multiset(p.accepted)[job] == Sum(p.appenders, Admitted(job)) + p.confirmed[job]
  }

  /** Every job taken is in a worker's hands or processed. */
  predicate TakenIsProcessed(p: Pool, job: Job) {
    multiset(p.taken)[job] == Sum(p.workers, InHand(job)) + p.processed[job]
  }

  ghost predicate Accounted(p: Pool) {
    forall job :: CallsAnswered(p, job) && TrueMeansAccepted(p, job) && TakenIsProcessed(p, job)
  }

  ghost predicate Inv(p: Pool) { MutualExclusion(p) && Fifo(p) && Bounded(p) && Covered(p) && Accounted(p) }

  lemma InitInv(max: nat, appenders: nat, workers: nat)
    ensures Inv(Init(max, appenders, workers))
  {
    var p := Init(max, appenders, workers);
    SumZero(p.appenders, OWES);
    SumZero(p.workers, ARMED);
    forall job ensures CallsAnswered(p, job) && TrueMeansAccepted(p, job) && TakenIsProcessed(p, job) {
      SumZero(p.appenders, InCall(job));
      SumZero(p.appenders, Admitted(job));
      SumZero(p.workers, InHand(job));
    }
  }

  lemma StepMutex(p: Pool, t: Step)
    requires MutualExclusion(p) && Enabled(p, t)
    ensures MutualExclusion(Apply(p, t))
  {
    var q := Apply(p, t);
    if Appends(t) {
      assert q.workers == p.workers;
    } else {
      assert q.appenders == p.appenders;
    }
  }

  lemma StepCovered(p: Pool, t: Step)
    requires Covered(p) && Enabled(p, t)
    ensures Covered(Apply(p, t))
  {
    hide Sum;
    var q := Apply(p, t);
    if Appends(t) {
      SumUpdate(p.appenders, t.a, q.appenders[t.a], OWES);
    } else {
      SumUpdate(p.workers, t.w, q.workers[t.w], ARMED);
      SumPart(p.workers, t.w, ARMED);
    }
  }

  predicate Appends(t: Step) { t.Call? || t.LockA? || t.Refuse? || t.Push? || t.UnlockA? || t.Post? }

  lemma OneMore(s: seq<Job>, x: Job, job: Job)
    ensures multiset(s + [x])[job] == multiset(s)[job] + if x == job then 1 else 0
  {
  }

  lemma StepCalls(p: Pool, t: Step, job: Job)
    requires CallsAnswered(p, job) && Enabled(p, t)
    ensures CallsAnswered(Apply(p, t), job)
  {
    hide Sum;
    if Appends(t) { SumUpdate(p.appenders, t.a, Apply(p, t).appenders[t.a], InCall(job)); }
  }

  lemma StepAccepts(p: Pool, t: Step, job: Job)
    requires TrueMeansAccepted(p, job) && Enabled(p, t)
    ensures TrueMeansAccepted(Apply(p, t), job)
  {
    hide Sum;
    if Appends(t) { SumUpdate(p.appenders, t.a, Apply(p, t).appenders[t.a], Admitted(job)); }
    if t.Push? { OneMore(p.accepted, p.appenders[t.a].job, job); }
  }

  lemma StepTakes(p: Pool, t: Step, job: Job)
    requires TakenIsProcessed(p, job) && Enabled(p, t)
    ensures TakenIsProcessed(Apply(p, t), job)
  {
    hide Sum;
    if !Appends(t) { SumUpdate(p.workers, t.w, Apply(p, t).workers[t.w], InHand(job)); }
    if t.Pop? { OneMore(p.taken, p.queue[0], job); }
  }

  lemma StepAccounted(p: Pool, t: Step)
    requires Accounted(p) && Enabled(p, t)
    ensures Accounted(Apply(p, t))
  {
    hide CallsAnswered, TrueMeansAccepted, TakenIsProcessed, Apply, Enabled;
    var q := Apply(p, t);
    forall job ensures CallsAnswered(q, job) && TrueMeansAccepted(q, job) && TakenIsProcessed(q, job) {
      assert CallsAnswered(p, job);
      StepCalls(p, t, job);
      StepAccepts(p, t, job);
      StepTakes(p, t, job);
    }
  }

  lemma StepInv(p: Pool, t: Step)
    requires Inv(p) && Enabled(p, t)
    ensures Inv(Apply(p, t))
  {
    hide MutualExclusion, Covered, Accounted;
    StepMutex(p, t);
    StepCovered(p, t);
    StepAccounted(p, t);
    if t.Push? {
      var job := p.appenders[t.a].job;
      assert p.taken + p.queue + [job] == p.taken + (p.queue + [job]);
    } else if t.Pop? {
      assert p.taken + p.queue == p.taken + [p.queue[0]] + p.queue[1..];
    }
  }

  lemma {:induction false} RunInv(p: Pool, run: seq<Step>)
    requires Inv(p) && Feasible(p, run)
    ensures Inv(After(p, run))
    decreases |run|
  {
    hide Inv, Apply, Enabled;
    if run != [] {
      StepInv(p, run[0]);
      RunInv(Apply(p, run[0]), run[1..]);
    }
  }

  /** In every interleaving: the mutex excludes, jobs come out in the order they were accepted,
      the queue never exceeds its limit by more than one, and every queued job is covered. */
  lemma {:induction false} PoolIsSafe(max: nat, appenders: nat, workers: nat, run: seq<Step>)
    requires Feasible(Init(max, appenders, workers), run)
    ensures Inv(After(Init(max, appenders, workers), run))
  {
    InitInv(max, appenders, workers);
    RunInv(Init(max, appenders, workers), run);
  }

  /** As long as no wait has failed, no worker ever finds the queue empty. */
  lemma EmptyBranchUnreachable(p: Pool, w: nat)
    requires Inv(p) && p.failedWaits == 0
    ensures !Enabled(p, FindNone(w))
  {
    if Enabled(p, FindNone(w)) { SumPart(p.workers, w, ARMED); }
  }

  /** A worker that pops gets the oldest job accepted and not yet taken, and that job is what it
      processes. */
  lemma WorkerGetsOldest(p: Pool, w: nat)
    requires Inv(p) && Enabled(p, Pop(w))
    ensures |p.taken| < |p.accepted|
    ensures var q := Apply(p, Pop(w));
            && q.workers[w] == Holds(p.accepted[|p.taken|])
            && Apply(q, UnlockW(w)).workers[w] == Processing(p.accepted[|p.taken|])
  {
    hide MutualExclusion, Covered, Accounted;
  }

  /** A job stays with its caller from the call to the return and with its worker from the pop to
      the end of its processing, whatever the other threads do. */
  lemma JobStaysWithThread(p: Pool, t: Step)
    requires Enabled(p, t)
    ensures var q := Apply(p, t);
            && |q.appenders| == |p.appenders| && |q.workers| == |p.workers|
            && (forall a :: 0 <= a < |p.appenders| && !p.appenders[a].Outside? && !q.appenders[a].Outside? ==>
                  q.appenders[a].job == p.appenders[a].job)
            && (forall w :: 0 <= w < |p.workers| && p.workers[w].Holds? ==>
                  q.workers[w] in {p.workers[w], Processing(p.workers[w].job)})
            && (forall w :: 0 <= w < |p.workers| && p.workers[w].Processing? ==>
                  q.workers[w] in {p.workers[w], Waiting})
            && (t.Call? ==> q.appenders[t.a] == WantsLock(t.job))
            && (t.Push? ==> q.accepted == p.accepted + [p.appenders[t.a].job])
            && (!t.Push? ==> q.accepted == p.accepted)
  {
  }

  /** The size test under the mutex decides alone: a job is refused exactly when the queue already
      holds one more than the maximum, and a worker finds none exactly when it is empty. */
  lemma TestsDecide(p: Pool)
    requires Inv(p)
    ensures forall a :: 0 <= a < |p.appenders| && p.appenders[a].Locked? ==>
              (Enabled(p, Refuse(a)) <==> |p.queue| == p.max + 1) && (Enabled(p, Push(a)) <==> |p.queue| <= p.max)
    ensures forall w :: 0 <= w < |p.workers| && p.workers[w].Looking? ==>
              (Enabled(p, FindNone(w)) <==> p.queue == []) && (Enabled(p, Pop(w)) <==> p.queue != [])
  {
    hide MutualExclusion, Covered, Accounted;
  }

  // ---------------------------------------------------------------- nothing is stranded

  /** Steps by which the pool finishes what it has accepted: no new append gets in, no wait fails. */
  predicate Internal(t: Step) { !t.Call? && !t.LockA? && !t.FailedWait? }

  const APPENDER_COST := (x: Appender) =>
    match x case Locked(_) => 9 case Refused(_) => 1 case Pushed(_) => 8 case Unposted(_) => 7 case _ => 0

  const WORKER_COST := (x: Worker) =>
    match x case Awake => 5 case Looking => 4 case Holds(_) => 2 case FoundNone => 1 case Processing(_) => 1 case _ => 0

  /** Bounds the number of internal steps still possible. */
  function Work(p: Pool): nat { 6 * p.sem + Sum(p.appenders, APPENDER_COST) + Sum(p.workers, WORKER_COST) }

  lemma InternalStepsShrinkWork(p: Pool, t: Step)
    requires Enabled(p, t) && Internal(t)
    ensures Work(Apply(p, t)) < Work(p)
  {
    hide Sum;
    var q := Apply(p, t);
    if Appends(t) {
      SumUpdate(p.appenders, t.a, q.appenders[t.a], APPENDER_COST);
    } else {
      SumUpdate(p.workers, t.w, q.workers[t.w], WORKER_COST);
    }
  }

  /** As long as a job is queued and there is a worker, some internal step is possible. */
  lemma SomebodyCanStep(p: Pool) returns (t: Step)
    requires Inv(p) && p.workers != [] && p.queue != []
    ensures Internal(t) && Enabled(p, t)
  {
    hide Sum, Accounted;
    if p.owner.ByAppender? {
      var a := p.owner.a;
      t := if !p.appenders[a].Locked? then UnlockA(a) else if |p.queue| > p.max then Refuse(a) else Push(a);
    } else if p.owner.ByWorker? {
      var w := p.owner.w;
      t := if p.workers[w].Looking? then Pop(w) else UnlockW(w);
    } else if a :| 0 <= a < |p.appenders| && p.appenders[a].Unposted? {
      t := Post(a);
    } else if w :| 0 <= w < |p.workers| && p.workers[w].Awake? {
      t := LockW(w);
    } else if p.workers[0].Processing? {
      t := Finish(0);
    } else {
      SumZero(p.appenders, OWES);
      SumZero(p.workers, ARMED);
      t := Wait(0);
    }
  }

  ghost predicate Quiet(p: Pool) { forall t :: Internal(t) ==> !Enabled(p, t) }

  /** Where no internal step is left, the accepted jobs are exactly the processed ones and exactly
      the ones confirmed to their callers. */
  lemma QuietIsDone(p: Pool)
    requires Inv(p) && p.workers != [] && Quiet(p)
    ensures p.taken == p.accepted && p.processed == multiset(p.accepted) == p.confirmed
  {
    hide Sum, MutualExclusion, Covered;
    if p.queue != [] {
      var t := SomebodyCanStep(p);
    }
    assert p.taken + [] == p.taken;
    forall job ensures p.processed[job] == multiset(p.accepted)[job] == p.confirmed[job] {
      assert CallsAnswered(p, job);
      NothingInHand(p, job);
    }
  }

  lemma NothingInHand(p: Pool, job: Job)
    requires Quiet(p)
    ensures Sum(p.workers, InHand(job)) == 0 && Sum(p.appenders, Admitted(job)) == 0
  {
    forall i | 0 <= i < |p.workers| ensures InHand(job)(p.workers[i]) == 0 {
      assert Internal(UnlockW(i)) && Internal(Finish(i));
    }
    SumZero(p.workers, InHand(job));
    forall i | 0 <= i < |p.appenders| ensures Admitted(job)(p.appenders[i]) == 0 {
      assert Internal(UnlockA(i)) && Internal(Post(i));
    }
    SumZero(p.appenders, Admitted(job));
  }

  /** Wherever an interleaving stands, every way of continuing it by internal steps is over within
      `Work` steps, and once none is left every accepted job has been taken in order, processed
      exactly as often as it was accepted, and confirmed to its caller. */
  lemma {:induction false} NoJobStranded(p: Pool, run: seq<Step>)
    requires Inv(p) && p.workers != [] && Feasible(p, run) && forall i :: 0 <= i < |run| ==> Internal(run[i])
    ensures |run| <= Work(p)
    ensures var q := After(p, run);
            Quiet(q) ==> q.taken == q.accepted && q.processed == multiset(q.accepted) == q.confirmed
    decreases |run|
  {
    hide Inv, Apply, Enabled, Work, Quiet;
    if run == [] {
      if Quiet(p) { QuietIsDone(p); }
    } else {
      assert Internal(run[0]);
      InternalStepsShrinkWork(p, run[0]);
      StepInv(p, run[0]);
      WorkersStay(p, run[0]);
      NoJobStranded(Apply(p, run[0]), run[1..]);
    }
  }

  lemma WorkersStay(p: Pool, t: Step)
    requires Enabled(p, t)
    ensures |Apply(p, t).workers| == |p.workers|
  {
  }

  lemma {:induction false} Prepend(p: Pool, t: Step, run: seq<Step>)
    requires Enabled(p, t) && Feasible(Apply(p, t), run)
    ensures Feasible(p, [t] + run) && After(p, [t] + run) == After(Apply(p, t), run)
  {
    hide Enabled, Apply;
    assert ([t] + run)[1..] == run && ([t] + run)[0] == t;
  }

  /** One idle thread can append `n` jobs in a row as long as the size test lets them in. */
  lemma {:induction false} Fill(p: Pool, n: nat) returns (run: seq<Step>)
    requires p.owner.Nobody? && p.appenders != [] && p.appenders[0].Outside? && |p.queue| + n <= p.max + 1
    ensures Feasible(p, run) && |After(p, run).queue| == |p.queue| + n
    decreases n
  {
    run := [];
    if n > 0 {
      var p1 := Apply(p, Call(0, 7));
      var p2 := Apply(p1, LockA(0));
      var p3 := Apply(p2, Push(0));
      var p4 := Apply(p3, UnlockA(0));
      var p5 := Apply(p4, Post(0));
      run := Fill(p5, n - 1);
      Prepend(p4, Post(0), run);
      run := [Post(0)] + run;
      Prepend(p3, UnlockA(0), run);
      run := [UnlockA(0)] + run;
      Prepend(p2, Push(0), run);
      run := [Push(0)] + run;
      Prepend(p1, LockA(0), run);
      run := [LockA(0)] + run;
      Prepend(p, Call(0, 7), run);
      run := [Call(0, 7)] + run;
    }
  }

  /** The size test compares with `>`, so with an appender the bound `max + 1` is reached whatever
      the maximum and however many workers there are. */
  lemma BoundIsReached(max: nat, appenders: nat, workers: nat) returns (run: seq<Step>)
    requires appenders > 0
    ensures Feasible(Init(max, appenders, workers), run) && |After(Init(max, appenders, workers), run).queue| == max + 1
  {
    run := Fill(Init(max, appenders, workers), max + 1);
  }

  lemma {:induction false} NobodyAppends(p: Pool, run: seq<Step>)
    requires p.appenders == [] && p.queue == [] && Feasible(p, run)
    ensures After(p, run).queue == []
    decreases |run|
  {
    if run != [] { NobodyAppends(Apply(p, run[0]), run[1..]); }
  }

  ghost predicate KeepsMaximum(p: Pool) {
    forall run :: Feasible(p, run) ==> |After(p, run).queue| <= p.max
  }

  /** The configured maximum holds in every interleaving if and only if nobody appends. */
  lemma MaximumHoldsIff(max: nat, appenders: nat, workers: nat)
    ensures KeepsMaximum(Init(max, appenders, workers)) <==> appenders == 0
  {
    var p := Init(max, appenders, workers);
    if appenders == 0 {
      forall run | Feasible(p, run) ensures |After(p, run).queue| <= p.max { NobodyAppends(p, run); }
    } else {
      var run := BoundIsReached(max, appenders, workers);
    }
  }
}
