/**
 * Background workers (redis-stable/src/bio.c:59-67, 181-189, 257-391, 416-445) as a state machine over the atomic
 * steps of three worker threads and the main thread: mutexes, one condition variable per worker shared with
 * `bioDrainWorker`, spurious wake-ups, a bounded non-blocking pipe.
 */
module Bio {

  // ---------------------------------------------------------------- jobs and state

  datatype Kind = CloseFile | AofFsync | CloseAof | LazyFree | CompCloseFile | CompAofFsync | CompLazyFree

  const WORKERS: nat := 3
  const READ_SIZE: nat := 128

  /** `bio_job_to_worker`. */
  function WorkerOf(k: Kind): nat {
    match k
    case CloseFile => 0
    case CompCloseFile => 0
    case AofFsync => 1
    case CloseAof => 1
    case CompAofFsync => 1
    case LazyFree => 2
    case CompLazyFree => 2
  }

  predicate IsComp(k: Kind) {
    k.CompCloseFile? || k.CompAofFsync? || k.CompLazyFree?
  }

  /** `tag` stands for the arguments: a descriptor, or a callback with its data. */
  datatype Job = Job(kind: Kind, tag: nat)

  /** Where a worker is; it holds its mutex exactly at `Head`. */
  datatype Pc =
    | Locking
    | Head
    | Waiting
    | Fetched(job: Job)
    | Appended(job: Job)
    | Processed(job: Job)

  /** A job list with the history of what was put in and what was done. */
  datatype Worker = Worker(queue: seq<Job>, pc: Pc, submitted: seq<Job>, finished: seq<Job>)

  datatype Reader = Idle | Reading | Swapping | Calling(rest: seq<Job>)

  /** `upto` is how many jobs the worker had been given when the drain began. */
  datatype Drain = NoDrain | Checking(worker: nat, upto: nat) | Asleep(worker: nat, upto: nat)

  datatype State = State(
    workers: seq<Worker>,
    counters: Kind -> int,
    comp: seq<Job>,
    pipe: nat,
    capacity: nat,
    called: seq<Job>,
    reader: Reader,
    drain: Drain)

  // ---------------------------------------------------------------- steps

  datatype Step =
    | Submit(job: Job, wakeMain: bool)
    | Lock(w: nat)
    | Sleep(w: nat)
    | Fetch(w: nat)
    | Execute(w: nat)
    | Append(w: nat)
    | Notify(w: nat)
    | Finish(w: nat, wakeMain: bool)
    | WakeWorker(w: nat)
    | WakeMain
    | PipeEvent
    | ReadPipe
    | Swap
    | Callback
    | Return
    | DrainStart(kind: Kind)
    | DrainSleep
    | DrainReturn

  predicate Shaped(s: State) {
    |s.workers| == WORKERS && (s.drain.NoDrain? || s.drain.worker < WORKERS)
  }

  predicate Enabled(s: State, step: Step)
    requires Shaped(s)
  {
    match step
    case Submit(job, _) => s.drain.NoDrain? && !s.workers[WorkerOf(job.kind)].pc.Head?
    case Lock(w) => w < WORKERS && s.workers[w].pc.Locking?
    case Sleep(w) => w < WORKERS && s.workers[w].pc.Head? && s.workers[w].queue == []
    case Fetch(w) => w < WORKERS && s.workers[w].pc.Head? && s.workers[w].queue != []
    case Execute(w) => w < WORKERS && s.workers[w].pc.Fetched? && !IsComp(s.workers[w].pc.job.kind)
    case Append(w) => w < WORKERS && s.workers[w].pc.Fetched? && IsComp(s.workers[w].pc.job.kind)
    case Notify(w) => w < WORKERS && s.workers[w].pc.Appended?
    case Finish(w, _) => w < WORKERS && s.workers[w].pc.Processed?
    case WakeWorker(w) => w < WORKERS && s.workers[w].pc.Waiting?
    case WakeMain => s.drain.Asleep?
    case PipeEvent => s.drain.NoDrain? && s.reader.Idle? && s.pipe > 0
    case ReadPipe => s.drain.NoDrain? && s.reader.Reading?
    case Swap => s.drain.NoDrain? && s.reader.Swapping?
    case Callback => s.drain.NoDrain? && s.reader.Calling? && s.reader.rest != []
    case Return => s.drain.NoDrain? && s.reader.Calling? && s.reader.rest == []
    case DrainStart(_) => s.drain.NoDrain?
    case DrainSleep => s.drain.Checking? && !s.workers[s.drain.worker].pc.Head? && s.workers[s.drain.worker].queue != []
    case DrainReturn => s.drain.Checking? && !s.workers[s.drain.worker].pc.Head? && s.workers[s.drain.worker].queue == []
  }

  function Added(counters: Kind -> int, kind: Kind, d: int): Kind -> int {
    k => if k == kind then counters(k) + d else counters(k)
  }

  function SetPc(s: State, w: nat, pc: Pc): State
    requires w < |s.workers|
  {
    s.(workers := s.workers[w := s.workers[w].(pc := pc)])
  }

  /** `pthread_cond_signal`: wakes one of the threads waiting on the worker's condition, if there is any. */
  function Signal(s: State, w: nat, wakeMain: bool): State
    requires w < |s.workers|
  {
    var main := s.drain.Asleep? && s.drain.worker == w;
    if s.workers[w].pc.Waiting? && !(wakeMain && main) then SetPc(s, w, Locking)
    else if main then s.(drain := Checking(w, s.drain.upto))
    else s
  }

  /** Taking the finished job off the list; the worker keeps the mutex and goes on at the head of its loop. */
  function Finished(s: State, w: nat): State
    requires Shaped(s) && w < WORKERS && s.workers[w].pc.Processed?
  {
    var x := s.workers[w];
    var queue := if x.queue == [] then [] else x.queue[1..];
    s.(workers := s.workers[w := Worker(queue, Head, x.submitted, x.finished + [x.pc.job])],
       counters := Added(s.counters, x.pc.job.kind, -1))
  }

  function Submitted(s: State, job: Job): State
    requires Shaped(s)
  {
    var w := WorkerOf(job.kind);
    var x := s.workers[w];
    s.(workers := s.workers[w := x.(queue := x.queue + [job], submitted := x.submitted + [job])],
       counters := Added(s.counters, job.kind, 1))
  }

  function Next(s: State, step: Step): State
    requires Shaped(s) && Enabled(s, step)
  {
    match step
    case Submit(job, wakeMain) => Signal(Submitted(s, job), WorkerOf(job.kind), wakeMain)
    case Lock(w) => SetPc(s, w, Head)
    case Sleep(w) => SetPc(s, w, Waiting)
    case Fetch(w) => SetPc(s, w, Fetched(s.workers[w].queue[0]))
    case Execute(w) => SetPc(s, w, Processed(s.workers[w].pc.job))
    case Append(w) => SetPc(s, w, Appended(s.workers[w].pc.job)).(comp := s.comp + [s.workers[w].pc.job])
    case Notify(w) =>
      SetPc(s, w, Processed(s.workers[w].pc.job)).(pipe := if s.pipe < s.capacity then s.pipe + 1 else s.pipe)
    case Finish(w, wakeMain) => Signal(Finished(s, w), w, wakeMain)
    case WakeWorker(w) => SetPc(s, w, Locking)
    case WakeMain => s.(drain := Checking(s.drain.worker, s.drain.upto))
    case PipeEvent => s.(reader := Reading)
    case ReadPipe => if s.pipe >= READ_SIZE then s.(pipe := s.pipe - READ_SIZE) else s.(pipe := 0, reader := Swapping)
    case Swap => s.(reader := Calling(s.comp), comp := [])
    case Callback => s.(called := s.called + [s.reader.rest[0]], reader := Calling(s.reader.rest[1..]))
    case Return => s.(reader := Idle)
    case DrainStart(kind) => s.(drain := Checking(WorkerOf(kind), |s.workers[WorkerOf(kind)].submitted|))
    case DrainSleep => s.(drain := Asleep(s.drain.worker, s.drain.upto))
    case DrainReturn => s.(drain := NoDrain)
  }

  ghost predicate Init(s: State) {
    && Shaped(s) && s.capacity > 0 && s.pipe == 0 && s.comp == [] && s.called == [] && s.reader == Idle && s.drain == NoDrain
    && (forall w | 0 <= w < WORKERS :: s.workers[w] == Worker([], Locking, [], []))
    && forall k: Kind :: s.counters(k) == 0
  }

  /** A run: from an initial state, each state follows from the one before by an enabled step. */
  ghost predicate Run(run: seq<State>) {
    run != [] && Init(run[0]) && forall i | 0 <= i < |run| - 1 :: Linked(run, i)
  }

  ghost predicate Linked(run: seq<State>, i: nat)
    requires i < |run| - 1
  {
    Shaped(run[i]) && Follows(run[i], run[i + 1])
  }

  ghost predicate Follows(s: State, t: State)
    requires Shaped(s)
  {
    exists step: Step :: Enabled(s, step) && t == Next(s, step)
  }

  // ---------------------------------------------------------------- what every state keeps

  function Count(q: seq<Job>, k: Kind): nat {
    if q == [] then 0 else Count(q[..|q| - 1], k) + (if q[|q| - 1].kind == k then 1 else 0)
  }

  /** The completion requests in a list of jobs. */
  function Comps(js: seq<Job>): seq<Job> {
    if js == [] then []
    else
      var j := js[|js| - 1];
      if IsComp(j.kind) then Comps(js[..|js| - 1]) + [j] else Comps(js[..|js| - 1])
  }

  /** The items that came from one worker. */
  function Of(w: nat, js: seq<Job>): seq<Job> {
    if js == [] then []
    else
      var j := js[|js| - 1];
      if WorkerOf(j.kind) == w then Of(w, js[..|js| - 1]) + [j] else Of(w, js[..|js| - 1])
  }

  /** Jobs whose effect has happened: the finished ones and the one at hand after its effect. */
  function Effective(x: Worker): seq<Job> {
    if x.pc.Appended? || x.pc.Processed? then x.finished + [x.pc.job] else x.finished
  }

  /** Completion items in the order they were appended: called, being called, waiting. */
  function Items(s: State): seq<Job> {
    s.called + (if s.reader.Calling? then s.reader.rest else []) + s.comp
  }

  /** Finished jobs are a prefix of the submitted ones, the rest is queued, the job at hand is the first queued. */
  predicate WorkerOk(w: nat, x: Worker) {
    && x.submitted == x.finished + x.queue
    && (forall j <- x.queue :: WorkerOf(j.kind) == w)
    && (x.pc.Fetched? || x.pc.Appended? || x.pc.Processed? ==> x.queue != [] && x.queue[0] == x.pc.job)
    && (x.pc.Appended? ==> IsComp(x.pc.job.kind))
    && (x.pc.Waiting? ==> x.queue == [])
  }

  predicate CounterOk(s: State, k: Kind)
    requires Shaped(s)
  {
    s.counters(k) == Count(s.workers[WorkerOf(k)].queue, k)
  }

  /** A drainer asleep has something to wait for, and has not missed a job. */
  predicate DrainOk(s: State)
    requires Shaped(s)
  {
    && (!s.drain.NoDrain? ==> s.drain.upto <= |s.workers[s.drain.worker].submitted|)
    && (s.drain.Asleep? ==> s.workers[s.drain.worker].queue != [])
  }

  /** A completion waiting in the list has its wake-up on the way. */
  predicate WakeOk(s: State)
    requires Shaped(s)
  {
    s.comp != [] ==>
      || s.pipe > 0
      || s.workers[0].pc.Appended? || s.workers[1].pc.Appended? || s.workers[2].pc.Appended?
      || s.reader.Reading?
      || s.reader.Swapping?
  }

  /** Per worker, the completion items so far are the completion requests that took effect, in order. */
  predicate ItemsOk(s: State, w: nat)
    requires Shaped(s) && w < WORKERS
  {
    Of(w, Items(s)) == Comps(Effective(s.workers[w]))
  }

  ghost predicate Inv(s: State) {
    && Shaped(s) && s.capacity > 0
    && WorkerOk(0, s.workers[0]) && WorkerOk(1, s.workers[1]) && WorkerOk(2, s.workers[2])
    && (forall k: Kind :: CounterOk(s, k)) && DrainOk(s) && WakeOk(s)
  }

  lemma InitInv(s: State)
    requires Init(s)
    ensures Inv(s)
  {
  }

  // ---------------------------------------------------------------- every step keeps it

  lemma CountSnoc(q: seq<Job>, j: Job, k: Kind)
    ensures Count(q + [j], k) == Count(q, k) + (if j.kind == k then 1 else 0)
  {
    assert (q + [j])[..|q|] == q;
  }

  lemma {:induction false} CountTail(q: seq<Job>, k: Kind)
    requires q != []
    ensures Count(q, k) == (if q[0].kind == k then 1 else 0) + Count(q[1..], k)
    decreases |q|
  {
    if |q| > 1 {
      var front := q[..|q| - 1];
      CountTail(front, k);
      assert q[1..][..|q| - 2] == front[1..];
    }
  }

  lemma CompsSnoc(js: seq<Job>, j: Job)
    ensures Comps(js + [j]) == if IsComp(j.kind) then Comps(js) + [j] else Comps(js)
  {
    assert (js + [j])[..|js|] == js;
  }

  lemma OfSnoc(w: nat, js: seq<Job>, j: Job)
    ensures Of(w, js + [j]) == if WorkerOf(j.kind) == w then Of(w, js) + [j] else Of(w, js)
  {
    assert (js + [j])[..|js|] == js;
  }

  /** A worker that only moves on keeps everything. */
  lemma KeepPc(s: State, w: nat, pc: Pc)
    requires Inv(s) && w < WORKERS && WorkerOk(w, s.workers[w].(pc := pc)) && !s.workers[w].pc.Appended?
    ensures Inv(SetPc(s, w, pc))
  {
    var t := SetPc(s, w, pc);
    SameCounters(s, t);
  }

  lemma KeepSubmit(s: State, job: Job, wakeMain: bool)
    requires Inv(s) && Enabled(s, Submit(job, wakeMain))
    ensures Inv(Next(s, Submit(job, wakeMain)))
  {
    var t, w := Next(s, Submit(job, wakeMain)), WorkerOf(job.kind);
    var x, y := s.workers[w], t.workers[w];
    assert y == Worker(x.queue + [job], if x.pc.Waiting? then Locking else x.pc, x.submitted + [job], x.finished);
    assert y.submitted == x.finished + (x.queue + [job]);
    SubmitCounters(s, job);
    assert t.counters == Submitted(s, job).counters && forall v | 0 <= v < WORKERS :: t.workers[v].queue == Submitted(s, job).workers[v].queue;
    SameCounters(Submitted(s, job), t);
  }

  lemma SubmitCounters(s: State, job: Job)
    requires Shaped(s) && forall k: Kind :: CounterOk(s, k)
    ensures Shaped(Submitted(s, job)) && forall k: Kind :: CounterOk(Submitted(s, job), k)
  {
    forall k: Kind ensures CounterOk(Submitted(s, job), k) {
      assert CounterOk(s, k);
      CountSnoc(s.workers[WorkerOf(job.kind)].queue, job, k);
    }
  }

  lemma SameCounters(s: State, t: State)
    requires Shaped(s) && Shaped(t) && t.counters == s.counters && forall v | 0 <= v < WORKERS :: t.workers[v].queue == s.workers[v].queue
    requires forall k: Kind :: CounterOk(s, k)
    ensures forall k: Kind :: CounterOk(t, k)
  {
    forall k: Kind ensures CounterOk(t, k) { assert CounterOk(s, k); }
  }

  lemma KeepAppend(s: State, w: nat)
    requires Inv(s) && Enabled(s, Append(w))
    ensures Inv(Next(s, Append(w)))
  {
    SameCounters(s, Next(s, Append(w)));
  }

  lemma KeepNotify(s: State, w: nat)
    requires Inv(s) && Enabled(s, Notify(w))
    ensures Inv(Next(s, Notify(w)))
  {
    var t := Next(s, Notify(w));
    SameCounters(s, t);
  }

  lemma FinishWorker(w: nat, x: Worker)
    requires WorkerOk(w, x) && x.pc.Processed?
    ensures WorkerOk(w, Worker(x.queue[1..], Head, x.submitted, x.finished + [x.pc.job]))
  {
    var j := x.pc.job;
    assert x.queue == [j] + x.queue[1..];
    assert x.finished + [j] + x.queue[1..] == x.finished + ([j] + x.queue[1..]);
  }

  lemma FinishCounter(s: State, w: nat, k: Kind)
    requires Shaped(s) && w < WORKERS && WorkerOk(w, s.workers[w]) && s.workers[w].pc.Processed? && CounterOk(s, k)
    ensures CounterOk(Finished(s, w), k)
  {
    var x := s.workers[w];
    assert x.pc.job in x.queue;
    CountTail(x.queue, k);
  }

  lemma KeepFinish(s: State, w: nat, wakeMain: bool)
    requires Inv(s) && Enabled(s, Finish(w, wakeMain))
    ensures Inv(Next(s, Finish(w, wakeMain)))
  {
    var t := Next(s, Finish(w, wakeMain));
    FinishWorker(w, s.workers[w]);
    forall k: Kind ensures CounterOk(t, k) {
      assert CounterOk(s, k);
      FinishCounter(s, w, k);
    }
  }

  lemma KeepMain(s: State, step: Step)
    requires Inv(s) && Enabled(s, step)
    requires step.WakeMain? || step.PipeEvent? || step.ReadPipe? || step.Swap? || step.Callback? || step.Return?
          || step.DrainStart? || step.DrainSleep? || step.DrainReturn?
    ensures Inv(Next(s, step))
  {
    var t := Next(s, step);
    assert t.workers == s.workers;
    SameCounters(s, t);
  }

  lemma KeepStep(s: State, step: Step)
    requires Inv(s) && Enabled(s, step)
    ensures Inv(Next(s, step))
  {
    match step
    case Submit(job, wakeMain) => KeepSubmit(s, job, wakeMain);
    case Lock(w) => KeepPc(s, w, Head);
    case Sleep(w) => KeepPc(s, w, Waiting);
    case Fetch(w) => KeepPc(s, w, Fetched(s.workers[w].queue[0]));
    case Execute(w) => KeepPc(s, w, Processed(s.workers[w].pc.job));
    case Append(w) => KeepAppend(s, w);
    case Notify(w) => KeepNotify(s, w);
    case Finish(w, wakeMain) => KeepFinish(s, w, wakeMain);
    case WakeWorker(w) => KeepPc(s, w, Locking);
    case _ => KeepMain(s, step);
  }

  /** Everything above holds in every state of every run. */
  lemma {:induction false} Safety(run: seq<State>, i: nat)
    requires Run(run) && i < |run|
    ensures Inv(run[i])
  {
    if i == 0 {
      InitInv(run[0]);
    } else {
      Safety(run, i - 1);
      assert Linked(run, i - 1);
      var step :| Enabled(run[i - 1], step) && run[i] == Next(run[i - 1], step);
      KeepStep(run[i - 1], step);
    }
  }

  // ---------------------------------------------------------------- completion items

  /** Only `Append` adds an item; handing over and calling back only move them along. */
  lemma ItemsNext(s: State, step: Step)
    requires Inv(s) && Enabled(s, step)
    ensures Items(Next(s, step)) == if step.Append? then Items(s) + [s.workers[step.w].pc.job] else Items(s)
  {
    if step.Append? {
      var calling := if s.reader.Calling? then s.reader.rest else [];
      assert s.called + calling + (s.comp + [s.workers[step.w].pc.job]) == Items(s) + [s.workers[step.w].pc.job];
    } else if step.Callback? {
      var rest := s.reader.rest;
      assert rest == [rest[0]] + rest[1..];
      assert s.called + [rest[0]] + rest[1..] == s.called + rest;
    }
  }

  /** A job takes effect once, when it is executed or appended. */
  lemma EffectiveNext(s: State, step: Step, w: nat)
    requires Inv(s) && Enabled(s, step) && w < WORKERS
    ensures Effective(Next(s, step).workers[w]) ==
            if (step.Append? || step.Execute?) && step.w == w then Effective(s.workers[w]) + [s.workers[w].pc.job]
            else Effective(s.workers[w])
  {
    if step.Submit? {
      EffectiveSubmit(s, step.job, step.wakeMain, w);
    } else if step.Finish? {
      EffectiveFinish(s, step.w, step.wakeMain, w);
    }
  }

  lemma EffectiveSubmit(s: State, job: Job, wakeMain: bool, w: nat)
    requires Inv(s) && Enabled(s, Submit(job, wakeMain)) && w < WORKERS
    ensures Effective(Next(s, Submit(job, wakeMain)).workers[w]) == Effective(s.workers[w])
  {
  }

  lemma EffectiveFinish(s: State, v: nat, wakeMain: bool, w: nat)
    requires Inv(s) && Enabled(s, Finish(v, wakeMain)) && w < WORKERS
    ensures Effective(Next(s, Finish(v, wakeMain)).workers[w]) == Effective(s.workers[w])
  {
  }

  lemma KeepItems(s: State, step: Step, w: nat)
    requires Inv(s) && Enabled(s, step) && w < WORKERS && ItemsOk(s, w) && Shaped(Next(s, step))
    ensures ItemsOk(Next(s, step), w)
  {
    ItemsNext(s, step);
    EffectiveNext(s, step, w);
    if step.Append? || step.Execute? {
      var x := s.workers[step.w];
      assert x.pc.job in x.queue;
      CompsSnoc(Effective(x), x.pc.job);
      OfSnoc(w, Items(s), x.pc.job);
    }
  }

  lemma {:induction false} ItemsSafety(run: seq<State>, i: nat, w: nat)
    requires Run(run) && i < |run| && w < WORKERS
    ensures Shaped(run[i]) && ItemsOk(run[i], w)
  {
    if i > 0 {
      ItemsSafety(run, i - 1, w);
      Safety(run, i - 1);
      assert Linked(run, i - 1);
      FollowKeepsItems(run[i - 1], run[i], w);
    }
  }

  lemma FollowKeepsItems(s: State, t: State, w: nat)
    requires Inv(s) && w < WORKERS && ItemsOk(s, w) && Follows(s, t)
    ensures Shaped(t) && ItemsOk(t, w)
  {
    var step :| Enabled(s, step) && t == Next(s, step);
    KeepStep(s, step);
    KeepItems(s, step, w);
  }

  // ---------------------------------------------------------------- what callers rely on

  /** No lost wake-up: a completion in the list, with nobody on the way to the pipe or the list, leaves a byte to read. */
  lemma NoLostWakeup(run: seq<State>, i: nat)
    requires Run(run) && i < |run|
    ensures var s := run[i];
            Shaped(s) &&
            (s.comp != [] && !s.workers[0].pc.Appended? && !s.workers[1].pc.Appended? && !s.workers[2].pc.Appended? && !s.reader.Reading? && !s.reader.Swapping?
             ==> s.pipe > 0)
  {
    Safety(run, i);
  }

  /** Nobody sleeps on work: a worker with a job queued can step, and a sleeping drainer waits for such a worker. */
  lemma NobodyStuck(run: seq<State>, i: nat, w: nat)
    requires Run(run) && i < |run| && w < WORKERS
    ensures var s := run[i];
            Shaped(s) &&
            (s.workers[w].queue != [] ==>
               Enabled(s, Lock(w)) || Enabled(s, Fetch(w)) || Enabled(s, Execute(w)) || Enabled(s, Append(w)) ||
               Enabled(s, Notify(w)) || Enabled(s, Finish(w, false))) &&
            (s.drain.Asleep? ==> s.workers[s.drain.worker].queue != [])
  {
    Safety(run, i);
    assert WorkerOk(w, run[i].workers[w]);
  }

  /** Jobs finish in the order they were submitted, and the counters are exact, the running job included. */
  lemma OrderAndCounters(run: seq<State>, i: nat, k: Kind)
    requires Run(run) && i < |run|
    ensures Shaped(run[i]) && var x := run[i].workers[WorkerOf(k)];
            x.finished <= x.submitted && x.queue == x.submitted[|x.finished|..] && run[i].counters(k) == Count(x.queue, k)
  {
    Safety(run, i);
    assert WorkerOk(WorkerOf(k), run[i].workers[WorkerOf(k)]) && CounterOk(run[i], k);
  }

  /** `bioDrainWorker` returns only when all that was submitted before it began has finished. */
  lemma DrainReturns(run: seq<State>, i: nat)
    requires Run(run) && i < |run|
    ensures Shaped(run[i])
    ensures Enabled(run[i], DrainReturn) ==>
              var x := run[i].workers[run[i].drain.worker];
              run[i].drain.upto <= |x.submitted| && x.submitted[..run[i].drain.upto] <= x.finished
  {
    Safety(run, i);
    if Enabled(run[i], DrainReturn) {
      var x := run[i].workers[run[i].drain.worker];
      assert WorkerOk(run[i].drain.worker, x);
      assert x.submitted == x.finished;
    }
  }

  /**
   * The callbacks run for a worker are, in order and without repetition, the completion requests among its first
   * `n` jobs, and the jobs before the last of those have finished.
   */
  lemma CallbacksInOrder(run: seq<State>, i: nat, w: nat) returns (n: nat)
    requires Run(run) && i < |run| && w < WORKERS
    ensures Shaped(run[i]) && var x := run[i].workers[w];
            n <= |x.finished| + 1 && n <= |x.submitted| && Of(w, run[i].called) == Comps(x.submitted[..n])
  {
    Safety(run, i);
    ItemsSafety(run, i, w);
    var s := run[i];
    EffectivePrefix(w, s.workers[w]);
    var rest := (if s.reader.Calling? then s.reader.rest else []) + s.comp;
    assert Items(s) == s.called + rest;
    n := CalledPrefix(w, s.called, rest, Effective(s.workers[w]), s.workers[w].submitted);
  }

  lemma EffectivePrefix(w: nat, x: Worker)
    requires WorkerOk(w, x)
    ensures |Effective(x)| <= |x.finished| + 1 && Effective(x) <= x.submitted
    ensures x.queue == [] ==> Effective(x) == x.submitted
  {
  }

  lemma CalledPrefix(w: nat, called: seq<Job>, rest: seq<Job>, e: seq<Job>, submitted: seq<Job>) returns (n: nat)
    requires Of(w, called + rest) == Comps(e) && e <= submitted
    ensures n <= |e| && Of(w, called) == Comps(submitted[..n])
  {
    OfPrefix(w, called, rest);
    n := CompsPrefix(e, |Of(w, called)|);
    assert submitted[..n] == e[..n];
  }

  /** All is quiet: no job is queued, no byte is in the pipe, the main thread is not reading it. */
  predicate Quiet(s: State) {
    Shaped(s) && s.pipe == 0 && s.reader == Idle && forall v | 0 <= v < WORKERS :: s.workers[v].queue == []
  }

  /** When all is quiet every completion request submitted has been called back. */
  lemma AllCalledBack(run: seq<State>, i: nat, w: nat)
    requires Run(run) && i < |run| && w < WORKERS && Quiet(run[i])
    ensures run[i].comp == [] && Of(w, run[i].called) == Comps(run[i].workers[w].submitted)
  {
    Safety(run, i);
    NoLostWakeup(run, i);
    ItemsSafety(run, i, w);
    EffectivePrefix(w, run[i].workers[w]);
    assert Items(run[i]) == run[i].called + [] + [] == run[i].called;
  }

  lemma {:induction false} OfPrefix(w: nat, a: seq<Job>, b: seq<Job>)
    ensures |Of(w, a)| <= |Of(w, a + b)| && Of(w, a + b)[..|Of(w, a)|] == Of(w, a)
    decreases |b|
  {
    if b == [] {
      assert a + b == a;
    } else {
      var front, j := b[..|b| - 1], b[|b| - 1];
      OfPrefix(w, a, front);
      assert a + b == a + front + [j];
      OfSnoc(w, a + front, j);
    }
  }

  /** A prefix of the completion requests is the completion requests of a prefix. */
  lemma {:induction false} CompsPrefix(js: seq<Job>, m: nat) returns (n: nat)
    requires m <= |Comps(js)|
    ensures n <= |js| && Comps(js[..n]) == Comps(js)[..m]
    decreases |js|
  {
    if m == |Comps(js)| {
      n := |js|;
      assert js[..n] == js;
    } else {
      var front := js[..|js| - 1];
      n := CompsPrefix(front, m);
      assert front[..n] == js[..n];
    }
  }
}
