/**
 The Redis worker pool as a protocol of interleaved steps: a sorted-set queue, semaphore permits,
 polling loops, spawned tasks, retries and stored results.
 */
module WorkerPool {
  import opened Prelude

  datatype Task = Task(
    id: nat,
    taskType: string,
    payload: string,
    priority: int,
    retryCount: nat,
    maxRetries: nat,
    timeoutMs: nat)

  /** What awaiting the handler under its timeout produced. */
  datatype Verdict = Output(value: string) | Failed(message: string) | TimedOut

  datatype TaskResult = TaskResult(taskId: nat, result: Option<string>, error: Option<string>)

  /**
   `queue` maps each queued member to its score. `atHead`, `waiting` and `holding` count the polling loops
   about to test `running`, waiting for a permit, and holding one. `releasing` counts finished tasks whose
   permit has not been dropped yet. `enqueued` and `runs` are history: the tasks ever enqueued, by id, and
   how often each id reached its handler.
   */
  datatype Pool = Pool(
    maxConcurrent: nat,
    handlers: set<string>,
    running: bool,
    atHead: nat,
    waiting: nat,
    holding: nat,
    permits: nat,
    queue: map<Task, int>,
    inFlight: set<Task>,
    releasing: nat,
    results: seq<TaskResult>,
    enqueued: map<nat, Task>,
    runs: map<nat, nat>)

  datatype Step =
    | Start
    | Stop
    | Enqueue(task: Task)
    | TestRunning      // the loop head: go on to the semaphore, or leave
    | Acquire
    | PollEmpty
    | Pop(task: Task)
    | Finish(task: Task, verdict: Verdict)
    | Release

  function Initial(maxConcurrent: nat, handlers: set<string>): Pool {
    Pool(maxConcurrent, handlers, false, 0, 0, 0, maxConcurrent, map[], {}, 0, [], map[], map[])
  }

  function Score(t: Task): int {
    -t.priority
  }

  /** `zpopmax` may take this member. */
  ghost predicate HasTopScore(queue: map<Task, int>, t: Task) {
    t in queue && forall u :: u in queue ==> queue[u] <= queue[t]
  }

  function StoredResult(t: Task, handled: bool, verdict: Verdict): TaskResult {
    if !handled then TaskResult(t.id, None, Some("No handler"))
    else match verdict
      case Output(v) => TaskResult(t.id, Some(v), None)
      case Failed(m) => TaskResult(t.id, None, Some(m))
      case TimedOut => TaskResult(t.id, None, Some("Timeout"))
  }

  /** `process_task` puts the task back when its handler failed and retries are left. */
  predicate Retries(p: Pool, t: Task, verdict: Verdict) {
    t.taskType in p.handlers && verdict.Failed? && t.retryCount < t.maxRetries
  }

  ghost predicate Enabled(p: Pool, s: Step) {
    match s
    case Start => true
    case Stop => true
    case Enqueue(t) => true
    case TestRunning => p.atHead > 0
    case Acquire => p.waiting > 0 && p.permits > 0
    case PollEmpty => p.holding > 0 && p.queue == map[]
    case Pop(t) => p.holding > 0 && HasTopScore(p.queue, t)
    case Finish(t, v) => t in p.inFlight
    case Release => p.releasing > 0
  }

  /** A task is enqueued under an id not enqueued before. */
  ghost predicate FreshId(p: Pool, s: Step) {
    s.Enqueue? ==> s.task.id !in p.enqueued
  }

  function Finished(p: Pool, t: Task, verdict: Verdict): Pool {
    var handled := t.taskType in p.handlers;
    var q := p.(
      inFlight := p.inFlight - {t},
      releasing := p.releasing + 1,
      runs := if handled then p.runs[t.id := Count(p.runs, t.id) + 1] else p.runs);
    if Retries(p, t, verdict) then
      var again := t.(retryCount := t.retryCount + 1);
      q.(queue := q.queue[again := Score(again)])
    else
      q.(results := q.results + [StoredResult(t, handled, verdict)])
  }

  function Count(runs: map<nat, nat>, id: nat): nat {
    if id in runs then runs[id] else 0
  }

  function Next(p: Pool, s: Step): Pool
    requires Enabled(p, s)
  {
    match s
    case Start => p.(running := true, atHead := p.atHead + 1)
    case Stop => p.(running := false)
    case Enqueue(t) => p.(queue := p.queue[t := Score(t)], enqueued := p.enqueued[t.id := t])
    case TestRunning =>
      if p.running then p.(atHead := p.atHead - 1, waiting := p.waiting + 1) else p.(atHead := p.atHead - 1)
    case Acquire => p.(waiting := p.waiting - 1, holding := p.holding + 1, permits := p.permits - 1)
    case PollEmpty => p.(holding := p.holding - 1, permits := p.permits + 1, atHead := p.atHead + 1)
    case Pop(t) =>
      p.(holding := p.holding - 1, atHead := p.atHead + 1, queue := p.queue - {t}, inFlight := p.inFlight + {t})
    case Finish(t, v) => Finished(p, t, v)
    case Release => p.(releasing := p.releasing - 1, permits := p.permits + 1)
  }

  /** Every step of the run was possible when taken, and every enqueued id fresh. */
  ghost predicate CanRun(p: Pool, steps: seq<Step>)
    decreases |steps|, 0
  {
    steps == [] ||
    (CanRun(p, steps[..|steps| - 1])
     && Enabled(After(p, steps[..|steps| - 1]), steps[|steps| - 1])
     && FreshId(After(p, steps[..|steps| - 1]), steps[|steps| - 1]))
  }

  ghost function After(p: Pool, steps: seq<Step>): Pool
    requires CanRun(p, steps)
    decreases |steps|, 1
  {
    if steps == [] then p
    else Next(After(p, steps[..|steps| - 1]), steps[|steps| - 1])
  }

  // ---- Invariant ----

  /** Where an enqueued id currently is; `Done(i)` points at its entry in the results. */
  datatype Place = Queued(task: Task) | Flying(task: Task) | Done(index: nat)

  /** Handler runs allowed to a task: its first run and the retries left to it. */
  function RunBudget(t: Task): nat {
    (if t.retryCount < t.maxRetries then t.maxRetries - t.retryCount else 0) + 1
  }

  /** How a live task relates to the task first enqueued under its id. */
  ghost predicate Descends(first: Task, t: Task, runs: nat) {
    && t == first.(retryCount := t.retryCount)
    && (t.retryCount == first.retryCount || first.retryCount < t.retryCount <= t.maxRetries)
    && runs == t.retryCount - first.retryCount
  }

  ghost predicate PermitsAccounted(p: Pool) {
    p.permits + p.holding + |p.inFlight| + p.releasing == p.maxConcurrent
  }

  ghost predicate QueueLocated(queue: map<Task, int>, at: map<nat, Place>) {
    && (forall t :: t in queue ==> queue[t] == Score(t) && t.id in at && at[t.id] == Queued(t))
    && (forall id {:trigger at[id].Queued?} :: id in at && at[id].Queued? ==> at[id].task in queue && at[id].task.id == id)
  }

  ghost predicate FlightLocated(inFlight: set<Task>, at: map<nat, Place>) {
    && (forall t :: t in inFlight ==> t.id in at && at[t.id] == Flying(t))
    && (forall id {:trigger at[id].Flying?} :: id in at && at[id].Flying? ==> at[id].task in inFlight && at[id].task.id == id)
  }

  ghost predicate ResultsLocated(results: seq<TaskResult>, at: map<nat, Place>) {
    && (forall i :: 0 <= i < |results| ==> results[i].taskId in at && at[results[i].taskId] == Done(i))
    && (forall id {:trigger at[id].Done?} :: id in at && at[id].Done? ==> at[id].index < |results| && results[at[id].index].taskId == id)
  }

  ghost predicate HistoryAgrees(enqueued: map<nat, Task>, runs: map<nat, nat>, at: map<nat, Place>) {
    && at.Keys == enqueued.Keys
    && runs.Keys <= enqueued.Keys
    && (forall id {:trigger at[id].Done?} :: id in at ==>
          if at[id].Done? then Count(runs, id) <= RunBudget(enqueued[id])
          else Descends(enqueued[id], at[id].task, Count(runs, id)))
  }

  /** `at` locates every enqueued id, once. */
  ghost predicate Invariant(p: Pool, at: map<nat, Place>) {
    && PermitsAccounted(p)
    && QueueLocated(p.queue, at)
    && FlightLocated(p.inFlight, at)
    && ResultsLocated(p.results, at)
    && HistoryAgrees(p.enqueued, p.runs, at)
  }

  ghost function Relocated(p: Pool, at: map<nat, Place>, s: Step): map<nat, Place> {
    match s
    case Enqueue(t) => at[t.id := Queued(t)]
    case Pop(t) => at[t.id := Flying(t)]
    case Finish(t, v) =>
      if Retries(p, t, v) then at[t.id := Queued(t.(retryCount := t.retryCount + 1))]
      else at[t.id := Done(|p.results|)]
    case _ => at
  }

  // Each part of the state against a moved id.

  lemma QueuePuts(queue: map<Task, int>, at: map<nat, Place>, t: Task)
    requires QueueLocated(queue, at) && !(t.id in at && at[t.id].Queued?)
    ensures QueueLocated(queue[t := Score(t)], at[t.id := Queued(t)])
  {
  }

  lemma QueueTakes(queue: map<Task, int>, at: map<nat, Place>, t: Task, place: Place)
    requires QueueLocated(queue, at) && t in queue && !place.Queued?
    ensures QueueLocated(queue - {t}, at[t.id := place])
  {
  }

  lemma QueueStays(queue: map<Task, int>, at: map<nat, Place>, id: nat, place: Place)
    requires QueueLocated(queue, at) && !(id in at && at[id].Queued?) && !place.Queued?
    ensures QueueLocated(queue, at[id := place])
  {
  }

  lemma FlightPuts(inFlight: set<Task>, at: map<nat, Place>, t: Task)
    requires FlightLocated(inFlight, at) && !(t.id in at && at[t.id].Flying?)
    ensures FlightLocated(inFlight + {t}, at[t.id := Flying(t)])
    ensures |inFlight + {t}| == |inFlight| + 1
  {
    assert t !in inFlight;
  }

  lemma FlightTakes(inFlight: set<Task>, at: map<nat, Place>, t: Task, place: Place)
    requires FlightLocated(inFlight, at) && t in inFlight && !place.Flying?
    ensures FlightLocated(inFlight - {t}, at[t.id := place])
    ensures |inFlight - {t}| == |inFlight| - 1
  {
  }

  lemma FlightStays(inFlight: set<Task>, at: map<nat, Place>, id: nat, place: Place)
    requires FlightLocated(inFlight, at) && !(id in at && at[id].Flying?) && !place.Flying?
    ensures FlightLocated(inFlight, at[id := place])
  {
  }

  lemma ResultsStay(results: seq<TaskResult>, at: map<nat, Place>, id: nat, place: Place)
    requires ResultsLocated(results, at)
    requires !(id in at && at[id].Done?) && !place.Done?
    ensures ResultsLocated(results, at[id := place])
  {
  }

  lemma ResultAdded(results: seq<TaskResult>, at: map<nat, Place>, r: TaskResult)
    requires ResultsLocated(results, at)
    requires !(r.taskId in at && at[r.taskId].Done?)
    ensures ResultsLocated(results + [r], at[r.taskId := Done(|results|)])
  {
  }

  /** One id moves to a place its history allows; its run count may have changed on the way. */
  lemma HistoryMoves(enqueued: map<nat, Task>, runs: map<nat, nat>, at: map<nat, Place>, id: nat, place: Place, n: nat)
    requires HistoryAgrees(enqueued, runs, at) && id in enqueued
    requires if place.Done? then n <= RunBudget(enqueued[id]) else Descends(enqueued[id], place.task, n)
    ensures n == Count(runs, id) ==> HistoryAgrees(enqueued, runs, at[id := place])
    ensures HistoryAgrees(enqueued, runs[id := n], at[id := place])
  {
  }

  lemma EnqueueKeeps(p: Pool, at: map<nat, Place>, t: Task)
    requires Invariant(p, at) && FreshId(p, Enqueue(t))
    ensures Invariant(Next(p, Enqueue(t)), Relocated(p, at, Enqueue(t)))
  {
    QueuePuts(p.queue, at, t);
    FlightStays(p.inFlight, at, t.id, Queued(t));
    ResultsStay(p.results, at, t.id, Queued(t));
  }

  lemma PopKeeps(p: Pool, at: map<nat, Place>, t: Task)
    requires Invariant(p, at) && Enabled(p, Pop(t))
    ensures Invariant(Next(p, Pop(t)), Relocated(p, at, Pop(t)))
  {
    QueueTakes(p.queue, at, t, Flying(t));
    FlightPuts(p.inFlight, at, t);
    ResultsStay(p.results, at, t.id, Flying(t));
    HistoryMoves(p.enqueued, p.runs, at, t.id, Flying(t), Count(p.runs, t.id));
  }

  /** What is known of a task in flight, and what its finishing may record. */
  lemma FinishingTask(p: Pool, at: map<nat, Place>, t: Task, v: Verdict)
    requires Invariant(p, at) && t in p.inFlight
    ensures t.id in at && at[t.id] == Flying(t) && t.id in p.enqueued
    ensures Count(p.runs, t.id) + 1 <= RunBudget(p.enqueued[t.id])
    ensures Retries(p, t, v) ==>
              Descends(p.enqueued[t.id], t.(retryCount := t.retryCount + 1), Count(p.runs, t.id) + 1)
  {
    assert at[t.id] == Flying(t);
    assert !at[t.id].Done?;
    assert Descends(p.enqueued[t.id], t, Count(p.runs, t.id));
  }

  lemma RetryKeeps(p: Pool, at: map<nat, Place>, t: Task, v: Verdict)
    requires Invariant(p, at) && t in p.inFlight && Retries(p, t, v)
    ensures Invariant(Finished(p, t, v), at[t.id := Queued(t.(retryCount := t.retryCount + 1))])
  {
    FinishingTask(p, at, t, v);
    var again := t.(retryCount := t.retryCount + 1);
    QueuePuts(p.queue, at, again);
    FlightTakes(p.inFlight, at, t, Queued(again));
    ResultsStay(p.results, at, t.id, Queued(again));
    HistoryMoves(p.enqueued, p.runs, at, t.id, Queued(again), Count(p.runs, t.id) + 1);
    Assembled(Finished(p, t, v), at[t.id := Queued(again)], p.queue[again := Score(again)], p.inFlight - {t}, p.results,
              p.enqueued, p.runs[t.id := Count(p.runs, t.id) + 1]);
  }

  /** The parts make the whole. */
  lemma Assembled(q: Pool, at: map<nat, Place>, queue: map<Task, int>, inFlight: set<Task>, results: seq<TaskResult>,
                  enqueued: map<nat, Task>, runs: map<nat, nat>)
    requires q.queue == queue && q.inFlight == inFlight && q.results == results
    requires q.enqueued == enqueued && q.runs == runs
    requires QueueLocated(queue, at) && FlightLocated(inFlight, at) && ResultsLocated(results, at)
    requires HistoryAgrees(enqueued, runs, at) && PermitsAccounted(q)
    ensures Invariant(q, at)
  {
  }

  lemma ResultKeeps(p: Pool, at: map<nat, Place>, t: Task, v: Verdict)
    requires Invariant(p, at) && t in p.inFlight && !Retries(p, t, v)
    ensures Invariant(Finished(p, t, v), at[t.id := Done(|p.results|)])
  {
    FinishingTask(p, at, t, v);
    var place, handled := Done(|p.results|), t.taskType in p.handlers;
    var n := Count(p.runs, t.id) + 1;
    QueueStays(p.queue, at, t.id, place);
    FlightTakes(p.inFlight, at, t, place);
    ResultAdded(p.results, at, StoredResult(t, handled, v));
    HistoryMoves(p.enqueued, p.runs, at, t.id, place, if handled then n else n - 1);
    Assembled(Finished(p, t, v), at[t.id := place], p.queue, p.inFlight - {t}, p.results + [StoredResult(t, handled, v)],
              p.enqueued, if handled then p.runs[t.id := n] else p.runs);
  }

  lemma StepKeeps(p: Pool, at: map<nat, Place>, s: Step)
    requires Invariant(p, at) && Enabled(p, s) && FreshId(p, s)
    ensures Invariant(Next(p, s), Relocated(p, at, s))
  {
    match s {
      case Enqueue(t) => EnqueueKeeps(p, at, t);
      case Pop(t) => PopKeeps(p, at, t);
      case Finish(t, v) =>
        if Retries(p, t, v) {
          RetryKeeps(p, at, t, v);
        } else {
          ResultKeeps(p, at, t, v);
        }
      case _ =>
    }
  }

  /** Every state a pool can reach keeps the invariant. */
  lemma {:induction false} RunKeeps(maxConcurrent: nat, handlers: set<string>, steps: seq<Step>)
    returns (at: map<nat, Place>)
    requires CanRun(Initial(maxConcurrent, handlers), steps)
    ensures Invariant(After(Initial(maxConcurrent, handlers), steps), at)
    ensures After(Initial(maxConcurrent, handlers), steps).maxConcurrent == maxConcurrent
    decreases |steps|
  {
    if steps == [] {
      at := map[];
    } else {
      var before := RunKeeps(maxConcurrent, handlers, steps[..|steps| - 1]);
      var p := After(Initial(maxConcurrent, handlers), steps[..|steps| - 1]);
      StepKeeps(p, before, steps[|steps| - 1]);
      at := Relocated(p, before, steps[|steps| - 1]);
    }
  }

  // ---- One place for every task ----

  ghost predicate IsQueued(p: Pool, id: nat) {
    exists t :: t in p.queue && t.id == id
  }

  ghost predicate IsInFlight(p: Pool, id: nat) {
    exists t :: t in p.inFlight && t.id == id
  }

  ghost predicate HasResult(p: Pool, id: nat) {
    exists i :: 0 <= i < |p.results| && p.results[i].taskId == id
  }

  /**
   In every interleaving each enqueued id is in exactly one of queue, flight and results, in one copy,
   and nothing else is in any of them.
   */
  lemma ExactlyOnePlace(maxConcurrent: nat, handlers: set<string>, steps: seq<Step>, id: nat)
    requires CanRun(Initial(maxConcurrent, handlers), steps)
    ensures var p := After(Initial(maxConcurrent, handlers), steps);
            && (id in p.enqueued <==> IsQueued(p, id) || IsInFlight(p, id) || HasResult(p, id))
            && !(IsQueued(p, id) && IsInFlight(p, id))
            && !(IsQueued(p, id) && HasResult(p, id))
            && !(IsInFlight(p, id) && HasResult(p, id))
  {
    var at := RunKeeps(maxConcurrent, handlers, steps);
    var p := After(Initial(maxConcurrent, handlers), steps);
    if id in at {
      match at[id] {
        case Queued(t) => assert at[id].Queued? && t in p.queue;
        case Flying(t) => assert at[id].Flying? && t in p.inFlight;
        case Done(i) => assert at[id].Done? && p.results[i].taskId == id;
      }
    }
  }

  /** No id ever has two results, two queue entries or two tasks in flight. */
  lemma NeverTwice(maxConcurrent: nat, handlers: set<string>, steps: seq<Step>)
    requires CanRun(Initial(maxConcurrent, handlers), steps)
    ensures var p := After(Initial(maxConcurrent, handlers), steps);
            && (forall i, j :: 0 <= i < j < |p.results| ==> p.results[i].taskId != p.results[j].taskId)
            && (forall t, u :: t in p.queue && u in p.queue && t.id == u.id ==> t == u)
            && (forall t, u :: t in p.inFlight && u in p.inFlight && t.id == u.id ==> t == u)
  {
    var at := RunKeeps(maxConcurrent, handlers, steps);
  }

  /** Permits in use never exceed the configured concurrency, and none is lost. */
  lemma PermitsNeverExceeded(maxConcurrent: nat, handlers: set<string>, steps: seq<Step>)
    requires CanRun(Initial(maxConcurrent, handlers), steps)
    ensures var p := After(Initial(maxConcurrent, handlers), steps);
            && p.holding + |p.inFlight| + p.releasing <= maxConcurrent
            && p.permits == maxConcurrent - (p.holding + |p.inFlight| + p.releasing)
  {
    var at := RunKeeps(maxConcurrent, handlers, steps);
  }

  /** A task's handler runs at most once plus once per retry it had left when enqueued. */
  lemma HandlerRunsBounded(maxConcurrent: nat, handlers: set<string>, steps: seq<Step>, id: nat)
    requires CanRun(Initial(maxConcurrent, handlers), steps)
    requires id in After(Initial(maxConcurrent, handlers), steps).enqueued
    ensures var p := After(Initial(maxConcurrent, handlers), steps);
            var first := p.enqueued[id];
            Count(p.runs, id)
            <= (if first.maxRetries > first.retryCount then first.maxRetries - first.retryCount else 0) + 1
  {
    var at := RunKeeps(maxConcurrent, handlers, steps);
    assert id in at && (at[id].Done? || !at[id].Done?);
  }

  /** The pop takes exactly the tasks whose `priority` number is least. */
  lemma PopTakesLeastPriority(p: Pool, at: map<nat, Place>, t: Task)
    requires Invariant(p, at)
    ensures HasTopScore(p.queue, t) <==> t in p.queue && forall u :: u in p.queue ==> t.priority <= u.priority
  {
    if t in p.queue {
      assert p.queue[t] == Score(t);
      if HasTopScore(p.queue, t) {
        forall u | u in p.queue
          ensures t.priority <= u.priority
        {
          assert p.queue[u] == Score(u);
        }
      }
    }
  }

  /** The result carries the task's id and its output, or an error and no output. */
  ghost predicate Answers(r: TaskResult, t: Task, v: Verdict) {
    && r.taskId == t.id
    && (v.Output? ==> r.result == Some(v.value) && r.error == None)
    && (!v.Output? ==> r.result == None && r.error.Some?)
    && (v.Failed? ==> r.error == Some(v.message))
    && (v.TimedOut? ==> r.error == Some("Timeout"))
  }

  /** A task no handler is registered for is answered with an error at once, and nothing has run. */
  lemma UnhandledAttempt(p: Pool, at: map<nat, Place>, t: Task, v: Verdict)
    requires Invariant(p, at) && t in p.inFlight && t.taskType !in p.handlers
    ensures var q := Finished(p, t, v);
            && q.runs == p.runs && !IsQueued(q, t.id)
            && |q.results| == |p.results| + 1
            && q.results[|p.results|] == TaskResult(t.id, None, Some("No handler"))
  {
    FinishingTask(p, at, t, v);
  }

  /**
   What one finished attempt leads to: a failure is put back until its retries are spent, and stored only
   after its whole run budget; every other outcome is stored at once.
   */
  lemma FinishedAttempt(p: Pool, at: map<nat, Place>, t: Task, v: Verdict)
    requires Invariant(p, at) && t in p.inFlight && t.taskType in p.handlers
    ensures var q := Finished(p, t, v);
            && Count(q.runs, t.id) == Count(p.runs, t.id) + 1
            && (HasResult(q, t.id) <==> !(v.Failed? && t.retryCount < t.maxRetries))
            && (IsQueued(q, t.id) <==> v.Failed? && t.retryCount < t.maxRetries)
            && (v.Failed? && HasResult(q, t.id) ==> Count(q.runs, t.id) == RunBudget(p.enqueued[t.id]))
            && (HasResult(q, t.id) ==> |q.results| == |p.results| + 1 && Answers(q.results[|p.results|], t, v))
  {
    var q := Finished(p, t, v);
    FinishingTask(p, at, t, v);
    assert !at[t.id].Done?;
    assert Descends(p.enqueued[t.id], t, Count(p.runs, t.id));
    if Retries(p, t, v) {
      assert t.(retryCount := t.retryCount + 1) in q.queue;
    } else {
      assert q.results[|p.results|].taskId == t.id;
    }
  }

  // ---- Termination ----

  /** Steps left for one task, counting its permit's release: three per attempt. */
  function Weight(t: Task, stage: nat): nat {
    3 * (RunBudget(t) - 1) + stage
  }

  ghost function Weights(ts: set<Task>, stage: nat): nat {
    if ts == {} then 0
    else
      var t :| t in ts;
      Weight(t, stage) + Weights(ts - {t}, stage)
  }

  lemma {:induction false} WeightsTake(ts: set<Task>, t: Task, stage: nat)
    requires t in ts
    ensures Weights(ts, stage) == Weight(t, stage) + Weights(ts - {t}, stage)
  {
    var u :| u in ts && Weights(ts, stage) == Weight(u, stage) + Weights(ts - {u}, stage);
    if u != t {
      WeightsTake(ts - {u}, t, stage);
      WeightsTake(ts - {t}, u, stage);
      assert ts - {u} - {t} == ts - {t} - {u};
    }
  }

  lemma WeightsPut(ts: set<Task>, t: Task, stage: nat)
    requires t !in ts
    ensures Weights(ts + {t}, stage) == Weight(t, stage) + Weights(ts, stage)
  {
    WeightsTake(ts + {t}, t, stage);
    assert ts + {t} - {t} == ts;
  }

  ghost function Work(p: Pool): nat {
    Weights(p.queue.Keys, 3) + Weights(p.inFlight, 2) + p.releasing
  }

  function LoopDistance(p: Pool): nat {
    2 * p.atHead + p.waiting
  }

  predicate Productive(s: Step) {
    s.Pop? || s.Finish? || s.Release?
  }

  /** Steps the pool takes by itself, other than finding its queue empty. */
  predicate Advances(s: Step) {
    Productive(s) || s.TestRunning? || s.Acquire?
  }

  lemma PopLessWork(p: Pool, at: map<nat, Place>, t: Task)
    requires Invariant(p, at) && Enabled(p, Pop(t))
    ensures Work(Next(p, Pop(t))) < Work(p)
  {
    assert at[t.id] == Queued(t);
    assert t !in p.inFlight;
    WeightsTake(p.queue.Keys, t, 3);
    WeightsPut(p.inFlight, t, 2);
    assert (p.queue - {t}).Keys == p.queue.Keys - {t};
  }

  lemma RetryLessWork(p: Pool, at: map<nat, Place>, t: Task)
    requires Invariant(p, at) && t in p.inFlight && t.retryCount < t.maxRetries
    ensures var again := t.(retryCount := t.retryCount + 1);
            Weights(p.queue[again := Score(again)].Keys, 3) + Weights(p.inFlight - {t}, 2) + 1
            < Weights(p.queue.Keys, 3) + Weights(p.inFlight, 2)
  {
    var again := t.(retryCount := t.retryCount + 1);
    WeightsTake(p.inFlight, t, 2);
    assert at[t.id] == Flying(t);
    assert again !in p.queue;
    WeightsPut(p.queue.Keys, again, 3);
    assert p.queue[again := Score(again)].Keys == p.queue.Keys + {again};
  }

  lemma FinishLessWork(p: Pool, at: map<nat, Place>, t: Task, v: Verdict)
    requires Invariant(p, at) && t in p.inFlight
    ensures Work(Finished(p, t, v)) < Work(p)
  {
    if Retries(p, t, v) {
      RetryLessWork(p, at, t);
    } else {
      WeightsTake(p.inFlight, t, 2);
    }
  }

  /** One number that falls with every step the pool takes by itself. */
  ghost function Measure(p: Pool): nat {
    3 * Work(p) + LoopDistance(p)
  }

  /**
   Every step the pool takes by itself strictly lowers the measure; an empty poll is possible only when
   nothing is queued and does no work.
   */
  lemma MeasureDecreases(p: Pool, at: map<nat, Place>, s: Step)
    requires Invariant(p, at) && Enabled(p, s)
    ensures Advances(s) ==> Measure(Next(p, s)) < Measure(p)
    ensures Productive(s) ==> Work(Next(p, s)) < Work(p)
    ensures !Productive(s) && !s.Enqueue? ==> Work(Next(p, s)) == Work(p)
    ensures s.PollEmpty? ==> p.queue == map[]
  {
    match s {
      case Pop(t) => PopLessWork(p, at, t);
      case Finish(t, v) => FinishLessWork(p, at, t, v);
      case _ =>
    }
  }

  /** Left to itself with something always queued or running, the pool stops within Measure steps. */
  lemma {:induction false} AdvancingRunsAreFinite(p: Pool, at: map<nat, Place>, steps: seq<Step>)
    returns (at': map<nat, Place>)
    requires Invariant(p, at) && CanRun(p, steps)
    requires forall s :: s in steps ==> Advances(s)
    ensures Invariant(After(p, steps), at')
    ensures |steps| + Measure(After(p, steps)) <= Measure(p)
    decreases |steps|
  {
    if steps == [] {
      at' := at;
    } else {
      var s := steps[|steps| - 1];
      assert s in steps;
      var mid := AdvancingRunsAreFinite(p, at, steps[..|steps| - 1]);
      var q := After(p, steps[..|steps| - 1]);
      MeasureDecreases(q, mid, s);
      StepKeeps(q, mid, s);
      at' := Relocated(q, mid, s);
    }
  }

  function ProductiveCount(steps: seq<Step>): nat {
    if steps == [] then 0
    else ProductiveCount(steps[..|steps| - 1]) + if Productive(steps[|steps| - 1]) then 1 else 0
  }

  /** Without new tasks, a run from any reachable state pops, finishes and releases at most Work times. */
  lemma {:induction false} ProductiveStepsBounded(p: Pool, at: map<nat, Place>, steps: seq<Step>)
    returns (at': map<nat, Place>)
    requires Invariant(p, at) && CanRun(p, steps)
    requires forall s :: s in steps ==> !s.Enqueue?
    ensures Invariant(After(p, steps), at')
    ensures ProductiveCount(steps) + Work(After(p, steps)) <= Work(p)
    decreases |steps|
  {
    if steps == [] {
      at' := at;
    } else {
      var s := steps[|steps| - 1];
      assert s in steps;
      var mid := ProductiveStepsBounded(p, at, steps[..|steps| - 1]);
      var q := After(p, steps[..|steps| - 1]);
      MeasureDecreases(q, mid, s);
      StepKeeps(q, mid, s);
      at' := Relocated(q, mid, s);
    }
  }

  lemma {:induction false} TopExists(tasks: set<Task>, queue: map<Task, int>) returns (t: Task)
    requires tasks != {} && tasks <= queue.Keys
    ensures t in tasks && forall u :: u in tasks ==> queue[u] <= queue[t]
    decreases tasks
  {
    var x :| x in tasks;
    if tasks == {x} {
      t := x;
    } else {
      var y := TopExists(tasks - {x}, queue);
      t := if queue[x] <= queue[y] then y else x;
    }
  }

  /**
   No deadlock: while work remains, a running pool with a polling loop and at least one permit always has
   a step that lowers the measure.
   */
  lemma SomeStepAdvances(p: Pool, at: map<nat, Place>) returns (s: Step)
    requires Invariant(p, at) && Work(p) > 0
    requires p.maxConcurrent > 0 && p.atHead + p.waiting + p.holding > 0
    ensures Advances(s) && Enabled(p, s)
  {
    if p.releasing > 0 {
      s := Release;
    } else if p.inFlight != {} {
      var t :| t in p.inFlight;
      s := Finish(t, TimedOut);
    } else {
      assert p.queue.Keys != {};
      if p.holding > 0 {
        var t := TopExists(p.queue.Keys, p.queue);
        s := Pop(t);
      } else if p.waiting > 0 {
        s := Acquire;
      } else {
        s := TestRunning;
      }
    }
  }

  lemma WeightsZero(ts: set<Task>, stage: nat)
    requires stage > 0 && Weights(ts, stage) == 0
    ensures ts == {}
  {
    if t :| t in ts {
      WeightsTake(ts, t, stage);
    }
  }

  /** When no work is left, every task ever enqueued has its result. */
  lemma DrainedMeansAnswered(p: Pool, at: map<nat, Place>)
    requires Invariant(p, at) && Work(p) == 0
    ensures forall id :: id in p.enqueued ==> HasResult(p, id)
  {
    WeightsZero(p.queue.Keys, 3);
    WeightsZero(p.inFlight, 2);
    forall id | id in p.enqueued
      ensures HasResult(p, id)
    {
      assert !at[id].Queued? && !at[id].Flying?;
      assert at[id].Done? && p.results[at[id].index].taskId == id;
    }
  }

  /** No step the pool takes by itself is possible. */
  ghost predicate AtRest(p: Pool) {
    forall s :: Advances(s) ==> !Enabled(p, s)
  }

  /** A reachable pool with permits and a live loop is at rest only when every enqueued task has its result. */
  lemma RestMeansAnswered(maxConcurrent: nat, handlers: set<string>, steps: seq<Step>)
    requires maxConcurrent > 0 && CanRun(Initial(maxConcurrent, handlers), steps)
    ensures var p := After(Initial(maxConcurrent, handlers), steps);
            p.atHead + p.waiting + p.holding > 0 && AtRest(p) ==> forall id :: id in p.enqueued ==> HasResult(p, id)
  {
    var p := After(Initial(maxConcurrent, handlers), steps);
    var at := RunKeeps(maxConcurrent, handlers, steps);
    if p.atHead + p.waiting + p.holding > 0 && AtRest(p) {
      if Work(p) > 0 {
        var s := SomeStepAdvances(p, at);
      }
      DrainedMeansAnswered(p, at);
    }
  }

  /** Where in the run tasks were popped. */
  ghost function Pops(steps: seq<Step>): set<nat> {
    set i: nat | i < |steps| && steps[i].Pop?
  }

  lemma PopsMore(steps: seq<Step>, s: Step)
    ensures |Pops(steps + [s])| == |Pops(steps)| + if s.Pop? then 1 else 0
  {
    assert Pops(steps + [s]) == Pops(steps) + if s.Pop? then {|steps|} else {};
  }

  /** A stopped pool that is not started again takes at most one more task for each loop already past its test. */
  lemma {:induction false} StoppedPoolWindsDown(p: Pool, steps: seq<Step>)
    requires !p.running && CanRun(p, steps)
    requires forall s :: s in steps ==> !s.Start?
    ensures var q := After(p, steps);
            !q.running && |Pops(steps)| + q.waiting + q.holding <= p.waiting + p.holding
    decreases |steps|
  {
    if steps == [] {
      assert Pops(steps) == {};
    } else {
      var init, last := steps[..|steps| - 1], steps[|steps| - 1];
      assert last in steps && steps == init + [last];
      StoppedPoolWindsDown(p, init);
      PopsMore(init, last);
      StoppedStep(After(p, init), last);
    }
  }

  lemma StoppedStep(p: Pool, s: Step)
    requires !p.running && Enabled(p, s) && !s.Start?
    ensures var q := Next(p, s);
            !q.running && (if s.Pop? then 1 else 0) + q.waiting + q.holding <= p.waiting + p.holding
  {
  }

  function Loops(p: Pool): nat {
    p.atHead + p.waiting + p.holding
  }

  /** Loops are neither lost nor multiplied: one comes with each start, and one goes when it finds the pool stopped. */
  lemma LoopsAreConserved(p: Pool, s: Step)
    requires Enabled(p, s)
    ensures Loops(Next(p, s)) == Loops(p) + (if s.Start? then 1 else 0) - if s.TestRunning? && !p.running then 1 else 0
  {
  }

  /** Starting sets the pool running with one more loop at its head; stopping only unsets it. */
  lemma StartAndStop(p: Pool)
    ensures var q := Next(p, Start); q.running && q == p.(running := q.running, atHead := p.atHead + 1)
    ensures var q := Next(p, Stop); !q.running && q == p.(running := q.running)
  {
  }

  /** At its head a loop goes on while the pool runs and leaves once it is stopped. */
  lemma LoopHead(p: Pool)
    requires p.atHead > 0
    ensures var q := Next(p, TestRunning);
            && q.atHead + q.waiting + q.holding == p.atHead + p.waiting + p.holding - (if p.running then 0 else 1)
            && q == p.(atHead := q.atHead, waiting := q.waiting)
  {
  }

  /** With zero permits configured nothing is ever popped: no enqueued task gets a result. */
  lemma {:induction false} NoPermitsNoResults(handlers: set<string>, steps: seq<Step>)
    requires CanRun(Initial(0, handlers), steps)
    ensures After(Initial(0, handlers), steps).results == []
    decreases |steps|
  {
    if steps == [] {
    } else {
      NoPermitsNoResults(handlers, steps[..|steps| - 1]);
      var at := RunKeeps(0, handlers, steps[..|steps| - 1]);
    }
  }
}
