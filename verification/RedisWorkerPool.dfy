/** The pool as an object: each method is one atomic step of the protocol, on mutable fields. */
module RedisWorkers {
  import opened Prelude
  import opened WorkerPool

  /** Finishing, part by part. */
  lemma FinishedInParts(p: Pool, t: Task, v: Verdict, q: Pool)
    requires t in p.inFlight
    requires q == p.(inFlight := p.inFlight - {t}, releasing := p.releasing + 1,
                     queue := q.queue, results := q.results, runs := q.runs)
    requires var again := t.(retryCount := t.retryCount + 1);
             q.queue == if Retries(p, t, v) then p.queue[again := Score(again)] else p.queue
    requires q.results == if Retries(p, t, v) then p.results
                          else p.results + [StoredResult(t, t.taskType in p.handlers, v)]
    requires q.runs == if t.taskType in p.handlers then p.runs[t.id := Count(p.runs, t.id) + 1] else p.runs
    ensures q == Next(p, Finish(t, v))
  {
  }

  class RedisWorkerPool {
    const maxConcurrent: nat
    var handlers: set<string>
    var running: bool
    var atHead: nat
    var waiting: nat
    var holding: nat
    var permits: nat
    var queue: map<Task, int>
    var inFlight: set<Task>
    var releasing: nat
    var results: seq<TaskResult>
    ghost var enqueued: map<nat, Task>
    ghost var runs: map<nat, nat>
    ghost var at: map<nat, Place>

    /** Every enqueued id is in one place, no permit is lost, and no task has run more often than it may. */
    ghost predicate Valid()
      reads this
    {
      Invariant(State(), at)
    }

    ghost function State(): Pool
      reads this
    {
      Pool(maxConcurrent, handlers, running, atHead, waiting, holding, permits, queue, inFlight, releasing, results,
           enqueued, runs)
    }

    constructor (maxConcurrent: nat, handlers: set<string>)
      ensures Valid() && State() == Initial(maxConcurrent, handlers)
    {
      this.maxConcurrent, this.handlers := maxConcurrent, handlers;
      running, atHead, waiting, holding, permits := false, 0, 0, 0, maxConcurrent;
      queue, inFlight, releasing, results := map[], {}, 0, [];
      enqueued, runs, at := map[], map[], map[];
    }

    /** Accounts for one whole step. */
    ghost method Account(before: Pool, s: Step)
      requires Invariant(before, at) && Enabled(before, s) && FreshId(before, s) && State() == Next(before, s)
      modifies this`at
      ensures Valid()
    {
      StepKeeps(before, at, s);
      at := Relocated(before, at, s);
    }

    method Start()
      requires Valid()
      modifies this
      ensures Valid()
      ensures State() == Next(old(State()), Step.Start)
    {
      ghost var p := State();
      running, atHead := true, atHead + 1;
      Account(p, Step.Start);
    }

    method Stop()
      requires Valid()
      modifies this
      ensures Valid()
      ensures State() == Next(old(State()), Step.Stop)
    {
      ghost var p := State();
      running := false;
      Account(p, Step.Stop);
    }

    method EnqueueTask(task: Task)
      modifies this
      ensures State() == Next(old(State()), Enqueue(task))
      ensures old(Valid()) && task.id !in old(enqueued) ==> Valid()
    {
      ghost var p := State();
      queue := queue[task := -task.priority];
      enqueued := enqueued[task.id := task];
      if Invariant(p, at) && task.id !in p.enqueued {
        Account(p, Enqueue(task));
      }
    }

    /** The loop head: test `running`, then go on to wait for a permit. */
    method TestRunning()
      requires atHead > 0
      requires Valid()
      modifies this
      ensures Valid()
      ensures State() == Next(old(State()), Step.TestRunning)
    {
      ghost var p := State();
      atHead := atHead - 1;
      if running {
        waiting := waiting + 1;
      }
      Account(p, Step.TestRunning);
    }

    method Acquire()
      requires waiting > 0 && permits > 0
      requires Valid()
      modifies this
      ensures Valid()
      ensures State() == Next(old(State()), Step.Acquire)
    {
      ghost var p := State();
      waiting, holding, permits := waiting - 1, holding + 1, permits - 1;
      Account(p, Step.Acquire);
    }

    /** Polls with a permit: spawn the popped task with it, or give it back. */
    method Poll() returns (task: Option<Task>)
      requires holding > 0
      requires Valid()
      modifies this
      ensures Valid()
      ensures task.Some? <==> old(queue) != map[]
      ensures task.None? ==> State() == Next(old(State()), PollEmpty)
      ensures task.Some? ==> HasTopScore(old(queue), task.value) && State() == Next(old(State()), Pop(task.value))
    {
      ghost var p := State();
      task := TakeTask();
      Account(p, if task.None? then PollEmpty else Pop(task.value));
    }

    method TakeTask() returns (task: Option<Task>)
      requires holding > 0
      modifies this`queue, this`inFlight, this`holding, this`permits, this`atHead
      ensures task.Some? <==> old(queue) != map[]
      ensures task.None? ==> State() == Next(old(State()), PollEmpty)
      ensures task.Some? ==> HasTopScore(old(queue), task.value) && State() == Next(old(State()), Pop(task.value))
    {
      task := PopMax();
      holding, atHead := holding - 1, atHead + 1;
      match task
      case None => permits := permits + 1;
      case Some(t) => inFlight := inFlight + {t};
    }

    /** `zpopmax` */
    method PopMax() returns (task: Option<Task>)
      modifies this`queue
      ensures task.None? ==> queue == old(queue) == map[]
      ensures task.Some? ==> HasTopScore(old(queue), task.value) && queue == old(queue) - {task.value}
    {
      if queue == map[] {
        return None;
      }
      ghost var top := TopExists(queue.Keys, queue);
      var t :| t in queue && forall u :: u in queue ==> queue[u] <= queue[t];
      queue := queue - {t};
      task := Some(t);
    }

    /** `process_task`, given what the handler did within its timeout. */
    method ProcessTask(task: Task, verdict: Verdict)
      requires task in inFlight
      requires Valid()
      modifies this
      ensures Valid()
      ensures State() == Next(old(State()), Finish(task, verdict))
    {
      ghost var p := State();
      HandleTask(task, verdict);
      Account(p, Finish(task, verdict));
    }

    method HandleTask(task: Task, verdict: Verdict)
      requires task in inFlight
      modifies this`inFlight, this`releasing, this`runs, this`queue, this`results
      ensures State() == Next(old(State()), Finish(task, verdict))
    {
      ghost var p := State();
      inFlight, releasing := inFlight - {task}, releasing + 1;
      if task.taskType in handlers {
        runs := runs[task.id := Count(runs, task.id) + 1];
        HandleVerdict(task, verdict);
      } else {
        StoreTaskResult(task.id, None, Some("No handler"));
      }
      FinishedInParts(p, task, verdict, State());
    }

    /** The three outcomes of a handler: an output, an error that may be retried, a timeout. */
    method HandleVerdict(task: Task, verdict: Verdict)
      modifies this`queue, this`results
      ensures var again := verdict.Failed? && task.retryCount < task.maxRetries;
              var retry := task.(retryCount := task.retryCount + 1);
              && queue == (if again then old(queue)[retry := Score(retry)] else old(queue))
              && results == (if again then old(results) else old(results) + [StoredResult(task, true, verdict)])
    {
      match verdict
      case Output(value) => StoreTaskResult(task.id, Some(value), None);
      case Failed(message) =>
        if task.retryCount < task.maxRetries {
          var retry := task.(retryCount := task.retryCount + 1);
          queue := queue[retry := -retry.priority];
        } else {
          StoreTaskResult(task.id, None, Some(message));
        }
      case TimedOut => StoreTaskResult(task.id, None, Some("Timeout"));
    }

    method StoreTaskResult(taskId: nat, result: Option<string>, error: Option<string>)
      modifies this`results
      ensures results == old(results) + [TaskResult(taskId, result, error)]
    {
      results := results + [TaskResult(taskId, result, error)];
    }

    method DropPermit()
      requires releasing > 0
      requires Valid()
      modifies this
      ensures Valid()
      ensures State() == Next(old(State()), Release)
    {
      ghost var p := State();
      releasing, permits := releasing - 1, permits + 1;
      Account(p, Release);
    }
  }
}
