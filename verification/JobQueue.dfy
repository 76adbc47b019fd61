/**
 The retrying job queue (its in-memory form) and the workers that poll it. A job's number is the
 value of memorySeq that its id was made from, less one; payloads, results and times are left out.
 */
module JobQueue {
  import opened Sums

  datatype JobStatus = Queued | Active | Completed | Failed

  datatype Job = Job(queue: string, status: JobStatus, attempts: nat, maxAttempts: nat)

  datatype Queues = Queues(jobs: seq<Job>, waiting: map<string, seq<nat>>)

  /** memoryQueue: a queue that was never used is empty. */
  function Waiting(y: Queues, q: string): seq<nat> {
    if q in y.waiting then y.waiting[q] else []
  }

  /** options.maxAttempts || 3 */
  function Attempts(requested: nat): (n: nat)
    ensures n >= 1
  {
    if requested == 0 then 3 else requested
  }

  function Enqueue(y: Queues, q: string, maxAttempts: nat): Queues {
    Queues(y.jobs + [Job(q, Queued, 0, Attempts(maxAttempts))],
           y.waiting[q := Waiting(y, q) + [|y.jobs|]])
  }

  /** reserveJob on a queue that is not empty. */
  function Reserve(y: Queues, q: string): Queues
    requires Waiting(y, q) != [] && Waiting(y, q)[0] < |y.jobs|
  {
    var id := Waiting(y, q)[0];
    Queues(y.jobs[id := y.jobs[id].(status := Active, attempts := y.jobs[id].attempts + 1)],
           y.waiting[q := Waiting(y, q)[1..]])
  }

  function Complete(y: Queues, id: nat): Queues
    requires id < |y.jobs|
  {
    y.(jobs := y.jobs[id := y.jobs[id].(status := Completed)])
  }

  /** markJobFailed: back to the end of its queue, or failed when its attempts are used up. */
  function Fail(y: Queues, id: nat): Queues
    requires id < |y.jobs|
  {
    var job := y.jobs[id];
    if job.attempts >= job.maxAttempts then y.(jobs := y.jobs[id := job.(status := Failed)])
    else Queues(y.jobs[id := job.(status := Queued)], y.waiting[job.queue := Waiting(y, job.queue) + [id]])
  }

  // ---------------------------------------------------------------- the queue object

  class MemoryQueue {
    var jobs: seq<Job>
    var waiting: map<string, seq<nat>>

    ghost function State(): Queues
      reads this
    {
      Queues(jobs, waiting)
    }

    constructor ()
      ensures State() == Queues([], map[])
    {
      jobs, waiting := [], map[];
    }

    method EnqueueJob(queue: string, maxAttempts: nat) returns (id: nat)
      modifies this
      ensures State() == Enqueue(old(State()), queue, maxAttempts) && id == |old(jobs)|
    {
      id := |jobs|;
      jobs := jobs + [Job(queue, Queued, 0, if maxAttempts == 0 then 3 else maxAttempts)];
      waiting := waiting[queue := (if queue in waiting then waiting[queue] else []) + [id]];
    }

    method ReserveJob(queue: string) returns (id: nat, found: bool)
      requires forall k :: 0 <= k < |Waiting(State(), queue)| ==> Waiting(State(), queue)[k] < |jobs|
      modifies this
      ensures found <==> Waiting(old(State()), queue) != []
      ensures found ==> id == Waiting(old(State()), queue)[0] && State() == Reserve(old(State()), queue)
      ensures !found ==> State() == old(State())
    {
      if queue !in waiting || waiting[queue] == [] {
        return 0, false;
      }
      var list := waiting[queue];
      assert list == Waiting(State(), queue) && list[0] < |jobs|;
      id, found := list[0], true;
      waiting := waiting[queue := list[1..]];
      jobs := jobs[id := jobs[id].(status := Active, attempts := jobs[id].attempts + 1)];
    }

    method MarkJobCompleted(id: nat)
      modifies this
      ensures State() == if id < |old(jobs)| then Complete(old(State()), id) else old(State())
    {
      if id < |jobs| {
        jobs := jobs[id := jobs[id].(status := Completed)];
      }
    }

    /** job is the job object the worker holds, which is the stored one when it is stored at all. */
    method MarkJobFailed(id: nat, job: Job) returns (final: JobStatus)
      requires id < |jobs| ==> job == jobs[id]
      modifies this
      ensures State() == if id < |old(jobs)| then Fail(old(State()), id) else old(State())
      ensures final == Failed <==> job.attempts >= job.maxAttempts
      ensures final == Failed || final == Queued
      ensures id < |jobs| ==> final == jobs[id].status
    {
      final := if job.attempts >= job.maxAttempts then Failed else Queued;
      if id < |jobs| {
        jobs := jobs[id := job.(status := final)];
        if final == Queued {
          waiting := waiting[job.queue := (if job.queue in waiting then waiting[job.queue] else []) + [id]];
        }
      }
    }

    /** poll: reserve, process, and report; ok says whether processing returned or threw. */
    method Poll(queue: string, ok: bool)
      requires forall k :: 0 <= k < |Waiting(State(), queue)| ==> Waiting(State(), queue)[k] < |jobs|
      modifies this
      ensures State() == Polled(old(State()), queue, ok)
    {
      var id, found := ReserveJob(queue);
      if !found {
        return;
      }
      if ok {
        MarkJobCompleted(id);
      } else {
        var _ := MarkJobFailed(id, jobs[id]);
      }
    }
  }

  function Polled(y: Queues, q: string, ok: bool): Queues {
    if Waiting(y, q) == [] || Waiting(y, q)[0] >= |y.jobs| then y
    else
      var id := Waiting(y, q)[0];
      if ok then Complete(Reserve(y, q), id) else Fail(Reserve(y, q), id)
  }

  // ---------------------------------------------------------------- workers

  /** Each poller holds at most one job at a time: it reports on one before it reserves the next. */
  datatype System = System(queues: Queues, held: map<nat, nat>)

  datatype Step =
    | Submit(queue: string, maxAttempts: nat)
    | Take(worker: nat, queue: string)
    | Report(worker: nat, ok: bool)

  /** A step by the discipline of poll; a step that does not apply changes nothing. */
  function Next(y: System, t: Step): System {
    match t
    case Submit(q, n) => y.(queues := Enqueue(y.queues, q, n))
    case Take(w, q) =>
      if w in y.held || Waiting(y.queues, q) == [] || Waiting(y.queues, q)[0] >= |y.queues.jobs| then y
      else System(Reserve(y.queues, q), y.held[w := Waiting(y.queues, q)[0]])
    case Report(w, ok) =>
      if w !in y.held || y.held[w] >= |y.queues.jobs| then y
      else System(if ok then Complete(y.queues, y.held[w]) else Fail(y.queues, y.held[w]), y.held - {w})
  }

  function Work(y: System, steps: seq<Step>): System
  {
    if steps == [] then y else Next(Work(y, steps[..|steps| - 1]), steps[|steps| - 1])
  }

  /** How often job i waits in queue q: once in its own queue while queued, otherwise not at all. */
  function Expected(jobs: seq<Job>, q: string, i: nat): nat {
    if i < |jobs| && jobs[i].status == Queued && jobs[i].queue == q then 1 else 0
  }

  ghost predicate WaitsAsExpected(y: Queues, q: string, i: nat) {
    multiset(Waiting(y, q))[i] == Expected(y.jobs, q, i)
  }

  ghost predicate JobOk(j: Job) {
    && j.attempts <= j.maxAttempts && 1 <= j.maxAttempts
    && (j.status == Queued ==> j.attempts < j.maxAttempts)
    && (j.status == Failed ==> j.attempts == j.maxAttempts)
    && (j.status == Active || j.status == Completed ==> 1 <= j.attempts)
  }

  ghost predicate SystemOk(y: System) { QueuesOk(y.queues) && JobsOk(y.queues) && HeldOk(y.queues.jobs, y.held) }

  lemma WaitingExists(y: System, q: string, i: nat)
    requires SystemOk(y) && i in Waiting(y.queues, q)
    ensures i < |y.queues.jobs| && y.queues.jobs[i].status == Queued && y.queues.jobs[i].queue == q
  {
    assert i in multiset(Waiting(y.queues, q));
    assert WaitsAsExpected(y.queues, q, i);
  }

  ghost predicate QueuesOk(y: Queues) { forall q, i :: WaitsAsExpected(y, q, i) }

  ghost predicate JobsOk(y: Queues) { forall i :: 0 <= i < |y.jobs| ==> JobOk(y.jobs[i]) }

  ghost predicate IsHeld(held: map<nat, nat>, i: nat) { exists w :: w in held && held[w] == i }

  ghost predicate HeldOk(jobs: seq<Job>, held: map<nat, nat>) {
    && (forall w :: w in held ==> held[w] < |jobs| && jobs[held[w]].status == Active)
    && (forall v, w :: v in held && w in held && v != w ==> held[v] != held[w])
    && (forall i :: 0 <= i < |jobs| && jobs[i].status == Active ==> IsHeld(held, i))
  }

  lemma CountAppend(s: seq<nat>, x: nat, i: nat)
    ensures multiset(s + [x])[i] == multiset(s)[i] + if i == x then 1 else 0
  {
  }

  lemma EnqueueWaits(y: Queues, q: string, n: nat)
    requires QueuesOk(y)
    ensures QueuesOk(Enqueue(y, q, n))
  {
    var y' := Enqueue(y, q, n);
    forall r, i
      ensures WaitsAsExpected(y', r, i)
    {
      assert WaitsAsExpected(y, r, i);
      CountAppend(Waiting(y, q), |y.jobs|, i);
    }
  }

  lemma ReserveWaits(y: Queues, q: string)
    requires QueuesOk(y) && Waiting(y, q) != []
    ensures Waiting(y, q)[0] < |y.jobs| && y.jobs[Waiting(y, q)[0]].status == Queued
    ensures QueuesOk(Reserve(y, q))
  {
    var list := Waiting(y, q);
    assert list == [list[0]] + list[1..];
    assert list[0] in multiset(list) && WaitsAsExpected(y, q, list[0]);
    forall r, i
      ensures WaitsAsExpected(Reserve(y, q), r, i)
    {
      assert WaitsAsExpected(y, r, i);
    }
  }

  /** Changing the status of one job and what waits in its queue. */
  lemma ChangeWaits(y: Queues, y': Queues, id: nat)
    requires QueuesOk(y) && id < |y.jobs| && |y'.jobs| == |y.jobs| && y'.jobs[id].queue == y.jobs[id].queue
    requires forall i :: 0 <= i < |y.jobs| && i != id ==> y'.jobs[i] == y.jobs[i]
    requires forall r :: r != y.jobs[id].queue ==> Waiting(y', r) == Waiting(y, r)
    requires forall i :: WaitsAsExpected(y', y.jobs[id].queue, i)
    ensures QueuesOk(y')
  {
    hide Waiting;
    forall r, i
      ensures WaitsAsExpected(y', r, i)
    {
      assert WaitsAsExpected(y, r, i);
    }
  }

  lemma CompleteWaits(y: Queues, id: nat)
    requires QueuesOk(y) && id < |y.jobs| && y.jobs[id].status == Active
    ensures QueuesOk(Complete(y, id))
  {
    hide Waiting;
    var y' := Complete(y, id);
    assert forall r :: Waiting(y', r) == Waiting(y, r) by { SameWaiting(y, y'); }
    forall r, i
      ensures WaitsAsExpected(y', r, i)
    {
      assert WaitsAsExpected(y, r, i);
    }
  }

  lemma SameWaiting(y: Queues, y': Queues)
    requires y'.waiting == y.waiting
    ensures forall r :: Waiting(y', r) == Waiting(y, r)
  {
  }

  lemma FailWaits(y: Queues, id: nat)
    requires QueuesOk(y) && id < |y.jobs| && y.jobs[id].status == Active
    ensures QueuesOk(Fail(y, id))
  {
    var y', q := Fail(y, id), y.jobs[id].queue;
    forall i: nat
      ensures WaitsAsExpected(y', q, i)
    {
      assert WaitsAsExpected(y, q, i);
      CountAppend(Waiting(y, q), id, i);
    }
    ChangeWaits(y, y', id);
  }

  lemma SubmitHeld(jobs: seq<Job>, held: map<nat, nat>, job: Job)
    requires HeldOk(jobs, held) && job.status == Queued
    ensures HeldOk(jobs + [job], held)
  {
    var jobs' := jobs + [job];
    forall i | 0 <= i < |jobs'| && jobs'[i].status == Active
      ensures IsHeld(held, i)
    {
      assert jobs[i].status == Active;
    }
  }

  lemma TakeHeld(jobs: seq<Job>, held: map<nat, nat>, w: nat, id: nat, job: Job)
    requires HeldOk(jobs, held) && w !in held && id < |jobs| && jobs[id].status != Active && job.status == Active
    ensures HeldOk(jobs[id := job], held[w := id])
  {
    var jobs', held' := jobs[id := job], held[w := id];
    forall i | 0 <= i < |jobs'| && jobs'[i].status == Active
      ensures IsHeld(held', i)
    {
      if i == id {
        assert held'[w] == id;
      } else {
        assert jobs[i].status == Active;
        var v :| v in held && held[v] == i;
        assert held'[v] == i;
      }
    }
  }

  lemma ReportHeld(jobs: seq<Job>, held: map<nat, nat>, w: nat, job: Job)
    requires HeldOk(jobs, held) && w in held && job.status != Active
    ensures HeldOk(jobs[held[w] := job], held - {w})
  {
    var jobs', held' := jobs[held[w] := job], held - {w};
    forall i | 0 <= i < |jobs'| && jobs'[i].status == Active
      ensures IsHeld(held', i)
    {
      assert jobs[i].status == Active;
      var v :| v in held && held[v] == i;
      assert v in held' && held'[v] == i;
    }
  }

  lemma NextJobs(y: System, t: Step)
    requires JobsOk(y.queues) && HeldOk(y.queues.jobs, y.held)
    requires t.Take? && Waiting(y.queues, t.queue) != [] && Waiting(y.queues, t.queue)[0] < |y.queues.jobs| ==>
               y.queues.jobs[Waiting(y.queues, t.queue)[0]].status == Queued
    ensures JobsOk(Next(y, t).queues)
  {
    hide Waiting;
  }

  lemma NextOk(y: System, t: Step)
    requires SystemOk(y)
    ensures SystemOk(Next(y, t))
  {
    hide QueuesOk, JobsOk, HeldOk, Waiting;
    var jobs, held := y.queues.jobs, y.held;
    match t
    case Submit(q, n) =>
      EnqueueWaits(y.queues, q, n);
      NextJobs(y, t);
      SubmitHeld(jobs, held, Job(q, Queued, 0, Attempts(n)));
    case Take(w, q) =>
      if w !in held && Waiting(y.queues, q) != [] {
        ReserveWaits(y.queues, q);
        NextJobs(y, t);
        var id := Waiting(y.queues, q)[0];
        TakeHeld(jobs, held, w, id, jobs[id].(status := Active, attempts := jobs[id].attempts + 1));
      }
    case Report(w, ok) =>
      if w in held {
        HeldIsActive(jobs, held, w);
        if ok {
          CompleteWaits(y.queues, held[w]);
        } else {
          FailWaits(y.queues, held[w]);
        }
        NextJobs(y, t);
        ReportHeld(jobs, held, w, Next(y, t).queues.jobs[held[w]]);
      }
  }

  lemma HeldIsActive(jobs: seq<Job>, held: map<nat, nat>, w: nat)
    requires HeldOk(jobs, held) && w in held
    ensures held[w] < |jobs| && jobs[held[w]].status == Active
  {
  }

  /**
   Whatever the workers do: a job waits exactly once, and in its own queue, exactly while it is queued;
   it is held by exactly one worker exactly while it is active; attempts never exceed the maximum, and
   failed means the maximum was used.
   */
  lemma {:induction false} WorkOk(y: System, steps: seq<Step>)
    requires SystemOk(y)
    ensures SystemOk(Work(y, steps))
    decreases |steps|
  {
    hide SystemOk, Next;
    if steps != [] {
      WorkOk(y, steps[..|steps| - 1]);
      NextOk(Work(y, steps[..|steps| - 1]), steps[|steps| - 1]);
    }
  }

  lemma EmptyOk()
    ensures SystemOk(System(Queues([], map[]), map[]))
  {
    var y := System(Queues([], map[]), map[]);
    forall q, i
      ensures WaitsAsExpected(y.queues, q, i)
    {
    }
  }

  /** The same, spelled out for one job of a system that started empty. */
  lemma QueueSafety(steps: seq<Step>, i: nat, q: string)
    ensures var y := Work(System(Queues([], map[]), map[]), steps);
            i < |y.queues.jobs| ==>
              var job := y.queues.jobs[i];
              && multiset(Waiting(y.queues, q))[i] == (if job.status == Queued && q == job.queue then 1 else 0)
              && (job.status == Active <==> exists w :: w in y.held && y.held[w] == i)
              && (forall v, w :: v in y.held && w in y.held && y.held[v] == i && y.held[w] == i ==> v == w)
              && job.attempts <= job.maxAttempts && (job.status == Failed ==> job.attempts == job.maxAttempts)
  {
    hide Next;
    var y := Work(System(Queues([], map[]), map[]), steps);
    EmptyOk();
    WorkOk(System(Queues([], map[]), map[]), steps);
    if i < |y.queues.jobs| {
      assert WaitsAsExpected(y.queues, q, i) && JobOk(y.queues.jobs[i]);
    }
  }

  /** A poll is two steps of one worker: take a job, then report on it. */
  lemma PollIsTwoSteps(y: System, w: nat, q: string, ok: bool)
    requires SystemOk(y) && w !in y.held
    ensures Work(y, [Take(w, q), Report(w, ok)]) == System(Polled(y.queues, q, ok), y.held)
  {
    hide SystemOk;
    var taken := Next(y, Take(w, q));
    assert [Take(w, q), Report(w, ok)][..1] == [Take(w, q)] && [Take(w, q)][..0] == [];
    assert Work(y, [Take(w, q)]) == taken;
    if Waiting(y.queues, q) != [] {
      WaitingExists(y, q, Waiting(y.queues, q)[0]);
      assert taken.held - {w} == y.held;
    }
  }

  // ---------------------------------------------------------------- what each step leads to

  /** A new job is last in its queue, with the attempts it asked for or 3; other queues are as they were. */
  lemma SubmitLeads(y: System, q: string, n: nat)
    ensures var y', id := Next(y, Submit(q, n)), |y.queues.jobs|;
            && y'.held == y.held
            && y'.queues.jobs == y.queues.jobs + [Job(q, Queued, 0, if n == 0 then 3 else n)]
            && Waiting(y'.queues, q) == Waiting(y.queues, q) + [id]
            && forall r :: r != q ==> Waiting(y'.queues, r) == Waiting(y.queues, r)
  {
  }

  /** A free worker takes the first waiting job, which becomes active with one more attempt. */
  lemma TakeLeads(y: System, w: nat, q: string)
    requires SystemOk(y) && w !in y.held
    ensures Waiting(y.queues, q) == [] ==> Next(y, Take(w, q)) == y
    ensures Waiting(y.queues, q) != [] ==>
              var y', id := Next(y, Take(w, q)), Waiting(y.queues, q)[0];
              && id < |y.queues.jobs|
              && y'.held == y.held[w := id]
              && (var job := y.queues.jobs[id];
                  y'.queues.jobs == y.queues.jobs[id := Job(q, Active, job.attempts + 1, job.maxAttempts)])
              && Waiting(y'.queues, q) == Waiting(y.queues, q)[1..]
              && forall r :: r != q ==> Waiting(y'.queues, r) == Waiting(y.queues, r)
  {
    if Waiting(y.queues, q) != [] {
      WaitingExists(y, q, Waiting(y.queues, q)[0]);
    }
  }

  /** A success completes the job, which keeps its attempts, and changes no queue. */
  lemma SuccessLeads(y: System, w: nat)
    requires SystemOk(y) && w in y.held
    ensures var y', id := Next(y, Report(w, true)), y.held[w];
            && id < |y.queues.jobs|
            && y'.held == y.held - {w}
            && (var job := y.queues.jobs[id];
                y'.queues.jobs == y.queues.jobs[id := Job(job.queue, Completed, job.attempts, job.maxAttempts)])
            && (forall r :: Waiting(y'.queues, r) == Waiting(y.queues, r) && id !in Waiting(y'.queues, r))
  {
    var id := y.held[w];
    HeldIsActive(y.queues.jobs, y.held, w);
    forall r
      ensures id !in Waiting(y.queues, r)
    {
      if id in Waiting(y.queues, r) {
        WaitingExists(y, r, id);
      }
    }
  }

  /** A failure puts the job last in its own queue while it has attempts left, and otherwise ends it. */
  lemma FailureLeads(y: System, w: nat)
    requires SystemOk(y) && w in y.held
    ensures var y', id := Next(y, Report(w, false)), y.held[w];
            && id < |y.queues.jobs|
            && y'.held == y.held - {w}
            && var job := y.queues.jobs[id];
               var again := job.attempts < job.maxAttempts;
               && y'.queues.jobs ==
                    y.queues.jobs[id := Job(job.queue, if again then Queued else Failed, job.attempts, job.maxAttempts)]
               && Waiting(y'.queues, job.queue) == Waiting(y.queues, job.queue) + (if again then [id] else [])
               && forall r :: r != job.queue ==> Waiting(y'.queues, r) == Waiting(y.queues, r)
  {
    HeldIsActive(y.queues.jobs, y.held, w);
  }

  lemma OneMoreStep(y: System, steps: seq<Step>, t: Step)
    ensures Work(y, steps + [t]) == Next(Work(y, steps), t)
  {
    assert (steps + [t])[..|steps|] == steps;
  }

  /** A poll takes the first waiting job; then it is completed, or waits last in the queue again, or has failed. */
  lemma PollLeads(y: System, w: nat, q: string, ok: bool)
    requires SystemOk(y) && w !in y.held && Waiting(y.queues, q) != []
    ensures var y', id := Polled(y.queues, q, ok), Waiting(y.queues, q)[0];
            && id < |y.queues.jobs|
            && var n, most := y.queues.jobs[id].attempts + 1, y.queues.jobs[id].maxAttempts;
               var again := !ok && n < most;
               var status := if ok then Completed else if again then Queued else Failed;
               && y'.jobs == y.queues.jobs[id := Job(q, status, n, most)]
               && Waiting(y', q) == Waiting(y.queues, q)[1..] + (if again then [id] else [])
               && forall r :: r != q ==> Waiting(y', r) == Waiting(y.queues, r)
  {
    hide SystemOk, Waiting, Polled;
    TakeLeads(y, w, q);
    var taken := Next(y, Take(w, q));
    NextOk(y, Take(w, q));
    if ok {
      SuccessLeads(taken, w);
    } else {
      FailureLeads(taken, w);
    }
    PollIsTwoSteps(y, w, q, ok);
    OneMoreStep(y, [], Take(w, q));
    OneMoreStep(y, [Take(w, q)], Report(w, ok));
    assert [] + [Take(w, q)] == [Take(w, q)] && [Take(w, q)] + [Report(w, ok)] == [Take(w, q), Report(w, ok)];
  }

  /** A job that succeeded stays completed with its attempts, waits nowhere and is held by nobody, for good. */
  lemma CompletedForGood(y: System, w: nat, steps: seq<Step>)
    requires SystemOk(y) && w in y.held
    ensures var z, id := Work(Next(y, Report(w, true)), steps), y.held[w];
            && id < |y.queues.jobs| && id < |z.queues.jobs|
            && z.queues.jobs[id].status == Completed && z.queues.jobs[id].attempts == y.queues.jobs[id].attempts
            && (forall r :: id !in Waiting(z.queues, r)) && !IsHeld(z.held, id)
  {
    hide Next;
    var y', id := Next(y, Report(w, true)), y.held[w];
    SuccessLeads(y, w);
    NextOk(y, Report(w, true));
    FinishedStays(y', steps, id);
    WorkOk(y', steps);
    var z := Work(y', steps);
    forall r
      ensures id !in Waiting(z.queues, r)
    {
      if id in Waiting(z.queues, r) {
        WaitingExists(z, r, id);
      }
    }
  }

  // ---------------------------------------------------------------- first in, first out

  /** The job that joins queue q in this step: a new one, or one that failed and has attempts left. */
  function JoinsNow(y: System, t: Step, q: string): seq<nat> {
    match t
    case Submit(r, _) => if r == q then [|y.queues.jobs|] else []
    case Take(_, _) => []
    case Report(w, ok) =>
      if w in y.held && y.held[w] < |y.queues.jobs| && !ok && y.queues.jobs[y.held[w]].queue == q
         && y.queues.jobs[y.held[w]].attempts < y.queues.jobs[y.held[w]].maxAttempts
      then [y.held[w]] else []
  }

  /** The job that a worker holds after this step because it took it from queue q. */
  function TakesNow(y: System, t: Step, q: string): seq<nat> {
    if t.Take? && t.queue == q && t.worker !in y.held && t.worker in Next(y, t).held
    then [Next(y, t).held[t.worker]] else []
  }

  function Joins(y: System, steps: seq<Step>, q: string): seq<nat>
  {
    if steps == [] then []
    else Joins(y, steps[..|steps| - 1], q) + JoinsNow(Work(y, steps[..|steps| - 1]), steps[|steps| - 1], q)
  }

  function Takes(y: System, steps: seq<Step>, q: string): seq<nat>
  {
    if steps == [] then []
    else Takes(y, steps[..|steps| - 1], q) + TakesNow(Work(y, steps[..|steps| - 1]), steps[|steps| - 1], q)
  }

  lemma NextInOrder(y: System, t: Step, q: string)
    requires SystemOk(y)
    ensures Waiting(y.queues, q) + JoinsNow(y, t, q) == TakesNow(y, t, q) + Waiting(Next(y, t).queues, q)
  {
    hide SystemOk, Waiting;
    match t
    case Submit(r, n) => SubmitLeads(y, r, n);
    case Take(w, r) =>
      if w !in y.held {
        TakeLeads(y, w, r);
      }
    case Report(w, ok) =>
      if w in y.held {
        if ok {
          SuccessLeads(y, w);
        } else {
          FailureLeads(y, w);
        }
      }
  }

  /**
   Jobs leave a queue in the order in which they joined it: what waited and what joined since is what was
   taken followed by what waits now.
   */
  lemma {:induction false} FirstInFirstOut(y: System, steps: seq<Step>, q: string)
    requires SystemOk(y)
    ensures Waiting(y.queues, q) + Joins(y, steps, q) == Takes(y, steps, q) + Waiting(Work(y, steps).queues, q)
    decreases |steps|
  {
    hide SystemOk, Next, Waiting, JoinsNow, TakesNow;
    if steps != [] {
      var init, t := steps[..|steps| - 1], steps[|steps| - 1];
      var z := Work(y, init);
      FirstInFirstOut(y, init, q);
      WorkOk(y, init);
      NextInOrder(z, t, q);
      var before, after := Waiting(y.queues, q), Waiting(z.queues, q);
      var joined, taken := Joins(y, init, q), Takes(y, init, q);
      assert before + (joined + JoinsNow(z, t, q)) == (before + joined) + JoinsNow(z, t, q);
      assert (taken + after) + JoinsNow(z, t, q) == taken + (after + JoinsNow(z, t, q));
      assert taken + (TakesNow(z, t, q) + Waiting(Next(z, t).queues, q)) ==
             (taken + TakesNow(z, t, q)) + Waiting(Next(z, t).queues, q);
    }
  }

  // ---------------------------------------------------------------- draining

  /** Reservations a job can still cause. */
  function AttemptsLeft(): Job -> int {
    (j: Job) => if j.status == Completed || j.status == Failed then 0 else j.maxAttempts - j.attempts
  }

  function AllLeft(y: System): int { SumBy(y.queues.jobs, AttemptsLeft()) }

  /** A step that really reserves a job. */
  predicate Reserves(y: System, t: Step) {
    t.Take? && t.worker !in y.held && Waiting(y.queues, t.queue) != []
    && Waiting(y.queues, t.queue)[0] < |y.queues.jobs|
  }

  function Reservations(y: System, steps: seq<Step>): nat
  {
    if steps == [] then 0
    else
      Reservations(y, steps[..|steps| - 1]) +
      if Reserves(Work(y, steps[..|steps| - 1]), steps[|steps| - 1]) then 1 else 0
  }

  lemma NextLeft(y: System, t: Step)
    requires SystemOk(y) && !t.Submit?
    ensures AllLeft(Next(y, t)) <= AllLeft(y) - (if Reserves(y, t) then 1 else 0)
  {
    hide SumBy;
    match t
    case Submit(_, _) =>
    case Take(w, q) =>
      if Reserves(y, t) {
        var id := Waiting(y.queues, q)[0];
        WaitingExists(y, q, id);
        SumUpdate(y.queues.jobs, id, Next(y, t).queues.jobs[id], AttemptsLeft());
      }
    case Report(w, ok) =>
      if w in y.held {
        SumUpdate(y.queues.jobs, y.held[w], Next(y, t).queues.jobs[y.held[w]], AttemptsLeft());
      }
  }

  lemma LeftNonNegative(y: System)
    requires SystemOk(y)
    ensures 0 <= AllLeft(y)
  {
    forall i | 0 <= i < |y.queues.jobs|
      ensures 0 <= AttemptsLeft()(y.queues.jobs[i])
    {
      assert JobOk(y.queues.jobs[i]);
    }
    SumNonNegative(y.queues.jobs, AttemptsLeft());
  }

  lemma {:induction false} WorkLeft(y: System, steps: seq<Step>)
    requires SystemOk(y) && forall i :: 0 <= i < |steps| ==> !steps[i].Submit?
    ensures Reservations(y, steps) + AllLeft(Work(y, steps)) <= AllLeft(y)
    decreases |steps|
  {
    hide SystemOk, Next, AllLeft, Reserves;
    if steps != [] {
      WorkLeft(y, steps[..|steps| - 1]);
      WorkOk(y, steps[..|steps| - 1]);
      NextLeft(Work(y, steps[..|steps| - 1]), steps[|steps| - 1]);
    }
  }

  /** Once nothing more is submitted, the queue drains: only so many reservations can still happen. */
  lemma QueueDrains(y: System, steps: seq<Step>)
    requires SystemOk(y) && forall i :: 0 <= i < |steps| ==> !steps[i].Submit?
    ensures Reservations(y, steps) <= AllLeft(y)
  {
    WorkLeft(y, steps);
    WorkOk(y, steps);
    LeftNonNegative(Work(y, steps));
  }

  /** A finished job is final: no step changes it. */
  lemma {:induction false} FinishedStays(y: System, steps: seq<Step>, i: nat)
    requires SystemOk(y) && i < |y.queues.jobs|
    requires y.queues.jobs[i].status == Completed || y.queues.jobs[i].status == Failed
    ensures i < |Work(y, steps).queues.jobs| && Work(y, steps).queues.jobs[i] == y.queues.jobs[i]
    decreases |steps|
  {
    if steps != [] {
      var before := Work(y, steps[..|steps| - 1]);
      FinishedStays(y, steps[..|steps| - 1], i);
      WorkOk(y, steps[..|steps| - 1]);
      var t := steps[|steps| - 1];
      if t.Take? && Waiting(before.queues, t.queue) != [] {
        WaitingExists(before, t.queue, Waiting(before.queues, t.queue)[0]);
      }
    }
  }
}
