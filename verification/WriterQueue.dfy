/** The single-consumer SQLite write queue of go-agent/orchestrator/writer_queue.go.

    Two views of the same code.  `DBWriterQueue` is the object itself, one method per source
    method.  `State`/`Apply` is the protocol: any number of goroutines calling Enqueue and Stop,
    interleaved with the worker, one statement at a time, with the read-write lock spelled out.
  */
module WriterQueue {
  import opened Wrappers

  // A queued function value; `NilTask` is Go's nil function, which executeTask skips.
  datatype Task = NilTask | Func(id: nat)

  // A task together with the goroutine whose Enqueue call submitted it.
  datatype Job = Job(caller: nat, task: Task)

  const DEFAULT_BUFFER: nat := 128

  // The non-blocking send of Enqueue: None when the channel buffer is full.
  function Offer(buffer: seq<Job>, capacity: nat, job: Job): Option<seq<Job>> {
    if |buffer| < capacity then Some(buffer + [job]) else None
  }

  // The function values that executeTask calls for these jobs, in order.
  function Calls(jobs: seq<Job>): seq<nat> {
    if jobs == [] then []
    else Calls(jobs[..|jobs| - 1]) +
         (match jobs[|jobs| - 1].task case NilTask => [] case Func(id) => [id])
  }

  lemma {:induction false} CallsConcat(a: seq<Job>, b: seq<Job>)
    ensures Calls(a + b) == Calls(a) + Calls(b)
  {
    if b == [] {
      assert a + b == a;
    } else {
      CallsConcat(a, b[..|b| - 1]);
      assert (a + b)[..|a + b| - 1] == a + b[..|b| - 1];
    }
  }

  // ---------------------------------------------------------------------------------------------
  // The object.

  class DBWriterQueue {
    const capacity: nat
    var taskChan: seq<Job>
    var closed: bool
    var stopped: bool
    ghost var accepted: seq<Job>
    var called: seq<nat>

    // Everything accepted so far is what has been run followed by what is still buffered.
    ghost predicate Valid()
      reads this
    {
      && |taskChan| <= capacity
      && closed == stopped
      && |taskChan| <= |accepted|
      && accepted[|accepted| - |taskChan|..] == taskChan
      && called == Calls(accepted[..|accepted| - |taskChan|])
    }

    constructor (bufferSize: int)
      ensures Valid() && !stopped && taskChan == [] && accepted == [] && called == []
      ensures capacity == if bufferSize <= 0 then 128 else bufferSize
    {
      var size := bufferSize;
      if size <= 0 {
        size := DEFAULT_BUFFER;
      }
      capacity := size;
      taskChan, accepted, called := [], [], [];
      closed, stopped := false, false;
    }

    method Enqueue(job: Job) returns (ok: bool)
      requires Valid()
      modifies this
      ensures Valid() && unchanged(`closed, `stopped, `called)
      ensures ok <==> !old(stopped) && |old(taskChan)| < capacity
      ensures taskChan == if ok then old(taskChan) + [job] else old(taskChan)
      ensures accepted == if ok then old(accepted) + [job] else old(accepted)
    {
      if stopped {
        return false;
      }
      match Offer(taskChan, capacity, job)
      case Some(buffer) =>
        taskChan := buffer;
        accepted := accepted + [job];
        assert accepted[..|accepted| - |taskChan|] == old(accepted)[..|old(accepted)| - |old(taskChan)|];
        return true;
      case None =>
        return false;
    }

    // A nil task is skipped; a task that fails or panics is logged and otherwise counts as run.
    method ExecuteTask(job: Job)
      modifies `called
      ensures called == old(called) + Calls([job])
    {
      if job.task == NilTask {
        return;
      }
      called := called + [job.task.id];
    }

    // `range taskChan` on a closed channel: drain the buffer, then return.
    method WorkerLoop()
      requires Valid() && closed
      modifies this
      ensures Valid() && unchanged(`closed, `stopped, `accepted)
      ensures taskChan == [] && called == Calls(accepted)
    {
      while taskChan != []
        invariant Valid() && closed == old(closed) && stopped == old(stopped) && accepted == old(accepted)
        decreases |taskChan|
      {
        var job := taskChan[0];
        ghost var done := |accepted| - |taskChan|;
        assert accepted[done] == job && accepted[..done + 1] == accepted[..done] + [job];
        CallsConcat(accepted[..done], [job]);
        assert accepted[done + 1..] == accepted[done..][1..];
        taskChan := taskChan[1..];
        ExecuteTask(job);
      }
      assert accepted[..|accepted|] == accepted;
    }

    // Sequential Stop: waiting for the worker is running it to its end.
    method Stop()
      requires Valid()
      modifies this
      ensures Valid() && stopped && accepted == old(accepted)
      ensures if old(stopped) then unchanged(this) else taskChan == [] && called == Calls(accepted)
    {
      if stopped {
        return;
      }
      stopped := true;
      closed := true;
      WorkerLoop();
    }
  }

  // ---------------------------------------------------------------------------------------------
  // The protocol.

  // Program counters of a goroutine inside Enqueue or Stop.
  datatype Caller =
    | EnqStart(job: Job)      // before RLock
    | EnqHeld(job: Job)       // read lock held, stopped not yet read
    | EnqOpen(job: Job)       // saw stopped == false, about to send
    | EnqLeaving(ok: bool)    // result decided, read lock still held
    | EnqDone(ok: bool)       // returned
    | StopStart               // before Lock
    | StopHeld                // write lock held, stopped not yet read
    | StopMarked              // set stopped, about to close the channel
    | StopClosed              // closed the channel, write lock still held
    | StopWaiting             // lock released, waiting for the worker
    | StopFirstDone           // returned from the wait
    | StopSeen                // saw stopped == true, write lock still held
    | StopEarlyDone           // returned without waiting
  {
    predicate Reads() { EnqHeld? || EnqOpen? || EnqLeaving? }
    predicate Writes() { StopHeld? || StopMarked? || StopClosed? || StopSeen? }
    predicate Accepted() { (EnqLeaving? || EnqDone?) && ok }
    predicate Winner() { StopMarked? || StopClosed? || StopWaiting? || StopFirstDone? }
  }

  datatype Worker = Ready | Busy(job: Job) | Exited

  datatype State = State(
    capacity: nat,
    callers: map<nat, Caller>,
    buffer: seq<Job>,
    closed: bool,
    stopped: bool,
    crashed: bool,             // a send on, or a second close of, a closed channel
    worker: Worker,
    winner: Option<nat>,       // history: the Stop call that set `stopped`
    accepted: seq<Job>,        // history: jobs sent on the channel
    finished: seq<Job>         // history: jobs whose executeTask has returned
  )

  datatype Step = CallEnqueue(id: nat, task: Task) | CallStop(id: nat) | Advance(id: nat) | Work

  function Initial(capacity: nat): State {
    State(capacity, map[], [], false, false, false, Ready, None, [], [])
  }

  predicate CanAdvance(s: State, id: nat) {
    id in s.callers &&
    match s.callers[id]
    case EnqStart(_) => forall j :: j in s.callers ==> !s.callers[j].Writes()
    case StopStart => forall j :: j in s.callers ==> !s.callers[j].Writes() && !s.callers[j].Reads()
    case StopWaiting => s.worker == Exited
    case EnqDone(_) => false
    case StopFirstDone => false
    case StopEarlyDone => false
    case _ => true
  }

  predicate Enabled(s: State, step: Step) {
    match step
    case CallEnqueue(id, _) => id !in s.callers
    case CallStop(id) => id !in s.callers
    case Advance(id) => CanAdvance(s, id)
    case Work => s.worker.Busy? || (s.worker.Ready? && (s.buffer != [] || s.closed))
  }

  function NextPc(s: State, c: Caller): Caller {
    match c
    case EnqStart(job) => EnqHeld(job)
    case EnqHeld(job) => if s.stopped then EnqLeaving(false) else EnqOpen(job)
    case EnqOpen(job) => EnqLeaving(!s.closed && Offer(s.buffer, s.capacity, job).Some?)
    case EnqLeaving(ok) => EnqDone(ok)
    case StopStart => StopHeld
    case StopHeld => if s.stopped then StopSeen else StopMarked
    case StopMarked => StopClosed
    case StopClosed => StopWaiting
    case StopWaiting => StopFirstDone
    case StopSeen => StopEarlyDone
    case _ => c
  }

  // The effect of a caller's next statement on the shared fields.
  function AdvanceCaller(s: State, id: nat): State
    requires CanAdvance(s, id)
  {
    var c := s.callers[id];
    var t := s.(callers := s.callers[id := NextPc(s, c)]);
    match c
    case EnqOpen(job) =>
      if s.closed then t.(crashed := true)
      else if NextPc(s, c).ok then t.(buffer := Offer(s.buffer, s.capacity, job).value, accepted := s.accepted + [job])
      else t
    case StopHeld => if s.stopped then t else t.(stopped := true, winner := Some(id))
    case StopMarked => if s.closed then t.(crashed := true) else t.(closed := true)
    case _ => t
  }

  // One worker move: finish the task in hand, else receive one, else leave the closed channel.
  function WorkerMove(s: State): State {
    match s.worker
    case Busy(job) => s.(worker := Ready, finished := s.finished + [job])
    case Ready =>
      if s.buffer != [] then s.(worker := Busy(s.buffer[0]), buffer := s.buffer[1..])
      else s.(worker := Exited)
    case Exited => s
  }

  function Apply(s: State, step: Step): State
    requires Enabled(s, step)
  {
    match step
    case CallEnqueue(id, task) => s.(callers := s.callers[id := EnqStart(Job(id, task))])
    case CallStop(id) => s.(callers := s.callers[id := StopStart])
    case Advance(id) => AdvanceCaller(s, id)
    case Work => WorkerMove(s)
  }

  // A run of a new queue is a list of steps, each enabled where it is taken.
  predicate IsRun(capacity: nat, steps: seq<Step>)
    decreases |steps|, 0
  {
    steps == [] ||
    (IsRun(capacity, steps[..|steps| - 1]) &&
     Enabled(Exec(capacity, steps[..|steps| - 1]), steps[|steps| - 1]))
  }

  function Exec(capacity: nat, steps: seq<Step>): State
    requires IsRun(capacity, steps)
    decreases |steps|, 1
  {
    if steps == [] then Initial(capacity)
    else Apply(Exec(capacity, steps[..|steps| - 1]), steps[|steps| - 1])
  }

  function InFlight(s: State): seq<Job> {
    if s.worker.Busy? then [s.worker.job] else []
  }

  ghost predicate LockInv(s: State) {
    forall i, j :: i in s.callers && j in s.callers && i != j && s.callers[i].Writes() ==>
      !s.callers[j].Writes() && !s.callers[j].Reads()
  }

  ghost predicate PcInv(s: State) {
    && (s.stopped <==> s.winner.Some?)
    && (s.stopped ==> s.winner.value in s.callers && s.callers[s.winner.value].Winner())
    && (s.closed <==> s.stopped && !s.callers[s.winner.value].StopMarked?)
    && (forall i :: i in s.callers ==> CallerInv(s, i, s.callers[i]))
  }

  ghost predicate CallerInv(s: State, i: nat, c: Caller) {
    && (c.EnqOpen? ==> !s.stopped)
    && (c.Winner() ==> s.winner == Some(i))
    && ((c.StopSeen? || c.StopEarlyDone?) ==> s.stopped)
    && (c.StopFirstDone? ==> s.worker.Exited?)
    && ((c.EnqStart? || c.EnqHeld? || c.EnqOpen?) ==> c.job.caller == i)
  }

  ghost predicate DataInv(s: State) {
    && !s.crashed
    && |s.buffer| <= s.capacity
    && (s.worker.Exited? ==> s.closed && s.buffer == [])
    && s.accepted == s.finished + InFlight(s) + s.buffer
  }

  // The accepted jobs are, one for one, those of the Enqueue calls that report success.
  ghost predicate AnswerInv(s: State) {
    && (forall k :: 0 <= k < |s.accepted| ==>
          s.accepted[k].caller in s.callers && s.callers[s.accepted[k].caller].Accepted())
    && (forall i :: i in s.callers && s.callers[i].Accepted() ==> Sent(s, i))
    && (forall k, l :: 0 <= k < l < |s.accepted| ==> s.accepted[k].caller != s.accepted[l].caller)
  }

  ghost predicate Sent(s: State, id: nat) {
    exists k :: 0 <= k < |s.accepted| && s.accepted[k].caller == id
  }

  ghost predicate Inv(s: State) {
    LockInv(s) && PcInv(s) && DataInv(s) && AnswerInv(s)
  }

  lemma LockInvStep(s: State, step: Step)
    requires LockInv(s) && Enabled(s, step)
    ensures LockInv(Apply(s, step))
  {
    if step.Advance? {
      var t := Apply(s, step);
      assert t.callers == s.callers[step.id := NextPc(s, s.callers[step.id])];
    }
  }

  lemma PcInvStep(s: State, step: Step)
    requires Inv(s) && Enabled(s, step)
    ensures PcInv(Apply(s, step))
  {
    var t := Apply(s, step);
    if step.Advance? {
      assert CallerInv(s, step.id, s.callers[step.id]);
      forall i | i in t.callers
        ensures CallerInv(t, i, t.callers[i])
      {
        assert CallerInv(s, i, s.callers[i]);
      }
    }
  }

  lemma DataInvStep(s: State, step: Step)
    requires Inv(s) && Enabled(s, step)
    ensures DataInv(Apply(s, step))
  {
    match step
    case Advance(id) => DataInvAdvance(s, id);
    case Work => DataInvWork(s);
    case _ =>
  }

  lemma DataInvAdvance(s: State, id: nat)
    requires PcInv(s) && DataInv(s) && CanAdvance(s, id)
    ensures DataInv(AdvanceCaller(s, id))
  {
    var t := AdvanceCaller(s, id);
    assert CallerInv(s, id, s.callers[id]);
    if s.callers[id].EnqOpen? && NextPc(s, s.callers[id]).ok {
      var more := [s.callers[id].job];
      assert s.finished + InFlight(s) + (s.buffer + more) == (s.finished + InFlight(s) + s.buffer) + more;
    }
  }

  lemma DataInvWork(s: State)
    requires DataInv(s) && Enabled(s, Work)
    ensures DataInv(WorkerMove(s))
  {
    if s.worker.Ready? && s.buffer != [] {
      assert s.buffer == [s.buffer[0]] + s.buffer[1..];
    }
  }

  // What a step does to the answers: nothing, or one successful send by the caller that moves.
  lemma AnswersStep(s: State, step: Step)
    requires Inv(s) && Enabled(s, step)
    ensures
      var t := Apply(s, step);
      && (forall i :: i in s.callers ==> i in t.callers && (s.callers[i].Accepted() ==> t.callers[i].Accepted()))
      && (t.accepted == s.accepted ==>
            forall i :: i in t.callers && t.callers[i].Accepted() ==> i in s.callers && s.callers[i].Accepted())
      && (t.accepted != s.accepted ==>
            && step.Advance? && t.accepted == s.accepted + [Job(step.id, s.callers[step.id].job.task)]
            && s.callers[step.id].EnqOpen? && t.callers == s.callers[step.id := EnqLeaving(true)])
  {
    if step.Advance? {
      assert CallerInv(s, step.id, s.callers[step.id]);
    }
  }

  lemma AnswerInvStep(s: State, step: Step)
    requires Inv(s) && Enabled(s, step)
    ensures AnswerInv(Apply(s, step))
  {
    AnswersStep(s, step);
    AnswersKept(s, Apply(s, step));
  }

  lemma AnswersKept(s: State, t: State)
    requires AnswerInv(s)
    requires forall i :: i in s.callers ==> i in t.callers && (s.callers[i].Accepted() ==> t.callers[i].Accepted())
    requires t.accepted == s.accepted ==>
               forall i :: i in t.callers && t.callers[i].Accepted() ==> i in s.callers && s.callers[i].Accepted()
    requires t.accepted != s.accepted ==>
               exists id, task :: id in s.callers && s.callers[id].EnqOpen? &&
                 t.accepted == s.accepted + [Job(id, task)] && t.callers == s.callers[id := EnqLeaving(true)]
    ensures AnswerInv(t)
  {
    forall i | i in t.callers && t.callers[i].Accepted()
      ensures Sent(t, i)
    {
      if i in s.callers && s.callers[i].Accepted() {
        var k :| 0 <= k < |s.accepted| && s.accepted[k].caller == i;
        assert t.accepted[k].caller == i;
      } else {
        assert t.accepted[|s.accepted|].caller == i;
      }
    }
  }

  lemma {:induction false} InvRun(capacity: nat, steps: seq<Step>)
    requires IsRun(capacity, steps)
    ensures Inv(Exec(capacity, steps))
  {
    if steps != [] {
      var before := steps[..|steps| - 1];
      InvRun(capacity, before);
      var s, step := Exec(capacity, before), steps[|steps| - 1];
      LockInvStep(s, step);
      PcInvStep(s, step);
      DataInvStep(s, step);
      AnswerInvStep(s, step);
    }
  }

  /** Safety of every interleaving from a new queue: no send on (or second close of) a closed
      channel, the buffer within capacity, the accepted jobs exactly finished ++ running ++ buffered,
      in order, and an Enqueue call reports success exactly when its job is among them, once. */
  lemma SafeUnderEveryInterleaving(capacity: nat, steps: seq<Step>)
    requires IsRun(capacity, steps)
    ensures
      var s := Exec(capacity, steps);
      && !s.crashed
      && |s.buffer| <= s.capacity
      && s.accepted == s.finished + InFlight(s) + s.buffer
      && (forall k, l :: 0 <= k < l < |s.accepted| ==> s.accepted[k].caller != s.accepted[l].caller)
      && (forall i :: i in s.callers && s.callers[i].EnqDone? ==> (s.callers[i].ok <==> Sent(s, i)))
  {
    InvRun(capacity, steps);
  }

  /** When the first Stop has returned, every accepted job has been run, once and in order. */
  lemma FirstStopDrains(capacity: nat, steps: seq<Step>, id: nat)
    requires IsRun(capacity, steps)
    requires id in Exec(capacity, steps).callers && Exec(capacity, steps).callers[id].StopFirstDone?
    ensures
      var s := Exec(capacity, steps);
      s.finished == s.accepted && s.buffer == [] && s.winner == Some(id)
  {
    InvRun(capacity, steps);
    var s := Exec(capacity, steps);
    assert CallerInv(s, id, s.callers[id]);
    assert s.finished + InFlight(s) + s.buffer == s.finished;
  }

  /** A Stop call that has returned waited for the worker if and only if it is the one that set `stopped`;
      every other has returned at once. */
  lemma OnlyTheFirstStopWaits(capacity: nat, steps: seq<Step>, id: nat)
    requires IsRun(capacity, steps) && id in Exec(capacity, steps).callers
    requires Exec(capacity, steps).callers[id].StopFirstDone? || Exec(capacity, steps).callers[id].StopEarlyDone?
    ensures
      var s := Exec(capacity, steps);
      s.callers[id].StopFirstDone? <==> s.winner == Some(id)
  {
    InvRun(capacity, steps);
    var s := Exec(capacity, steps);
    assert CallerInv(s, id, s.callers[id]);
  }

  /** Once `stopped` is set no step, of any goroutine, gets another job accepted. */
  lemma StopFreezesAcceptance(capacity: nat, steps: seq<Step>, step: Step)
    requires IsRun(capacity, steps) && Exec(capacity, steps).stopped && Enabled(Exec(capacity, steps), step)
    ensures
      var s := Exec(capacity, steps);
      Apply(s, step).accepted == s.accepted && Apply(s, step).stopped
  {
    InvRun(capacity, steps);
    var s := Exec(capacity, steps);
    if step.Advance? {
      assert CallerInv(s, step.id, s.callers[step.id]);
    }
  }

  // Worker moves still owed after the channel is closed.
  function Pending(s: State): nat {
    2 * |s.buffer| + (match s.worker case Busy(_) => 2 case Ready => 1 case Exited => 0)
  }

  /** What a waiting Stop waits for comes: after the close the worker is never blocked until it exits,
      each of its moves lowers `Pending`, and nobody else's move raises it. */
  lemma WorkerAlwaysProgresses(capacity: nat, steps: seq<Step>, step: Step)
    requires IsRun(capacity, steps) && Exec(capacity, steps).closed
    ensures
      var s := Exec(capacity, steps);
      && (!s.worker.Exited? ==> Enabled(s, Work) && Pending(Apply(s, Work)) < Pending(s))
      && (Enabled(s, step) ==> Pending(Apply(s, step)) <= Pending(s) && Apply(s, step).closed)
  {
    InvRun(capacity, steps);
    var s := Exec(capacity, steps);
    if step.Advance? && Enabled(s, step) {
      assert CallerInv(s, step.id, s.callers[step.id]);
    }
  }

  predicate Returned(c: Caller) { c.EnqDone? || c.StopFirstDone? || c.StopEarlyDone? }

  /** No deadlock: in every reachable state with a call that has not returned, some call or the worker
      can take a step. */
  lemma SomebodyCanMove(capacity: nat, steps: seq<Step>, id: nat) returns (step: Step)
    requires IsRun(capacity, steps)
    requires id in Exec(capacity, steps).callers && !Returned(Exec(capacity, steps).callers[id])
    ensures (step.Advance? || step.Work?) && Enabled(Exec(capacity, steps), step)
  {
    InvRun(capacity, steps);
    var s := Exec(capacity, steps);
    assert CallerInv(s, id, s.callers[id]);
    if j :| j in s.callers && (s.callers[j].Writes() || s.callers[j].Reads()) {
      step := Advance(j);
    } else if s.callers[id].StopWaiting? && !s.worker.Exited? {
      step := Work;
    } else {
      step := Advance(id);
    }
  }

  // Statements a call still has before it, with two worker moves for a job it may add.
  function Rank(c: Caller): nat {
    match c
    case EnqStart(_) => 7
    case EnqHeld(_) => 6
    case EnqOpen(_) => 5
    case EnqLeaving(_) => 1
    case StopStart => 7
    case StopHeld => 6
    case StopMarked => 5
    case StopClosed => 4
    case StopWaiting => 3
    case StopSeen => 1
    case _ => 0
  }

  ghost function Ranks(callers: map<nat, Caller>): nat {
    if callers == map[] then 0
    else
      var id :| id in callers;
      Rank(callers[id]) + Ranks(callers - {id})
  }

  lemma {:induction false} RanksWithout(callers: map<nat, Caller>, id: nat)
    requires id in callers
    ensures Ranks(callers) == Rank(callers[id]) + Ranks(callers - {id})
  {
    var first :| first in callers && Ranks(callers) == Rank(callers[first]) + Ranks(callers - {first});
    if first != id {
      RanksWithout(callers - {first}, id);
      RanksWithout(callers - {id}, first);
      assert callers - {first} - {id} == callers - {id} - {first};
    }
  }

  lemma RanksUpdate(callers: map<nat, Caller>, id: nat, c: Caller)
    requires id in callers
    ensures Ranks(callers[id := c]) + Rank(callers[id]) == Ranks(callers) + Rank(c)
  {
    RanksWithout(callers, id);
    RanksWithout(callers[id := c], id);
    assert callers[id := c] - {id} == callers - {id};
  }

  ghost function Remaining(s: State): nat { Ranks(s.callers) + Pending(s) }

  /** Every step of a call or of the worker leaves fewer to come, so no run goes on for ever without new calls. */
  lemma StepsRunOut(s: State, step: Step)
    requires (step.Advance? || step.Work?) && Enabled(s, step)
    ensures Remaining(Apply(s, step)) < Remaining(s)
  {
    if step.Advance? {
      var c := s.callers[step.id];
      RanksUpdate(s.callers, step.id, NextPc(s, c));
      AdvanceSpends(s, step.id);
      assert Apply(s, step).callers == s.callers[step.id := NextPc(s, c)];
    }
  }

  lemma AdvanceSpends(s: State, id: nat)
    requires CanAdvance(s, id)
    ensures Rank(NextPc(s, s.callers[id])) + Pending(AdvanceCaller(s, id)) < Rank(s.callers[id]) + Pending(s)
  {}

  /** Every run can be completed, and is once its calls and the worker have gone on for as long as they can:
      then every call has returned, a waiting Stop included. */
  lemma {:induction false} EveryCallReturns(capacity: nat, steps: seq<Step>) returns (whole: seq<Step>)
    requires IsRun(capacity, steps)
    ensures IsRun(capacity, whole) && |whole| <= |steps| + Remaining(Exec(capacity, steps))
    ensures
      var s, t := Exec(capacity, steps), Exec(capacity, whole);
      s.callers.Keys <= t.callers.Keys && forall id :: id in t.callers ==> Returned(t.callers[id])
    decreases Remaining(Exec(capacity, steps))
  {
    var s := Exec(capacity, steps);
    if id :| id in s.callers && !Returned(s.callers[id]) {
      var step := SomebodyCanMove(capacity, steps, id);
      StepsRunOut(s, step);
      whole := Extend(capacity, steps, step);
      whole := EveryCallReturns(capacity, whole);
    } else {
      whole := steps;
    }
  }

  lemma Extend(capacity: nat, steps: seq<Step>, step: Step) returns (longer: seq<Step>)
    requires IsRun(capacity, steps) && Enabled(Exec(capacity, steps), step)
    ensures longer == steps + [step] && IsRun(capacity, longer)
    ensures Exec(capacity, longer) == Apply(Exec(capacity, steps), step)
  {
    longer := steps + [step];
    assert longer[..|longer| - 1] == steps;
  }

  /** From any run that has closed the channel, the worker alone reaches the drained state, in
      exactly `Pending` moves. */
  lemma {:induction false} DrainFromClose(capacity: nat, steps: seq<Step>) returns (whole: seq<Step>)
    requires IsRun(capacity, steps) && Exec(capacity, steps).closed
    ensures IsRun(capacity, whole) && |whole| == |steps| + Pending(Exec(capacity, steps))
    ensures Exec(capacity, whole).worker.Exited?
    ensures Exec(capacity, whole).finished == Exec(capacity, steps).accepted
    decreases Pending(Exec(capacity, steps))
  {
    InvRun(capacity, steps);
    var s := Exec(capacity, steps);
    if s.worker.Exited? {
      whole := steps;
      assert s.finished + InFlight(s) + s.buffer == s.finished;
    } else {
      WorkerAlwaysProgresses(capacity, steps, Work);
      whole := Extend(capacity, steps, Work);
      whole := DrainFromClose(capacity, whole);
    }
  }

  /** The non-blocking send takes a job if and only if the buffer has room, and then puts it last. */
  lemma OfferTakesWhatFits(buffer: seq<Job>, capacity: nat, job: Job)
    ensures Offer(buffer, capacity, job) == None <==> |buffer| >= capacity
    ensures |buffer| < capacity ==> Offer(buffer, capacity, job) == Some(buffer + [job])
  {}

  /** In every reachable state a call about to send is accepted if and only if the buffer has room, and
      adds its job and nothing else. */
  lemma SendSucceedsWithRoom(capacity: nat, steps: seq<Step>, id: nat)
    requires IsRun(capacity, steps) && id in Exec(capacity, steps).callers && Exec(capacity, steps).callers[id].EnqOpen?
    ensures
      var s := Exec(capacity, steps);
      var t, room, more := AdvanceCaller(s, id), |s.buffer| < capacity, [s.callers[id].job];
      && t.callers[id] == EnqLeaving(room)
      && t.buffer == (if room then s.buffer + more else s.buffer)
      && t.accepted == (if room then s.accepted + more else s.accepted)
  {
    InvRun(capacity, steps);
    CapacityKept(capacity, steps);
    assert CallerInv(Exec(capacity, steps), id, Exec(capacity, steps).callers[id]);
    var s := Exec(capacity, steps);
    OfferTakesWhatFits(s.buffer, s.capacity, s.callers[id].job);
  }

  lemma {:induction false} CapacityKept(capacity: nat, steps: seq<Step>)
    requires IsRun(capacity, steps)
    ensures Exec(capacity, steps).capacity == capacity
  {
    if steps != [] {
      CapacityKept(capacity, steps[..|steps| - 1]);
    }
  }

  // Nobody holds the lock, and nobody has called Stop.
  ghost predicate Idle(s: State) {
    !s.stopped && !s.closed && forall j :: j in s.callers ==> !s.callers[j].Writes() && !s.callers[j].Reads()
  }

  /** The queue takes exactly its capacity: for every c there is a run in which c Enqueue calls succeed
      before the worker has moved, and the next one fails. */
  lemma CapacityIsUsed(c: nat) returns (r: seq<Step>)
    ensures IsRun(c, r) && forall step :: step in r ==> !step.Work?
    ensures
      var s := Exec(c, r);
      && (forall id :: 0 <= id < c ==> id in s.callers && s.callers[id] == EnqDone(true))
      && c in s.callers && s.callers[c] == EnqDone(false)
      && |s.accepted| == c && s.finished == []
  {
    r := Filled(c, c);
    r := EnqueueAlone(c, r, c, Func(c));
  }

  lemma {:induction false} Filled(c: nat, n: nat) returns (r: seq<Step>)
    requires n <= c
    ensures IsRun(c, r) && forall step :: step in r ==> !step.Work?
    ensures
      var s := Exec(c, r);
      && Idle(s) && s.worker == Ready && s.finished == [] && |s.buffer| == |s.accepted| == n
      && (forall id: nat :: id in s.callers ==> id < n && s.callers[id] == EnqDone(true))
      && (forall id: nat :: id < n ==> id in s.callers)
  {
    if n == 0 {
      r := [];
    } else {
      r := Filled(c, n - 1);
      r := EnqueueAlone(c, r, n - 1, Func(n - 1));
    }
  }

  // A call that runs from beginning to end while nothing else moves.
  lemma EnqueueAlone(capacity: nat, before: seq<Step>, id: nat, task: Task) returns (r: seq<Step>)
    requires IsRun(capacity, before) && Idle(Exec(capacity, before)) && id !in Exec(capacity, before).callers
    ensures IsRun(capacity, r) && Idle(Exec(capacity, r))
    ensures forall step :: step in r ==> step in before || !step.Work?
    ensures
      var s, t := Exec(capacity, before), Exec(capacity, r);
      var room, more := |s.buffer| < capacity, [Job(id, task)];
      && t.callers == s.callers[id := EnqDone(room)]
      && t.buffer == (if room then s.buffer + more else s.buffer)
      && t.accepted == (if room then s.accepted + more else s.accepted)
      && t.finished == s.finished && t.worker == s.worker
  {
    CapacityKept(capacity, before);
    var s := Exec(capacity, before);
    OfferTakesWhatFits(s.buffer, capacity, Job(id, task));
    r := AboutToSend(capacity, before, id, task);
    r := Move(capacity, r, s.callers, id, EnqOpen(Job(id, task)));
    r := Move(capacity, r, s.callers, id, EnqLeaving(|s.buffer| < capacity));
  }

  lemma AboutToSend(capacity: nat, before: seq<Step>, id: nat, task: Task) returns (r: seq<Step>)
    requires IsRun(capacity, before) && Idle(Exec(capacity, before)) && id !in Exec(capacity, before).callers
    ensures IsRun(capacity, r)
    ensures forall step :: step in r ==> step in before || !step.Work?
    ensures
      var s := Exec(capacity, before);
      Exec(capacity, r) == s.(callers := s.callers[id := EnqOpen(Job(id, task))])
  {
    var s := Exec(capacity, before);
    var job := Job(id, task);
    r := Extend(capacity, before, CallEnqueue(id, task));
    r := Move(capacity, r, s.callers, id, EnqStart(job));
    r := Move(capacity, r, s.callers, id, EnqHeld(job));
  }

  /** Only the first Stop drains: in a queue of any capacity a second one can return while an accepted job
      is still queued. */
  lemma SecondStopMayReturnEarly(capacity: nat) returns (r: seq<Step>)
    requires capacity > 0
    ensures IsRun(capacity, r)
    ensures
      var s := Exec(capacity, r);
      2 in s.callers && s.callers[2].StopEarlyDone? && s.finished == [] && s.accepted == [Job(0, Func(7))]
  {
    r := EnqueueAlone(capacity, [], 0, Func(7));
    r := StopAlone(capacity, r, 1);
    var others := Exec(capacity, r).callers;
    r := Extend(capacity, r, CallStop(2));
    r := Move(capacity, r, others, 2, StopStart);
    r := Move(capacity, r, others, 2, StopHeld);
    r := Move(capacity, r, others, 2, StopSeen);
  }

  // One more statement of caller `id`, with the map of the other callers kept apart.
  lemma Move(capacity: nat, steps: seq<Step>, others: map<nat, Caller>, id: nat, c: Caller) returns (r: seq<Step>)
    requires IsRun(capacity, steps) && CanAdvance(Exec(capacity, steps), id)
    requires Exec(capacity, steps).callers == others[id := c]
    ensures r == steps + [Advance(id)] && IsRun(capacity, r) && Exec(capacity, r) == AdvanceCaller(Exec(capacity, steps), id)
    ensures Exec(capacity, r).callers == others[id := NextPc(Exec(capacity, steps), c)]
  {
    r := Extend(capacity, steps, Advance(id));
    assert others[id := c][id := NextPc(Exec(capacity, steps), c)] == others[id := NextPc(Exec(capacity, steps), c)];
  }

  lemma StopAlone(capacity: nat, before: seq<Step>, id: nat) returns (r: seq<Step>)
    requires IsRun(capacity, before) && Idle(Exec(capacity, before)) && id !in Exec(capacity, before).callers
    ensures IsRun(capacity, r)
    ensures
      var s, t := Exec(capacity, before), Exec(capacity, r);
      && t.callers == s.callers[id := StopWaiting] && t.stopped
      && t.finished == s.finished && t.accepted == s.accepted
  {
    var others := Exec(capacity, before).callers;
    r := Extend(capacity, before, CallStop(id));
    r := Move(capacity, r, others, id, StopStart);
    r := Move(capacity, r, others, id, StopHeld);
    r := Move(capacity, r, others, id, StopMarked);
    r := Move(capacity, r, others, id, StopClosed);
  }
}
