/**
 * The batched inference engine: any number of threads submitting requests or shutting the engine down, and the one
 * worker that collects batches, generates and answers, one atomic action at a time.
 */
module RequestQueue {
  import opened Sequences

  /** A request is named by the thread that submits it; a thread makes one call. */
  type Id = nat

  /** The limits as configured, and the requests whose generation throws. */
  datatype Config = Config(maxBatch: nat, maxQueue: int, maxTokens: int, throws: set<Id>)

  const SIZE_T_RANGE := 0x1_0000_0000_0000_0000

  /** A 32-bit limit compared with a `size_t`: a negative one becomes a very large one. */
  function SizeT(limit: int): int {
    if limit < 0 then limit + SIZE_T_RANGE else limit
  }

  /** How a promise was fulfilled; `batch` is history: the batch the request was answered in. */
  datatype Answer = Answer(id: Id, ok: bool, batch: seq<Id>)

  /** Where the worker is, with the batch it holds. */
  datatype Worker =
    | LoopHead                                        // read running_
    | CollectHead(batch: seq<Id>)                     // compare the batch's size and read running_
    | Waiting(batch: seq<Id>)                         // wait for a request, the end of running_ or the deadline
    | Woken(batch: seq<Id>)                           // read running_ again
    | Taking(batch: seq<Id>)                          // move the first request over
    | Draining                                        // take what is queued, up to one batch
    | Processing(stage: Stage, batch: seq<Id>, count: nat, last: bool)   // about to treat batch[count]
    | Exited

  /** The three loops over a batch: generate its texts, fulfil its promises, or, after a throw, fail them. */
  datatype Stage = Generating | Fulfilling | Failing

  /** Where a caller is inside `submit()` or `shutdown()`. */
  datatype Caller =
    | Idle
    | Checking        // submit: read running_
    | Pushing         // submit: compare the queue's size and push
    | Accepted
    | RefusedClosed
    | RefusedFull
    | Exchanging      // shutdown: exchange running_
    | Joining         // shutdown: wait for the worker to exit
    | Stopped

  /**
   * The engine. `accepted` is history: every request ever pushed, in order; so are `drained`, how many requests the
   * final drain found (-1 before it), and `late`, how many were pushed after it.
   */
  datatype Engine = Engine(
    running: bool, queue: seq<Id>, worker: Worker, answers: seq<Answer>,
    accepted: seq<Id>, drained: int, late: nat)

  datatype State = State(g: Engine, callers: map<Id, Caller>)

  const INITIAL: State := State(Engine(true, [], LoopHead, [], [], -1, 0), map[])

  function CallerOf(s: State, t: Id): Caller {
    if t in s.callers then s.callers[t] else Idle
  }

  // --------------------------------------------------------------------- steps

  function ShouldFlush(cfg: Config, batch: seq<Id>): bool {
    |batch| >= cfg.maxBatch || |batch| * 100 >= SizeT(cfg.maxTokens)
  }

  /** How many requests the final drain takes. */
  function DrainSize(queue: seq<Id>, maxBatch: nat): nat {
    if |queue| < maxBatch then |queue| else maxBatch
  }

  /** The queue itself, under its mutex: what the atomic steps of pushing and draining do, one element at a time. */
  class Queue {
    var items: seq<Id>

    /** The critical section of `submit()`. */
    method Push(t: Id, maxQueue: int) returns (full: bool)
      modifies this
      ensures full <==> |old(items)| >= SizeT(maxQueue)
      ensures items == if full then old(items) else old(items) + [t]
    {
      full := |items| >= SizeT(maxQueue);
      if !full {
        items := items + [t];
      }
    }

    method CollectBatchNoWait(maxBatch: nat) returns (batch: seq<Id>)
      modifies this
      ensures var n := DrainSize(old(items), maxBatch);
              batch == old(items)[..n] && items == old(items)[n..]
    {
      batch := [];
      while items != [] && |batch| < maxBatch
        invariant |batch| <= maxBatch && batch + items == old(items)
        decreases |items|
      {
        batch := batch + [items[0]];
        items := items[1..];
      }
    }
  }

  /** Hand a collected batch to processing; an empty one is skipped. */
  function Process(batch: seq<Id>, last: bool): Worker {
    if batch != [] then Processing(Generating, batch, 0, last) else if last then Exited else LoopHead
  }

  /** Whether every request of the batch generates. */
  predicate AllGenerate(cfg: Config, batch: seq<Id>) {
    forall k :: 0 <= k < |batch| ==> batch[k] !in cfg.throws
  }

  function Ids(answers: seq<Answer>): seq<Id> {
    seq(|answers|, k requires 0 <= k < |answers| => answers[k].id)
  }

  function Count(ids: seq<Id>, t: Id): nat {
    if ids == [] then 0 else Count(ids[..|ids| - 1], t) + (if ids[|ids| - 1] == t then 1 else 0)
  }

  /** Whether a promise has been fulfilled. */
  predicate IsSet(g: Engine, id: Id) {
    Count(Ids(g.answers), id) > 0
  }

  /** One action of the worker on `batch[count]`, the next request of the batch it processes. */
  function ProcessStep(cfg: Config, g: Engine, stage: Stage, batch: seq<Id>, count: nat, last: bool): Engine
    requires count < |batch|
  {
    var id := batch[count];
    match stage
    case Generating =>
      // A throw from any request leaves the loop for the outer handler.
      g.(worker := if id in cfg.throws then Processing(Failing, batch, 0, last)
                   else Processing(Generating, batch, count + 1, last))
    case Fulfilling =>
      // Setting a promise twice would throw too.
      if IsSet(g, id) then g.(worker := Processing(Failing, batch, 0, last))
      else g.(answers := g.answers + [Answer(id, true, batch)], worker := Processing(Fulfilling, batch, count + 1, last))
    case Failing =>
      // Here such a throw is swallowed for each request.
      g.(answers := if IsSet(g, id) then g.answers else g.answers + [Answer(id, false, batch)],
         worker := Processing(Failing, batch, count + 1, last))
  }

  /** One action of the worker; `timeout` says whether the deadline has passed. */
  function WorkerStep(cfg: Config, g: Engine, timeout: bool): Engine {
    match g.worker
    case LoopHead => g.(worker := if g.running then CollectHead([]) else Draining)
    case CollectHead(batch) =>
      g.(worker := if |batch| < cfg.maxBatch && g.running then Waiting(batch) else Process(batch, false))
    case Waiting(batch) =>
      if g.queue != [] || !g.running then g.(worker := Woken(batch))
      else if timeout then g.(worker := Process(batch, false))
      else g
    case Woken(batch) => g.(worker := if g.running then Taking(batch) else Process(batch, false))
    case Taking(batch) =>
      // That the queue is never empty here is part of Phased below.
      if g.queue == [] then g.(worker := Process(batch, false))
      else
        var more := batch + [g.queue[0]];
        g.(queue := g.queue[1..], worker := if ShouldFlush(cfg, more) then Process(more, false) else CollectHead(more))
    case Draining =>
      var n := DrainSize(g.queue, cfg.maxBatch);
      g.(queue := g.queue[n..], worker := Process(g.queue[..n], true), drained := |g.queue|)
    case Processing(stage, batch, count, last) =>
      if count < |batch| then ProcessStep(cfg, g, stage, batch, count, last)
      else if stage.Generating? then g.(worker := Processing(Fulfilling, batch, 0, last))
      else g.(worker := if last then Exited else LoopHead)
    case Exited => g
  }

  /** One action of caller `t`. */
  function CallerStep(cfg: Config, g: Engine, t: Id, pc: Caller): (Engine, Caller) {
    match pc
    case Checking => (g, if g.running then Pushing else RefusedClosed)
    case Pushing =>
      if |g.queue| >= SizeT(cfg.maxQueue) then (g, RefusedFull)
      else
        (g.(queue := g.queue + [t], accepted := g.accepted + [t], late := if g.drained >= 0 then g.late + 1 else g.late),
         Accepted)
    case Exchanging => if g.running then (g.(running := false), Joining) else (g, Stopped)
    case Joining => (g, if g.worker.Exited? then Stopped else Joining)
    case _ => (g, pc)
  }

  datatype Event = Submit(t: Id) | Shutdown(t: Id) | Call(t: Id) | Work(timeout: bool)

  function Step(cfg: Config, s: State, e: Event): State {
    match e
    case Submit(t) => if CallerOf(s, t).Idle? then s.(callers := s.callers[t := Checking]) else s
    case Shutdown(t) => if CallerOf(s, t).Idle? then s.(callers := s.callers[t := Exchanging]) else s
    case Call(t) =>
      var (g, pc) := CallerStep(cfg, s.g, t, CallerOf(s, t));
      State(g, s.callers[t := pc])
    case Work(timeout) => s.(g := WorkerStep(cfg, s.g, timeout))
  }

  function Continue(cfg: Config, s: State, events: seq<Event>): State {
    if events == [] then s
    else Step(cfg, Continue(cfg, s, events[..|events| - 1]), events[|events| - 1])
  }

  function Run(cfg: Config, events: seq<Event>): State {
    Continue(cfg, INITIAL, events)
  }

  // ----------------------------------------------------------------- invariant

  /** The requests the worker holds and has not answered. */
  function Pending(worker: Worker): seq<Id> {
    match worker
    case CollectHead(batch) => batch
    case Waiting(batch) => batch
    case Woken(batch) => batch
    case Taking(batch) => batch
    case Processing(stage, batch, count, _) =>
      if stage.Generating? then batch else if count <= |batch| then batch[count..] else []
    case _ => []
  }

  function Batch(worker: Worker): seq<Id> {
    match worker
    case CollectHead(batch) => batch
    case Waiting(batch) => batch
    case Woken(batch) => batch
    case Taking(batch) => batch
    case Processing(_, batch, _, _) => batch
    case _ => []
  }

  /** Every accepted request is answered, in the worker's batch or queued, in order of acceptance. */
  predicate Conserved(g: Engine) {
    g.accepted == Ids(g.answers) + Pending(g.worker) + g.queue
  }

  predicate Capped(cfg: Config, g: Engine) {
    && |Batch(g.worker)| <= cfg.maxBatch
    && (g.worker.Waiting? || g.worker.Woken? || g.worker.Taking? ==> |g.worker.batch| < cfg.maxBatch)
    && (g.worker.CollectHead? && g.worker.batch != [] ==> |g.worker.batch| < cfg.maxBatch)
    && (|g.queue| == 0 || |g.queue| <= SizeT(cfg.maxQueue))
  }

  /** Before its last request a collected batch is below the token estimate; the final drain ignores the estimate. */
  predicate Light(cfg: Config, worker: Worker) {
    match worker
    case CollectHead(batch) => batch == [] || |batch| * 100 < SizeT(cfg.maxTokens)
    case Waiting(batch) => batch == [] || |batch| * 100 < SizeT(cfg.maxTokens)
    case Woken(batch) => batch == [] || |batch| * 100 < SizeT(cfg.maxTokens)
    case Taking(batch) => batch == [] || |batch| * 100 < SizeT(cfg.maxTokens)
    case Processing(_, batch, _, last) => last || |batch| <= 1 || (|batch| - 1) * 100 < SizeT(cfg.maxTokens)
    case _ => true
  }

  /** Where the worker is says whether the final drain has been, and how generation went. */
  predicate Phased(cfg: Config, g: Engine) {
    && (g.drained >= 0 <==> g.worker.Exited? || (g.worker.Processing? && g.worker.last))
    && (g.worker.Draining? || g.drained >= 0 ==> !g.running)
    && ((g.worker.Woken? && g.running) || g.worker.Taking? ==> g.queue != [])
    && (g.worker.Processing? ==>
          && g.worker.count <= |g.worker.batch|
          && match g.worker.stage
             case Generating => forall k :: 0 <= k < g.worker.count ==> g.worker.batch[k] !in cfg.throws
             case Fulfilling => AllGenerate(cfg, g.worker.batch)
             case Failing => !AllGenerate(cfg, g.worker.batch))
  }

  /** The promise that the worker is about to set is not set. */
  predicate Unset(g: Engine) {
    g.worker.Processing? && !g.worker.stage.Generating? && g.worker.count < |g.worker.batch| ==>
      !IsSet(g, g.worker.batch[g.worker.count])
  }

  /** What the final drain left, and what was pushed after it. */
  predicate LeftBehind(cfg: Config, g: Engine) {
    if g.drained < 0 then g.late == 0
    else |g.queue| == (if g.drained > cfg.maxBatch then g.drained - cfg.maxBatch else 0) + g.late
  }

  /** A request succeeds exactly when its whole batch generates. */
  ghost predicate Answered(cfg: Config, g: Engine) {
    forall k | 0 <= k < |g.answers| ::
      && g.answers[k].ok == AllGenerate(cfg, g.answers[k].batch)
      && |g.answers[k].batch| <= cfg.maxBatch
      && g.answers[k].id in g.answers[k].batch
  }

  /** How many requests of the worker's batch are answered. */
  function Begun(worker: Worker): nat {
    if worker.Processing? && !worker.stage.Generating? then worker.count else 0
  }

  /** The batch of answer `k` are the requests accepted from `lo` on, and all their answers carry it. */
  predicate Together(answers: seq<Answer>, accepted: seq<Id>, k: nat, lo: nat)
    requires k < |answers|
  {
    var batch := answers[k].batch;
    && lo <= k < lo + |batch| <= |accepted| && accepted[lo..lo + |batch|] == batch
    && forall j | lo <= j < lo + |batch| && j < |answers| :: answers[j].batch == batch
  }

  /** The batch of answer `k` lies within the first `done` answers. */
  ghost predicate Finished(answers: seq<Answer>, accepted: seq<Id>, k: nat, done: nat)
    requires k < |answers|
  {
    exists lo: nat :: Together(answers, accepted, k, lo) && lo + |answers[k].batch| <= done
  }

  ghost predicate AllFinished(answers: seq<Answer>, accepted: seq<Id>, done: nat)
    requires done <= |answers|
  {
    forall k: nat | k < done :: Finished(answers, accepted, k, done)
  }

  /** From answer `done` on, the answers are those to the first requests of the batch. */
  ghost predicate Unfinished(answers: seq<Answer>, done: nat, batch: seq<Id>)
    requires done <= |answers| <= done + |batch|
  {
    forall k: nat | done <= k < |answers| :: answers[k].batch == batch && answers[k].id == batch[k - done]
  }

  /** Batches are answered one after the other, in stretches of the accepted requests. */
  ghost predicate Batched(g: Engine) {
    var begun, batch := Begun(g.worker), Batch(g.worker);
    && begun <= |g.answers| && begun <= |batch|
    && AllFinished(g.answers, g.accepted, |g.answers| - begun)
    && Unfinished(g.answers, |g.answers| - begun, batch)
  }

  ghost predicate Inv(cfg: Config, s: State) {
    && Conserved(s.g) && Capped(cfg, s.g) && Phased(cfg, s.g) && LeftBehind(cfg, s.g) && Answered(cfg, s.g)
    && Light(cfg, s.g.worker) && Batched(s.g)
    && forall t: Id :: Count(s.g.accepted, t) == (if CallerOf(s, t).Accepted? then 1 else 0)
  }

  lemma IdsAppend(answers: seq<Answer>, answer: Answer)
    ensures Ids(answers + [answer]) == Ids(answers) + [answer.id]
  {
  }

  lemma {:induction false} CountJoin(a: seq<Id>, b: seq<Id>, t: Id)
    ensures Count(a + b, t) == Count(a, t) + Count(b, t)
  {
    if b == [] {
      assert a + b == a;
    } else {
      CountJoin(a, b[..|b| - 1], t);
      assert (a + b)[..|a + b| - 1] == a + b[..|b| - 1];
    }
  }

  ghost predicate AcceptedOnce(g: Engine) {
    forall t: Id :: Count(g.accepted, t) <= 1
  }

  lemma {:induction false} CountHeld(ids: seq<Id>, k: nat)
    requires k < |ids|
    ensures Count(ids, ids[k]) > 0
  {
    if k == |ids| - 1 {
    } else {
      CountHeld(ids[..|ids| - 1], k);
    }
  }

  /** No promise is ever about to be set twice: what the worker holds was accepted once and not answered yet. */
  lemma PromiseUnset(g: Engine)
    requires Conserved(g) && AcceptedOnce(g)
    ensures Unset(g)
  {
    if g.worker.Processing? && !g.worker.stage.Generating? && g.worker.count < |g.worker.batch| {
      var id := g.worker.batch[g.worker.count];
      assert Pending(g.worker)[0] == id;
      CountHeld(Pending(g.worker), 0);
      CountJoin(Ids(g.answers), Pending(g.worker), id);
      CountJoin(Ids(g.answers) + Pending(g.worker), g.queue, id);
      hide Ids, Count, Pending;
      assert Count(g.accepted, id) <= 1;
    }
  }

  lemma AnswerConserves(cfg: Config, g: Engine)
    requires Conserved(g) && Phased(cfg, g) && Unset(g) && g.worker.Processing?
    ensures Conserved(WorkerStep(cfg, g, false))
  {
    var Processing(stage, batch, count, last) := g.worker;
    if !stage.Generating? && count < |batch| {
      var after := WorkerStep(cfg, g, false);
      var answer := Answer(batch[count], stage.Fulfilling?, batch);
      AnswerMoves(cfg, g);
      IdsAppend(g.answers, answer);
      hide Ids, Pending, WorkerStep;
      Associates(Ids(g.answers), [batch[count]], Pending(after.worker));
    } else {
      hide Ids;
    }
  }

  /** Setting a promise takes the request from the worker's hands to the answers. */
  lemma AnswerMoves(cfg: Config, g: Engine)
    requires Phased(cfg, g) && Unset(g) && g.worker.Processing? && !g.worker.stage.Generating?
    requires g.worker.count < |g.worker.batch|
    ensures var after := WorkerStep(cfg, g, false);
      var answer := Answer(g.worker.batch[g.worker.count], g.worker.stage.Fulfilling?, g.worker.batch);
      && after.accepted == g.accepted && after.queue == g.queue
      && after.answers == g.answers + [answer]
      && Pending(g.worker) == [answer.id] + Pending(after.worker)
  {
    var batch, count := g.worker.batch, g.worker.count;
    assert batch[count..] == [batch[count]] + batch[count + 1..];
    hide IsSet, AllGenerate;
  }

  lemma TakeConserves(cfg: Config, g: Engine)
    requires Conserved(g) && g.worker.Taking? && g.queue != []
    ensures Conserved(WorkerStep(cfg, g, false))
  {
  }

  lemma DrainConserves(cfg: Config, g: Engine)
    requires Conserved(g) && g.worker.Draining?
    ensures Conserved(WorkerStep(cfg, g, false))
  {
  }

  lemma WorkerConserves(cfg: Config, g: Engine, timeout: bool)
    requires Conserved(g) && Phased(cfg, g) && Unset(g)
    ensures Conserved(WorkerStep(cfg, g, timeout))
  {
    hide Ids, ShouldFlush, AllGenerate, IsSet;
    if g.worker.Processing? {
      AnswerConserves(cfg, g);
    } else if g.worker.Taking? && g.queue != [] {
      TakeConserves(cfg, g);
    } else if g.worker.Draining? {
      DrainConserves(cfg, g);
    }
  }

  lemma WorkerCapped(cfg: Config, g: Engine, timeout: bool)
    requires Capped(cfg, g)
    ensures Capped(cfg, WorkerStep(cfg, g, timeout))
  {
    if g.worker.Processing? {
      ProcessingCapped(cfg, g);
    } else if g.worker.Taking? {
      TakeCapped(cfg, g);
    } else if g.worker.Draining? {
      DrainCapped(cfg, g);
    } else {
      hide SizeT, ProcessStep, ShouldFlush, DrainSize;
    }
  }

  lemma ProcessingCapped(cfg: Config, g: Engine)
    requires Capped(cfg, g) && g.worker.Processing?
    ensures Capped(cfg, WorkerStep(cfg, g, false))
  {
    hide SizeT, IsSet;
  }

  lemma DrainMoves(cfg: Config, g: Engine)
    requires g.worker.Draining?
    ensures var n, after := DrainSize(g.queue, cfg.maxBatch), WorkerStep(cfg, g, false);
      && n <= |g.queue| && n <= cfg.maxBatch && after.queue == g.queue[n..] && Batch(after.worker) == g.queue[..n]
      && (after.worker.Processing? || after.worker.Exited?)
  {
  }

  lemma DrainCapped(cfg: Config, g: Engine)
    requires Capped(cfg, g) && g.worker.Draining?
    ensures Capped(cfg, WorkerStep(cfg, g, false))
  {
    DrainMoves(cfg, g);
    hide WorkerStep, SizeT, DrainSize, Batch;
  }

  lemma TakeCapped(cfg: Config, g: Engine)
    requires Capped(cfg, g) && g.worker.Taking?
    ensures Capped(cfg, WorkerStep(cfg, g, false))
  {
    hide SizeT;
  }

  lemma WorkerLight(cfg: Config, g: Engine, timeout: bool)
    requires Light(cfg, g.worker)
    ensures Light(cfg, WorkerStep(cfg, g, timeout).worker)
  {
    if g.worker.Processing? {
      ProcessingLight(cfg, g);
    } else {
      hide SizeT, ProcessStep;
    }
  }

  lemma ProcessingLight(cfg: Config, g: Engine)
    requires Light(cfg, g.worker) && g.worker.Processing?
    ensures Light(cfg, WorkerStep(cfg, g, false).worker)
  {
    hide SizeT, AllGenerate, IsSet;
  }

  lemma WorkerPhased(cfg: Config, g: Engine, timeout: bool)
    requires Phased(cfg, g) && Unset(g)
    ensures Phased(cfg, WorkerStep(cfg, g, timeout))
  {
    if g.worker.Processing? {
      ProcessingPhased(cfg, g);
    } else {
      hide SizeT, IsSet;
    }
  }

  lemma ProcessingPhased(cfg: Config, g: Engine)
    requires Phased(cfg, g) && Unset(g) && g.worker.Processing?
    ensures Phased(cfg, WorkerStep(cfg, g, false))
  {
    hide SizeT, IsSet;
  }

  lemma WorkerLeaves(cfg: Config, g: Engine, timeout: bool)
    requires LeftBehind(cfg, g) && Phased(cfg, g)
    ensures LeftBehind(cfg, WorkerStep(cfg, g, timeout))
  {
  }

  lemma WorkerAnswers(cfg: Config, g: Engine, timeout: bool)
    requires Answered(cfg, g) && Phased(cfg, g) && Capped(cfg, g) && Unset(g)
    ensures Answered(cfg, WorkerStep(cfg, g, timeout))
  {
  }

  lemma FinishedKept(answers: seq<Answer>, accepted: seq<Id>, answers': seq<Answer>, accepted': seq<Id>, k: nat, done: nat,
                     done': nat)
    requires k < |answers| && Finished(answers, accepted, k, done)
    requires answers <= answers' && accepted <= accepted' && done <= done' && done <= |answers|
    ensures Finished(answers', accepted', k, done')
  {
    var lo: nat :| Together(answers, accepted, k, lo) && lo + |answers[k].batch| <= done;
    assert accepted'[lo..lo + |answers[k].batch|] == accepted[lo..lo + |answers[k].batch|];
    assert Together(answers', accepted', k, lo);
  }

  /** Accepting more, or a step of the worker that answers nothing, leaves the batches as they are. */
  lemma BatchedGrows(g: Engine, after: Engine)
    requires Batched(g)
    requires after.answers == g.answers && g.accepted <= after.accepted && Begun(after.worker) == Begun(g.worker)
    requires Begun(g.worker) > 0 ==> Batch(after.worker) == Batch(g.worker)
    ensures Batched(after)
  {
    var done := |g.answers| - Begun(g.worker);
    hide Finished, Begun, Batch;
    forall k: nat | k < done ensures Finished(after.answers, after.accepted, k, done) {
      FinishedKept(g.answers, g.accepted, after.answers, after.accepted, k, done, done);
    }
  }

  lemma BatchedAnswers(g: Engine, after: Engine, answer: Answer)
    requires Batched(g) && Begun(g.worker) < |Batch(g.worker)|
    requires answer.batch == Batch(g.worker) && answer.id == Batch(g.worker)[Begun(g.worker)]
    requires after.answers == g.answers + [answer] && after.accepted == g.accepted
    requires Begun(after.worker) == Begun(g.worker) + 1 && Batch(after.worker) == Batch(g.worker)
    ensures Batched(after)
  {
    var done := |g.answers| - Begun(g.worker);
    hide Finished, Begun, Batch;
    forall k: nat | k < done ensures Finished(after.answers, after.accepted, k, done) {
      FinishedKept(g.answers, g.accepted, after.answers, after.accepted, k, done, done);
    }
  }

  /** The batch that the worker answers was accepted in one stretch. */
  lemma InHand(g: Engine)
    requires Conserved(g) && Batched(g)
    requires g.worker.Processing? && !g.worker.stage.Generating? && g.worker.count <= |g.worker.batch|
    ensures var done, batch := |g.answers| - g.worker.count, g.worker.batch;
            done >= 0 && done + |batch| <= |g.accepted| && g.accepted[done..done + |batch|] == batch
  {
    var batch, count := g.worker.batch, g.worker.count;
    var done := |g.answers| - count;
    hide Finished;
    IdsEnd(g.answers, done, batch, batch[..count]);
    hide Batched, Ids;
    MiddleOf(Ids(g.answers)[..done], batch, count, g.queue);
    assert Ids(g.answers) == Ids(g.answers)[..done] + batch[..count];
  }

  lemma IdsEnd(answers: seq<Answer>, done: nat, batch: seq<Id>, ids: seq<Id>)
    requires done + |ids| == |answers| <= done + |batch|
    requires Unfinished(answers, done, batch) && ids <= batch
    ensures |Ids(answers)| == |answers| && Ids(answers)[done..] == ids
  {
  }

  lemma MiddleOf(before: seq<Id>, batch: seq<Id>, n: nat, behind: seq<Id>)
    requires n <= |batch|
    ensures before + batch[..n] + batch[n..] + behind == before + batch + behind
    ensures (before + batch + behind)[|before|..|before| + |batch|] == batch
  {
    assert batch[..n] + batch[n..] == batch;
  }

  /** The answers to the worker's batch lie together. */
  lemma TogetherInHand(g: Engine, k: nat)
    requires Conserved(g) && Batched(g)
    requires g.worker.Processing? && !g.worker.stage.Generating? && g.worker.count <= |g.worker.batch|
    requires |g.answers| - g.worker.count <= k < |g.answers|
    ensures g.answers[k].batch == g.worker.batch && g.worker.count <= |g.answers|
    ensures Together(g.answers, g.accepted, k, |g.answers| - g.worker.count)
  {
    InHand(g);
    hide Finished, Conserved;
  }

  lemma BatchedFinishes(g: Engine, after: Engine)
    requires Conserved(g) && Batched(g)
    requires g.worker.Processing? && !g.worker.stage.Generating? && g.worker.count == |g.worker.batch|
    requires after.answers == g.answers && after.accepted == g.accepted && Begun(after.worker) == 0
    ensures Batched(after)
  {
    hide Together, Conserved;
    InHand(g);
    var done := |g.answers| - g.worker.count;
    forall k: nat | k < |g.answers| ensures Finished(g.answers, g.accepted, k, |g.answers|) {
      if k < done {
        FinishedKept(g.answers, g.accepted, g.answers, g.accepted, k, done, |g.answers|);
      } else {
        TogetherInHand(g, k);
      }
    }
  }

  lemma WorkerBatches(cfg: Config, g: Engine, timeout: bool)
    requires Batched(g) && Conserved(g) && Phased(cfg, g) && Unset(g)
    ensures Batched(WorkerStep(cfg, g, timeout))
  {
    var after := WorkerStep(cfg, g, timeout);
    if g.worker.Processing? && !g.worker.stage.Generating? {
      if g.worker.count < |g.worker.batch| {
        AnswerMoves(cfg, g);
        hide Batched, Conserved, Phased, Unset;
        BatchedAnswers(g, after, Answer(g.worker.batch[g.worker.count], g.worker.stage.Fulfilling?, g.worker.batch));
      } else {
        hide Batched, Conserved, Unset, AllGenerate;
        BatchedFinishes(g, after);
      }
    } else {
      hide Batched, Conserved, Phased, Unset, IsSet, AllGenerate;
      BatchedGrows(g, after);
    }
  }

  lemma CallerKept(cfg: Config, g: Engine, t: Id, pc: Caller)
    requires Conserved(g) && Capped(cfg, g) && Phased(cfg, g) && LeftBehind(cfg, g) && Answered(cfg, g)
    ensures var after := CallerStep(cfg, g, t, pc).0;
            Conserved(after) && Capped(cfg, after) && Phased(cfg, after) && LeftBehind(cfg, after) && Answered(cfg, after)
  {
  }

  lemma CallerCounts(cfg: Config, s: State, t: Id, u: Id)
    requires Count(s.g.accepted, u) == (if CallerOf(s, u).Accepted? then 1 else 0)
    ensures var next := Step(cfg, s, Call(t));
            Count(next.g.accepted, u) == (if CallerOf(next, u).Accepted? then 1 else 0)
  {
  }

  lemma WorkerKept(cfg: Config, g: Engine, timeout: bool)
    requires Conserved(g) && Capped(cfg, g) && Phased(cfg, g) && LeftBehind(cfg, g) && Answered(cfg, g)
    requires AcceptedOnce(g)
    requires Batched(g)
    ensures var after := WorkerStep(cfg, g, timeout);
            Conserved(after) && Capped(cfg, after) && Phased(cfg, after) && LeftBehind(cfg, after) && Answered(cfg, after)
    ensures Batched(WorkerStep(cfg, g, timeout))
  {
    hide *;
    PromiseUnset(g);
    WorkerBatches(cfg, g, timeout);
    WorkerConserves(cfg, g, timeout);
    WorkerCapped(cfg, g, timeout);
    WorkerPhased(cfg, g, timeout);
    WorkerLeaves(cfg, g, timeout);
    WorkerAnswers(cfg, g, timeout);
  }

  lemma WorkerAccepts(cfg: Config, g: Engine, timeout: bool)
    ensures WorkerStep(cfg, g, timeout).accepted == g.accepted
    ensures WorkerStep(cfg, g, timeout).running == g.running
  {
  }

  lemma CallerLeavesWorker(cfg: Config, g: Engine, t: Id, pc: Caller)
    ensures CallerStep(cfg, g, t, pc).0.worker == g.worker
  {
  }

  lemma CallerBatches(cfg: Config, g: Engine, t: Id, pc: Caller)
    requires Batched(g)
    ensures Batched(CallerStep(cfg, g, t, pc).0)
  {
    hide Batched;
    BatchedGrows(g, CallerStep(cfg, g, t, pc).0);
  }

  lemma StepKeepsInv(cfg: Config, s: State, e: Event)
    requires Inv(cfg, s)
    ensures Inv(cfg, Step(cfg, s, e))
  {
    hide Batched, Conserved, Capped, Phased, LeftBehind, Answered, Light, Count, WorkerStep, CallerStep;
    match e
    case Submit(t) =>
    case Shutdown(t) =>
    case Call(t) =>
      CallerKept(cfg, s.g, t, CallerOf(s, t));
      CallerBatches(cfg, s.g, t, CallerOf(s, t));
      CallerLeavesWorker(cfg, s.g, t, CallerOf(s, t));
      forall u: Id
        ensures Count(Step(cfg, s, e).g.accepted, u) == (if CallerOf(Step(cfg, s, e), u).Accepted? then 1 else 0)
      {
        CallerCounts(cfg, s, t, u);
      }
    case Work(timeout) =>
      WorkerKept(cfg, s.g, timeout);
      WorkerLight(cfg, s.g, timeout);
      WorkerAccepts(cfg, s.g, timeout);
  }

  lemma {:induction false} ContinueKeepsInv(cfg: Config, s: State, events: seq<Event>)
    requires Inv(cfg, s)
    ensures Inv(cfg, Continue(cfg, s, events))
  {
    if events == [] {
    } else {
      hide Inv, Step;
      ContinueKeepsInv(cfg, s, events[..|events| - 1]);
      StepKeepsInv(cfg, Continue(cfg, s, events[..|events| - 1]), events[|events| - 1]);
    }
  }

  lemma RunKeepsInv(cfg: Config, events: seq<Event>)
    ensures Inv(cfg, Run(cfg, events))
  {
    assert Ids([]) == [];
    ContinueKeepsInv(cfg, INITIAL, events);
  }

  // -------------------------------------------------------------- what runs keep

  /**
   * Requests are answered in the order they were accepted: the accepted ones are the answered ones, then the ones in
   * the worker's hands, then the queued ones; the caps hold; and nothing is ever taken from an empty queue.
   */
  lemma AnsweredInOrder(cfg: Config, events: seq<Event>)
    ensures var g := Run(cfg, events).g;
            && g.accepted == Ids(g.answers) + Pending(g.worker) + g.queue
            && |Batch(g.worker)| <= cfg.maxBatch
            && (g.queue == [] || |g.queue| <= SizeT(cfg.maxQueue))
            && (g.worker.Taking? ==> g.queue != [])
            && (g.drained < 0 && |Batch(g.worker)| > 1 ==> (|Batch(g.worker)| - 1) * 100 < SizeT(cfg.maxTokens))
  {
    hide Run;
    RunKeepsInv(cfg, events);
  }

  /** No request is answered twice, and none that was not accepted is answered. */
  lemma AnsweredOnce(cfg: Config, events: seq<Event>, t: Id)
    ensures var s := Run(cfg, events);
            Count(Ids(s.g.answers), t) <= (if CallerOf(s, t).Accepted? then 1 else 0)
  {
    var s := Run(cfg, events);
    RunKeepsInv(cfg, events);
    CountJoin(Ids(s.g.answers), Pending(s.g.worker), t);
    CountJoin(Ids(s.g.answers) + Pending(s.g.worker), s.g.queue, t);
    hide Run, Ids, Count, Pending;
  }

  lemma AcceptedThere(g: Engine, k: nat)
    requires Conserved(g) && k < |g.answers|
    ensures k < |g.accepted| && g.answers[k].id == g.accepted[k]
  {
    var ids := Ids(g.answers);
    assert ids[k] == g.answers[k].id;
    hide Ids, Pending;
    assert (ids + Pending(g.worker) + g.queue)[k] == ids[k];
  }

  lemma TogetherEarlier(g: Engine, k: nat) returns (lo: nat)
    requires Batched(g) && Begun(g.worker) <= |g.answers| && k < |g.answers| - Begun(g.worker)
    ensures Together(g.answers, g.accepted, k, lo)
  {
    hide Together, Begun, Batch;
    var done: nat := |g.answers| - Begun(g.worker);
    assert Finished(g.answers, g.accepted, k, done);
    lo :| Together(g.answers, g.accepted, k, lo) && lo + |g.answers[k].batch| <= done;
  }

  lemma BegunFits(g: Engine)
    requires Batched(g)
    ensures Begun(g.worker) <= |g.answers|
  {
    hide AllFinished, Unfinished, Begun, Batch;
  }

  lemma BegunMeans(cfg: Config, g: Engine)
    requires Phased(cfg, g) && Begun(g.worker) > 0
    ensures g.worker.Processing? && !g.worker.stage.Generating? && Begun(g.worker) == g.worker.count <= |g.worker.batch|
  {
    hide AllGenerate;
  }

  lemma AnswersTogether(cfg: Config, g: Engine, k: nat) returns (lo: nat)
    requires Conserved(g) && Batched(g) && Phased(cfg, g) && k < |g.answers|
    ensures Together(g.answers, g.accepted, k, lo)
  {
    hide *;
    BegunFits(g);
    if k < |g.answers| - Begun(g.worker) {
      lo := TogetherEarlier(g, k);
    } else {
      BegunMeans(cfg, g);
      TogetherInHand(g, k);
      lo := |g.answers| - g.worker.count;
    }
  }

  /**
   * One throw fails every request of its batch and no other: the batch of an answer was accepted in one stretch, each
   * answer to a request in that stretch carries the same batch, and is good exactly when the whole batch generates.
   */
  lemma BatchSharesItsFate(cfg: Config, events: seq<Event>, k: nat) returns (lo: nat)
    requires k < |Run(cfg, events).g.answers|
    ensures var g := Run(cfg, events).g;
            var batch := g.answers[k].batch;
            && |batch| <= cfg.maxBatch
            && lo <= k < lo + |batch| <= |g.accepted| && batch == g.accepted[lo..lo + |batch|]
            && g.answers[k].id == g.accepted[k]
            && forall j | lo <= j < lo + |batch| && j < |g.answers| ::
                 && g.answers[j].batch == batch
                 && (g.answers[j].ok <==> forall i :: 0 <= i < |batch| ==> batch[i] !in cfg.throws)
  {
    hide Run;
    RunKeepsInv(cfg, events);
    lo := AnswersTogether(cfg, Run(cfg, events).g, k);
    AcceptedThere(Run(cfg, events).g, k);
    hide Batched, Conserved, Phased, Capped, LeftBehind;
  }

  // ------------------------------------------------------------- what is refused

  lemma StepRefuses(cfg: Config, s: State, e: Event, t: Id)
    ensures CallerOf(Step(cfg, s, e), t).RefusedFull? ==>
              CallerOf(s, t).RefusedFull? || |s.g.queue| >= SizeT(cfg.maxQueue)
    ensures CallerOf(Step(cfg, s, e), t).RefusedClosed? ==> CallerOf(s, t).RefusedClosed? || !s.g.running
  {
    hide WorkerStep, SizeT;
  }

  /** A submission is refused only by an engine that is stopped, or with the queue at its limit at some time. */
  lemma {:induction false} RefusedForReason(cfg: Config, events: seq<Event>, t: Id)
    ensures CallerOf(Run(cfg, events), t).RefusedClosed? ==> !Run(cfg, events).g.running
    ensures CallerOf(Run(cfg, events), t).RefusedFull? ==>
              exists n: nat :: n <= |events| && |Run(cfg, events[..n]).g.queue| >= SizeT(cfg.maxQueue)
  {
    if events == [] {
    } else {
      var before, e := events[..|events| - 1], events[|events| - 1];
      assert Run(cfg, events) == Step(cfg, Run(cfg, before), e);
      StepRefuses(cfg, Run(cfg, before), e, t);
      NeverRunsAgain(cfg, Run(cfg, before), e);
      hide Run, Step, SizeT, CallerOf;
      RefusedForReason(cfg, before, t);
      if CallerOf(Run(cfg, events), t).RefusedFull? {
        if n: nat :| n <= |before| && |Run(cfg, before[..n]).g.queue| >= SizeT(cfg.maxQueue) {
          assert events[..n] == before[..n];
        }
      }
    }
  }

  // ------------------------------------------------------ how batches are collected

  /** The limits as the program compares them: a negative one is 2^64 more. */
  lemma SizeTMeans(limit: int)
    ensures 0 <= limit ==> SizeT(limit) == limit
    ensures -0x8000_0000 <= limit < 0 ==>
              0 < SizeT(limit) < 0x1_0000_0000_0000_0000 && (SizeT(limit) - limit) % 0x1_0000_0000_0000_0000 == 0
  {
  }

  /**
   * A batch goes to processing before the final drain only if it is full, has reached the token estimate, the engine
   * is being stopped, or the wait for another request has timed out with none queued.
   */
  lemma BatchClosedForReason(cfg: Config, events: seq<Event>, timeout: bool)
    requires !Run(cfg, events).g.worker.Processing?
    requires var worker := Step(cfg, Run(cfg, events), Work(timeout)).g.worker; worker.Processing? && !worker.last
    ensures var g, batch := Run(cfg, events).g, Step(cfg, Run(cfg, events), Work(timeout)).g.worker.batch;
            || |batch| == cfg.maxBatch
            || |batch| * 100 >= SizeT(cfg.maxTokens)
            || !g.running
            || (timeout && g.worker.Waiting? && g.queue == [])
  {
    RunKeepsInv(cfg, events);
    hide Run, SizeT;
  }

  /** The worker begins to wait only with a batch that is not full and while the engine runs. */
  lemma WaitsWhileRunning(cfg: Config, g: Engine, timeout: bool)
    requires !g.worker.Waiting? && WorkerStep(cfg, g, timeout).worker.Waiting?
    ensures g.running && |WorkerStep(cfg, g, timeout).worker.batch| < cfg.maxBatch
  {
    hide SizeT, IsSet;
  }

  /** Whether the requests `q`, queued behind `base` others, are still being gathered into one batch. */
  predicate Gathering(g: Engine, base: nat, q: seq<Id>) {
    && g.running && |g.answers| == base
    && (g.worker.LoopHead? || g.worker.CollectHead? || g.worker.Waiting? || g.worker.Woken? || g.worker.Taking?)
    && |Batch(g.worker)| < |q| && q <= Batch(g.worker) + g.queue
  }

  /** Whether they are all in the worker's batch, and whatever was answered since belongs to it. */
  predicate InOneBatch(g: Engine, base: nat, q: seq<Id>) {
    && q <= Batch(g.worker) && |g.answers| == base + Begun(g.worker)
    && forall j | base <= j < |g.answers| :: g.answers[j].batch == Batch(g.worker)
  }

  /** Whether they are all answered, each in a batch that begins with all of them. */
  predicate OneBatchAnswered(g: Engine, base: nat, q: seq<Id>) {
    && |g.answers| >= base + |q|
    && forall j | base <= j < base + |q| :: q <= g.answers[j].batch
  }

  predicate Gathered(g: Engine, base: nat, q: seq<Id>) {
    InOneBatch(g, base, q) || OneBatchAnswered(g, base, q)
  }

  lemma GatheringStep(cfg: Config, g: Engine, timeout: bool, base: nat, q: seq<Id>)
    requires Gathering(g, base, q) && |q| <= cfg.maxBatch && (|q| - 1) * 100 < SizeT(cfg.maxTokens)
    ensures var after := WorkerStep(cfg, g, timeout); Gathering(after, base, q) || InOneBatch(after, base, q)
  {
    var batch := Batch(g.worker);
    if g.worker.Taking? {
      assert batch + g.queue == batch + [g.queue[0]] + g.queue[1..];
      TakenPrefix(q, batch + [g.queue[0]], g.queue[1..]);
    }
    hide SizeT;
  }

  lemma TakenPrefix(q: seq<Id>, batch: seq<Id>, queue: seq<Id>)
    requires q <= batch + queue
    ensures |batch| >= |q| ==> q <= batch
  {
  }

  lemma InOneBatchStep(cfg: Config, g: Engine, timeout: bool, base: nat, q: seq<Id>)
    requires InOneBatch(g, base, q) && q != [] && Phased(cfg, g) && Unset(g)
    ensures Gathered(WorkerStep(cfg, g, timeout), base, q)
  {
    if g.worker.Processing? {
      InOneBatchAnswers(cfg, g, base, q);
    } else {
      hide SizeT, IsSet, AllGenerate, Unset, ProcessStep, Phased;
    }
  }

  lemma InOneBatchAnswers(cfg: Config, g: Engine, base: nat, q: seq<Id>)
    requires InOneBatch(g, base, q) && Phased(cfg, g) && Unset(g) && g.worker.Processing?
    ensures Gathered(WorkerStep(cfg, g, false), base, q)
  {
    if !g.worker.stage.Generating? && g.worker.count < |g.worker.batch| {
      AnswerMoves(cfg, g);
    }
    hide SizeT, IsSet, AllGenerate, Unset;
  }

  lemma AnswersExtend(cfg: Config, g: Engine, timeout: bool)
    ensures g.answers <= WorkerStep(cfg, g, timeout).answers
  {
    hide SizeT, IsSet, AllGenerate;
  }

  lemma CallerLeaves(cfg: Config, g: Engine, t: Id, pc: Caller)
    ensures var after := CallerStep(cfg, g, t, pc).0;
            && after.worker == g.worker && after.answers == g.answers && g.queue <= after.queue
            && (after.running ==> g.running)
  {
    hide SizeT;
  }

  lemma QueueGrows(q: seq<Id>, batch: seq<Id>, queue: seq<Id>, queue': seq<Id>)
    requires q <= batch + queue && queue <= queue'
    ensures q <= batch + queue'
  {
  }

  lemma WorkerGathers(cfg: Config, g: Engine, timeout: bool, base: nat, q: seq<Id>)
    requires Phased(cfg, g) && Unset(g) && q != [] && |q| <= cfg.maxBatch && (|q| - 1) * 100 < SizeT(cfg.maxTokens)
    requires Gathering(g, base, q) || Gathered(g, base, q)
    ensures var after := WorkerStep(cfg, g, timeout);
            Gathered(after, base, q) || (Gathering(g, base, q) && Gathering(after, base, q))
  {
    AnswersExtend(cfg, g, timeout);
    hide WorkerStep, Gathering, InOneBatch, Phased, Unset, SizeT;
    if Gathering(g, base, q) {
      GatheringStep(cfg, g, timeout, base, q);
    } else if InOneBatch(g, base, q) {
      InOneBatchStep(cfg, g, timeout, base, q);
    }
  }

  lemma CallerGathers(cfg: Config, g: Engine, t: Id, pc: Caller, base: nat, q: seq<Id>)
    requires Gathering(g, base, q) || Gathered(g, base, q)
    ensures var after := CallerStep(cfg, g, t, pc).0;
            Gathered(after, base, q) || (Gathering(g, base, q) && (Gathering(after, base, q) || !after.running))
  {
    CallerLeaves(cfg, g, t, pc);
    if Gathering(g, base, q) {
      QueueGrows(q, Batch(g.worker), g.queue, CallerStep(cfg, g, t, pc).0.queue);
    }
    hide CallerStep, Batch, Begun;
  }

  lemma StepGathers(cfg: Config, s: State, e: Event, base: nat, q: seq<Id>)
    requires Inv(cfg, s) && q != [] && |q| <= cfg.maxBatch && (|q| - 1) * 100 < SizeT(cfg.maxTokens)
    requires Gathering(s.g, base, q) || Gathered(s.g, base, q)
    ensures var after := Step(cfg, s, e).g;
            Gathered(after, base, q) || (Gathering(s.g, base, q) && (Gathering(after, base, q) || !after.running))
  {
    PromiseUnset(s.g);
    hide Gathering, Gathered, WorkerStep, CallerStep, Phased, Unset, SizeT, Conserved, Capped, LeftBehind, Answered;
    hide Batched, Light;
    match e
    case Submit(t) =>
    case Shutdown(t) =>
    case Call(t) => CallerGathers(cfg, s.g, t, CallerOf(s, t), base, q);
    case Work(timeout) => WorkerGathers(cfg, s.g, timeout, base, q);
  }

  lemma NeverRunsAgain(cfg: Config, s: State, e: Event)
    ensures Step(cfg, s, e).g.running ==> s.g.running
  {
    hide SizeT, IsSet, AllGenerate;
  }

  lemma {:induction false} GathersWhileRunning(cfg: Config, s: State, more: seq<Event>, base: nat, q: seq<Id>)
    requires Inv(cfg, s) && q != [] && |q| <= cfg.maxBatch && (|q| - 1) * 100 < SizeT(cfg.maxTokens)
    requires Gathering(s.g, base, q) || Gathered(s.g, base, q)
    requires Gathering(s.g, base, q) ==> Continue(cfg, s, more).g.running
    ensures var after := Continue(cfg, s, more).g;
            Gathered(after, base, q) || (Gathering(s.g, base, q) && Gathering(after, base, q))
  {
    if more == [] {
    } else {
      var init, e := more[..|more| - 1], more[|more| - 1];
      var before := Continue(cfg, s, init);
      assert Continue(cfg, s, more) == Step(cfg, before, e);
      NeverRunsAgain(cfg, before, e);
      hide Gathering, Gathered, Step, SizeT, Inv;
      GathersWhileRunning(cfg, s, init, base, q);
      ContinueKeepsInv(cfg, s, init);
      StepGathers(cfg, before, e, base, q);
    }
  }

  /**
   * Requests queued when the worker is at the head of its loop are answered in one batch if they fit into one, by
   * number and by the estimate of 100 tokens for all but the last, and no shutdown comes before all of them are taken;
   * time that passes makes no difference.
   */
  lemma QueuedTogether(cfg: Config, events: seq<Event>, k: nat, more: seq<Event>, rest: seq<Event>)
    requires var g := Run(cfg, events).g; g.worker.LoopHead? && g.running && 1 <= k <= |g.queue|
    requires k <= cfg.maxBatch && (k - 1) * 100 < SizeT(cfg.maxTokens)
    requires var g, taken := Run(cfg, events).g, Continue(cfg, Run(cfg, events), more).g;
             taken.running && |taken.accepted| - |taken.queue| >= |g.answers| + k
    ensures var g, last := Run(cfg, events).g, Continue(cfg, Continue(cfg, Run(cfg, events), more), rest).g;
            forall j | |g.answers| <= j < |g.answers| + k && j < |last.answers| :: g.queue[..k] <= last.answers[j].batch
  {
    var s := Run(cfg, events);
    var taken := Continue(cfg, s, more);
    var base, q := |s.g.answers|, s.g.queue[..k];
    RunKeepsInv(cfg, events);
    assert Gathering(s.g, base, q);
    ContinueKeepsInv(cfg, s, more);
    hide Run, Continue, SizeT;
    GathersWhileRunning(cfg, s, more, base, q);
    NotGathering(taken.g, base, q);
    GathersWhileRunning(cfg, taken, rest, base, q);
    hide Inv, Gathering;
  }

  lemma NotGathering(g: Engine, base: nat, q: seq<Id>)
    requires Conserved(g) && |g.accepted| - |g.queue| >= base + |q|
    ensures !Gathering(g, base, q)
  {
  }

  /** Once the worker has exited, everything accepted was answered exactly when nothing is left in the queue. */
  lemma AnsweredAtExit(cfg: Config, s: State)
    requires Inv(cfg, s) && s.g.worker.Exited?
    ensures Ids(s.g.answers) == s.g.accepted <==> s.g.queue == []
    ensures s.g.queue == [] <==> s.g.drained <= cfg.maxBatch && s.g.late == 0
  {
    var g := s.g;
    assert |g.accepted| == |Ids(g.answers)| + |g.queue|;
    if g.queue == [] {
      assert Ids(g.answers) + [] + [] == Ids(g.answers);
    }
  }

  /** That is, when the final drain found at most one batch and nothing was pushed after it. */
  lemma AllAnsweredExactly(cfg: Config, events: seq<Event>)
    requires Run(cfg, events).g.worker.Exited?
    ensures var g := Run(cfg, events).g;
            Ids(g.answers) == g.accepted <==> g.drained <= cfg.maxBatch && g.late == 0
  {
    RunKeepsInv(cfg, events);
    AnsweredAtExit(cfg, Run(cfg, events));
  }

  /** No promise is ever about to be set a second time, so fulfilling a batch never throws. */
  lemma PromisesSetOnce(cfg: Config, events: seq<Event>)
    ensures Unset(Run(cfg, events).g)
  {
    RunKeepsInv(cfg, events);
    hide Run;
    PromiseUnset(Run(cfg, events).g);
  }

  lemma StepAfterExit(cfg: Config, s: State, e: Event)
    requires s.g.worker.Exited?
    ensures Step(cfg, s, e).g.worker.Exited? && Step(cfg, s, e).g.answers == s.g.answers
  {
  }

  /** After the worker's exit nothing is answered any more. */
  lemma {:induction false} NothingAfterExit(cfg: Config, s: State, more: seq<Event>)
    requires s.g.worker.Exited?
    ensures Continue(cfg, s, more).g.worker.Exited? && Continue(cfg, s, more).g.answers == s.g.answers
  {
    if more == [] {
    } else {
      hide Step;
      NothingAfterExit(cfg, s, more[..|more| - 1]);
      StepAfterExit(cfg, Continue(cfg, s, more[..|more| - 1]), more[|more| - 1]);
    }
  }

  lemma StepJoins(cfg: Config, s: State, e: Event, t: Id)
    requires CallerOf(s, t).Joining? || (CallerOf(s, t).Stopped? && s.g.worker.Exited?)
    ensures var next := Step(cfg, s, e);
            CallerOf(next, t).Joining? || (CallerOf(next, t).Stopped? && next.g.worker.Exited?)
  {
    hide SizeT, ProcessStep, ShouldFlush;
  }

  /** The `shutdown()` that stopped the engine returns only after the worker's exit. */
  lemma {:induction false} ShutdownJoins(cfg: Config, s: State, more: seq<Event>, t: Id)
    requires CallerOf(s, t).Joining?
    ensures var after := Continue(cfg, s, more);
            CallerOf(after, t).Joining? || (CallerOf(after, t).Stopped? && after.g.worker.Exited?)
  {
    if more == [] {
    } else {
      hide Step, CallerOf;
      ShutdownJoins(cfg, s, more[..|more| - 1], t);
      StepJoins(cfg, Continue(cfg, s, more[..|more| - 1]), more[|more| - 1], t);
    }
  }

  // ---------------------------------------------------------------- progress

  /** How far the worker is from having nothing to do, or, once the engine is stopped, from its exit. */
  function Rank(g: Engine): nat {
    20 * |g.queue| +
    (match g.worker
     case LoopHead => if g.running then 6 else 2
     case CollectHead(batch) => 9 * |batch| + 5
     case Waiting(batch) => 9 * |batch| + 4
     case Woken(batch) => 9 * |batch| + 3
     case Taking(batch) => 9 * |batch| + 2
     case Draining => 1
     case Processing(stage, batch, count, _) =>
       if count > |batch| then 0 else |batch| - count + (if stage.Generating? then |batch| + 9 else 7)
     case Exited => 0)
  }

  predicate Settled(g: Engine) {
    g.worker.Exited? || (g.running && g.queue == [] && Pending(g.worker) == [] && !g.worker.Processing?)
  }

  lemma WorkLowersRank(cfg: Config, g: Engine)
    requires (cfg.maxBatch >= 1 || !g.running) && Capped(cfg, g) && Phased(cfg, g) && Unset(g) && !Settled(g)
    ensures Rank(WorkerStep(cfg, g, true)) < Rank(g)
  {
  }

  lemma {:induction false} ContinueFirst(cfg: Config, s: State, e: Event, rest: seq<Event>)
    ensures Continue(cfg, s, [e] + rest) == Continue(cfg, Step(cfg, s, e), rest)
  {
    hide Step;
    var all := [e] + rest;
    if rest == [] {
      assert all[..0] == [];
    } else {
      ContinueFirst(cfg, s, e, rest[..|rest| - 1]);
      assert all[..|all| - 1] == [e] + rest[..|rest| - 1];
    }
  }

  lemma {:induction false} SettleFrom(cfg: Config, s: State) returns (more: seq<Event>)
    requires Inv(cfg, s) && (cfg.maxBatch >= 1 || !s.g.running)
    ensures forall k :: 0 <= k < |more| ==> more[k] == Work(true)
    ensures var after := Continue(cfg, s, more);
            && Inv(cfg, after) && Settled(after.g)
            && after.g.running == s.g.running && after.g.accepted == s.g.accepted && after.callers == s.callers
    decreases Rank(s.g)
  {
    hide Settled, Rank, WorkerStep, Batched, Capped, Phased, Conserved, LeftBehind, Answered, Light, Count;
    if Settled(s.g) {
      more := [];
    } else {
      PromiseUnset(s.g);
      WorkLowersRank(cfg, s.g);
      StepKeepsInv(cfg, s, Work(true));
      WorkerAccepts(cfg, s.g, true);
      var rest := SettleFrom(cfg, Step(cfg, s, Work(true)));
      ContinueFirst(cfg, s, Work(true), rest);
      more := [Work(true)] + rest;
    }
  }

  /**
   * The worker never gets stuck: left alone in any reachable state, it answers every accepted request while the
   * engine runs, and exits once it is stopped, so that a joining `shutdown()` returns.
   */
  lemma WorkerSettles(cfg: Config, events: seq<Event>) returns (more: seq<Event>)
    requires cfg.maxBatch >= 1 || !Run(cfg, events).g.running
    ensures forall k :: 0 <= k < |more| ==> more[k] == Work(true)
    ensures var before, after := Run(cfg, events).g, Continue(cfg, Run(cfg, events), more).g;
            && after.accepted == before.accepted
            && (if before.running then Ids(after.answers) == before.accepted else after.worker.Exited?)
  {
    RunKeepsInv(cfg, events);
    more := SettleFrom(cfg, Run(cfg, events));
    var g := Continue(cfg, Run(cfg, events), more).g;
    hide Run, Continue, Ids;
    if g.running {
      assert Ids(g.answers) + [] + [] == Ids(g.answers);
    }
  }

  /** A `shutdown()` that finds the engine stopped already returns at once. */
  lemma SecondShutdownReturns(cfg: Config, s: State, t: Id)
    requires CallerOf(s, t).Exchanging? && !s.g.running
    ensures Step(cfg, s, Call(t)) == s.(callers := s.callers[t := Stopped])
  {
  }

  lemma JoinerReturns(cfg: Config, s: State, t: Id)
    requires CallerOf(s, t).Joining? && s.g.worker.Exited?
    ensures CallerOf(Step(cfg, s, Call(t)), t).Stopped?
  {
  }

  lemma StepStopsForJoiner(cfg: Config, s: State, e: Event, t: Id)
    requires CallerOf(s, t).Joining? ==> !s.g.running
    ensures CallerOf(Step(cfg, s, e), t).Joining? ==> !Step(cfg, s, e).g.running
  {
    NeverRunsAgain(cfg, s, e);
    hide WorkerStep;
  }

  lemma {:induction false} JoinedIsStopped(cfg: Config, events: seq<Event>, t: Id)
    ensures CallerOf(Run(cfg, events), t).Joining? ==> !Run(cfg, events).g.running
  {
    if events == [] {
    } else {
      JoinedIsStopped(cfg, events[..|events| - 1], t);
      hide Step;
      StepStopsForJoiner(cfg, Run(cfg, events[..|events| - 1]), events[|events| - 1], t);
    }
  }

  /** Every joining `shutdown()` can return: the worker alone reaches its exit, and the caller's next step is its last. */
  lemma ShutdownCanReturn(cfg: Config, events: seq<Event>, t: Id) returns (more: seq<Event>)
    requires CallerOf(Run(cfg, events), t).Joining?
    ensures CallerOf(Continue(cfg, Run(cfg, events), more), t).Stopped?
  {
    var s := Run(cfg, events);
    JoinedIsStopped(cfg, events, t);
    RunKeepsInv(cfg, events);
    more := SettleFrom(cfg, s);
    var settled := Continue(cfg, s, more);
    assert settled.g.worker.Exited?;
    SameCaller(s, settled, t);
    hide Run, Continue, Step;
    JoinerReturns(cfg, settled, t);
    ContinueMore(cfg, s, more, Call(t));
    more := more + [Call(t)];
  }

  // ------------------------------------------------- what a shutdown loses

  /** Nobody has passed the test of `running_` without having pushed yet. */
  ghost predicate NoPusher(s: State) {
    forall u: Id :: !CallerOf(s, u).Pushing?
  }

  /** What is left to the final drain: the queue without the request that the worker is about to move over. */
  function Left(g: Engine): seq<Id> {
    if g.worker.Taking? && g.queue != [] then g.queue[1..] else g.queue
  }

  /** The engine `g` some time after it was stopped with `queue` left. */
  predicate Closed(g: Engine, queue: seq<Id>) {
    && !g.running
    && (if g.drained < 0 then |queue| <= |Left(g)| else |queue| <= g.drained)
  }

  /** The same, if nobody could push any more. */
  predicate ClosedTight(g: Engine, queue: seq<Id>) {
    !g.running && g.late == 0 && (if g.drained < 0 then Left(g) == queue else g.drained == |queue|)
  }

  lemma StepClosed(cfg: Config, s: State, e: Event, queue: seq<Id>)
    requires Phased(cfg, s.g) && Closed(s.g, queue)
    ensures Closed(Step(cfg, s, e).g, queue)
  {
    hide IsSet, AllGenerate, SizeT;
  }

  lemma StepClosedTight(cfg: Config, s: State, e: Event, queue: seq<Id>)
    requires Phased(cfg, s.g) && ClosedTight(s.g, queue) && NoPusher(s)
    ensures ClosedTight(Step(cfg, s, e).g, queue)
  {
    hide IsSet, AllGenerate, SizeT;
    match e
    case Call(t) => assert !CallerOf(s, t).Pushing?;
    case _ =>
  }

  lemma StepNoPusher(cfg: Config, s: State, e: Event)
    requires !s.g.running && NoPusher(s)
    ensures NoPusher(Step(cfg, s, e))
  {
    hide WorkerStep;
    forall u: Id ensures !CallerOf(Step(cfg, s, e), u).Pushing? {
      assert !CallerOf(s, u).Pushing?;
    }
  }

  lemma {:induction false} StaysClosed(cfg: Config, s: State, more: seq<Event>, queue: seq<Id>)
    requires Inv(cfg, s) && Closed(s.g, queue)
    ensures Inv(cfg, Continue(cfg, s, more)) && Closed(Continue(cfg, s, more).g, queue)
    ensures ClosedTight(s.g, queue) && NoPusher(s) ==> ClosedTight(Continue(cfg, s, more).g, queue)
    ensures NoPusher(s) ==> NoPusher(Continue(cfg, s, more))
  {
    if more == [] {
    } else {
      hide Step, NoPusher, Batched, Conserved, Capped, Phased, LeftBehind, Answered, Light, Count;
      var before, e := Continue(cfg, s, more[..|more| - 1]), more[|more| - 1];
      StaysClosed(cfg, s, more[..|more| - 1], queue);
      StepKeepsInv(cfg, before, e);
      StepClosed(cfg, before, e, queue);
      if NoPusher(s) {
        StepNoPusher(cfg, before, e);
        if ClosedTight(s.g, queue) {
          StepClosedTight(cfg, before, e, queue);
        }
      }
    }
  }

  /** The step with which `shutdown()` closes the engine. */
  lemma Closing(cfg: Config, s: State, t: Id)
    requires Inv(cfg, s) && s.g.running && CallerOf(s, t).Exchanging?
    ensures var closed := Step(cfg, s, Call(t));
            && Inv(cfg, closed) && closed.g == s.g.(running := false)
            && Closed(closed.g, Left(s.g)) && ClosedTight(closed.g, Left(s.g))
            && (NoPusher(s) <==> NoPusher(closed))
  {
    var closed := Step(cfg, s, Call(t));
    StepKeepsInv(cfg, s, Call(t));
    assert forall u: Id :: u != t ==> CallerOf(closed, u) == CallerOf(s, u);
  }

  /**
   * When a shutdown closes the engine with nobody about to push, everything accepted is answered, in every run that
   * ends the worker, exactly when at most one batch was left then.
   */
  lemma ShutdownAnswers(cfg: Config, events: seq<Event>, t: Id, more: seq<Event>)
    requires Run(cfg, events).g.running && CallerOf(Run(cfg, events), t).Exchanging? && NoPusher(Run(cfg, events))
    requires Continue(cfg, Step(cfg, Run(cfg, events), Call(t)), more).g.worker.Exited?
    ensures var g := Continue(cfg, Step(cfg, Run(cfg, events), Call(t)), more).g;
            Ids(g.answers) == g.accepted <==> |Left(Run(cfg, events).g)| <= cfg.maxBatch
  {
    var s := Run(cfg, events);
    var closed := Step(cfg, s, Call(t));
    RunKeepsInv(cfg, events);
    Closing(cfg, s, t);
    StaysClosed(cfg, closed, more, Left(s.g));
    AnsweredAtExit(cfg, Continue(cfg, closed, more));
    hide Run, Continue, Step;
  }

  /** Every run from here that ends the worker leaves nothing accepted unanswered. */
  ghost predicate LosesNothing(cfg: Config, s: State) {
    forall more: seq<Event> ::
      Continue(cfg, s, more).g.worker.Exited? ==>
        Ids(Continue(cfg, s, more).g.answers) == Continue(cfg, s, more).g.accepted
  }

  lemma StepStaysClosed(cfg: Config, s: State, e: Event, t: Id)
    requires !s.g.running && !CallerOf(s, t).Pushing? && !CallerOf(s, t).Accepted?
    ensures var next := Step(cfg, s, e);
            !next.g.running && !CallerOf(next, t).Pushing? && !CallerOf(next, t).Accepted?
  {
  }

  /** After a shutdown only submissions that had already read `running_` can still be accepted. */
  lemma {:induction false} ClosedToTheRest(cfg: Config, s: State, more: seq<Event>, t: Id)
    requires !s.g.running && !CallerOf(s, t).Pushing? && !CallerOf(s, t).Accepted?
    ensures var after := Continue(cfg, s, more);
            !after.g.running && !CallerOf(after, t).Pushing? && !CallerOf(after, t).Accepted?
  {
    if more == [] {
    } else {
      hide Step, CallerOf;
      ClosedToTheRest(cfg, s, more[..|more| - 1], t);
      StepStaysClosed(cfg, Continue(cfg, s, more[..|more| - 1]), more[|more| - 1], t);
    }
  }

  lemma Extended(cfg: Config, events: seq<Event>, e: Event)
    ensures Run(cfg, events + [e]) == Step(cfg, Run(cfg, events), e)
  {
  }

  /** A submission reads `running_` and the engine is shut down before it pushes. */
  lemma ClosedMeanwhile(cfg: Config) returns (events: seq<Event>)
    ensures var s := Run(cfg, events);
            s.g == INITIAL.g.(running := false) && CallerOf(s, 0).Pushing?
  {
    Extended(cfg, [], Submit(0));
    events := [] + [Submit(0)];
    Extended(cfg, events, Call(0));
    events := events + [Call(0)];
    Extended(cfg, events, Shutdown(1));
    events := events + [Shutdown(1)];
    Extended(cfg, events, Call(1));
    events := events + [Call(1)];
  }

  /** Such a submission can be accepted and never answered, though the final drain found nothing to leave behind. */
  lemma LatePushIsLost(cfg: Config) returns (events: seq<Event>)
    requires SizeT(cfg.maxQueue) > 0
    ensures var s := Run(cfg, events);
            && CallerOf(s, 0).Accepted? && s.g.worker.Exited? && s.g.drained == 0
            && forall more :: Ids(Continue(cfg, s, more).g.answers) == []
  {
    events := ClosedMeanwhile(cfg);
    Extended(cfg, events, Work(false));
    events := events + [Work(false)];
    Extended(cfg, events, Work(false));
    events := events + [Work(false)];
    Extended(cfg, events, Call(0));
    events := events + [Call(0)];
    forall more ensures Ids(Continue(cfg, Run(cfg, events), more).g.answers) == [] {
      NothingAfterExit(cfg, Run(cfg, events), more);
    }
  }

  lemma NeverQueued(cfg: Config, s: State, more: seq<Event>)
    requires Inv(cfg, s) && !s.g.running && s.g.drained < 0 && SizeT(cfg.maxQueue) <= 0
    ensures Continue(cfg, s, more).g.worker.Exited? ==>
              Ids(Continue(cfg, s, more).g.answers) == Continue(cfg, s, more).g.accepted
  {
    ContinueKeepsInv(cfg, s, more);
    hide Continue;
    if Continue(cfg, s, more).g.worker.Exited? {
      AnsweredAtExit(cfg, Continue(cfg, s, more));
    }
  }

  /** A push that comes after the worker's exit. */
  lemma PushAfterExit(cfg: Config, s: State, u: Id)
    requires Inv(cfg, s) && s.g.worker.Exited? && s.g.queue == [] && CallerOf(s, u).Pushing? && SizeT(cfg.maxQueue) > 0
    ensures var after := Step(cfg, s, Call(u));
            Inv(cfg, after) && after.g.worker.Exited? && after.g.queue != []
  {
    hide Batched, Conserved, Answered, Light, Count, LeftBehind, Phased;
    StepKeepsInv(cfg, s, Call(u));
  }

  /** With more than a batch left, or somebody about to push, some run leaves an accepted request unanswered. */
  lemma SomeRunLoses(cfg: Config, s: State, queue: seq<Id>) returns (more: seq<Event>)
    requires Inv(cfg, s) && Closed(s.g, queue)
    requires |queue| > cfg.maxBatch || (!NoPusher(s) && SizeT(cfg.maxQueue) > 0)
    ensures var after := Continue(cfg, s, more);
            after.g.worker.Exited? && Ids(after.g.answers) != after.g.accepted
  {
    more := SettleFrom(cfg, s);
    var after := Continue(cfg, s, more);
    StaysClosed(cfg, s, more, queue);
    hide *;
    assert after.g.worker.Exited? by { ExitedWhenClosed(cfg, after.g, queue); }
    AnsweredAtExit(cfg, after);
    if |queue| > cfg.maxBatch {
      DrainedTooMany(cfg, after.g, queue);
    } else if after.g.queue == [] {
      var u := Pusher(s);
      SameCaller(s, after, u);
      PushAfterExit(cfg, after, u);
      ContinueMore(cfg, s, more, Call(u));
      more := more + [Call(u)];
      AnsweredAtExit(cfg, Continue(cfg, s, more));
    }
  }

  lemma ExitedWhenClosed(cfg: Config, g: Engine, queue: seq<Id>)
    requires Settled(g) && Closed(g, queue)
    ensures g.worker.Exited?
  {
  }

  lemma DrainedTooMany(cfg: Config, g: Engine, queue: seq<Id>)
    requires Closed(g, queue) && Phased(cfg, g) && g.worker.Exited? && |queue| > cfg.maxBatch
    ensures g.drained > cfg.maxBatch
  {
  }

  lemma Pusher(s: State) returns (u: Id)
    requires !NoPusher(s)
    ensures CallerOf(s, u).Pushing?
  {
    u :| CallerOf(s, u).Pushing?;
  }

  lemma SameCaller(s: State, after: State, u: Id)
    requires after.callers == s.callers
    ensures CallerOf(after, u) == CallerOf(s, u)
  {
  }

  lemma ContinueMore(cfg: Config, s: State, more: seq<Event>, e: Event)
    ensures Continue(cfg, s, more + [e]) == Step(cfg, Continue(cfg, s, more), e)
  {
    assert (more + [e])[..|more|] == more;
  }

  /**
   * A shutdown that closes the engine loses nothing, however the threads run on, exactly when at most one batch is
   * left and nobody is about to push (or the queue takes nothing at all).
   */
  lemma ShutdownLosesNothing(cfg: Config, events: seq<Event>, t: Id)
    requires Run(cfg, events).g.running && CallerOf(Run(cfg, events), t).Exchanging?
    ensures LosesNothing(cfg, Step(cfg, Run(cfg, events), Call(t))) <==>
            |Left(Run(cfg, events).g)| <= cfg.maxBatch && (NoPusher(Run(cfg, events)) || SizeT(cfg.maxQueue) <= 0)
  {
    var s := Run(cfg, events);
    var closed := Step(cfg, s, Call(t));
    RunKeepsInv(cfg, events);
    Closing(cfg, s, t);
    RunningUndrained(cfg, s);
    hide Run, Step, Inv, NoPusher, Closed, ClosedTight, Continue, Ids;
    if |Left(s.g)| > cfg.maxBatch || (!NoPusher(s) && SizeT(cfg.maxQueue) > 0) {
      var more := SomeRunLoses(cfg, closed, Left(s.g));
      assert !LosesNothing(cfg, closed);
    } else {
      forall more: seq<Event> | Continue(cfg, closed, more).g.worker.Exited?
        ensures Ids(Continue(cfg, closed, more).g.answers) == Continue(cfg, closed, more).g.accepted
      {
        if SizeT(cfg.maxQueue) <= 0 {
          NeverQueued(cfg, closed, more);
        } else {
          ShutdownAnswers(cfg, events, t, more);
        }
      }
    }
  }

  /** A submission that nothing comes between. */
  lemma Submitted(cfg: Config, events: seq<Event>, t: Id) returns (more: seq<Event>)
    requires var s := Run(cfg, events);
             s.g.running && s.g.drained < 0 && |s.g.queue| < SizeT(cfg.maxQueue) && CallerOf(s, t).Idle?
    ensures var s := Run(cfg, events);
            Run(cfg, more) == State(s.g.(queue := s.g.queue + [t], accepted := s.g.accepted + [t]),
                                    s.callers[t := Caller.Accepted])
  {
    Extended(cfg, events, Submit(t));
    more := events + [Submit(t)];
    Extended(cfg, more, Call(t));
    more := more + [Call(t)];
    Extended(cfg, more, Call(t));
    more := more + [Call(t)];
  }

  /** The worker, with requests queued, up to moving the first over. */
  lemma Reaches(cfg: Config, events: seq<Event>) returns (more: seq<Event>)
    requires var s := Run(cfg, events);
             s.g.running && s.g.queue != [] && s.g.worker.LoopHead? && cfg.maxBatch > 0
    ensures var s := Run(cfg, events);
            Run(cfg, more) == s.(g := s.g.(worker := Taking([])))
  {
    Extended(cfg, events, Work(false));
    more := events + [Work(false)];
    Extended(cfg, more, Work(false));
    more := more + [Work(false)];
    Extended(cfg, more, Work(false));
    more := more + [Work(false)];
    Extended(cfg, more, Work(false));
    more := more + [Work(false)];
  }

  /**
   * A shutdown between the worker's reading of `running_` and its taking of a request: with batches of one and two
   * requests queued nothing is lost.
   */
  lemma TakenAcrossShutdown(cfg: Config) returns (events: seq<Event>)
    requires cfg.maxBatch == 1 && SizeT(cfg.maxQueue) >= 2
    ensures var s := Run(cfg, events);
            && s.g.running && |s.g.queue| == 2 && CallerOf(s, 2).Exchanging?
            && LosesNothing(cfg, Step(cfg, s, Call(2)))
  {
    events := Submitted(cfg, [], 0);
    events := Submitted(cfg, events, 1);
    Extended(cfg, events, Shutdown(2));
    events := events + [Shutdown(2)];
    events := Reaches(cfg, events);
    hide LosesNothing, Step;
    ShutdownLosesNothing(cfg, events, 2);
  }

  lemma RunningUndrained(cfg: Config, s: State)
    requires Inv(cfg, s) && s.g.running
    ensures s.g.drained < 0
  {
  }
}
