/**
 * Chat turns on shared sessions: any number of requests, each locking the sessions it names, writing its user
 * messages, generating, writing the replies and unlocking, one atomic action at a time.
 */
module SessionTurns {
  import opened FiniteSets

  /** A session, named by the address of its object; sessions are locked in this order. */
  type Addr = nat

  /** What a request writes into a session's conversation: the user message or the reply of one of its inputs. */
  datatype Entry = User(t: nat, input: nat) | Reply(t: nat, input: nat)

  /**
   * A request with everything outside this protocol settled: whether its message exceeds the session's budget, and
   * whether generation succeeds.
   */
  datatype Request =
    | Single(session: Addr, tooBig: bool, generates: bool)
    | Batch(sessions: seq<Addr>, generates: bool)

  /** The session of each input, in input order. */
  function Sessions(req: Request): seq<Addr> {
    match req
    case Single(a, _, _) => [a]
    case Batch(sessions, _) => sessions
  }

  predicate Refused(req: Request) {
    req.Single? && req.tooBig
  }

  datatype Stage = Locking | Writing | Generating | Replying | Unlocking

  /** A running request: the locks still to take, the locks held, and how far its messages are written. */
  datatype Job = Job(req: Request, todo: seq<Addr>, turns: set<Addr>, stage: Stage, users: nat, replies: nat)

  /** One finished turn of a session. */
  datatype Turn = Turn(t: nat, req: Request)

  /** A session: who holds its mutex (-1 for nobody), its conversation, and, as history, its turns so far. */
  datatype Cell = Cell(owner: int, log: seq<Entry>, history: seq<Turn>)

  datatype State = State(jobs: seq<Job>, cells: map<Addr, Cell>)

  const INITIAL: State := State([], map[])

  function CellOf(s: State, a: Addr): Cell {
    if a in s.cells then s.cells[a] else Cell(-1, [], [])
  }

  // ---------------------------------------------------------------- lock order

  function Elems(s: seq<Addr>): set<Addr> {
    set k | 0 <= k < |s| :: s[k]
  }

  predicate Increasing(s: seq<Addr>) {
    forall j, k :: 0 <= j < k < |s| ==> s[j] < s[k]
  }

  function Insert(a: Addr, s: seq<Addr>): seq<Addr> {
    if s == [] || a < s[0] then [a] + s
    else if a == s[0] then s
    else [s[0]] + Insert(a, s[1..])
  }

  /** The distinct addresses in ascending order. */
  function LockOrder(s: seq<Addr>): seq<Addr> {
    if s == [] then [] else Insert(s[|s| - 1], LockOrder(s[..|s| - 1]))
  }

  lemma ElemsOne(a: Addr)
    ensures Elems([a]) == {a}
  {
    assert [a][0] == a;
  }

  lemma ElemsJoin(s: seq<Addr>, t: seq<Addr>)
    ensures Elems(s + t) == Elems(s) + Elems(t)
  {
    var st := s + t;
    forall a | a in Elems(s) + Elems(t) ensures a in Elems(st) {
      if a in Elems(s) {
        var k :| 0 <= k < |s| && s[k] == a;
        assert st[k] == a;
      } else {
        var k :| 0 <= k < |t| && t[k] == a;
        assert st[|s| + k] == a;
      }
    }
  }

  lemma ElemsFirst(s: seq<Addr>)
    requires s != []
    ensures Elems(s) == {s[0]} + Elems(s[1..])
  {
  }

  lemma {:induction false} InsertOrdered(a: Addr, s: seq<Addr>)
    requires Increasing(s)
    ensures Increasing(Insert(a, s)) && Elems(Insert(a, s)) == Elems(s) + {a}
    ensures Insert(a, s) != [] && (Insert(a, s)[0] == a || (s != [] && Insert(a, s)[0] == s[0]))
  {
    hide Elems;
    if s == [] || a < s[0] {
      ElemsOne(a);
      ElemsJoin([a], s);
    } else if a == s[0] {
      ElemsFirst(s);
    } else {
      InsertOrdered(a, s[1..]);
      ElemsFirst(s);
      ElemsFirst(Insert(a, s));
    }
  }

  lemma {:induction false} LockOrderOrdered(s: seq<Addr>)
    ensures Increasing(LockOrder(s)) && Elems(LockOrder(s)) == Elems(s)
  {
    if s == [] {
    } else {
      var n := |s| - 1;
      LockOrderOrdered(s[..n]);
      InsertOrdered(s[n], LockOrder(s[..n]));
      assert s == s[..n] + [s[n]];
      ElemsJoin(s[..n], [s[n]]);
      ElemsOne(s[n]);
    }
  }

  // --------------------------------------------------------------------- steps

  datatype Event = Begin(req: Request) | Advance(t: nat, a: Addr)

  function Start(req: Request): Job {
    Job(req, LockOrder(Sessions(req)), {}, Locking, 0, 0)
  }

  /** The next action of job `t` and the cell it acts on; `a` is the lock it releases when it is unlocking. */
  function Target(job: Job, a: Addr): Addr {
    match job.stage
    case Locking => if job.todo != [] then job.todo[0] else a
    case Writing => if job.users < |Sessions(job.req)| then Sessions(job.req)[job.users] else a
    case Replying => if job.replies < |Sessions(job.req)| then Sessions(job.req)[job.replies] else a
    case _ => a
  }

  /** Job `t` and the cell at `a == Target(job, _)` after the action; a job waiting for a held lock does nothing. */
  function Act(t: nat, job: Job, a: Addr, c: Cell): (Job, Cell) {
    var n := |Sessions(job.req)|;
    match job.stage
    case Locking =>
      if job.todo == [] then (job.(stage := Writing), c)
      else if c.owner >= 0 then (job, c)
      else (job.(todo := job.todo[1..], turns := job.turns + {a}), c.(owner := t))
    case Writing =>
      if Refused(job.req) then (job.(stage := Unlocking), c)
      else if job.users < n then (job.(users := job.users + 1), c.(log := c.log + [User(t, job.users)]))
      else (job.(stage := Generating), c)
    case Generating => (job.(stage := if job.req.generates then Replying else Unlocking), c)
    case Replying =>
      if job.replies < n then (job.(replies := job.replies + 1), c.(log := c.log + [Reply(t, job.replies)]))
      else (job.(stage := Unlocking), c)
    case Unlocking =>
      if a in job.turns
      then (job.(turns := job.turns - {a}), c.(owner := -1, history := c.history + [Turn(t, job.req)]))
      else (job, c)
  }

  function Step(s: State, e: Event): State {
    match e
    case Begin(req) => s.(jobs := s.jobs + [Start(req)])
    case Advance(t, choice) =>
      if t >= |s.jobs| then s
      else
        var a := Target(s.jobs[t], choice);
        var (job, c) := Act(t, s.jobs[t], a, CellOf(s, a));
        State(s.jobs[t := job], s.cells[a := c])
  }

  function Continue(s: State, events: seq<Event>): State {
    if events == [] then s else Step(Continue(s, events[..|events| - 1]), events[|events| - 1])
  }

  function Run(events: seq<Event>): State {
    Continue(INITIAL, events)
  }

  // --------------------------------------------------------------- conversations

  /** The first `n` user messages of request `t` that go to session `a`. */
  function Users(a: Addr, t: nat, sessions: seq<Addr>, n: nat): seq<Entry>
    requires n <= |sessions|
  {
    if n == 0 then []
    else Users(a, t, sessions, n - 1) + (if sessions[n - 1] == a then [User(t, n - 1)] else [])
  }

  function Replies(a: Addr, t: nat, sessions: seq<Addr>, n: nat): seq<Entry>
    requires n <= |sessions|
  {
    if n == 0 then []
    else Replies(a, t, sessions, n - 1) + (if sessions[n - 1] == a then [Reply(t, n - 1)] else [])
  }

  /** Everything a request leaves in session `a`: its user messages in input order, then its replies. */
  function Block(a: Addr, turn: Turn): seq<Entry> {
    var sessions := Sessions(turn.req);
    if Refused(turn.req) then []
    else
      Users(a, turn.t, sessions, |sessions|) +
      (if turn.req.generates then Replies(a, turn.t, sessions, |sessions|) else [])
  }

  function LogOf(a: Addr, history: seq<Turn>): seq<Entry> {
    if history == [] then []
    else LogOf(a, history[..|history| - 1]) + Block(a, history[|history| - 1])
  }

  /** How often job `t` appears in a session's history. */
  function Times(history: seq<Turn>, t: nat): nat {
    if history == [] then 0
    else Times(history[..|history| - 1], t) + (if history[|history| - 1].t == t then 1 else 0)
  }

  /** What job `t` has written into session `a` so far. */
  function Portion(a: Addr, t: nat, job: Job): seq<Entry>
    requires JobInv(job)
  {
    Users(a, t, Sessions(job.req), job.users) + Replies(a, t, Sessions(job.req), job.replies)
  }

  /** The order of entries inside one request's block: user messages first, each kind in input order. */
  predicate Precedes(e: Entry, f: Entry) {
    match (e, f)
    case (User(_, i), User(_, j)) => i < j
    case (User(_, _), Reply(_, _)) => true
    case (Reply(_, i), Reply(_, j)) => i < j
    case (Reply(_, _), User(_, _)) => false
  }

  predicate InOrder(entries: seq<Entry>) {
    forall i, j | 0 <= i < j < |entries| :: Precedes(entries[i], entries[j])
  }

  lemma OrderJoins(a: seq<Entry>, b: seq<Entry>)
    requires InOrder(a) && InOrder(b) && forall e, f | e in a && f in b :: Precedes(e, f)
    ensures InOrder(a + b)
  {
    var ab := a + b;
    forall i, j | 0 <= i < j < |ab| ensures Precedes(ab[i], ab[j]) {
      if i < |a| <= j {
        assert a[i] in a && b[j - |a|] in b;
      }
    }
  }

  lemma {:induction false} UsersMean(a: Addr, t: nat, sessions: seq<Addr>, n: nat)
    requires n <= |sessions|
    ensures forall e :: e in Users(a, t, sessions, n) <==> e.User? && e.t == t && e.input < n && sessions[e.input] == a
    ensures InOrder(Users(a, t, sessions, n))
  {
    if n == 0 {
    } else {
      UsersMean(a, t, sessions, n - 1);
      OrderJoins(Users(a, t, sessions, n - 1), if sessions[n - 1] == a then [User(t, n - 1)] else []);
      hide InOrder;
    }
  }

  lemma {:induction false} RepliesMean(a: Addr, t: nat, sessions: seq<Addr>, n: nat)
    requires n <= |sessions|
    ensures forall e :: e in Replies(a, t, sessions, n) <==> e.Reply? && e.t == t && e.input < n && sessions[e.input] == a
    ensures InOrder(Replies(a, t, sessions, n))
  {
    if n == 0 {
    } else {
      RepliesMean(a, t, sessions, n - 1);
      OrderJoins(Replies(a, t, sessions, n - 1), if sessions[n - 1] == a then [Reply(t, n - 1)] else []);
      hide InOrder;
    }
  }

  /**
   * A request's block in a session holds its user message for each of its inputs to that session, unless it was
   * refused, and if generation succeeded as many replies; nothing twice, user messages first, each in input order.
   */
  lemma BlockMeans(a: Addr, turn: Turn)
    ensures forall e :: e in Block(a, turn) <==>
      && e.t == turn.t && (e.Reply? ==> turn.req.generates)
      && match turn.req
         case Single(session, tooBig, _) => e.input == 0 && session == a && !tooBig
         case Batch(sessions, _) => e.input < |sessions| && sessions[e.input] == a
    ensures InOrder(Block(a, turn))
  {
    var sessions := Sessions(turn.req);
    UsersMean(a, turn.t, sessions, |sessions|);
    RepliesMean(a, turn.t, sessions, |sessions|);
    hide Users, Replies;
    OrderJoins(Users(a, turn.t, sessions, |sessions|), Replies(a, turn.t, sessions, |sessions|));
    OrderJoins(Users(a, turn.t, sessions, |sessions|), []);
    hide InOrder;
  }

  // ------------------------------------------------------------------ invariant

  predicate JobInv(job: Job) {
    var n := |Sessions(job.req)|;
    && job.users <= n && job.replies <= n
    && Increasing(job.todo)
    && (job.todo != [] ==> job.stage.Locking? && forall a | a in job.turns :: a < job.todo[0])
    && job.turns <= Elems(Sessions(job.req))
    && (!job.stage.Unlocking? ==> job.turns + Elems(job.todo) == Elems(Sessions(job.req)))
    && (job.stage.Locking? ==> job.users == 0)
    && (job.stage.Locking? || job.stage.Writing? || job.stage.Generating? ==> job.replies == 0)
    && (job.stage.Generating? || job.stage.Replying? ==> job.users == n)
    && (job.stage.Replying? ==> job.req.generates)
    && (Refused(job.req) ==> job.users == 0 && !job.stage.Generating? && !job.stage.Replying?)
    && (job.stage.Unlocking? ==>
          && job.users == (if Refused(job.req) then 0 else n)
          && job.replies == (if Refused(job.req) || !job.req.generates then 0 else n))
  }

  ghost predicate JobsInv(jobs: seq<Job>) {
    forall t | 0 <= t < |jobs| :: JobInv(jobs[t])
  }

  /** What job `t` and the session at `a` know of each other. */
  predicate Pair(a: Addr, c: Cell, t: nat, job: Job) {
    && (c.owner == t <==> a in job.turns)
    && Times(c.history, t) ==
         (if a in Elems(Sessions(job.req)) && job.stage.Unlocking? && a !in job.turns then 1 else 0)
  }

  /** The conversation is the session's finished turns, each whole, and then `partial`. */
  predicate Whole(a: Addr, c: Cell, partial: seq<Entry>) {
    c.log == LogOf(a, c.history) + partial
  }

  /** The holder and the turns of a session are jobs. */
  ghost predicate Links(c: Cell, jobs: seq<Job>) {
    && -1 <= c.owner < |jobs|
    && (forall k | 0 <= k < |c.history| ::
          c.history[k].t < |jobs| && jobs[c.history[k].t].req == c.history[k].req)
  }

  /** What the holder has written so far. */
  ghost function Partial(a: Addr, c: Cell, jobs: seq<Job>): seq<Entry>
    requires JobsInv(jobs) && Links(c, jobs)
  {
    if c.owner >= 0 then Portion(a, c.owner, jobs[c.owner]) else []
  }

  ghost predicate CellInv(a: Addr, c: Cell, jobs: seq<Job>)
    requires JobsInv(jobs)
  {
    Links(c, jobs) && Whole(a, c, Partial(a, c, jobs))
  }

  ghost predicate Inv(s: State) {
    && JobsInv(s.jobs)
    && (forall a: Addr, t | 0 <= t < |s.jobs| :: Pair(a, CellOf(s, a), t, s.jobs[t]))
    && (forall a: Addr :: CellInv(a, CellOf(s, a), s.jobs))
  }

  // ------------------------------------------------------ one job and one session

  lemma JobKept(t: nat, job: Job, choice: Addr, c: Cell)
    requires JobInv(job)
    ensures JobInv(Act(t, job, Target(job, choice), c).0)
  {
  }

  lemma LogAppend(a: Addr, history: seq<Turn>, turn: Turn)
    ensures LogOf(a, history + [turn]) == LogOf(a, history) + Block(a, turn)
  {
  }

  /** The acting job and the session it acts on. */
  lemma PairOwn(t: nat, job: Job, choice: Addr, c: Cell)
    requires JobInv(job) && Pair(Target(job, choice), c, t, job)
    ensures var (next, after) := Act(t, job, Target(job, choice), c);
            Pair(Target(job, choice), after, t, next)
  {
  }

  /** The acting job and a session it does not act on. */
  lemma PairElsewhere(t: nat, job: Job, choice: Addr, c: Cell, b: Addr, other: Cell)
    requires JobInv(job) && Pair(b, other, t, job) && b != Target(job, choice)
    ensures Pair(b, other, t, Act(t, job, Target(job, choice), c).0)
  {
  }

  /** Another job and the session acted on. */
  lemma PairOther(t: nat, job: Job, choice: Addr, c: Cell, u: nat, bystander: Job)
    requires JobInv(job) && Pair(Target(job, choice), c, t, job)
    requires u != t && Pair(Target(job, choice), c, u, bystander)
    ensures Pair(Target(job, choice), Act(t, job, Target(job, choice), c).1, u, bystander)
  {
  }

  lemma PortionUser(a: Addr, t: nat, job: Job)
    requires job.users < |Sessions(job.req)| && job.replies == 0
    requires JobInv(job) && JobInv(job.(users := job.users + 1))
    ensures Portion(a, t, job.(users := job.users + 1)) ==
            Portion(a, t, job) + (if Sessions(job.req)[job.users] == a then [User(t, job.users)] else [])
  {
  }

  lemma PortionReply(a: Addr, t: nat, job: Job)
    requires job.replies < |Sessions(job.req)|
    requires JobInv(job) && JobInv(job.(replies := job.replies + 1))
    ensures Portion(a, t, job.(replies := job.replies + 1)) ==
            Portion(a, t, job) + (if Sessions(job.req)[job.replies] == a then [Reply(t, job.replies)] else [])
  {
  }

  /** What a job has written depends on its counters only. */
  lemma PortionSame(a: Addr, t: nat, job: Job, next: Job)
    requires JobInv(job) && JobInv(next)
    requires next.req == job.req && next.users == job.users && next.replies == job.replies
    ensures Portion(a, t, next) == Portion(a, t, job)
  {
  }

  /** A job's action adds to a session what it appends to that session's conversation. */
  lemma PortionGrows(t: nat, job: Job, choice: Addr, c: Cell, b: Addr)
    requires JobInv(job) && JobInv(Act(t, job, Target(job, choice), c).0)
    ensures var a := Target(job, choice);
            var (next, after) := Act(t, job, a, c);
            && |c.log| <= |after.log|
            && after.log[..|c.log|] == c.log
            && Portion(b, t, next) == Portion(b, t, job) + (if b == a then after.log[|c.log|..] else [])
  {
    hide Portion, Elems, Increasing;
    var next := Act(t, job, Target(job, choice), c).0;
    if next.users > job.users {
      PortionUser(b, t, job);
    } else if next.replies > job.replies {
      PortionReply(b, t, job);
    } else {
      PortionSame(b, t, job, next);
    }
  }

  lemma PortionWhole(a: Addr, t: nat, job: Job)
    requires JobInv(job) && job.stage.Unlocking?
    ensures Portion(a, t, job) == Block(a, Turn(t, job.req))
  {
  }

  /** A job does nothing to a session somebody else holds. */
  lemma OthersLeft(t: nat, job: Job, choice: Addr, c: Cell)
    requires JobInv(job) && Pair(Target(job, choice), c, t, job)
    requires c.owner >= 0 && c.owner != t
    ensures Act(t, job, Target(job, choice), c).1 == c
  {
  }

  /** A session nobody holds is only changed by taking it. */
  lemma FreeLeft(t: nat, job: Job, choice: Addr, c: Cell)
    requires JobInv(job) && Pair(Target(job, choice), c, t, job)
    requires c.owner < 0
    ensures var (next, after) := Act(t, job, Target(job, choice), c);
            after == c || (next.users == 0 && next.replies == 0 && after == c.(owner := t))
  {
  }

  lemma PortionNothing(a: Addr, t: nat, job: Job)
    requires JobInv(job) && job.users == 0 && job.replies == 0
    ensures Portion(a, t, job) == []
  {
  }

  /** A session the job holds, until it releases it. */
  lemma HeldKept(t: nat, job: Job, choice: Addr, c: Cell)
    requires JobInv(job) && JobInv(Act(t, job, Target(job, choice), c).0)
    requires Pair(Target(job, choice), c, t, job) && c.owner == t
    requires Whole(Target(job, choice), c, Portion(Target(job, choice), t, job))
    ensures var a := Target(job, choice);
            var (next, after) := Act(t, job, a, c);
            if job.stage.Unlocking? then after.owner == -1 && Whole(a, after, [])
            else after.owner == t && Whole(a, after, Portion(a, t, next))
  {
    var a := Target(job, choice);
    hide Elems, Increasing, Times, Portion, LogOf, Block, JobInv;
    if job.stage.Unlocking? {
      PortionWhole(a, t, job);
      LogAppend(a, c.history, Turn(t, job.req));
    } else {
      PortionGrows(t, job, choice, c, a);
      assert Act(t, job, a, c).1.history == c.history;
    }
  }

  lemma LinksKept(jobs: seq<Job>, t: nat, choice: Addr, c: Cell)
    requires t < |jobs| && Links(c, jobs)
    ensures var (next, after) := Act(t, jobs[t], Target(jobs[t], choice), c);
            Links(after, jobs[t := next])
  {
  }

  lemma LinksElsewhere(jobs: seq<Job>, t: nat, next: Job, c: Cell)
    requires t < |jobs| && Links(c, jobs) && next.req == jobs[t].req
    ensures Links(c, jobs[t := next])
  {
  }

  /** The session acted on keeps its invariant. */
  lemma CellKept(jobs: seq<Job>, t: nat, choice: Addr, c: Cell)
    requires t < |jobs| && JobsInv(jobs) && Pair(Target(jobs[t], choice), c, t, jobs[t])
    requires CellInv(Target(jobs[t], choice), c, jobs)
    requires JobsInv(jobs[t := Act(t, jobs[t], Target(jobs[t], choice), c).0])
    ensures var a := Target(jobs[t], choice);
            var (next, after) := Act(t, jobs[t], a, c);
            CellInv(a, after, jobs[t := next])
  {
    hide Portion, JobInv, Act, Target, Pair, LogOf;
    var a := Target(jobs[t], choice);
    LinksKept(jobs, t, choice, c);
    JobKept(t, jobs[t], choice, c);
    if c.owner == t {
      HeldKept(t, jobs[t], choice, c);
    } else if c.owner >= 0 {
      OthersLeft(t, jobs[t], choice, c);
    } else {
      FreeLeft(t, jobs[t], choice, c);
      var (next, after) := Act(t, jobs[t], a, c);
      if after != c {
        PortionNothing(a, t, next);
      }
    }
  }

  /** A session not acted on keeps its invariant. */
  lemma CellElsewhere(jobs: seq<Job>, t: nat, choice: Addr, c: Cell, b: Addr, other: Cell)
    requires t < |jobs| && JobsInv(jobs) && CellInv(b, other, jobs) && b != Target(jobs[t], choice)
    requires JobsInv(jobs[t := Act(t, jobs[t], Target(jobs[t], choice), c).0])
    ensures CellInv(b, other, jobs[t := Act(t, jobs[t], Target(jobs[t], choice), c).0])
  {
    hide Portion, JobInv, Target, LogOf, Whole, Act;
    JobKept(t, jobs[t], choice, c);
    PortionGrows(t, jobs[t], choice, c, b);
    assert Portion(b, t, jobs[t]) + [] == Portion(b, t, jobs[t]);
    RequestKept(t, jobs[t], choice, c);
    LinksElsewhere(jobs, t, Act(t, jobs[t], Target(jobs[t], choice), c).0, other);
  }

  lemma RequestKept(t: nat, job: Job, choice: Addr, c: Cell)
    ensures Act(t, job, Target(job, choice), c).0.req == job.req
  {
  }

  lemma JobsKept(jobs: seq<Job>, t: nat, choice: Addr, c: Cell)
    requires t < |jobs| && JobsInv(jobs)
    ensures JobsInv(jobs[t := Act(t, jobs[t], Target(jobs[t], choice), c).0])
  {
  }

  lemma PairKept(s: State, t: nat, choice: Addr, b: Addr, u: nat)
    requires Inv(s) && t < |s.jobs| && u < |s.jobs|
    ensures var next := Step(s, Advance(t, choice));
            |next.jobs| == |s.jobs| && Pair(b, CellOf(next, b), u, next.jobs[u])
  {
    hide JobInv, Act, Target, CellInv, Pair;
    var a := Target(s.jobs[t], choice);
    assert Pair(a, CellOf(s, a), t, s.jobs[t]) && Pair(b, CellOf(s, b), u, s.jobs[u]);
    if a == b && u == t {
      PairOwn(t, s.jobs[t], choice, CellOf(s, a));
    } else if a == b {
      assert Pair(a, CellOf(s, a), u, s.jobs[u]);
      PairOther(t, s.jobs[t], choice, CellOf(s, a), u, s.jobs[u]);
    } else if u == t {
      PairElsewhere(t, s.jobs[t], choice, CellOf(s, a), b, CellOf(s, b));
    }
  }

  lemma AdvanceKeepsInv(s: State, t: nat, choice: Addr)
    requires Inv(s)
    ensures Inv(Step(s, Advance(t, choice)))
  {
    if t < |s.jobs| {
      hide JobInv, Act, Target, CellInv, Pair;
      var a := Target(s.jobs[t], choice);
      var next := Step(s, Advance(t, choice));
      assert Pair(a, CellOf(s, a), t, s.jobs[t]);
      JobsKept(s.jobs, t, choice, CellOf(s, a));
      forall b: Addr ensures CellInv(b, CellOf(next, b), next.jobs) {
        if b == a {
          CellKept(s.jobs, t, choice, CellOf(s, a));
        } else {
          CellElsewhere(s.jobs, t, choice, CellOf(s, a), b, CellOf(s, b));
        }
      }
      forall b: Addr, u | 0 <= u < |next.jobs| ensures Pair(b, CellOf(next, b), u, next.jobs[u]) {
        PairKept(s, t, choice, b, u);
      }
    }
  }

  lemma {:induction false} TimesNever(history: seq<Turn>, t: nat)
    requires forall k | 0 <= k < |history| :: history[k].t != t
    ensures Times(history, t) == 0
  {
    if history == [] {
    } else {
      TimesNever(history[..|history| - 1], t);
    }
  }

  lemma StartInv(req: Request)
    ensures JobInv(Start(req))
  {
    LockOrderOrdered(Sessions(req));
  }

  lemma BeginKeepsInv(s: State, req: Request)
    requires Inv(s)
    ensures Inv(Step(s, Begin(req)))
  {
    hide JobInv, Portion, LogOf, Whole;
    var next := Step(s, Begin(req));
    StartInv(req);
    forall b: Addr ensures CellInv(b, CellOf(next, b), next.jobs) {
      assert CellInv(b, CellOf(s, b), s.jobs);
    }
    forall b: Addr, u | 0 <= u < |next.jobs| ensures Pair(b, CellOf(next, b), u, next.jobs[u]) {
      assert CellInv(b, CellOf(s, b), s.jobs);
      if u == |s.jobs| {
        TimesNever(CellOf(s, b).history, u);
      } else {
        assert Pair(b, CellOf(s, b), u, s.jobs[u]);
      }
    }
  }

  lemma {:induction false} ContinueKeepsInv(s: State, events: seq<Event>)
    requires Inv(s)
    ensures Inv(Continue(s, events))
  {
    if events == [] {
    } else {
      hide Inv, Step;
      ContinueKeepsInv(s, events[..|events| - 1]);
      match events[|events| - 1]
      case Begin(req) => BeginKeepsInv(Continue(s, events[..|events| - 1]), req);
      case Advance(t, a) => AdvanceKeepsInv(Continue(s, events[..|events| - 1]), t, a);
    }
  }

  lemma RunKeepsInv(events: seq<Event>)
    ensures Inv(Run(events))
  {
    ContinueKeepsInv(INITIAL, events);
  }

  // ------------------------------------------------------------- what runs keep

  predicate Finished(job: Job) {
    job.stage.Unlocking? && job.turns == {}
  }

  lemma {:induction false} UsersPrefix(a: Addr, t: nat, sessions: seq<Addr>, m: nat, n: nat)
    requires m <= n <= |sessions|
    ensures Users(a, t, sessions, m) <= Users(a, t, sessions, n)
  {
    if m == n {
    } else {
      UsersPrefix(a, t, sessions, m, n - 1);
    }
  }

  lemma {:induction false} RepliesPrefix(a: Addr, t: nat, sessions: seq<Addr>, m: nat, n: nat)
    requires m <= n <= |sessions|
    ensures Replies(a, t, sessions, m) <= Replies(a, t, sessions, n)
  {
    if m == n {
    } else {
      RepliesPrefix(a, t, sessions, m, n - 1);
    }
  }

  lemma PortionPrefix(a: Addr, t: nat, job: Job)
    requires JobInv(job)
    ensures Portion(a, t, job) <= Block(a, Turn(t, job.req))
  {
    hide Elems, Increasing;
    var n := |Sessions(job.req)|;
    UsersPrefix(a, t, Sessions(job.req), job.users, n);
    RepliesPrefix(a, t, Sessions(job.req), job.replies, n);
  }

  /**
   * Turns never interleave: at any moment a session's conversation is a concatenation of whole blocks, one for
   * each turn of a request, followed by the beginning of the block of the one request that holds it, if any.
   */
  lemma WholeTurns(events: seq<Event>, a: Addr)
    ensures var s := Run(events);
            var c := CellOf(s, a);
            && Links(c, s.jobs)
            && LogOf(a, c.history) <= c.log
            && c.log <= LogOf(a, c.history) +
                        (if c.owner < 0 then [] else Block(a, Turn(c.owner, s.jobs[c.owner].req)))
            && (c.owner >= 0 ==> a in s.jobs[c.owner].turns)
  {
    var s := Run(events);
    var c := CellOf(s, a);
    RunKeepsInv(events);
    hide JobInv, Block, Run, CellOf, LogOf, Portion;
    assert CellInv(a, c, s.jobs);
    if c.owner >= 0 {
      assert Pair(a, c, c.owner, s.jobs[c.owner]);
      PortionPrefix(a, c.owner, s.jobs[c.owner]);
    }
  }

  /** A finished request has had exactly one turn in each session it names and none in any other. */
  lemma ServedOnce(events: seq<Event>, t: nat, a: Addr)
    requires t < |Run(events).jobs| && Finished(Run(events).jobs[t])
    ensures Times(CellOf(Run(events), a).history, t) ==
            (if a in Elems(Sessions(Run(events).jobs[t].req)) then 1 else 0)
  {
    RunKeepsInv(events);
    assert Pair(a, CellOf(Run(events), a), t, Run(events).jobs[t]);
  }

  /** A request never waits for a session it holds, though a batch may name a session twice. */
  lemma NeverRelocks(events: seq<Event>, t: nat)
    requires t < |Run(events).jobs|
    requires var job := Run(events).jobs[t]; job.stage.Locking? && job.todo != []
    ensures Run(events).jobs[t].todo[0] !in Run(events).jobs[t].turns
    ensures CellOf(Run(events), Run(events).jobs[t].todo[0]).owner != t
  {
    RunKeepsInv(events);
    var a := Run(events).jobs[t].todo[0];
    assert Pair(a, CellOf(Run(events), a), t, Run(events).jobs[t]);
  }

  /** Job `t` waits for a session that job `u` holds. */
  predicate WaitsFor(s: State, t: nat, u: nat) {
    && t < |s.jobs| && u < |s.jobs|
    && s.jobs[t].stage.Locking? && s.jobs[t].todo != []
    && CellOf(s, s.jobs[t].todo[0]).owner == u
  }

  ghost predicate WaitPath(s: State, path: seq<nat>) {
    forall i :: 0 <= i < |path| - 1 ==> WaitsFor(s, path[i], path[i + 1])
  }

  /** Along an edge of the wait-for graph the address waited for goes up. */
  lemma WaitsUp(s: State, t: nat, u: nat)
    requires Inv(s) && WaitsFor(s, t, u)
    ensures s.jobs[u].todo != [] ==> s.jobs[t].todo[0] < s.jobs[u].todo[0]
  {
  }

  lemma {:induction false} PathUp(s: State, path: seq<nat>)
    requires Inv(s) && WaitPath(s, path) && |path| >= 2
    ensures path[0] < |s.jobs| && path[|path| - 1] < |s.jobs| && s.jobs[path[0]].todo != []
    ensures s.jobs[path[|path| - 1]].todo != [] ==>
              s.jobs[path[0]].todo[0] < s.jobs[path[|path| - 1]].todo[0]
  {
    hide Inv;
    var n := |path| - 1;
    WaitsUp(s, path[n - 1], path[n]);
    if n == 1 {
    } else {
      assert path[..n][n - 1] == path[n - 1];
      PathUp(s, path[..n]);
    }
  }

  /** No reachable state has a cycle of requests waiting for each other. */
  lemma NoWaitCycle(events: seq<Event>, path: seq<nat>)
    requires WaitPath(Run(events), path) && |path| >= 2
    ensures path[0] != path[|path| - 1]
  {
    RunKeepsInv(events);
    PathUp(Run(events), path);
  }

  // ---------------------------------------------------------------- progress

  /** How many actions a job has left, at most. */
  function Work(job: Job): nat
    requires JobInv(job)
  {
    var n := |Sessions(job.req)|;
    match job.stage
    case Locking => 2 * |job.todo| + |job.turns| + 2 * n + 4
    case Writing => |job.turns| + (n - job.users) + n + 3
    case Generating => |job.turns| + n + 2
    case Replying => |job.turns| + (n - job.replies) + 1
    case Unlocking => |job.turns|
  }

  ghost function TotalWork(jobs: seq<Job>): nat
    requires JobsInv(jobs)
  {
    if jobs == [] then 0 else TotalWork(jobs[..|jobs| - 1]) + Work(jobs[|jobs| - 1])
  }

  lemma {:induction false} TotalWorkUpdate(jobs: seq<Job>, t: nat, job: Job)
    requires t < |jobs| && JobsInv(jobs) && JobInv(job)
    ensures JobsInv(jobs[t := job])
    ensures TotalWork(jobs[t := job]) == TotalWork(jobs) - Work(jobs[t]) + Work(job)
  {
    hide JobInv, Work;
    var n := |jobs| - 1;
    if t == n {
      assert jobs[t := job][..n] == jobs[..n];
    } else {
      TotalWorkUpdate(jobs[..n], t, job);
      assert jobs[t := job][..n] == jobs[..n][t := job];
    }
  }

  predicate Blocked(s: State, job: Job) {
    job.stage.Locking? && job.todo != [] && CellOf(s, job.todo[0]).owner >= 0
  }

  /** An action does nothing, for want of the lock, or leaves less work. */
  lemma ActLowersWork(t: nat, job: Job, choice: Addr, c: Cell)
    requires JobInv(job) && JobInv(Act(t, job, Target(job, choice), c).0)
    requires !(job.stage.Locking? && job.todo != [] && c.owner >= 0)
    requires job.stage.Unlocking? ==> choice in job.turns
    ensures Work(Act(t, job, Target(job, choice), c).0) < Work(job)
  {
  }

  lemma ActIdle(t: nat, job: Job, choice: Addr, c: Cell)
    requires (job.stage.Locking? && job.todo != [] && c.owner >= 0) || (job.stage.Unlocking? && choice !in job.turns)
    ensures Act(t, job, Target(job, choice), c).0 == job
  {
  }

  lemma TotalDrops(jobs: seq<Job>, t: nat, job: Job)
    requires t < |jobs| && JobsInv(jobs) && JobInv(job) && Work(job) < Work(jobs[t])
    ensures JobsInv(jobs[t := job]) && TotalWork(jobs[t := job]) < TotalWork(jobs)
  {
    hide Work, TotalWork, JobInv;
    TotalWorkUpdate(jobs, t, job);
  }

  predicate CanAct(s: State, t: nat, choice: Addr) {
    t < |s.jobs| && !Blocked(s, s.jobs[t]) && (s.jobs[t].stage.Unlocking? ==> choice in s.jobs[t].turns)
  }

  lemma StepJobs(s: State, t: nat, choice: Addr)
    requires t < |s.jobs|
    ensures var c := CellOf(s, Target(s.jobs[t], choice));
            && Step(s, Advance(t, choice)).jobs == s.jobs[t := Act(t, s.jobs[t], Target(s.jobs[t], choice), c).0]
            && (Blocked(s, s.jobs[t]) <==> s.jobs[t].stage.Locking? && s.jobs[t].todo != [] && c.owner >= 0)
  {
  }

  /** Every schedule ends: an action leaves less work in all, and one that cannot be taken changes no request. */
  lemma StepLowersWork(s: State, t: nat, choice: Addr)
    requires Inv(s)
    ensures var next := Step(s, Advance(t, choice));
            && JobsInv(s.jobs) && JobsInv(next.jobs)
            && (if CanAct(s, t, choice) then TotalWork(next.jobs) < TotalWork(s.jobs) else next.jobs == s.jobs)
  {
    JobsOf(s);
    if t < |s.jobs| {
      hide JobInv, Act, Work, TotalWork, Inv, JobsInv, CellOf, Target, Step, Blocked;
      var job := s.jobs[t];
      var c := CellOf(s, Target(job, choice));
      StepJobs(s, t, choice);
      if CanAct(s, t, choice) {
        JobOf(s.jobs, t);
        JobKept(t, job, choice, c);
        ActLowersWork(t, job, choice, c);
        TotalDrops(s.jobs, t, Act(t, job, Target(job, choice), c).0);
      } else {
        ActIdle(t, job, choice, c);
      }
    }
  }

  lemma JobOf(jobs: seq<Job>, t: nat)
    requires JobsInv(jobs) && t < |jobs|
    ensures JobInv(jobs[t])
  {
  }

  lemma JobsOf(s: State)
    requires Inv(s)
    ensures JobsInv(s.jobs)
  {
  }

  /** The held sessions above `a`. */
  function HeldAbove(s: State, a: int): set<Addr> {
    set b | b in s.cells && b > a && s.cells[b].owner >= 0
  }

  lemma FewerAbove(s: State, a: Addr, b: Addr)
    requires a < b && CellOf(s, b).owner >= 0
    ensures |HeldAbove(s, b)| < |HeldAbove(s, a)|
  {
    assert b in HeldAbove(s, a);
    assert HeldAbove(s, b) <= HeldAbove(s, a) - {b};
    SubsetSize(HeldAbove(s, b), HeldAbove(s, a) - {b});
  }

  /** The holder a blocked request waits for is not finished, and waits for a higher address if for any. */
  lemma HolderHigher(s: State, t: nat)
    requires Inv(s) && t < |s.jobs| && Blocked(s, s.jobs[t])
    ensures var a := s.jobs[t].todo[0];
            var v := CellOf(s, a).owner;
            && 0 <= v < |s.jobs| && !Finished(s.jobs[v])
            && (s.jobs[v].todo != [] ==> a < s.jobs[v].todo[0])
  {
  }

  function Rank(s: State, t: nat): nat
    requires t < |s.jobs|
  {
    if s.jobs[t].todo == [] then 0 else |HeldAbove(s, s.jobs[t].todo[0])| + 1
  }

  /** Whoever a request waits for, directly or not, somebody at the end of the chain can act. */
  lemma {:induction false} SomebodyCanAct(s: State, t: nat) returns (u: nat)
    requires Inv(s) && t < |s.jobs| && !Finished(s.jobs[t])
    ensures u < |s.jobs| && !Finished(s.jobs[u]) && !Blocked(s, s.jobs[u])
    decreases Rank(s, t)
  {
    u := t;
    if Blocked(s, s.jobs[t]) {
      hide Inv, HeldAbove, CellOf;
      HolderHigher(s, t);
      u := CellOf(s, s.jobs[t].todo[0]).owner;
      if Blocked(s, s.jobs[u]) {
        FewerAbove(s, s.jobs[t].todo[0], s.jobs[u].todo[0]);
        u := SomebodyCanAct(s, u);
      }
    }
  }

  ghost predicate AllFinished(jobs: seq<Job>) {
    forall t | 0 <= t < |jobs| :: Finished(jobs[t])
  }

  lemma {:induction false} ContinueFirst(s: State, e: Event, rest: seq<Event>)
    ensures Continue(s, [e] + rest) == Continue(Step(s, e), rest)
  {
    hide Step;
    var all := [e] + rest;
    if rest == [] {
      assert all[..0] == [];
    } else {
      ContinueFirst(s, e, rest[..|rest| - 1]);
      assert all[..|all| - 1] == [e] + rest[..|rest| - 1];
    }
  }

  /** An action somebody can take, which leaves less work. */
  lemma NextAction(s: State, t: nat) returns (e: Event)
    requires Inv(s) && t < |s.jobs| && !Finished(s.jobs[t])
    ensures JobsInv(s.jobs) && JobsInv(Step(s, e).jobs)
    ensures e.Advance? && Inv(Step(s, e)) && TotalWork(Step(s, e).jobs) < TotalWork(s.jobs)
  {
    var u := SomebodyCanAct(s, t);
    var choice: Addr := 0;
    if s.jobs[u].stage.Unlocking? {
      choice :| choice in s.jobs[u].turns;
    }
    hide Inv, Step, TotalWork, JobsInv, Blocked;
    JobsOf(s);
    StepLowersWork(s, u, choice);
    AdvanceKeepsInv(s, u, choice);
    e := Advance(u, choice);
  }

  lemma {:induction false} FinishFrom(s: State) returns (more: seq<Event>)
    requires Inv(s) && JobsInv(s.jobs)
    ensures AllFinished(Continue(s, more).jobs)
    ensures forall k :: 0 <= k < |more| ==> more[k].Advance?
    decreases TotalWork(s.jobs)
  {
    hide Inv, Step, TotalWork, JobsInv;
    if AllFinished(s.jobs) {
      more := [];
    } else {
      var t :| 0 <= t < |s.jobs| && !Finished(s.jobs[t]);
      var e := NextAction(s, t);
      var rest := FinishFrom(Step(s, e));
      ContinueFirst(s, e, rest);
      more := [e] + rest;
    }
  }

  /** Turns cannot deadlock: from every reachable state all the requests begun so far can finish. */
  lemma AllCanFinish(events: seq<Event>) returns (more: seq<Event>)
    ensures AllFinished(Continue(Run(events), more).jobs)
    ensures forall k :: 0 <= k < |more| ==> more[k].Advance?
  {
    RunKeepsInv(events);
    JobsOf(Run(events));
    more := FinishFrom(Run(events));
  }
}
