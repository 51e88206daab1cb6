/**
 * Starting and stopping the server from any number of threads, one atomic read or write at a time, together with
 * the listener's own binding, accept loop and stop.
 */
module ServerLifecycle {
  type Tid = nat

  /** Where a thread is inside `start()` or `stop()`: each constructor names the atomic action it is about to take. */
  datatype Pc =
    | Outside
    | StartDone(ok: bool)
    | StopDone
    // start()
    | Claiming                 // exchange running_
    | Checking                 // read stop_requested_
    | Refusing                 // clear running_ without having listened
    | Binding                  // listen(): open the socket
    | Entering                 // listen(): set the listener's is_running_
    | Accepting                // listen(): one turn of the accept loop
    | Leaving(result: bool)    // listen(): clear the listener's is_running_
    | Returning(result: bool)  // clear running_ after listen()
    // stop()
    | Requesting               // exchange stop_requested_
    | Polling                  // read running_
    | Looking                  // read the listener's is_running_
    | Sending                  // exchange listener_stop_sent_
    | Closing                  // the listener's stop(): read is_running_
    | Exchanging               // the listener's stop(): check the socket is open and exchange it for none

  /**
   * The flags and the listener's socket, shared by all threads. The last five fields are history: the thread
   * between claiming and clearing `running_` (-1 for none) and its place, the thread inside the listener's stop (-1
   * for none), how many threads have entered it, and whether any `stop()` has returned.
   */
  datatype Shared = Shared(
    running: bool, stopRequested: bool, stopSent: bool, listening: bool, socketOpen: bool,
    holder: int, phase: Pc, sender: int, sends: nat, returned: bool)

  datatype State = State(g: Shared, threads: map<Tid, Pc>)

  datatype Call = CallStart | CallStop

  const INITIAL: State := State(Shared(false, false, false, false, false, -1, Outside, -1, 0, false), map[])

  function PcOf(s: State, t: Tid): Pc {
    if t in s.threads then s.threads[t] else Outside
  }

  /** A step of `start()`: the new shared state and place of thread `t`. `fails` decides a bind or an accept. */
  function StartStep(g: Shared, t: Tid, pc: Pc, fails: bool): (Shared, Pc) {
    match pc
    case Claiming =>
      if g.running then (g, StartDone(false)) else (g.(running := true, holder := t, phase := Checking), Checking)
    case Checking =>
      var next := if g.stopRequested then Refusing else Binding;
      (g.(phase := next), next)
    case Refusing => (g.(running := false, holder := -1, phase := Outside), StartDone(true))
    case Binding =>
      if fails then (g.(socketOpen := false, phase := Returning(false)), Returning(false))
      else (g.(socketOpen := true, phase := Entering), Entering)
    case Entering => (g.(listening := true, phase := Accepting), Accepting)
    case Accepting =>
      // A failed accept ends the loop like a closed socket does, but makes listen() return false.
      if fails || !g.socketOpen then (g.(phase := Leaving(!g.socketOpen)), Leaving(!g.socketOpen))
      else (g, Accepting)
    case Leaving(result) => (g.(listening := false, phase := Returning(result)), Returning(result))
    case Returning(result) => (g.(running := false, holder := -1, phase := Outside), StartDone(result))
    case _ => (g, pc)
  }

  /** A step of `stop()`. */
  function StopStep(g: Shared, t: Tid, pc: Pc): (Shared, Pc) {
    match pc
    case Requesting => (g.(stopRequested := true), Polling)
    case Polling => if g.running then (g, Looking) else (g.(returned := true), StopDone)
    case Looking => (g, if g.listening then Sending else Polling)
    case Sending =>
      if g.stopSent then (g, Polling) else (g.(stopSent := true, sender := t, sends := g.sends + 1), Closing)
    case Closing => if g.listening then (g, Exchanging) else (g.(sender := -1), Polling)
    case Exchanging => (g.(socketOpen := false, sender := -1), Polling)
    case _ => (g, pc)
  }

  predicate Idle(pc: Pc) {
    pc.Outside? || pc.StartDone? || pc.StopDone?
  }

  predicate InStart(pc: Pc) {
    pc.Claiming? || Claims(pc)
  }

  /** Between claiming and clearing `running_`. */
  predicate Claims(pc: Pc) {
    || pc.Checking? || pc.Refusing? || pc.Binding? || pc.Entering? || pc.Accepting? || pc.Leaving?
    || pc.Returning?
  }

  /** Inside listen() with a socket being opened or open. */
  predicate Listens(pc: Pc) {
    pc.Binding? || pc.Entering? || pc.Accepting? || pc.Leaving?
  }

  function Act(g: Shared, t: Tid, pc: Pc, call: Call, fails: bool): (Shared, Pc) {
    if Idle(pc) then (g, if call.CallStart? then Claiming else Requesting)
    else if InStart(pc) then StartStep(g, t, pc, fails)
    else StopStep(g, t, pc)
  }

  datatype Event = Event(t: Tid, call: Call, fails: bool)

  /** One atomic step of one thread; a thread outside both operations begins the one the event names. */
  function Step(s: State, e: Event): State {
    var (g, pc) := Act(s.g, e.t, PcOf(s, e.t), e.call, e.fails);
    State(g, s.threads[e.t := pc])
  }

  function Continue(s: State, events: seq<Event>): State {
    if events == [] then s else Step(Continue(s, events[..|events| - 1]), events[|events| - 1])
  }

  function Run(events: seq<Event>): State {
    Continue(INITIAL, events)
  }

  // --------------------------------------------------------------- invariant

  /** Stop was requested and nobody is on the way into the accept loop; so nobody ever will be again. */
  predicate Sealed(g: Shared) {
    g.stopRequested && !g.phase.Binding? && !g.phase.Entering?
  }

  /** What the shared state keeps on its own. */
  predicate Global(g: Shared) {
    && -1 <= g.holder
    && -1 <= g.sender
    && (g.running <==> g.holder >= 0)
    && (if g.running then Claims(g.phase) else g.phase.Outside?)
    && (g.listening <==> g.phase.Accepting? || g.phase.Leaving?)
    && (g.phase.Entering? ==> g.socketOpen)
    && (g.listening && !g.socketOpen ==> g.stopSent)
    && (g.stopSent ==> Sealed(g))
    && (g.phase.Accepting? && g.socketOpen && g.stopSent ==> g.sender >= 0)
    && g.sends == (if g.stopSent then 1 else 0)
    && (g.sender >= 0 ==> g.stopSent)
    && (g.returned ==> g.stopRequested && !Listens(g.phase) && !g.phase.Returning?)
  }

  /** What a thread may rely on, given where it is. */
  predicate Local(g: Shared, t: Tid, pc: Pc) {
    && (Claims(pc) <==> g.holder == t)
    && (Claims(pc) ==> g.phase == pc)
    && (pc.Closing? || pc.Exchanging? <==> g.sender == t)
    && (pc.Polling? || pc.Looking? || pc.Sending? || pc.Closing? || pc.Exchanging? || pc.StopDone? ==> g.stopRequested)
    && (pc.Sending? ==> Sealed(g) && (g.stopSent || g.socketOpen))
    && (pc.Closing? || pc.Exchanging? ==> g.socketOpen)
    && (pc.StopDone? ==> g.returned)
  }

  ghost predicate Inv(s: State) {
    Global(s.g) && forall t: Tid :: Local(s.g, t, PcOf(s, t))
  }

  lemma StartKept(g: Shared, t: Tid, pc: Pc, fails: bool)
    requires Global(g) && Local(g, t, pc) && InStart(pc)
    ensures var (after, next) := StartStep(g, t, pc, fails);
            Global(after) && Local(after, t, next) && (g.returned ==> after.returned)
  {
    StartKeepsGlobal(g, t, pc, fails);
    hide Global;
  }

  lemma StartKeepsGlobal(g: Shared, t: Tid, pc: Pc, fails: bool)
    requires Global(g) && Local(g, t, pc) && InStart(pc)
    ensures Global(StartStep(g, t, pc, fails).0)
  {
  }

  lemma StopKept(g: Shared, t: Tid, pc: Pc)
    requires Global(g) && Local(g, t, pc) && !InStart(pc)
    ensures var (after, next) := StopStep(g, t, pc);
            Global(after) && Local(after, t, next) && (g.returned ==> after.returned)
  {
  }

  lemma StepKept(g: Shared, t: Tid, pc: Pc, call: Call, fails: bool)
    requires Global(g) && Local(g, t, pc)
    ensures var (after, next) := Act(g, t, pc, call, fails);
            Global(after) && Local(after, t, next) && (g.returned ==> after.returned)
  {
    hide StartStep, StopStep, Global;
    if !Idle(pc) {
      if InStart(pc) {
        StartKept(g, t, pc, fails);
      } else {
        StopKept(g, t, pc);
      }
    }
  }

  lemma UndisturbedByStart(g: Shared, t: Tid, pc: Pc, fails: bool, u: Tid, other: Pc)
    requires Global(g) && Local(g, t, pc) && InStart(pc)
    requires u != t && Local(g, u, other)
    ensures Local(StartStep(g, t, pc, fails).0, u, other)
  {
  }

  lemma UndisturbedByStop(g: Shared, t: Tid, pc: Pc, u: Tid, other: Pc)
    requires Global(g) && Local(g, t, pc) && !InStart(pc)
    requires u != t && Local(g, u, other)
    ensures Local(StopStep(g, t, pc).0, u, other)
  {
  }

  /** A step leaves what other threads rely on. */
  lemma Undisturbed(g: Shared, t: Tid, pc: Pc, call: Call, fails: bool, u: Tid, other: Pc)
    requires Global(g) && Local(g, t, pc)
    requires u != t && Local(g, u, other)
    ensures Local(Act(g, t, pc, call, fails).0, u, other)
  {
    hide StartStep, StopStep, Global, Local;
    if !Idle(pc) {
      if InStart(pc) {
        UndisturbedByStart(g, t, pc, fails, u, other);
      } else {
        UndisturbedByStop(g, t, pc, u, other);
      }
    }
  }

  lemma StepKeepsInv(s: State, e: Event)
    requires Inv(s)
    ensures Inv(Step(s, e))
    ensures s.g.returned ==> Step(s, e).g.returned
  {
    hide Global, Local, Act;
    var next := Step(s, e);
    StepKept(s.g, e.t, PcOf(s, e.t), e.call, e.fails);
    forall u: Tid ensures Local(next.g, u, PcOf(next, u)) {
      if u != e.t {
        Undisturbed(s.g, e.t, PcOf(s, e.t), e.call, e.fails, u, PcOf(s, u));
      }
    }
  }

  lemma {:induction false} ContinueKeepsInv(s: State, events: seq<Event>)
    requires Inv(s)
    ensures Inv(Continue(s, events))
    ensures s.g.returned ==> Continue(s, events).g.returned
  {
    if events == [] {
    } else {
      hide Inv, Step;
      ContinueKeepsInv(s, events[..|events| - 1]);
      StepKeepsInv(Continue(s, events[..|events| - 1]), events[|events| - 1]);
    }
  }

  lemma RunKeepsInv(events: seq<Event>)
    ensures Inv(Run(events))
  {
    ContinueKeepsInv(INITIAL, events);
  }

  // ----------------------------------------------------------- what runs keep

  /** Once a `stop()` has returned, no thread is inside listen() or will be, whatever happens next. */
  lemma StopIsFinal(events: seq<Event>, more: seq<Event>, t: Tid, u: Tid)
    requires PcOf(Run(events), t).StopDone?
    ensures !Listens(PcOf(Continue(Run(events), more), u))
  {
    var s := Run(events);
    RunKeepsInv(events);
    assert Local(s.g, t, PcOf(s, t));
    ContinueKeepsInv(s, more);
    var last := Continue(s, more);
    assert Local(last.g, u, PcOf(last, u));
  }

  /** `running_` is set exactly while a thread is between claiming and clearing it, and there is at most one. */
  lemma OneClaim(events: seq<Event>, t: Tid, u: Tid)
    ensures Claims(PcOf(Run(events), t)) && Claims(PcOf(Run(events), u)) ==> t == u
    ensures Run(events).g.running <==> exists v: Tid :: Claims(PcOf(Run(events), v))
  {
    var s := Run(events);
    RunKeepsInv(events);
    assert Local(s.g, t, PcOf(s, t)) && Local(s.g, u, PcOf(s, u));
    if s.g.running {
      assert Local(s.g, s.g.holder, PcOf(s, s.g.holder));
    }
  }

  /**
   * The listener's own stop is entered at most once, finds the socket open when it takes it, and leaves no accept
   * loop on an open socket behind.
   */
  lemma ListenerStoppedOnce(events: seq<Event>, t: Tid)
    ensures Run(events).g.sends <= 1
    ensures PcOf(Run(events), t).Exchanging? ==> Run(events).g.socketOpen
    ensures Run(events).g.sends == 1 && Run(events).g.phase.Accepting? && Run(events).g.socketOpen ==>
              exists u: Tid :: PcOf(Run(events), u).Closing? || PcOf(Run(events), u).Exchanging?
  {
    var s := Run(events);
    RunKeepsInv(events);
    assert Local(s.g, t, PcOf(s, t));
    if s.g.sender >= 0 {
      assert Local(s.g, s.g.sender, PcOf(s, s.g.sender));
    }
  }

  // ------------------------------------------------------ what start() returns

  datatype Decision = Undecided | Decided(ok: bool)

  /** The steps that settle what `start()` returns. */
  function Decides(s: State, e: Event): Decision {
    match PcOf(s, e.t)
    case Claiming => if s.g.running then Decided(false) else Undecided
    case Checking => if s.g.stopRequested then Decided(true) else Undecided
    case Binding => if e.fails then Decided(false) else Undecided
    case Accepting => if !s.g.socketOpen then Decided(true) else if e.fails then Decided(false) else Undecided
    case _ => Undecided
  }

  /** What the thread's `start()` is going to return, once that is settled. */
  function Settled(pc: Pc): Decision {
    match pc
    case Refusing => Decided(true)
    case Leaving(result) => Decided(result)
    case Returning(result) => Decided(result)
    case StartDone(result) => Decided(result)
    case _ => Undecided
  }

  /** The last event of `t` that settled anything is event `k`, and it settled `ok`. */
  ghost predicate LastDecision(events: seq<Event>, t: Tid, k: nat, ok: bool) {
    && k < |events| && events[k].t == t && Decides(Run(events[..k]), events[k]) == Decided(ok)
    && forall j: nat | k < j < |events| && events[j].t == t :: Decides(Run(events[..j]), events[j]).Undecided?
  }

  lemma StepSettles(s: State, e: Event, t: Tid)
    requires Settled(PcOf(Step(s, e), t)).Decided?
    ensures if e.t == t && Decides(s, e).Decided? then Settled(PcOf(Step(s, e), t)) == Decides(s, e)
            else Settled(PcOf(s, t)) == Settled(PcOf(Step(s, e), t))
  {
  }

  lemma {:induction false} SettledByLast(events: seq<Event>, t: Tid)
    requires Settled(PcOf(Run(events), t)).Decided?
    ensures exists k: nat :: LastDecision(events, t, k, Settled(PcOf(Run(events), t)).ok)
  {
    if events == [] {
    } else {
      var n := |events| - 1;
      var before, e := events[..n], events[n];
      assert Run(events) == Step(Run(before), e);
      StepSettles(Run(before), e, t);
      hide Run, Step, Decides, Settled;
      var ok := Settled(PcOf(Run(events), t)).ok;
      if e.t == t && Decides(Run(before), e).Decided? {
        assert LastDecision(events, t, n, ok);
      } else {
        SettledByLast(before, t);
        var k: nat :| LastDecision(before, t, k, ok);
        assert before[..k] == events[..k];
        forall j: nat | k < j < |events| && events[j].t == t ensures Decides(Run(events[..j]), events[j]).Undecided? {
          if j < n {
            assert before[..j] == events[..j];
          }
        }
        assert LastDecision(events, t, k, ok);
      }
    }
  }

  /**
   * `start()` returns true exactly if the last step to settle it found a stop requested before listening or the
   * socket closed by a stop, and false exactly if it found the server running, a failed bind or a failed accept.
   */
  lemma StartReturns(events: seq<Event>, t: Tid, ok: bool)
    requires PcOf(Run(events), t) == StartDone(ok)
    ensures exists k: nat :: LastDecision(events, t, k, ok)
    ensures ok ==> Run(events).g.stopRequested
  {
    SettledByLast(events, t);
    if ok {
      TrueNeedsStop(events, t);
    }
  }

  lemma StepKeepsRequest(s: State, e: Event)
    ensures s.g.stopRequested ==> Step(s, e).g.stopRequested
  {
    if InStart(PcOf(s, e.t)) {
      hide StopStep;
    } else {
      hide StartStep;
    }
  }

  lemma {:induction false} TrueNeedsStop(events: seq<Event>, t: Tid)
    requires Settled(PcOf(Run(events), t)) == Decided(true)
    ensures Run(events).g.stopRequested
  {
    if events == [] {
    } else {
      var n := |events| - 1;
      var s, e := Run(events[..n]), events[n];
      RunKeepsInv(events[..n]);
      assert Run(events) == Step(s, e) && Local(s.g, t, PcOf(s, t));
      StepSettles(s, e, t);
      StepKeepsRequest(s, e);
      if e.t == t && Decides(s, e).Decided? {
        hide Run, Step;
      } else {
        TrueNeedsStop(events[..n], t);
      }
    }
  }

  // ------------------------------------------------------------- the socket

  /** The steps that open or close the socket. */
  predicate Touches(s: State, e: Event) {
    PcOf(s, e.t).Binding? || PcOf(s, e.t).Exchanging?
  }

  ghost predicate LastTouch(events: seq<Event>, k: nat) {
    && k < |events| && Touches(Run(events[..k]), events[k])
    && forall j: nat | k < j < |events| :: !Touches(Run(events[..j]), events[j])
  }

  lemma StepTouches(s: State, e: Event)
    ensures Step(s, e).g.socketOpen == if Touches(s, e) then PcOf(s, e.t).Binding? && !e.fails else s.g.socketOpen
  {
  }

  /** Event `k` is a successful bind, and nothing has touched the socket since. */
  ghost predicate OpenedBy(events: seq<Event>, k: nat) {
    LastTouch(events, k) && PcOf(Run(events[..k]), events[k].t).Binding? && !events[k].fails
  }

  lemma TouchedNow(events: seq<Event>)
    requires events != [] && Touches(Run(events[..|events| - 1]), events[|events| - 1])
    ensures LastTouch(events, |events| - 1)
    ensures forall k: nat | OpenedBy(events, k) :: k == |events| - 1
  {
    hide Run, Touches;
  }

  lemma UntouchedNow(events: seq<Event>, k: nat)
    requires events != [] && !Touches(Run(events[..|events| - 1]), events[|events| - 1])
    ensures OpenedBy(events, k) <==> OpenedBy(events[..|events| - 1], k)
  {
    hide Run, Touches;
    var n := |events| - 1;
    assert forall j: nat | j < n :: events[..n][..j] == events[..j] && events[..n][j] == events[j];
  }

  /** The socket is open exactly if the last bind succeeded and no stop has closed it since. */
  lemma {:induction false} SocketOpenExactly(events: seq<Event>)
    ensures Run(events).g.socketOpen <==> exists k: nat :: OpenedBy(events, k)
  {
    if events == [] {
    } else {
      var n := |events| - 1;
      assert Run(events) == Step(Run(events[..n]), events[n]);
      StepTouches(Run(events[..n]), events[n]);
      SocketOpenExactly(events[..n]);
      if Touches(Run(events[..n]), events[n]) {
        TouchedNow(events);
        assert OpenedBy(events, n) <==> Run(events).g.socketOpen;
      } else {
        hide Run, Step, OpenedBy;
        forall k: nat ensures OpenedBy(events, k) <==> OpenedBy(events[..n], k) {
          UntouchedNow(events, k);
        }
      }
    }
  }

  lemma StepLooks(s: State, e: Event, t: Tid)
    requires PcOf(Step(s, e), t).Exchanging?
    ensures PcOf(s, t).Exchanging? || (e.t == t && PcOf(s, t).Closing? && s.g.listening)
  {
  }

  /** The listener's stop closes the socket only after it has found the listener running. */
  lemma {:induction false} ClosesWhatListened(events: seq<Event>, t: Tid)
    requires PcOf(Run(events), t).Exchanging?
    ensures exists k: nat ::
              k < |events| && events[k].t == t && PcOf(Run(events[..k]), t).Closing? && Run(events[..k]).g.listening
  {
    if events == [] {
    } else {
      var n := |events| - 1;
      assert Run(events) == Step(Run(events[..n]), events[n]);
      StepLooks(Run(events[..n]), events[n], t);
      hide Run, Step, PcOf;
      if PcOf(Run(events[..n]), t).Exchanging? {
        ClosesWhatListened(events[..n], t);
        var k: nat :| k < n && events[..n][k].t == t && PcOf(Run(events[..n][..k]), t).Closing?
                      && Run(events[..n][..k]).g.listening;
        assert events[..n][..k] == events[..k];
      }
    }
  }

  // ---------------------------------------------------------------- progress

  predicate InStop(pc: Pc) {
    pc.Requesting? || pc.Polling? || pc.Looking? || pc.Sending? || pc.Closing? || pc.Exchanging?
  }

  /** Somebody is waiting in the accept loop and nobody has closed the socket. */
  predicate Serving(g: Shared) {
    g.phase.Accepting? && g.socketOpen
  }

  function PhaseRank(phase: Pc): nat {
    match phase
    case Checking => 6
    case Binding => 5
    case Entering => 4
    case Accepting => 3
    case Leaving(_) => 2
    case Returning(_) => 1
    case Refusing => 1
    case _ => 0
  }

  function StopRank(serving: bool, pc: Pc): nat {
    match pc
    case Requesting => 6
    case Polling => if serving then 5 else 1
    case Looking => if serving then 4 else 2
    case Sending => 3
    case Closing => 2
    case Exchanging => 2
    case _ => 0
  }

  function SendRank(pc: Pc): nat {
    match pc
    case Closing => 2
    case Exchanging => 1
    case _ => 0
  }

  function SenderPc(s: State): Pc {
    if s.g.sender >= 0 then PcOf(s, s.g.sender) else Outside
  }

  /** How far thread `t` is from the end of its `stop()` when the threads it waits for run. */
  function Distance(g: Shared, pc: Pc, sender: Pc): nat {
    21 * PhaseRank(g.phase) + 3 * StopRank(Serving(g), pc) + SendRank(sender)
  }

  /** The thread that `t`'s `stop()` waits for: the one closing the socket, the one leaving listen(), or itself. */
  function NextUp(g: Shared, t: Tid): Tid
    requires Global(g)
  {
    if g.sender >= 0 then g.sender else if g.running && !Serving(g) then g.holder else t
  }

  /** The thread a stop waits for is inside `start()` or `stop()`, and knows its own place. */
  lemma NextUpBusy(s: State, t: Tid)
    requires Inv(s) && InStop(PcOf(s, t))
    ensures var u := NextUp(s.g, t);
            && Local(s.g, u, PcOf(s, u))
            && (if s.g.sender >= 0 then PcOf(s, u).Closing? || PcOf(s, u).Exchanging?
                else if s.g.running && !Serving(s.g) then PcOf(s, u) == s.g.phase
                else u == t)
  {
  }

  /** The holder's step, when nothing is listened for or the socket is closed. */
  lemma HolderCloser(g: Shared, u: Tid, pc: Pc)
    requires Global(g) && g.running && !Serving(g) && pc == g.phase
    ensures PhaseRank(StartStep(g, u, pc, false).0.phase) < PhaseRank(g.phase)
    ensures StartStep(g, u, pc, false).0.sender == g.sender
  {
  }

  /** The step of the thread inside the listener's stop, as seen by itself and by another thread at `other`. */
  lemma SenderCloser(g: Shared, u: Tid, pc: Pc, other: Pc)
    requires Global(g) && Local(g, u, pc) && (pc.Closing? || pc.Exchanging?)
    ensures var (after, next) := StopStep(g, u, pc);
            var sender := if after.sender >= 0 then next else Outside;
            && InStop(next)
            && (after.sender == u || after.sender == -1)
            && Distance(after, next, sender) < Distance(g, pc, pc)
            && Distance(after, other, sender) < Distance(g, other, pc)
  {
  }

  /** The step of a stop that waits for nobody else. */
  lemma SelfCloser(g: Shared, t: Tid, pc: Pc)
    requires Global(g) && Local(g, t, pc) && InStop(pc)
    requires g.sender < 0 && (!g.running || Serving(g))
    ensures var (after, next) := StopStep(g, t, pc);
            var sender := if after.sender >= 0 then next else Outside;
            && (InStop(next) || next.StopDone?)
            && (after.sender == t || after.sender == -1)
            && Distance(after, next, sender) < Distance(g, pc, Outside)
  {
  }

  function DistanceOf(s: State, t: Tid): nat {
    Distance(s.g, PcOf(s, t), SenderPc(s))
  }

  lemma StepCloser(s: State, t: Tid)
    requires Inv(s) && InStop(PcOf(s, t))
    ensures var next := Step(s, Event(NextUp(s.g, t), CallStop, false));
            && DistanceOf(next, t) < DistanceOf(s, t)
            && (InStop(PcOf(next, t)) || PcOf(next, t).StopDone?)
  {
    var u := NextUp(s.g, t);
    var pc, own := PcOf(s, u), PcOf(s, t);
    NextUpBusy(s, t);
    if s.g.sender >= 0 {
      hide StopStep, StartStep, Distance, Global, Local;
      SenderCloser(s.g, u, pc, own);
    } else if s.g.running && !Serving(s.g) {
      hide StopStep, StartStep, Local;
      HolderCloser(s.g, u, pc);
    } else {
      hide StopStep, StartStep, Distance, Global, Local;
      SelfCloser(s.g, t, own);
    }
  }

  lemma {:induction false} ContinueFirst(s: State, e: Event, rest: seq<Event>)
    ensures Continue(s, [e] + rest) == Continue(Step(s, e), rest)
  {
    hide Step;
    var all := [e] + rest;
    if rest == [] {
      assert all[..0] == [];
    } else {
      ContinueFirst(s, e, rest[..|rest| - 1]);
      assert all[..|all| - 1] == [e] + rest[..|rest| - 1];
    }
  }

  lemma {:induction false} StopFinishesFrom(s: State, t: Tid) returns (more: seq<Event>)
    requires Inv(s) && InStop(PcOf(s, t))
    ensures PcOf(Continue(s, more), t).StopDone?
    ensures forall k :: 0 <= k < |more| ==> !more[k].fails
    decreases DistanceOf(s, t)
  {
    var e := Event(NextUp(s.g, t), CallStop, false);
    hide Inv, Step, DistanceOf, PcOf;
    StepCloser(s, t);
    StepKeepsInv(s, e);
    var rest := [];
    if InStop(PcOf(Step(s, e), t)) {
      rest := StopFinishesFrom(Step(s, e), t);
    }
    ContinueFirst(s, e, rest);
    more := [e] + rest;
  }

  /**
   * No stop waits in vain: from every reachable state in which a thread is inside `stop()`, it returns once the
   * threads it waits for have taken some more steps, even if no bind and no accept ever fails.
   */
  lemma StopCanFinish(events: seq<Event>, t: Tid) returns (more: seq<Event>)
    requires InStop(PcOf(Run(events), t))
    ensures PcOf(Continue(Run(events), more), t).StopDone?
    ensures forall k :: 0 <= k < |more| ==> !more[k].fails
  {
    RunKeepsInv(events);
    more := StopFinishesFrom(Run(events), t);
  }

  // ---------------------------------------------- progress under fair schedules

  /** The step claims `running_`. */
  predicate Claimed(s: State, e: Event) {
    PcOf(s, e.t).Claiming? && !s.g.running
  }

  function ClaimsIn(s: State, events: seq<Event>): nat {
    if events == [] then 0
    else
      var before, e := Continue(s, events[..|events| - 1]), events[|events| - 1];
      ClaimsIn(s, events[..|events| - 1]) + (if Claimed(before, e) then 1 else 0)
  }

  /** What the threads that a stop waits for have still to do; only a new claim raises it. */
  function EnergyOf(g: Shared, sender: Pc): nat {
    PhaseRank(g.phase) + (if g.stopSent then SendRank(sender) else 3)
  }

  function Energy(s: State): nat {
    EnergyOf(s.g, SenderPc(s))
  }

  function Rank(s: State, t: Tid): nat {
    StopRank(Serving(s.g), PcOf(s, t))
  }

  /** Between the two states nothing has come nearer to its end except, if nobody else has to, `t`'s own stop. */
  predicate Steady(s: State, next: State, t: Tid)
    requires Global(s.g) && Global(next.g)
  {
    && Energy(next) == Energy(s) && NextUp(next.g, t) == NextUp(s.g, t)
    && (NextUp(s.g, t) == t ==> Rank(next, t) <= Rank(s, t))
  }

  /**
   * What a step does for the stop of `t`: a claim aside nothing gets further from its end, and a step of the thread
   * that the stop waits for brings something nearer.
   */
  ghost predicate Drifts(s: State, e: Event, t: Tid)
    requires Inv(s) && Inv(Step(s, e))
  {
    var next := Step(s, e);
    && (InStop(PcOf(next, t)) || PcOf(next, t).StopDone?)
    && (if Claimed(s, e) then Energy(next) <= Energy(s) + 6
        else Energy(next) < Energy(s) || PcOf(next, t).StopDone? || Steady(s, next, t))
    && (e.t == NextUp(s.g, t) && !Claimed(s, e) && !PcOf(next, t).StopDone? && Energy(next) >= Energy(s) ==>
          NextUp(s.g, t) == t && Rank(next, t) < Rank(s, t))
  }

  /** Only a claim and the accept loop on an open socket do not bring the holder nearer to its end. */
  lemma HolderDrifts(g: Shared, u: Tid, pc: Pc, fails: bool, sender: Pc)
    requires Global(g) && (pc.Claiming? || (Claims(pc) && pc == g.phase))
    ensures var after := StartStep(g, u, pc, fails).0;
            && after.sender == g.sender
            && (pc.Claiming? && !g.running ==> EnergyOf(after, sender) <= EnergyOf(g, sender) + 6)
            && (!(pc.Claiming? && !g.running) ==> after == g || EnergyOf(after, sender) < EnergyOf(g, sender))
            && (g.running && pc == g.phase && !Serving(g) ==> EnergyOf(after, sender) < EnergyOf(g, sender))
  {
  }

  /** A step inside `stop()` brings the closing of the socket nearer, or leaves all that a stop waits for. */
  lemma StopperDrifts(g: Shared, u: Tid, pc: Pc, sender: Pc)
    requires Global(g) && Local(g, u, pc) && InStop(pc)
    requires sender == if g.sender == u then pc else if g.sender < 0 then Outside else sender
    ensures var (after, next) := StopStep(g, u, pc);
            var senderAfter := if after.sender < 0 then Outside else if after.sender == u then next else sender;
            && (InStop(next) || next.StopDone?)
            && (after.sender < 0 || after.sender == u || after.sender == g.sender)
            && (EnergyOf(after, senderAfter) < EnergyOf(g, sender)
                || (after.(stopRequested := g.stopRequested, returned := g.returned) == g && senderAfter == sender
                    && g.sender != u
                    && (g.sender < 0 && (!g.running || Serving(g)) && InStop(next) ==>
                          StopRank(Serving(after), next) < StopRank(Serving(g), pc))))
  {
  }

  lemma StartDrifts(s: State, e: Event, t: Tid)
    requires Inv(s) && InStop(PcOf(s, t)) && Inv(Step(s, e)) && InStart(PcOf(s, e.t))
    ensures Drifts(s, e, t)
  {
    assert Local(s.g, e.t, PcOf(s, e.t)) && Local(s.g, t, PcOf(s, t));
    NextUpBusy(s, t);
    HolderDrifts(s.g, e.t, PcOf(s, e.t), e.fails, SenderPc(s));
    hide Inv, StopStep, StartStep, EnergyOf, StopRank, Global, Local;
  }

  lemma OwnStopDrifts(s: State, e: Event)
    requires Inv(s) && Inv(Step(s, e)) && InStop(PcOf(s, e.t))
    ensures Drifts(s, e, e.t)
  {
    assert Local(s.g, e.t, PcOf(s, e.t));
    NextUpBusy(s, e.t);
    StopperDrifts(s.g, e.t, PcOf(s, e.t), SenderPc(s));
    hide Inv, StopStep, StartStep, EnergyOf, StopRank, Global, Local;
  }

  lemma OtherStopDrifts(s: State, e: Event, t: Tid)
    requires Inv(s) && InStop(PcOf(s, t)) && Inv(Step(s, e)) && InStop(PcOf(s, e.t)) && e.t != t
    ensures Drifts(s, e, t)
  {
    assert Local(s.g, e.t, PcOf(s, e.t)) && Local(s.g, t, PcOf(s, t));
    StopperDrifts(s.g, e.t, PcOf(s, e.t), SenderPc(s));
    SameServing(s.g, Step(s, e).g);
    hide Inv, StopStep, StartStep, EnergyOf, StopRank, Global, Local, Serving;
  }

  lemma SameServing(g: Shared, after: Shared)
    ensures after.phase == g.phase && after.socketOpen == g.socketOpen ==> Serving(after) == Serving(g)
  {
  }

  lemma StepDrifts(s: State, e: Event, t: Tid)
    requires Inv(s) && InStop(PcOf(s, t)) && Inv(Step(s, e))
    ensures Drifts(s, e, t)
  {
    if InStart(PcOf(s, e.t)) {
      StartDrifts(s, e, t);
    } else if InStop(PcOf(s, e.t)) {
      if e.t == t {
        OwnStopDrifts(s, e);
      } else {
        OtherStopDrifts(s, e, t);
      }
    } else {
      NextUpBusy(s, t);
      hide StartStep, StopStep;
    }
  }

  predicate Acts(events: seq<Event>, u: Tid) {
    exists k :: 0 <= k < |events| && events[k].t == u
  }

  /** Some time during the events the stop of `t` has returned. */
  ghost predicate Returned(s: State, events: seq<Event>, t: Tid) {
    exists k: nat :: k <= |events| && PcOf(Continue(s, events[..k]), t).StopDone?
  }

  /** What a stretch of events does for a stop that does not return in it. */
  ghost predicate Drifted(s: State, events: seq<Event>, t: Tid)
    requires Inv(s)
  {
    var after, claims := Continue(s, events), ClaimsIn(s, events);
    && Inv(after) && InStop(PcOf(after, t))
    && Energy(after) <= Energy(s) + 6 * claims
    && (claims == 0 && Energy(after) == Energy(s) ==>
          && Steady(s, after, t)
          && (Acts(events, NextUp(s.g, t)) ==> NextUp(s.g, t) == t && Rank(after, t) < Rank(s, t)))
  }

  lemma ReturnedEarlier(s: State, events: seq<Event>, t: Tid)
    requires events != [] && Returned(s, events[..|events| - 1], t)
    ensures Returned(s, events, t)
  {
    var init := events[..|events| - 1];
    var k: nat :| k <= |init| && PcOf(Continue(s, init[..k]), t).StopDone?;
    assert init[..k] == events[..k];
  }

  lemma DriftedFurther(s: State, events: seq<Event>, t: Tid)
    requires events != [] && Inv(s) && Drifted(s, events[..|events| - 1], t)
    requires Inv(Continue(s, events)) && !PcOf(Continue(s, events), t).StopDone?
    requires Drifts(Continue(s, events[..|events| - 1]), events[|events| - 1], t)
    ensures Drifted(s, events, t)
  {
    hide Inv, Energy, Rank, Step, NextUp;
  }

  lemma {:induction false} RoundDrifts(s: State, events: seq<Event>, t: Tid)
    requires Inv(s) && InStop(PcOf(s, t))
    ensures Returned(s, events, t) || Drifted(s, events, t)
  {
    hide Inv, Step, Energy, Drifts, Rank;
    if events == [] {
    } else {
      var before, e := Continue(s, events[..|events| - 1]), events[|events| - 1];
      RoundDrifts(s, events[..|events| - 1], t);
      if Returned(s, events[..|events| - 1], t) {
        ReturnedEarlier(s, events, t);
      } else {
        StepKeepsInv(before, e);
        StepDrifts(before, e, t);
        if PcOf(Continue(s, events), t).StopDone? {
          assert events[..|events|] == events;
        } else {
          DriftedFurther(s, events, t);
        }
      }
    }
  }

  /** Rounds of events in each of which every thread that is inside `start()` or `stop()` takes a step. */
  ghost predicate Fair(s: State, rounds: seq<seq<Event>>)
    decreases |rounds|
  {
    rounds == [] ||
    ((forall u: Tid :: !Idle(PcOf(s, u)) ==> Acts(rounds[0], u)) && Fair(Continue(s, rounds[0]), rounds[1..]))
  }

  function ClaimsInAll(s: State, rounds: seq<seq<Event>>): nat
    decreases |rounds|
  {
    if rounds == [] then 0 else ClaimsIn(s, rounds[0]) + ClaimsInAll(Continue(s, rounds[0]), rounds[1..])
  }

  ghost predicate ReturnedInSome(s: State, rounds: seq<seq<Event>>, t: Tid)
    decreases |rounds|
  {
    rounds != [] && (Returned(s, rounds[0], t) || ReturnedInSome(Continue(s, rounds[0]), rounds[1..], t))
  }

  lemma FairRound(s: State, rounds: seq<seq<Event>>, t: Tid)
    requires Inv(s) && InStop(PcOf(s, t)) && rounds != [] && Fair(s, rounds)
    ensures Acts(rounds[0], NextUp(s.g, t))
  {
    NextUpBusy(s, t);
    hide Acts;
  }

  lemma {:induction false} ReturnsFrom(s: State, t: Tid, rounds: seq<seq<Event>>)
    requires Inv(s) && InStop(PcOf(s, t)) && Fair(s, rounds)
    requires |rounds| > 7 * (7 * ClaimsInAll(s, rounds) + Energy(s)) + Rank(s, t)
    ensures ReturnedInSome(s, rounds, t)
    decreases |rounds|
  {
    var after := Continue(s, rounds[0]);
    RoundDrifts(s, rounds[0], t);
    if !Returned(s, rounds[0], t) {
      FairRound(s, rounds, t);
      assert Rank(after, t) <= 6;
      hide Inv, Returned, Acts, Energy, Rank;
      ReturnsFrom(after, t, rounds[1..]);
    }
  }

  /**
   * No stop waits in vain under any fair schedule: while `claims` further starts claim the server, it returns within
   * 70 rounds and 49 more for each of them, whether accepting fails or not.
   */
  lemma FairStopReturns(events: seq<Event>, t: Tid, rounds: seq<seq<Event>>)
    requires InStop(PcOf(Run(events), t)) && Fair(Run(events), rounds)
    requires |rounds| >= 70 + 49 * ClaimsInAll(Run(events), rounds)
    ensures ReturnedInSome(Run(events), rounds, t)
  {
    RunKeepsInv(events);
    hide Run, Fair, ClaimsInAll, ReturnedInSome;
    assert Energy(Run(events)) <= 9 && Rank(Run(events), t) <= 6;
    ReturnsFrom(Run(events), t, rounds);
  }
}
