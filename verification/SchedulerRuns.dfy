/** Runs of the scheduler as sequences of events, and runs that show what the selection rules allow. */
module SchedulerRuns {
  import opened Basics
  import opened BinaryHeap
  import opened RunQueueSteps
  import opened TickUsage
  import opened Selection

  /** A task enters, the timer fires (prio and e are what the queue shows), a queued task is blocked, a
      waiting one is woken. */
  datatype Event =
    | Enter(t: Tid, nice: int)
    | Interrupt(prio: Key, e: Elem, load: Load)
    | Suspend(t: Tid)
    | Resume(i: nat, load: Load)

  function Empty(): Rq { Rq(map[], multiset{}, [], None, false, 0, 0, 0, 0, 0, INT_MAX) }

  ghost predicate InterruptOk(q: Rq, prio: Key, e: Elem, load: Load) {
    && (q.active.Some? ==> q.active.value in q.tasks) && IsPeek(prio, q.bag) && (e.payload in q.tasks || prio == INT_MIN)
    && (Ticked(q, prio).1 && prio != INT_MIN ==> IsMax(e, BagAtSwitch(Ticked(q, prio).0, prio, load)))
  }

  ghost predicate Allowed(q: Rq, ev: Event) {
    match ev
    case Enter(t, nice) => t != 0 && t !in q.tasks && -4 <= nice <= 4 && |q.tasks| < CAPACITY
    case Interrupt(prio, e, load) => InterruptOk(q, prio, e, load)
    case Suspend(t) => t in q.tasks && Entry(q.tasks, t) in q.bag
    case Resume(i, load) => (q.active.Some? || q.iactive) && i < |q.wait| && q.wait[i] in q.tasks
  }

  ghost function After(q: Rq, ev: Event): Rq
    requires Allowed(q, ev)
  {
    match ev
    case Enter(t, nice) => Admitted(q, t, nice)
    case Interrupt(prio, e, load) => Timer(q, prio, e, load).0
    case Suspend(t) => Blocked(q, t)
    case Resume(i, load) => Unblocked(q, i, load)
  }

  /** One event takes q to q'. */
  ghost predicate Moves(q: Rq, ev: Event, q': Rq) { Allowed(q, ev) && q' == After(q, ev) }

  lemma {:induction false} InterruptMoves(q: Rq, prio: Key, e: Elem, load: Load, bound: nat)
    requires TimerPre(q, prio, e, load, bound)
    ensures Moves(q, Interrupt(prio, e, load), Timer(q, prio, e, load).0)
  {
    PreIsOk(q, prio, e, load, bound);
    OkMoves(q, prio, e, load);
  }

  lemma {:induction false} PreIsOk(q: Rq, prio: Key, e: Elem, load: Load, bound: nat)
    requires TimerPre(q, prio, e, load, bound)
    ensures InterruptOk(q, prio, e, load)
  {
  }

  lemma {:induction false} OkMoves(q: Rq, prio: Key, e: Elem, load: Load)
    requires InterruptOk(q, prio, e, load)
    ensures Moves(q, Interrupt(prio, e, load), Timer(q, prio, e, load).0)
  {
  }

  lemma {:induction false} SuspendMoves(q: Rq, t: Tid)
    requires t in q.tasks && Entry(q.tasks, t) in q.bag
    ensures Moves(q, Suspend(t), Blocked(q, t))
  {
  }

  lemma {:induction false} ResumeMoves(q: Rq, i: nat, load: Load)
    requires (q.active.Some? || q.iactive) && i < |q.wait| && q.wait[i] in q.tasks
    ensures Moves(q, Resume(i, load), Unblocked(q, i, load))
  {
  }

  /** Each event takes one state to the next. */
  ghost predicate Chained<S, E>(step: (S, E, S) -> bool, states: seq<S>, evs: seq<E>) {
    |states| == |evs| + 1 && forall i {:trigger evs[i]} :: 0 <= i < |evs| ==> step(states[i], evs[i], states[i + 1])
  }

  lemma {:induction false} ChainedMore<S, E>(step: (S, E, S) -> bool, states: seq<S>, evs: seq<E>, ev: E, s: S)
    requires Chained(step, states, evs) && step(states[|evs|], ev, s)
    ensures Chained(step, states + [s], evs + [ev])
  {
    var states1, evs1 := states + [s], evs + [ev];
    forall i | 0 <= i < |evs1| ensures step(states1[i], evs1[i], states1[i + 1]) {
      if i < |evs| { assert step(states[i], evs[i], states[i + 1]); }
    }
  }

  /** The states of a run, one more than its events. */
  ghost predicate IsRun(states: seq<Rq>, evs: seq<Event>) { Chained(Moves, states, evs) }

  /** The heuristics' outcome in this event is what exact arithmetic makes of the counters. */
  ghost predicate ExactLoad(q: Rq, ev: Event)
    requires Allowed(q, ev)
  {
    match ev
    case Interrupt(prio, e, load) =>
      q.active.Some? && Ticked(q, prio).1 ==> Exact(Ticked(q, prio).0.tasks[q.active.value], q.tick + 1, q.rprio, load)
    case Resume(i, load) => Exact(q.tasks[q.wait[i]], q.tick, q.rprio, load)
    case _ => true
  }

  ghost predicate MovesExactly(q: Rq, ev: Event, q': Rq) { Moves(q, ev, q') && ExactLoad(q, ev) }

  /** Some run from the empty queue ends in q. */
  ghost predicate Reached(step: (Rq, Event, Rq) -> bool, q: Rq) {
    exists states: seq<Rq>, evs: seq<Event> :: Chained(step, states, evs) && states[0] == Empty() && states[|evs|] == q
  }

  /** Reached for some outcomes of the heuristics, and reached for those the counters give. */
  ghost predicate Conceivable(q: Rq) { Reached(Moves, q) }
  ghost predicate Reachable(q: Rq) { Reached(MovesExactly, q) }

  lemma {:induction false} ReachMore(step: (Rq, Event, Rq) -> bool, q: Rq, ev: Event, q': Rq)
    requires Reached(step, q) && step(q, ev, q')
    ensures Reached(step, q')
  {
    var states: seq<Rq>, evs: seq<Event> :| Chained(step, states, evs) && states[0] == Empty() && states[|evs|] == q;
    ChainedMore(step, states, evs, ev, q');
    assert (states + [q'])[|evs + [ev]|] == q';
  }

  lemma {:induction false} ReachEmpty()
    ensures Reachable(Empty()) && Conceivable(Empty())
  {
    assert Chained(MovesExactly, [Empty()], []) && Chained(Moves, [Empty()], []);
  }

  lemma {:induction false} ConceivableNext(q: Rq, ev: Event, q': Rq)
    requires Conceivable(q) && Moves(q, ev, q')
    ensures Conceivable(q')
  {
    ReachMore(Moves, q, ev, q');
  }

  lemma {:induction false} ReachNext(q: Rq, ev: Event, q': Rq)
    requires Reachable(q) && MovesExactly(q, ev, q')
    ensures Reachable(q')
  {
    ReachMore(MovesExactly, q, ev, q');
  }

  lemma {:induction false} ReachInterrupt(q: Rq, prio: Key, e: Elem, load: Load, k: Task)
    requires Reachable(q) && InterruptOk(q, prio, e, load)
    requires q.active.Some? && Ticked(q, prio).0.tasks[q.active.value] == k && Exact(k, q.tick + 1, q.rprio, load)
    ensures Reachable(Timer(q, prio, e, load).0)
  {
    OkMoves(q, prio, e, load);
    ReachNext(q, Interrupt(prio, e, load), Timer(q, prio, e, load).0);
  }

  // ---------------------------------------------------------------- every run

  lemma {:induction false} AfterGood(q: Rq, ev: Event, bound: nat) returns (bound1: nat)
    requires Good(q, bound) && INT_MIN + 1 < q.lowest && Allowed(q, ev)
    ensures Good(After(q, ev), bound1) && LowestStep(q.lowest, After(q, ev).lowest)
  {
    bound1 := bound;
    match ev
    case Enter(t, nice) =>
      AdmittedOk(q, t, nice, bound);
      bound1 := if t < bound then bound else t + 1;
    case Interrupt(prio, e, load) => TimerOk(q, prio, e, load, bound);
    case Suspend(t) => BlockedOk(q, t, bound);
    case Resume(i, load) => UnblockedOk(q, i, load, bound);
  }

  /** After every run each task is in exactly one place and the counters agree. */
  lemma {:induction false} RunGood(states: seq<Rq>, evs: seq<Event>, bound: nat, n: nat) returns (bound1: nat)
    requires IsRun(states, evs) && Good(states[0], bound) && n <= |evs|
    requires INT_MIN + 1 + n < states[0].lowest && INT_MIN + 1 + n < 1
    ensures Good(states[n], bound1)
    ensures states[n].lowest >= states[0].lowest - n || states[n].lowest >= 1 - n
    decreases n
  {
    bound1 := bound;
    if n > 0 {
      bound1 := RunGood(states, evs, bound, n - 1);
      assert Moves(states[n - 1], evs[n - 1], states[n]);
      bound1 := AfterGood(states[n - 1], evs[n - 1], bound1);
    }
  }

  /** An outcome in exact arithmetic fits the counters. */
  lemma {:induction false} ExactLoadFits(q: Rq, prio: Key, e: Elem, load: Load, bound: nat)
    requires Good(q, bound) && InterruptOk(q, prio, e, load) && ExactLoad(q, Interrupt(prio, e, load))
    ensures LoadFits(q, prio, load)
  {
    if q.active.Some? && Ticked(q, prio).1 {
      TickedLives(q, prio);
      ExactFits(Ticked(q, prio).0.tasks[q.active.value], q.tick + 1, q.rprio, load);
    }
  }

  lemma {:induction false} ChainedAt<S, E>(step: (S, E, S) -> bool, states: seq<S>, evs: seq<E>, i: nat)
    requires Chained(step, states, evs) && i < |evs|
    ensures step(states[i], evs[i], states[i + 1])
  {
  }

  lemma {:induction false} ChainedWeaker<S, E>(step: (S, E, S) -> bool, step1: (S, E, S) -> bool, states: seq<S>, evs: seq<E>)
    requires Chained(step, states, evs)
    requires forall i {:trigger evs[i]} :: 0 <= i < |evs| && step(states[i], evs[i], states[i + 1]) ==> step1(states[i], evs[i], states[i + 1])
    ensures Chained(step1, states, evs)
  {
  }

  lemma {:induction false} ExactIsRun(states: seq<Rq>, evs: seq<Event>)
    requires Chained(MovesExactly, states, evs)
    ensures IsRun(states, evs)
  {
    ChainedWeaker(MovesExactly, Moves, states, evs);
  }

  /** Idle after, exactly if nothing was queued or running before; and then nothing is queued after. */
  ghost predicate IdlesOnlyWithoutWork(q: Rq, q': Rq) {
    (q'.active.None? <==> q.bag == multiset{} && q.active.None?) && (q'.active.None? ==> q'.bag == multiset{})
  }

  /** Over every run, an interrupt leaves the processor idle exactly when nothing was queued or running. */
  lemma {:induction false} RunIdlesIff(states: seq<Rq>, evs: seq<Event>, bound: nat, n: nat)
    requires Chained(MovesExactly, states, evs) && n < |evs| && evs[n].Interrupt?
    requires Good(states[0], bound) && INT_MIN + 2 + n < states[0].lowest && INT_MIN + 2 + n < 1
    ensures IdlesOnlyWithoutWork(states[n], states[n + 1])
  {
    ExactIsRun(states, evs);
    var bound1 := GoodRun(states, evs, bound, n);
    MovedAt(states, evs, n);
    InterruptIdlesIff(states[n], evs[n], states[n + 1], bound1);
  }

  lemma {:induction false} MovedAt(states: seq<Rq>, evs: seq<Event>, n: nat)
    requires Chained(MovesExactly, states, evs) && n < |evs|
    ensures MovesExactly(states[n], evs[n], states[n + 1])
  {
    ChainedAt(MovesExactly, states, evs, n);
  }

  lemma {:induction false} GoodRun(states: seq<Rq>, evs: seq<Event>, bound: nat, n: nat) returns (bound1: nat)
    requires IsRun(states, evs) && n < |evs|
    requires Good(states[0], bound) && INT_MIN + 2 + n < states[0].lowest && INT_MIN + 2 + n < 1
    ensures Good(states[n], bound1) && INT_MIN + 1 < states[n].lowest
  {
    bound1 := RunGood(states, evs, bound, n);
  }

  lemma {:induction false} InterruptIdlesIff(q: Rq, ev: Event, q': Rq, bound: nat)
    requires Good(q, bound) && INT_MIN + 1 < q.lowest && ev.Interrupt? && MovesExactly(q, ev, q')
    ensures IdlesOnlyWithoutWork(q, q')
  {
    ExactLoadFits(q, ev.prio, ev.e, ev.load, bound);
    IdleIff(q, ev.prio, ev.e, ev.load, bound);
  }

  // ---------------------------------------------------------------- stretches with nothing to decide

  function Later(q: Rq, n: nat): Rq
    requires q.active.Some? && q.active.value in q.tasks
  {
    var a := q.active.value;
    q.(tick := q.tick + n, tasks := q.tasks[a := q.tasks[a].(execRt := q.tasks[a].execRt + n)])
  }

  lemma {:induction false} LaterOne(q: Rq, prio: Key, e: Elem, load: Load)
    requires q.active.Some? && q.active.value in q.tasks && IsPeek(prio, q.bag) && (e.payload in q.tasks || prio == INT_MIN)
    requires prio <= q.tasks[q.active.value].sprio && q.tasks[q.active.value].execRt + 1 < q.tasks[q.active.value].timeslice
    ensures MovesExactly(q, Interrupt(prio, e, load), Later(q, 1))
  {
    assert Ticked(q, prio) == (Later(q, 1), false);
  }

  lemma {:induction false} LaterMore(q: Rq, n: nat)
    requires q.active.Some? && q.active.value in q.tasks
    ensures Later(q, 0) == q && Later(Later(q, n), 1) == Later(q, n + 1)
  {
    assert q.tasks[q.active.value := q.tasks[q.active.value]] == q.tasks;
  }

  /** Ticks within the slice, with nothing greater queued, only count. */
  lemma {:induction false} Quiet(q: Rq, prio: Key, e: Elem, load: Load, n: nat)
    requires Reachable(q)
    requires q.active.Some? && q.active.value in q.tasks && IsPeek(prio, q.bag) && (e.payload in q.tasks || prio == INT_MIN)
    requires prio <= q.tasks[q.active.value].sprio && q.tasks[q.active.value].execRt + n < q.tasks[q.active.value].timeslice
    ensures Reachable(Later(q, n))
    decreases n
  {
    LaterMore(q, if n > 0 then n - 1 else 0);
    if n > 0 {
      Quiet(q, prio, e, load, n - 1);
      LaterOne(Later(q, n - 1), prio, e, load);
      ReachNext(Later(q, n - 1), Interrupt(prio, e, load), Later(q, n));
    }
  }

  // ---------------------------------------------------------------- the runs

  /** Task 1 alone and running. */
  function One(k: Task, tick: nat): Rq { Rq(map[1 := k], multiset{}, [], Some(1), false, tick, 1, 0, 0, 0, 9) }

  /** Task a running, task b queued. */
  function Two(a: Tid, ka: Task, b: Tid, kb: Task, tick: nat, lowest: int): Rq {
    Rq(map[a := ka, b := kb], multiset{Elem(kb.sprio, b)}, [], Some(a), false, tick, 2, 1, 0, kb.prio, lowest)
  }

  /** A new task. */
  function Born(nice: int, birth: nat): Task
    requires -4 <= nice <= 4
  {
    Task(Batch, ST_ACTIVE, 9 + nice, 9 + nice, nice, 10, 0, 0, 10, birth)
  }

  const YOUNG := Load(0, Fair, 0)
  const NOBODY := Elem(0, 0)

  /** Task 1 enters and is picked. */
  lemma {:induction false} Started()
    ensures Reachable(One(Born(0, 0), 0))
  {
    var q0, e := Empty(), Elem(9, 1);
    var q1 := Rq(map[1 := Born(0, 0)], multiset{e}, [], None, false, 0, 1, 1, 0, 9, 9);
    ReachEmpty();
    assert MovesExactly(q0, Enter(1, 0), q1);
    ReachNext(q0, Enter(1, 0), q1);
    assert multiset{e} - multiset{e} == multiset{};
    var q2 := One(Born(0, 0), 0);
    assert map[1 := Born(0, 0)][1 := Born(0, 0)] == map[1 := Born(0, 0)];
    assert MovesExactly(q1, Interrupt(9, e, YOUNG), q2);
    ReachNext(q1, Interrupt(9, e, YOUNG), q2);
  }

  /** Nine ticks alone. */
  lemma {:induction false} NineTicks()
    ensures Reachable(One(Born(0, 0).(execRt := 9), 9))
  {
    Started();
    var q := One(Born(0, 0), 0);
    Quiet(q, INT_MIN, NOBODY, YOUNG, 9);
    assert Later(q, 9) == One(Born(0, 0).(execRt := 9), 9);
  }

  /** Task 2 enters while task 1 runs. */
  lemma {:induction false} SecondEnters(k: Task, tick: nat, nice: int)
    requires Reachable(One(k, tick)) && -4 <= nice <= 4
    ensures Reachable(Two(1, k, 2, Born(nice, tick), tick, if nice < 0 then 9 + nice else 9))
  {
    var q, q' := One(k, tick), Two(1, k, 2, Born(nice, tick), tick, if nice < 0 then 9 + nice else 9);
    assert map[1 := k][2 := Born(nice, tick)] == map[1 := k, 2 := Born(nice, tick)];
    assert multiset{} + multiset{Elem(9 + nice, 2)} == multiset{Elem(9 + nice, 2)};
    assert MovesExactly(q, Enter(2, nice), q');
    ReachNext(q, Enter(2, nice), q');
  }

  // ---------------------------------------------------------------- two tasks

  lemma {:induction false} TogetherFor(a: Tid, ka: Task, b: Tid, kb: Task, tick: nat, l: int, n: nat)
    requires a != b && Reachable(Two(a, ka, b, kb, tick, l)) && kb.sprio <= ka.sprio && ka.execRt + n < ka.timeslice
    ensures Reachable(Two(a, ka.(execRt := ka.execRt + n), b, kb, tick + n, l))
  {
    var q := Two(a, ka, b, kb, tick, l);
    Quiet(q, kb.sprio, Elem(kb.sprio, b), YOUNG, n);
    assert Later(q, n) == Two(a, ka.(execRt := ka.execRt + n), b, kb, tick + n, l);
  }

  /** What the tick makes of the running task when it asks for a switch. */
  function Ticking(k: Task, flag: bv8): Task { k.(execRt := k.execRt + 1, state := k.state | flag) }

  lemma {:induction false} CountedTwo(a: Tid, ka: Task, b: Tid, kb: Task, tick: nat, l: int)
    requires a != b
    ensures Counted(Two(a, ka, b, kb, tick, l)) == Two(a, ka.(execRt := ka.execRt + 1), b, kb, tick + 1, l)
  {
    assert map[a := ka, b := kb][a := ka.(execRt := ka.execRt + 1)] == map[a := ka.(execRt := ka.execRt + 1), b := kb];
  }

  lemma {:induction false} MarkedTwo(a: Tid, ka: Task, b: Tid, kb: Task, tick: nat, l: int, flag: bv8)
    requires a != b
    ensures Mark(Two(a, ka, b, kb, tick, l), a, flag) == Two(a, ka.(state := ka.state | flag), b, kb, tick, l)
  {
    assert map[a := ka, b := kb][a := ka.(state := ka.state | flag)] == map[a := ka.(state := ka.state | flag), b := kb];
  }

  lemma {:induction false} TickedTwo(a: Tid, ka: Task, b: Tid, kb: Task, tick: nat, l: int, flag: bv8)
    requires a != b && (kb.sprio > ka.sprio || LastTick(ka))
    requires flag == if kb.sprio > ka.sprio then ST_PREEMPTED else ST_NEED_RESCHED
    ensures Ticked(Two(a, ka, b, kb, tick, l), kb.sprio) == (Two(a, Ticking(ka, flag), b, kb, tick + 1, l), true)
  {
    CountedTwo(a, ka, b, kb, tick, l);
    MarkedTwo(a, ka.(execRt := ka.execRt + 1), b, kb, tick + 1, l, flag);
  }

  /** The queued task beats the running one and takes over. */
  lemma {:induction false} ReachPreempt(a: Tid, ka: Task, b: Tid, kb: Task, tick: nat, l: int, load: Load, k1: Task)
    requires Reachable(Two(a, ka, b, kb, tick, l)) && a != b && kb.sprio > ka.sprio
    requires MadeReady(Ticking(ka, ST_PREEMPTED), tick + 1, l, load) == (k1, l, false)
    requires Exact(Ticking(ka, ST_PREEMPTED), tick + 1, kb.prio, load)
    requires ka.state | ST_PREEMPTED != ST_BLOCKED && ka.state | ST_PREEMPTED != ST_READY
    ensures Reachable(Two(b, kb.(state := ST_ACTIVE), a, k1, tick + 1, l))
  {
    var q, e := Two(a, ka, b, kb, tick, l), Elem(kb.sprio, b);
    TickedTwo(a, ka, b, kb, tick, l, ST_PREEMPTED);
    PreemptOfTwo(a, ka, b, kb, tick, l, load, k1);
    assert e in q.bag && InterruptOk(q, kb.sprio, e, load);
    ReachInterrupt(q, kb.sprio, e, load, Ticking(ka, ST_PREEMPTED));
  }

  lemma {:induction false} PreemptOfTwo(a: Tid, ka: Task, b: Tid, kb: Task, tick: nat, l: int, load: Load, k1: Task)
    requires a != b && kb.sprio > ka.sprio
    requires MadeReady(Ticking(ka, ST_PREEMPTED), tick + 1, l, load) == (k1, l, false)
    requires ka.state | ST_PREEMPTED != ST_BLOCKED && ka.state | ST_PREEMPTED != ST_READY
    ensures Timer(Two(a, ka, b, kb, tick, l), kb.sprio, Elem(kb.sprio, b), load).0
      == Two(b, kb.(state := ST_ACTIVE), a, k1, tick + 1, l)
  {
    TickedTwo(a, ka, b, kb, tick, l, ST_PREEMPTED);
    TimerOfTwo(a, ka, b, kb, tick, l, load);
    SwitchOfTwo(a, Ticking(ka, ST_PREEMPTED), b, kb, tick + 1, l, load, k1);
  }

  lemma {:induction false} TimerOfTwo(a: Tid, ka: Task, b: Tid, kb: Task, tick: nat, l: int, load: Load)
    requires a != b && kb.sprio > ka.sprio
    ensures var (q, e) := (Two(a, ka, b, kb, tick, l), Elem(kb.sprio, b));
      Timer(q, kb.sprio, e, load).0 == SwitchTo(Ticked(q, kb.sprio).0, e, load)
  {
    Preempted(Two(a, ka, b, kb, tick, l), kb.sprio, Elem(kb.sprio, b), load);
  }

  lemma {:induction false} SwitchOfTwo(a: Tid, ka: Task, b: Tid, kb: Task, tick: nat, l: int, load: Load, k1: Task)
    requires a != b && ka.state != ST_READY && ka.state != ST_BLOCKED && MadeReady(ka, tick, l, load) == (k1, l, false)
    ensures SwitchTo(Two(a, ka, b, kb, tick, l), Elem(kb.sprio, b), load) == Two(b, kb.(state := ST_ACTIVE), a, k1, tick, l)
  {
    assert map[a := ka, b := kb][a := k1][b := kb.(state := ST_ACTIVE)] == map[b := kb.(state := ST_ACTIVE), a := k1];
    assert multiset{Elem(kb.sprio, b)} - multiset{Elem(kb.sprio, b)} + multiset{Elem(k1.sprio, a)} == multiset{Elem(k1.sprio, a)};
  }

  lemma {:induction false} MarkedIsNotBlocked(s: bv8)
    ensures s | ST_NEED_RESCHED != ST_BLOCKED
  {
  }

  lemma {:induction false} ReadiedTwo(a: Tid, ka: Task, b: Tid, kb: Task, tick: nat, l: int, load: Load, k1: Task, l1: int, p: bool)
    requires a != b && ka.state != ST_BLOCKED && MadeReady(ka, tick, l, load) == (k1, l1, p)
    ensures Readied(Two(a, ka, b, kb, tick, l), a, load) == Two(a, k1, b, kb, tick, l1)
  {
    assert map[a := ka, b := kb][a := k1] == map[a := k1, b := kb];
  }

  /** At the end of its slice the running task beats the queued one and is not penalised: it goes on. */
  lemma {:induction false} KeepsOn(a: Tid, ka: Task, b: Tid, kb: Task, tick: nat, l: int, load: Load, k1: Task)
    requires a != b && kb.sprio < ka.sprio && LastTick(ka)
    requires MadeReady(Ticking(ka, ST_NEED_RESCHED), tick + 1, l, load) == (k1, l, false)
    ensures Timer(Two(a, ka, b, kb, tick, l), kb.sprio, Elem(kb.sprio, b), load).0 == Two(a, k1, b, kb, tick + 1, l)
    ensures BagAtSwitch(Ticked(Two(a, ka, b, kb, tick, l), kb.sprio).0, kb.sprio, load) == multiset{Elem(kb.sprio, b)}
  {
    TickedTwo(a, ka, b, kb, tick, l, ST_NEED_RESCHED);
    Rescheduled(Two(a, ka, b, kb, tick, l), kb.sprio, Elem(kb.sprio, b), load);
    MarkedIsNotBlocked(ka.state);
    ReadiedTwo(a, Ticking(ka, ST_NEED_RESCHED), b, kb, tick + 1, l, load, k1, l, false);
  }

  lemma {:induction false} ReachKeepOn(a: Tid, ka: Task, b: Tid, kb: Task, tick: nat, l: int, load: Load, k1: Task)
    requires Reachable(Two(a, ka, b, kb, tick, l)) && a != b && kb.sprio < ka.sprio && LastTick(ka) && kb.sprio != INT_MIN
    requires MadeReady(Ticking(ka, ST_NEED_RESCHED), tick + 1, l, load) == (k1, l, false)
    requires Exact(Ticking(ka, ST_NEED_RESCHED), tick + 1, kb.prio, load)
    ensures Reachable(Two(a, k1, b, kb, tick + 1, l))
  {
    var q, e := Two(a, ka, b, kb, tick, l), Elem(kb.sprio, b);
    TickedTwo(a, ka, b, kb, tick, l, ST_NEED_RESCHED);
    KeepsOn(a, ka, b, kb, tick, l, load, k1);
    assert InterruptOk(q, kb.sprio, e, load);
    ReachInterrupt(q, kb.sprio, e, load, Ticking(ka, ST_NEED_RESCHED));
  }

  /** Both tasks queued, task a still named as the active one. */
  function Lined(a: Tid, ka: Task, b: Tid, kb: Task, tick: nat, l: int): Rq {
    Two(a, ka, b, kb, tick, l).(bag := multiset{Elem(kb.sprio, b), Elem(ka.sprio, a)}, nready := 2, rprio := kb.prio + ka.prio)
  }

  lemma {:induction false} LinedRecord(a: Tid, ka: Task, b: Tid, kb: Task, tick: nat, l: int, load: Load, k1: Task, l1: int)
    requires a != b && ka.state != ST_BLOCKED && MadeReady(ka, tick, l, load) == (k1, l1, true)
    ensures Enqueued(Readied(Two(a, ka, b, kb, tick, l), a, load), a) == Lined(a, k1, b, kb, tick, l1)
  {
    ReadiedTwo(a, ka, b, kb, tick, l, load, k1, l1, true);
  }

  lemma {:induction false} SettledTwo(a: Tid, ka: Task, b: Tid, kb: Task, tick: nat, l: int, load: Load, k1: Task, l1: int, p: bool)
    requires a != b && kb.sprio <= ka.sprio && LastTick(ka)
    requires MadeReady(Ticking(ka, ST_NEED_RESCHED), tick + 1, l, load) == (k1, l1, p)
    ensures Settled(Two(a, ka, b, kb, tick, l), kb.sprio, load) == (k1, p)
  {
    TickedTwo(a, ka, b, kb, tick, l, ST_NEED_RESCHED);
  }

  lemma {:induction false} LinedUp(a: Tid, ka: Task, b: Tid, kb: Task, tick: nat, l: int, load: Load, k1: Task, l1: int, e: Elem)
    requires a != b && kb.sprio < ka.sprio && LastTick(ka) && kb.sprio != INT_MIN && (e.payload == a || e.payload == b)
    requires MadeReady(Ticking(ka, ST_NEED_RESCHED), tick + 1, l, load) == (k1, l1, true)
    ensures var (q, q3) := (Two(a, ka, b, kb, tick, l), Lined(a, k1, b, kb, tick + 1, l1));
      && BagAtSwitch(Ticked(q, kb.sprio).0, kb.sprio, load) == q3.bag
      && Timer(q, kb.sprio, e, load).0 == SwitchTo(q3, e, load)
  {
    var q := Two(a, ka, b, kb, tick, l);
    SettledTwo(a, ka, b, kb, tick, l, load, k1, l1, true);
    TickedTwo(a, ka, b, kb, tick, l, ST_NEED_RESCHED);
    Rescheduled(q, kb.sprio, e, load);
    MarkedIsNotBlocked(ka.state);
    LinedRecord(a, Ticking(ka, ST_NEED_RESCHED), b, kb, tick + 1, l, load, k1, l1);
  }

  lemma {:induction false} TakenItself(a: Tid, ka: Task, b: Tid, kb: Task, tick: nat, l: int, load: Load)
    requires a != b && ka.state == ST_READY
    ensures SwitchTo(Lined(a, ka, b, kb, tick, l), Elem(ka.sprio, a), load) == Two(a, ka.(state := ST_ACTIVE), b, kb, tick, l)
  {
    assert map[a := ka, b := kb][a := ka.(state := ST_ACTIVE)] == map[a := ka.(state := ST_ACTIVE), b := kb];
  }

  lemma {:induction false} TakenOther(a: Tid, ka: Task, b: Tid, kb: Task, tick: nat, l: int, load: Load)
    requires a != b && ka.state == ST_READY
    ensures SwitchTo(Lined(a, ka, b, kb, tick, l), Elem(kb.sprio, b), load) == Two(b, kb.(state := ST_ACTIVE), a, ka, tick, l)
  {
    assert map[a := ka, b := kb][b := kb.(state := ST_ACTIVE)] == map[b := kb.(state := ST_ACTIVE), a := ka];
  }

  /** The state after a penalty: e is the task taken. */
  function FromLine(a: Tid, ka: Task, b: Tid, kb: Task, tick: nat, l: int, e: Elem): Rq {
    if e == Elem(ka.sprio, a) then Two(a, ka.(state := ST_ACTIVE), b, kb, tick, l) else Two(b, kb.(state := ST_ACTIVE), a, ka, tick, l)
  }

  /** At the end of its slice the running task is penalised and queued, and a greatest task is taken. */
  lemma {:induction false} LineOk(a: Tid, ka: Task, b: Tid, kb: Task, tick: nat, l: int, load: Load, k1: Task, l1: int, e: Elem)
    requires a != b && kb.sprio < ka.sprio && LastTick(ka) && kb.sprio != INT_MIN && k1.state == ST_READY
    requires MadeReady(Ticking(ka, ST_NEED_RESCHED), tick + 1, l, load) == (k1, l1, true)
    requires if e == Elem(k1.sprio, a) then k1.sprio >= kb.sprio else e == Elem(kb.sprio, b) && kb.sprio >= k1.sprio
    ensures InterruptOk(Two(a, ka, b, kb, tick, l), kb.sprio, e, load)
    ensures Timer(Two(a, ka, b, kb, tick, l), kb.sprio, e, load).0 == FromLine(a, k1, b, kb, tick + 1, l1, e)
  {
    var q := Two(a, ka, b, kb, tick, l);
    LinedUp(a, ka, b, kb, tick, l, load, k1, l1, e);
    if e == Elem(k1.sprio, a) {
      TakenItself(a, k1, b, kb, tick + 1, l1, load);
    } else {
      TakenOther(a, k1, b, kb, tick + 1, l1, load);
    }
    LineMax(a, k1.sprio, b, kb.sprio, e);
    assert q.bag == multiset{Elem(kb.sprio, b)};
  }

  lemma {:induction false} LineMax(a: Tid, x: Key, b: Tid, y: Key, e: Elem)
    requires if e == Elem(x, a) then x >= y else e == Elem(y, b) && y >= x
    ensures IsMax(e, multiset{Elem(y, b), Elem(x, a)})
    ensures IsPeek(y, multiset{Elem(y, b)})
  {
    assert Elem(y, b) in multiset{Elem(y, b)};
  }

  lemma {:induction false} ReachLine(a: Tid, ka: Task, b: Tid, kb: Task, tick: nat, l: int, load: Load, k1: Task, l1: int, e: Elem)
    requires Reachable(Two(a, ka, b, kb, tick, l))
    requires a != b && kb.sprio < ka.sprio && LastTick(ka) && kb.sprio != INT_MIN && k1.state == ST_READY
    requires MadeReady(Ticking(ka, ST_NEED_RESCHED), tick + 1, l, load) == (k1, l1, true)
    requires Exact(Ticking(ka, ST_NEED_RESCHED), tick + 1, kb.prio, load)
    requires if e == Elem(k1.sprio, a) then k1.sprio >= kb.sprio else e == Elem(kb.sprio, b) && kb.sprio >= k1.sprio
    ensures Reachable(FromLine(a, k1, b, kb, tick + 1, l1, e))
  {
    var q := Two(a, ka, b, kb, tick, l);
    TickedTwo(a, ka, b, kb, tick, l, ST_NEED_RESCHED);
    LineOk(a, ka, b, kb, tick, l, load, k1, l1, e);
    assert q.rprio == kb.prio && q.tick == tick && q.active == Some(a);
    ReachInterrupt(q, kb.sprio, e, load, Ticking(ka, ST_NEED_RESCHED));
  }

  // ---------------------------------------------------------------- the examples

  /** Outranked while running on: task 1 comes down from 9 to 7 at the end of its slice and goes on
      although task 2 is queued with 8. */
  lemma {:induction false} OutrankedExample()
    ensures var q := Two(1, Born(0, 0).(execRt := 9), 2, Born(-1, 9), 9, 8);
      && Reachable(q) && WillBeOutranked(q, 8, YOUNG) && InterruptOk(q, 8, Elem(8, 2), YOUNG) && ExactLoad(q, Interrupt(8, Elem(8, 2), YOUNG))
      && var q' := Timer(q, 8, Elem(8, 2), YOUNG).0;
         q'.active == Some(1) && q'.tasks[1].sprio == 7 && Elem(8, 2) in q'.bag && Outranked(q')
  {
    NineTicks();
    SecondEnters(Born(0, 0).(execRt := 9), 9, -1);
    var k1 := Task(Batch, ST_READY, 7, 7, 0, 10, 0, 10, 20, 0);
    assert ST_ACTIVE | ST_NEED_RESCHED == 18 && (18 as bv8) & (ST_NEED_RESCHED | ST_BLOCKED) != 0;
    TickedTwo(1, Born(0, 0).(execRt := 9), 2, Born(-1, 9), 9, 8, ST_NEED_RESCHED);
    KeepsOn(1, Born(0, 0).(execRt := 9), 2, Born(-1, 9), 9, 8, YOUNG, k1);
  }

  /** Task 1, taken off on the last tick of its slice, and task 2 of nice 4, which took over, at the starts
      of its second, third and fourth slice. */
  function CutShort(): Task { Task(Batch, ST_READY, 7, 7, 0, 10, 10, 0, 10, 0) }
  function Second(): Task { Task(Batch, ST_READY, 11, 11, 4, 10, 0, 10, 20, 9) }
  function Third(state: bv8): Task { Task(Batch, state, 9, 8, 4, 15, 0, 20, 35, 9) }
  function Fourth(): Task { Task(Batch, ST_READY, 9, 7, 4, 15, 0, 35, 50, 9) }

  /** All of its ticks used, and more than its share. */
  const GREEDY := Load(100, Over, 0)

  lemma {:induction false} SecondTakesOver()
    ensures Reachable(Two(2, Second().(execRt := 9), 1, CutShort(), 29, 9))
  {
    NineTicks();
    SecondEnters(Born(0, 0).(execRt := 9), 9, 4);
    assert ST_ACTIVE | ST_PREEMPTED == 34 && (34 as bv8) & (ST_NEED_RESCHED | ST_BLOCKED) == 0;
    ReachPreempt(1, Born(0, 0).(execRt := 9), 2, Born(4, 9), 9, 9, YOUNG, CutShort());
    TogetherFor(2, Born(4, 9), 1, CutShort(), 10, 9, 9);
    assert ST_ACTIVE | ST_NEED_RESCHED == 18 && (18 as bv8) & (ST_NEED_RESCHED | ST_BLOCKED) != 0;
    ReachKeepOn(2, Born(4, 9).(execRt := 9), 1, CutShort(), 19, 9, YOUNG, Second());
    TogetherFor(2, Second(), 1, CutShort(), 20, 9, 9);
  }

  lemma {:induction false} SecondIsGreedy()
    ensures var k := Ticking(Second().(execRt := 9), ST_NEED_RESCHED);
      Exact(k, 30, 7, GREEDY) && MadeReady(k, 30, 9, GREEDY) == (Third(ST_READY), 8, true)
  {
    assert ST_READY | ST_NEED_RESCHED == 20 && (20 as bv8) & (ST_NEED_RESCHED | ST_BLOCKED) != 0;
  }

  lemma {:induction false} ThirdIsGreedy()
    ensures var k := Ticking(Third(ST_ACTIVE).(execRt := 14), ST_NEED_RESCHED);
      Exact(k, 45, 7, GREEDY) && MadeReady(k, 45, 8, GREEDY) == (Fourth(), 7, true)
  {
    assert ST_ACTIVE | ST_NEED_RESCHED == 18 && (18 as bv8) & (ST_NEED_RESCHED | ST_BLOCKED) != 0;
  }

  /** Taken again: at tick 30 task 2 is penalised and queued under key 8, and still the greatest. */
  lemma {:induction false} TakenAgainExample()
    ensures var (q, e) := (Two(2, Second().(execRt := 9), 1, CutShort(), 29, 9), Elem(8, 2));
      && Reachable(q) && InterruptOk(q, 7, e, GREEDY) && ExactLoad(q, Interrupt(7, e, GREEDY)) && Settled(q, 7, GREEDY).1
      && Timer(q, 7, e, GREEDY).0 == Two(2, Third(ST_ACTIVE), 1, CutShort(), 30, 8)
    ensures Reachable(Two(2, Third(ST_ACTIVE), 1, CutShort(), 30, 8))
  {
    SecondTakesOver();
    SecondIsGreedy();
    TickedTwo(2, Second().(execRt := 9), 1, CutShort(), 29, 9, ST_NEED_RESCHED);
    SettledTwo(2, Second().(execRt := 9), 1, CutShort(), 29, 9, GREEDY, Third(ST_READY), 8, true);
    LineOk(2, Second().(execRt := 9), 1, CutShort(), 29, 9, GREEDY, Third(ST_READY), 8, Elem(8, 2));
    ReachLine(2, Second().(execRt := 9), 1, CutShort(), 29, 9, GREEDY, Third(ST_READY), 8, Elem(8, 2));
  }

  lemma {:induction false} LastRun()
    ensures Reachable(Two(1, CutShort().(state := ST_ACTIVE), 2, Fourth(), 45, 7))
  {
    TakenAgainExample();
    TogetherFor(2, Third(ST_ACTIVE), 1, CutShort(), 30, 8, 14);
    ThirdIsGreedy();
    ReachLine(2, Third(ST_ACTIVE).(execRt := 14), 1, CutShort(), 44, 8, GREEDY, Fourth(), 7, Elem(7, 1));
  }

  /** Task 1 running, task 2 blocked. */
  function Left(): Rq { Blocked(Two(1, CutShort().(state := ST_ACTIVE), 2, Fourth(), 45, 7), 2) }

  lemma {:induction false} LeftReached()
    ensures Reachable(Left())
  {
    LastRun();
    var q := Two(1, CutShort().(state := ST_ACTIVE), 2, Fourth(), 45, 7);
    SuspendMoves(q, 2);
    ReachNext(q, Suspend(2), Left());
  }

  /** A run that ends with task 1 running past its slice, unflagged, and nothing queued: asked for the next
      task before the next tick, the scheduler goes idle and task 1 is nowhere. */
  lemma {:induction false} DropExample()
    ensures var (q, q') := (Left(), Next(Left(), INT_MIN, NOBODY, YOUNG).0);
      && Reachable(q) && q.active == Some(1) && DropsActive(q, INT_MIN)
      && q'.active.None? && q'.bag == multiset{} && 1 !in q'.wait && 1 in q'.tasks
  {
    LeftReached();
    var q := Left();
    assert q.bag == multiset{} && q.wait == [2] && q.tasks[1] == CutShort().(state := ST_ACTIVE);
  }
}
