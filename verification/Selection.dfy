/** Who runs after a timer interrupt: when the same task goes on, when the processor idles, and when a queued
    task outranks the running one. */
module Selection {
  import opened Basics
  import opened BinaryHeap
  import opened RunQueueSteps
  import opened TickUsage

  /** What a timer interrupt finds: prio is the greatest queued key, e a greatest element when one is taken. */
  ghost predicate TimerPre(q: Rq, prio: Key, e: Elem, load: Load, bound: nat) {
    && Good(q, bound) && IsPeek(prio, q.bag) && INT_MIN + 1 < q.lowest && (e.payload in q.tasks || prio == INT_MIN)
    && (Ticked(q, prio).1 && prio != INT_MIN ==> IsMax(e, BagAtSwitch(Ticked(q, prio).0, prio, load)))
  }

  /** This tick is the last of the active task's slice. */
  predicate LastTick(k: Task) { k.execRt + 1 >= k.timeslice }

  /** The record of the active task when it goes back in line at this tick, and whether it is penalised. */
  function Settled(q: Rq, prio: Key, load: Load): (Task, bool)
    requires q.active.Some? && q.active.value in q.tasks
  {
    var (k, _, p) := MadeReady(Ticked(q, prio).0.tasks[q.active.value], q.tick + 1, q.lowest, load);
    (k, p)
  }

  lemma {:induction false} ActiveIsNotQueued(q: Rq, bound: nat)
    requires Good(q, bound) && q.active.Some?
    ensures q.active.value in q.tasks && INT_MIN < q.tasks[q.active.value].sprio
    ensures forall x :: x in q.bag ==> x.payload != q.active.value
  {
    assert Places(q.tasks, q.bag, q.wait, Holding(q), q.active.value) == 1;
  }

  // ---------------------------------------------------------------- what an interrupt leads to

  /** The task behind e was queued and now runs. */
  ghost predicate Takes(q: Rq, q': Rq, e: Elem) {
    q'.active == Some(e.payload) && e.payload in q'.tasks && q'.tasks[e.payload].sprio == e.key && IsMax(e, q.bag)
  }

  /** The active task a goes on, its priority now the given one. */
  ghost predicate Keeps(q: Rq, q': Rq, a: Tid, key: Key) {
    q'.active == Some(a) && a in q'.tasks && q'.tasks[a].sprio == key && q'.bag == q.bag
  }

  /** How the state q' after an interrupt follows from q: asks is what the tick said, key and penalised what
      putting the active task back in line would make of it. */
  ghost predicate Outcome(q: Rq, q': Rq, prio: Key, e: Elem, asks: bool, key: Key, penalised: bool) {
    if q.active.None? then
      if prio == INT_MIN then q'.active.None? && q'.bag == q.bag
      else Takes(q, q', e) && q'.bag == q.bag - multiset{e}
    else
      && q.active.value in q.tasks
      && var (a, k) := (q.active.value, q.tasks[q.active.value]);
         var grown := q.bag + multiset{Elem(key, a)};
         if !asks then Keeps(q, q', a, k.sprio) && prio <= k.sprio && !LastTick(k)
         else if prio >= k.sprio then Takes(q, q', e) && q'.bag == q.bag - multiset{e} + multiset{Elem(key, a)}
         else
           && LastTick(k)
           && if !penalised then Keeps(q, q', a, key)
              else if prio == INT_MIN then q'.active.None? && q'.bag == grown
              else Takes(q.(bag := grown), q', e) && q'.bag == grown - multiset{e}
  }

  ghost predicate TimerLeads(q: Rq, prio: Key, e: Elem, load: Load, q': Rq) {
    if q.active.None? then Outcome(q, q', prio, e, true, 0, false)
    else
      && q.active.value in q.tasks
      && var s := Settled(q, prio, load); Outcome(q, q', prio, e, Ticked(q, prio).1, s.0.sprio, s.1)
  }

  // ---------------------------------------------------------------- the running task, tick by tick

  /** As long as its slice lasts and nobody queued beats it, a task runs on, and an interrupt does nothing but count. */
  lemma {:induction false} SliceGoesOn(q: Rq, prio: Key, e: Elem, load: Load)
    requires q.active.Some? && q.active.value in q.tasks && (e.payload in q.tasks || prio == INT_MIN)
    requires var k := q.tasks[q.active.value]; prio <= k.sprio && k.execRt + 1 < k.timeslice
    ensures var (a, k) := (q.active.value, q.tasks[q.active.value]);
      Timer(q, prio, e, load).0 == q.(tick := q.tick + 1, tasks := q.tasks[a := k.(execRt := k.execRt + 1)])
  {
  }

  /** The active task has another tick of its slice after this one, and nobody queued beats it. */
  ghost predicate SliceLasts(q: Rq) {
    && q.active.Some? && q.active.value in q.tasks
    && var k := q.tasks[q.active.value]; k.execRt + 1 < k.timeslice && forall x :: x in q.bag ==> x.key <= k.sprio
  }

  lemma {:induction false} LastingSlice(q: Rq, prio: Key, e: Elem, load: Load, bound: nat)
    requires TimerPre(q, prio, e, load, bound)
    ensures SliceLasts(q) ==> Timer(q, prio, e, load).0 == Counted(q)
  {
    if SliceLasts(q) {
      assert INT_MIN <= q.tasks[q.active.value].sprio;
      SliceGoesOn(q, prio, e, load);
    }
  }

  lemma {:induction false} Flagged(q: Rq, prio: Key)
    requires q.active.Some? && q.active.value in q.tasks
    requires var k := q.tasks[q.active.value]; prio <= k.sprio && k.execRt + 1 >= k.timeslice
    ensures var (a, k) := (q.active.value, q.tasks[q.active.value]);
      Ticked(q, prio) ==
        (q.(tick := q.tick + 1, tasks := q.tasks[a := k.(execRt := k.execRt + 1, state := k.state | ST_NEED_RESCHED)]), true)
  {
    var (a, k) := (q.active.value, q.tasks[q.active.value]);
    var k1 := k.(execRt := k.execRt + 1);
    var k2 := k1.(state := k.state | ST_NEED_RESCHED);
    assert q.tasks[a := k1][a := k2] == q.tasks[a := k2];
  }

  lemma {:induction false} FlagSettles(b: bv8)
    requires b == ST_ACTIVE || b == ST_READY
    ensures (b | ST_NEED_RESCHED) & 24 != 0 && b | ST_NEED_RESCHED != 8
  {
  }

  /** The active task a, its slice over, has a fresh one in q'; nothing has moved. */
  ghost predicate Renewed(q: Rq, a: Tid, load: Load, q': Rq) {
    && q'.active == q.active && q'.bag == q.bag && q'.wait == q.wait && q'.tick == q.tick + 1
    && a in q.tasks && a in q'.tasks && q'.tasks == q.tasks[a := q'.tasks[a]]
    && var k := q.tasks[a];
       FreshSlice(k.(execRt := k.execRt + 1), q'.tasks[a], q.tick + 1, q.lowest, q'.lowest, load, 0)
  }

  lemma {:induction false} RenewedBy(q: Rq, q1: Rq, a: Tid, k1: Task, load: Load)
    requires a in q.tasks && k1 == q.tasks[a].(execRt := q.tasks[a].execRt + 1, state := k1.state)
    requires q1 == q.(tick := q.tick + 1, tasks := q.tasks[a := k1])
    requires var (k', l, p) := MadeReady(k1, q.tick + 1, q.lowest, load);
      FreshSlice(k1, k', q.tick + 1, q.lowest, l, load, 0)
    ensures Renewed(q, a, load, Readied(q1, a, load))
  {
    var k' := MadeReady(k1, q.tick + 1, q.lowest, load).0;
    assert q.tasks[a := k1][a := k'] == q.tasks[a := k'];
  }

  /** A task that beats everybody queued and is not penalised gets a fresh slice when its own is over. */
  lemma {:induction false} SliceIsRenewed(q: Rq, prio: Key, e: Elem, load: Load, bound: nat)
    requires TimerPre(q, prio, e, load, bound) && q.active.Some? && q.active.value in q.tasks && load.usage != Over
    requires var k := q.tasks[q.active.value]; prio < k.sprio && k.execRt + 1 >= k.timeslice
    ensures Renewed(q, q.active.value, load, Timer(q, prio, e, load).0)
  {
    var k := q.tasks[q.active.value];
    var k1 := k.(execRt := k.execRt + 1, state := k.state | ST_NEED_RESCHED);
    FlagSettles(k.state);
    assert TaskOk(k, q.tick, q.lowest);
    RenewFlagged(q, prio, e, load, k1);
  }

  lemma {:induction false} RenewFlagged(q: Rq, prio: Key, e: Elem, load: Load, k1: Task)
    requires q.active.Some? && q.active.value in q.tasks && load.usage != Over && (e.payload in q.tasks || prio == INT_MIN)
    requires var k := q.tasks[q.active.value];
      prio < k.sprio && k.execRt + 1 >= k.timeslice && k1 == k.(execRt := k.execRt + 1, state := k.state | ST_NEED_RESCHED)
    requires TaskOk(k1, q.tick + 1, q.lowest) && INT_MIN + 1 < q.lowest && k1.state & 24 != 0 && k1.state != 8
    ensures Renewed(q, q.active.value, load, Timer(q, prio, e, load).0)
  {
    Flagged(q, prio);
    MadeReadyInNumbers(k1, q.tick + 1, q.lowest, load);
    Rescheduled(q, prio, e, load);
    RenewedBy(q, Ticked(q, prio).0, q.active.value, k1, load);
  }

  // ---------------------------------------------------------------- the four ways through an interrupt

  /** Nothing was running: a greatest task is taken, or there is none. */
  lemma {:induction false} FromIdle(q: Rq, prio: Key, e: Elem, load: Load, bound: nat)
    requires TimerPre(q, prio, e, load, bound) && q.active.None?
    ensures TimerLeads(q, prio, e, load, Timer(q, prio, e, load).0)
  {
  }

  /** Time is left and nothing greater waits: the active task goes on as it is. */
  lemma {:induction false} GoesOn(q: Rq, prio: Key, e: Elem, load: Load, bound: nat)
    requires TimerPre(q, prio, e, load, bound) && q.active.Some? && !Ticked(q, prio).1
    ensures TimerLeads(q, prio, e, load, Timer(q, prio, e, load).0)
  {
  }

  /** Taking e while task a runs: e's task runs, a is queued under its new key. */
  lemma {:induction false} SwitchQueues(q: Rq, e: Elem, load: Load, a: Tid)
    requires q.active == Some(a) && a in q.tasks && q.tasks[a].state != ST_READY
    requires e in q.bag && e.payload in q.tasks && e == Entry(q.tasks, e.payload) && e.payload != a
    ensures var q' := SwitchTo(q, e, load);
      && q'.active == Some(e.payload) && q'.tasks[e.payload].sprio == e.key
      && q'.bag == q.bag - multiset{e} + multiset{Elem(MadeReady(q.tasks[a], q.tick, q.lowest, load).0.sprio, a)}
  {
  }

  /** The element taken when the active task gives way is a greatest one of the old queue. */
  lemma {:induction false} TakesQueued(q: Rq, prio: Key, e: Elem, load: Load, bound: nat)
    requires TimerPre(q, prio, e, load, bound) && q.active.Some? && Ticked(q, prio).1
    requires q.active.value in q.tasks && prio >= q.tasks[q.active.value].sprio
    ensures prio != INT_MIN && IsMax(e, q.bag) && e.key == prio && e.payload in q.tasks && e == Entry(q.tasks, e.payload)
    ensures e.payload != q.active.value
  {
    ActiveIsNotQueued(q, bound);
    assert BagAtSwitch(Ticked(q, prio).0, prio, load) == q.bag;
  }

  lemma {:induction false} OrTwice(s: bv8, flag: bv8)
    ensures (s | flag) | flag == s | flag
  {
  }

  lemma {:induction false} MarkTwice(q: Rq, a: Tid, flag: bv8)
    requires a in q.tasks
    ensures Mark(Mark(q, a, flag), a, flag) == Mark(q, a, flag)
  {
    OrTwice(q.tasks[a].state, flag);
  }

  lemma {:induction false} MarkedIsNotReady(s: bv8)
    ensures s | ST_PREEMPTED != ST_READY && s | ST_NEED_RESCHED != ST_READY
  {
  }

  lemma {:induction false} Preempted(q: Rq, prio: Key, e: Elem, load: Load)
    requires q.active.Some? && q.active.value in q.tasks && e.payload in q.tasks && prio > q.tasks[q.active.value].sprio
    ensures Timer(q, prio, e, load).0 == SwitchTo(Ticked(q, prio).0, e, load)
  {
    MarkTwice(Counted(q), q.active.value, ST_PREEMPTED);
  }

  lemma {:induction false} Rotated(q: Rq, prio: Key, e: Elem, load: Load)
    requires q.active.Some? && q.active.value in q.tasks && e.payload in q.tasks && prio != INT_MIN
    requires prio == q.tasks[q.active.value].sprio && LastTick(q.tasks[q.active.value])
    ensures Timer(q, prio, e, load).0 == SwitchTo(Ticked(q, prio).0, e, load)
  {
  }

  lemma {:induction false} AskedIsNotReady(q: Rq, prio: Key)
    requires q.active.Some? && q.active.value in q.tasks && Ticked(q, prio).1
    ensures Ticked(q, prio).0.tasks[q.active.value].state != ST_READY
  {
    MarkedIsNotReady(q.tasks[q.active.value].state);
  }

  lemma {:induction false} LastTickOf(q: Rq, prio: Key)
    requires q.active.Some? && q.active.value in q.tasks && Ticked(q, prio).1 && prio <= q.tasks[q.active.value].sprio
    ensures LastTick(q.tasks[q.active.value])
  {
  }

  lemma {:induction false} SwitchesAway(q: Rq, prio: Key, e: Elem, load: Load)
    requires q.active.Some? && q.active.value in q.tasks && e.payload in q.tasks && prio != INT_MIN
    requires Ticked(q, prio).1 && prio >= q.tasks[q.active.value].sprio
    ensures Timer(q, prio, e, load).0 == SwitchTo(Ticked(q, prio).0, e, load)
  {
    if prio > q.tasks[q.active.value].sprio {
      Preempted(q, prio, e, load);
    } else {
      LastTickOf(q, prio);
      Rotated(q, prio, e, load);
    }
  }

  /** A greater task waits, or an equal one and the slice is used up: it is taken and the active task is queued. */
  lemma {:induction false} GivesWay(q: Rq, prio: Key, e: Elem, load: Load, bound: nat)
    requires TimerPre(q, prio, e, load, bound) && q.active.Some? && Ticked(q, prio).1
    requires q.active.value in q.tasks && prio >= q.tasks[q.active.value].sprio
    ensures TimerLeads(q, prio, e, load, Timer(q, prio, e, load).0)
  {
    TakesQueued(q, prio, e, load, bound);
    var a, q1 := q.active.value, Ticked(q, prio).0;
    AskedIsNotReady(q, prio);
    SwitchesAway(q, prio, e, load);
    assert Entry(q1.tasks, e.payload) == Entry(q.tasks, e.payload);
    SwitchQueues(q1, e, load, a);
  }

  /** Taking e while the active task is already back in line: nothing else moves. */
  lemma {:induction false} SwitchFromLine(q: Rq, e: Elem, load: Load, a: Tid)
    requires q.active == Some(a) && a in q.tasks && q.tasks[a].state == ST_READY
    requires e in q.bag && e.payload in q.tasks && e == Entry(q.tasks, e.payload)
    ensures var q' := SwitchTo(q, e, load);
      q'.active == Some(e.payload) && q'.tasks[e.payload].sprio == e.key && q'.bag == q.bag - multiset{e}
  {
  }

  /** The flagged active task with nothing as great waiting: kept, or queued and then something is taken. */
  lemma {:induction false} Rescheduled(q: Rq, prio: Key, e: Elem, load: Load)
    requires q.active.Some? && q.active.value in q.tasks && Ticked(q, prio).1 && prio < q.tasks[q.active.value].sprio
    requires e.payload in q.tasks || prio == INT_MIN
    ensures var (q1, a) := (Ticked(q, prio).0, q.active.value);
      var q2 := Readied(q1, a, load);
      && BagAtSwitch(q1, prio, load) == (if Settled(q, prio, load).1 then Enqueued(q2, a).bag else q.bag)
      && Timer(q, prio, e, load).0 == if Settled(q, prio, load).1 then Setup(Enqueued(q2, a), prio, e, load) else q2
  {
    AskedIsNotReady(q, prio);
    MarkSets(q.tasks[q.active.value].state);
  }

  lemma {:induction false} MarkSets(s: bv8)
    ensures (s | ST_NEED_RESCHED) & ST_NEED_RESCHED != 0
  {
  }

  /** The active task back in line after its last tick. */
  function InLine(q: Rq, prio: Key, load: Load): Rq
    requires q.active.Some? && q.active.value in q.tasks
  {
    Enqueued(Readied(Ticked(q, prio).0, q.active.value, load), q.active.value)
  }

  lemma {:induction false} InLineTasks(q: Rq, prio: Key, load: Load)
    requires q.active.Some? && q.active.value in q.tasks
    ensures var (q3, a, s) := (InLine(q, prio, load), q.active.value, Settled(q, prio, load));
      && q3.tasks.Keys == q.tasks.Keys && q3.tasks[a] == s.0 && s.0.state == ST_READY
      && forall t :: t in q.tasks && t != a ==> q3.tasks[t] == q.tasks[t]
  {
  }

  lemma {:induction false} InLineIs(q: Rq, prio: Key, load: Load)
    requires q.active.Some? && q.active.value in q.tasks
    ensures var (q3, a, s) := (InLine(q, prio, load), q.active.value, Settled(q, prio, load));
      && q3.active == q.active && q3.tasks.Keys == q.tasks.Keys && q3.tasks[a] == s.0 && s.0.state == ST_READY
      && q3.bag == q.bag + multiset{Elem(s.0.sprio, a)}
      && forall t :: t in q.tasks && t != a ==> q3.tasks[t] == q.tasks[t]
  {
    InLineTasks(q, prio, load);
    TickedSame(q, prio);
  }

  lemma {:induction false} StartsOverKept(q: Rq, prio: Key, e: Elem, load: Load, bound: nat)
    requires TimerPre(q, prio, e, load, bound) && q.active.Some? && Ticked(q, prio).1
    requires q.active.value in q.tasks && prio < q.tasks[q.active.value].sprio && !Settled(q, prio, load).1
    ensures TimerLeads(q, prio, e, load, Timer(q, prio, e, load).0)
  {
    LastTickOf(q, prio);
    Rescheduled(q, prio, e, load);
  }

  lemma {:induction false} StartsOverTaken(q: Rq, prio: Key, e: Elem, load: Load, bound: nat)
    requires TimerPre(q, prio, e, load, bound) && q.active.Some? && Ticked(q, prio).1 && prio != INT_MIN
    requires q.active.value in q.tasks && prio < q.tasks[q.active.value].sprio && Settled(q, prio, load).1
    ensures var q3 := InLine(q, prio, load);
      IsMax(e, q3.bag) && Takes(q3, Timer(q, prio, e, load).0, e) && Timer(q, prio, e, load).0.bag == q3.bag - multiset{e}
  {
    Rescheduled(q, prio, e, load);
    InLineIs(q, prio, load);
    ActiveIsNotQueued(q, bound);
    var q3 := InLine(q, prio, load);
    assert e in q3.bag && e == Entry(q3.tasks, e.payload);
    SwitchFromLine(q3, e, load, q.active.value);
  }

  lemma {:induction false} StartsOverQueued(q: Rq, prio: Key, e: Elem, load: Load, bound: nat)
    requires TimerPre(q, prio, e, load, bound) && q.active.Some? && Ticked(q, prio).1
    requires q.active.value in q.tasks && prio < q.tasks[q.active.value].sprio && Settled(q, prio, load).1
    ensures TimerLeads(q, prio, e, load, Timer(q, prio, e, load).0)
  {
    LastTickOf(q, prio);
    InLineIs(q, prio, load);
    if prio != INT_MIN {
      StartsOverTaken(q, prio, e, load, bound);
    } else {
      Rescheduled(q, prio, e, load);
    }
  }

  /** The slice is used up and nothing as great waits: the active task goes on under its new priority, or
      is penalised and queued before anything is taken. */
  lemma {:induction false} StartsOver(q: Rq, prio: Key, e: Elem, load: Load, bound: nat)
    requires TimerPre(q, prio, e, load, bound) && q.active.Some? && Ticked(q, prio).1
    requires q.active.value in q.tasks && prio < q.tasks[q.active.value].sprio
    ensures TimerLeads(q, prio, e, load, Timer(q, prio, e, load).0)
  {
    if Settled(q, prio, load).1 {
      StartsOverQueued(q, prio, e, load, bound);
    } else {
      StartsOverKept(q, prio, e, load, bound);
    }
  }

  lemma {:induction false} TimerOutcome(q: Rq, prio: Key, e: Elem, load: Load, bound: nat)
    requires TimerPre(q, prio, e, load, bound)
    ensures TimerLeads(q, prio, e, load, Timer(q, prio, e, load).0)
  {
    if q.active.None? {
      FromIdle(q, prio, e, load, bound);
    } else {
      ActiveIsNotQueued(q, bound);
      if !Ticked(q, prio).1 {
        GoesOn(q, prio, e, load, bound);
      } else if prio >= q.tasks[q.active.value].sprio {
        GivesWay(q, prio, e, load, bound);
      } else {
        StartsOver(q, prio, e, load, bound);
      }
    }
  }

  // ---------------------------------------------------------------- what follows

  /** What the conclusions below need of the queue. */
  ghost predicate QueueFacts(q: Rq, prio: Key) {
    && IsPeek(prio, q.bag) && (q.bag == multiset{} <==> prio == INT_MIN)
    && (forall x :: x in q.bag ==> x.payload in q.tasks && x == Entry(q.tasks, x.payload))
    && (q.active.Some? ==> q.active.value in q.tasks && INT_MIN < q.tasks[q.active.value].sprio)
    && (q.active.Some? ==> forall x :: x in q.bag ==> x.payload != q.active.value)
  }

  lemma {:induction false} TimerFacts(q: Rq, prio: Key, e: Elem, load: Load, bound: nat)
    requires TimerPre(q, prio, e, load, bound)
    ensures QueueFacts(q, prio)
  {
    if q.active.Some? { ActiveIsNotQueued(q, bound); }
    assert forall x :: x in q.bag ==> INT_MIN < x.key;
  }

  lemma {:induction false} RunsOnFrom(q: Rq, q': Rq, prio: Key, e: Elem, asks: bool, key: Key, p: bool)
    requires QueueFacts(q, prio) && Outcome(q, q', prio, e, asks, key, p) && q.active.Some? && q'.active == q.active
    ensures var k := q.tasks[q.active.value]; prio <= k.sprio && (LastTick(k) ==> prio < k.sprio)
  {
  }

  /** A task goes on running only if no queued task beat it, and past the end of its slice only if none
      equalled it, whether it was kept or put in line and taken again. */
  lemma {:induction false} TimerRunsOn(q: Rq, prio: Key, e: Elem, load: Load, bound: nat)
    requires TimerPre(q, prio, e, load, bound) && q.active.Some? && Timer(q, prio, e, load).0.active == q.active
    ensures q.active.value in q.tasks
    ensures var k := q.tasks[q.active.value]; prio <= k.sprio && (LastTick(k) ==> prio < k.sprio)
  {
    TimerFacts(q, prio, e, load, bound);
    TimerOutcome(q, prio, e, load, bound);
    var s := Settled(q, prio, load);
    RunsOnFrom(q, Timer(q, prio, e, load).0, prio, e, Ticked(q, prio).1, s.0.sprio, s.1);
  }

  lemma {:induction false} PicksFrom(q: Rq, q': Rq, prio: Key, e: Elem, asks: bool, key: Key, p: bool)
    requires QueueFacts(q, prio) && Outcome(q, q', prio, e, asks, key, p) && q'.active.Some? && q'.active != q.active
    ensures var t := q'.active.value;
      t in q.tasks && Entry(q.tasks, t) in q.bag && t in q'.tasks && q'.tasks[t].sprio == prio
  {
    if q.active.Some? && prio < q.tasks[q.active.value].sprio && asks {
      assert e.payload != q.active.value && e in q.bag;
    }
  }

  /** A task that comes to run was queued and no queued task beat it. */
  lemma {:induction false} TimerPicks(q: Rq, prio: Key, e: Elem, load: Load, bound: nat)
    requires TimerPre(q, prio, e, load, bound)
    requires var q' := Timer(q, prio, e, load).0; q'.active.Some? && q'.active != q.active
    ensures var q' := Timer(q, prio, e, load).0;
      var t := q'.active.value;
      t in q.tasks && Entry(q.tasks, t) in q.bag && t in q'.tasks && q'.tasks[t].sprio == prio
  {
    TimerFacts(q, prio, e, load, bound);
    TimerOutcome(q, prio, e, load, bound);
    var q' := Timer(q, prio, e, load).0;
    if q.active.None? {
      PicksFrom(q, q', prio, e, true, 0, false);
    } else {
      var s := Settled(q, prio, load);
      PicksFrom(q, q', prio, e, Ticked(q, prio).1, s.0.sprio, s.1);
    }
  }

  /** The active task is alone, at the end of its slice, and penalised: what would leave the processor idle
      with a task queued. The counters rule it out, see NeverExpelled. */
  ghost predicate Expelled(q: Rq, prio: Key, load: Load) {
    && q.active.Some? && q.active.value in q.tasks && q.bag == multiset{}
    && LastTick(q.tasks[q.active.value]) && Settled(q, prio, load).1
  }

  lemma {:induction false} LastTickAsks(q: Rq, prio: Key)
    requires q.active.Some? && q.active.value in q.tasks && LastTick(q.tasks[q.active.value])
    ensures Ticked(q, prio).1
  {
  }

  lemma {:induction false} IdleFrom(q: Rq, q': Rq, prio: Key, e: Elem, asks: bool, key: Key, p: bool)
    requires QueueFacts(q, prio) && Outcome(q, q', prio, e, asks, key, p)
    requires q.active.Some? && LastTick(q.tasks[q.active.value]) ==> asks
    ensures var expelled := q.active.Some? && q.bag == multiset{} && LastTick(q.tasks[q.active.value]) && p;
      && (q'.active.None? <==> q.bag == multiset{} && (q.active.None? || expelled))
      && (q'.active.None? && q'.bag != multiset{} <==> expelled)
  {
  }

  lemma {:induction false} IdleOrExpelled(q: Rq, prio: Key, e: Elem, load: Load, bound: nat)
    requires TimerPre(q, prio, e, load, bound)
    ensures var q' := Timer(q, prio, e, load).0;
      && (q'.active.None? <==> q.bag == multiset{} && (q.active.None? || Expelled(q, prio, load)))
      && (q'.active.None? && q'.bag != multiset{} <==> Expelled(q, prio, load))
  {
    TimerFacts(q, prio, e, load, bound);
    TimerOutcome(q, prio, e, load, bound);
    var q' := Timer(q, prio, e, load).0;
    if q.active.None? {
      IdleFrom(q, q', prio, e, true, 0, false);
    } else {
      if LastTick(q.tasks[q.active.value]) { LastTickAsks(q, prio); }
      var s := Settled(q, prio, load);
      IdleFrom(q, q', prio, e, Ticked(q, prio).1, s.0.sprio, s.1);
    }
  }

  /** The heuristics' outcome fits the counters of the active task, if this tick looks at them. */
  ghost predicate LoadFits(q: Rq, prio: Key, load: Load) {
    q.active.Some? && q.active.value in q.tasks && Ticked(q, prio).1 ==>
      Fits(Ticked(q, prio).0.tasks[q.active.value], q.tick + 1, q.rprio, load)
  }

  /** The tick leaves the active task within its life. */
  lemma {:induction false} TickedLives(q: Rq, prio: Key)
    requires q.active.Some? && q.active.value in q.tasks
    requires var k := q.tasks[q.active.value]; k.prio > 0 && k.totalRunning + k.execRt <= q.tick - k.birth
    ensures var k := Ticked(q, prio).0.tasks[q.active.value]; k.prio > 0 && k.totalRunning + k.execRt <= q.tick + 1 - k.birth
  {
  }

  /** A lone task is never penalised. */
  lemma {:induction false} NeverExpelled(q: Rq, prio: Key, load: Load, bound: nat)
    requires Good(q, bound) && LoadFits(q, prio, load)
    ensures !Expelled(q, prio, load)
  {
    if Expelled(q, prio, load) {
      var a := q.active.value;
      NothingQueued(q.tasks, bound);
      assert q.rprio == 0;
      LastTickAsks(q, prio);
      TickedLives(q, prio);
      AloneIsNotPenalised(Ticked(q, prio).0.tasks[a], q.tick + 1, q.lowest, load);
      assert false;
    }
  }

  /** The processor idles exactly when nothing was queued and nothing was running, and then nothing is queued. */
  lemma {:induction false} IdleIff(q: Rq, prio: Key, e: Elem, load: Load, bound: nat)
    requires TimerPre(q, prio, e, load, bound) && LoadFits(q, prio, load)
    ensures var q' := Timer(q, prio, e, load).0;
      && (q'.active.None? <==> q.bag == multiset{} && q.active.None?)
      && (q'.active.None? ==> q'.bag == multiset{})
  {
    IdleOrExpelled(q, prio, e, load, bound);
    NeverExpelled(q, prio, load, bound);
  }

  /** A queued task outranks the running one. */
  ghost predicate Outranked(q: Rq) {
    q.active.Some? && q.active.value in q.tasks && exists x :: x in q.bag && x.key > q.tasks[q.active.value].sprio
  }

  /** What makes it so, known before the interrupt: the tick asks for a switch and, the active task's new
      priority in hand, it goes on below the best queued key, or it is queued above the task it gave way to. */
  ghost predicate WillBeOutranked(q: Rq, prio: Key, load: Load) {
    && q.active.Some? && q.active.value in q.tasks && Ticked(q, prio).1
    && var s := Settled(q, prio, load);
       if prio < q.tasks[q.active.value].sprio then !s.1 && s.0.sprio < prio else s.0.sprio > prio
  }

  lemma {:induction false} OutrankedFrom(q: Rq, q': Rq, prio: Key, e: Elem, asks: bool, key: Key, p: bool)
    requires QueueFacts(q, prio) && Outcome(q, q', prio, e, asks, key, p)
    ensures var overtakes := q.active.Some? && asks
        && if prio < q.tasks[q.active.value].sprio then !p && key < prio else key > prio;
      Outranked(q') <==> overtakes
  {
    if q.active.Some? && asks {
      var a := q.active.value;
      if prio >= q.tasks[a].sprio {
        assert Elem(key, a) in q'.bag;
      } else if prio != INT_MIN {
        var x :| x in q.bag && x.key == prio;
      }
    }
  }

  /** After an interrupt no queued task outranks the running one, except exactly then. */
  lemma {:induction false} OutrankedIff(q: Rq, prio: Key, e: Elem, load: Load, bound: nat)
    requires TimerPre(q, prio, e, load, bound)
    ensures Outranked(Timer(q, prio, e, load).0) <==> WillBeOutranked(q, prio, load)
  {
    TimerFacts(q, prio, e, load, bound);
    TimerOutcome(q, prio, e, load, bound);
    var q' := Timer(q, prio, e, load).0;
    if q.active.None? {
      OutrankedFrom(q, q', prio, e, true, 0, false);
    } else {
      var s := Settled(q, prio, load);
      OutrankedFrom(q, q', prio, e, Ticked(q, prio).1, s.0.sprio, s.1);
    }
  }

  /** The selection guarantee of a timer interrupt, in one. */
  lemma {:induction false} TimerSelects(q: Rq, prio: Key, e: Elem, load: Load, bound: nat)
    requires TimerPre(q, prio, e, load, bound)
    ensures var q' := Timer(q, prio, e, load).0;
      && (q'.active.Some? && q'.active != q.active ==>
            && q'.active.value in q.tasks && Entry(q.tasks, q'.active.value) in q.bag
            && q'.active.value in q'.tasks && q'.tasks[q'.active.value].sprio == prio)
      && (q'.active.Some? && q'.active == q.active ==>
            && q.active.value in q.tasks
            && var k := q.tasks[q.active.value]; prio <= k.sprio && (LastTick(k) ==> prio < k.sprio))
      && (q'.active.None? ==> q.bag == multiset{})
      && (LoadFits(q, prio, load) ==> (q'.active.None? <==> q.bag == multiset{} && q.active.None?))
      && (LoadFits(q, prio, load) && q'.active.None? ==> q'.bag == multiset{})
      && (Outranked(q') <==> WillBeOutranked(q, prio, load))
  {
    var q' := Timer(q, prio, e, load).0;
    IdleOrExpelled(q, prio, e, load, bound);
    if LoadFits(q, prio, load) { IdleIff(q, prio, e, load, bound); }
    OutrankedIff(q, prio, e, load, bound);
    if q'.active.Some? {
      if q'.active == q.active { TimerRunsOn(q, prio, e, load, bound); } else { TimerPicks(q, prio, e, load, bound); }
    }
  }
}
