/** The MTS run queue of one CPU, over the array-backed heap. Each method is tied to the step it
    performs on the abstract state; what the steps keep is proved there. */
module Scheduler {
  import opened Basics
  import opened BinaryHeap
  import opened RunQueueSteps
  import opened Selection
  import opened SchedulerRuns

  /** What may happen in a run: a task is admitted, the timer fires, a queued task is blocked,
      a waiting one is woken. */
  datatype Op = Admit(t: Tid, nice: int) | Timer(load: Load) | Block(t: Tid) | Wake(t: Tid, load: Load)

  /** A switch is wanted if the task woken beats the active one. */
  function WakeStatus(tasks: map<Tid, Task>, active: Option<Tid>, t: Tid): Status
    requires t in tasks
  {
    if active.Some? && active.value in tasks && tasks[t].sprio > tasks[active.value].sprio then StSwitch else StOk
  }

  /** A grown batch task whose use leaves its class undecided. */
  ghost predicate Undecided(k: Task, tick: nat, load: Load) {
    k.kind == Batch && tick - k.birth >= 20 && 40 < load.rtu < 90
  }

  /** The waiting task at index at is queued again with its new record; the other records and the active
      task stay. The answer asks for a switch exactly when the woken task beats the active one. */
  ghost predicate WakesUp(q: Rq, at: nat, load: Load, q': Rq, st: Status)
    requires at < |q.wait|
  {
    var t := q.wait[at];
    && t in q.tasks && q' == Unblocked(q, at, load)
    && t in q'.tasks && q'.tasks == q.tasks[t := q'.tasks[t]]
    && q'.bag == q.bag + multiset{Entry(q'.tasks, t)} && multiset(q'.wait) == multiset(q.wait) - multiset{t}
    && q'.active == q.active && q'.tick == q.tick
    && Woken(q.tasks[t], q'.tasks[t], q.tick, q.lowest, q'.lowest, load)
    && (st == StSwitch <==> q.active.Some? && q.active.value in q'.tasks && q'.tasks[t].sprio > q'.tasks[q.active.value].sprio)
    && (st == StSwitch || st == StOk)
    && (Undecided(q.tasks[t], q.tick, load) ==> q'.tasks[t].sprio == 10 + q.tasks[t].nice)
  }

  class RunQueue {
    const pqueue: BHeap
    var tasks: map<Tid, Task>
    var wait: seq<Tid>
    var active: Option<Tid>
    var iactive: bool
    var tick: nat
    var ntasks: int
    var nready: int
    var nblocked: int
    var rprio: int
    var lowest: int
    ghost var bound: nat

    ghost predicate HeapOk() reads this, pqueue, pqueue.elems {
      pqueue.Valid() && pqueue.elems.Length == CAPACITY
    }

    ghost function St(): Rq reads this, pqueue, pqueue.elems requires HeapOk() {
      Rq(tasks, pqueue.Bag(), wait, active, iactive, tick, ntasks, nready, nblocked, rprio, lowest)
    }

    ghost predicate Valid() reads this, pqueue, pqueue.elems {
      HeapOk() && Good(St(), bound)
    }

    constructor ()
      ensures fresh(pqueue) && fresh(pqueue.elems) && Valid() && St() == Empty()
    {
      pqueue := new BHeap(CAPACITY);
      tasks, wait, active, iactive := map[], [], None, false;
      tick, ntasks, nready, nblocked, rprio, lowest := 0, 0, 0, 0, 0, INT_MAX;
      bound := 0;
    }

    method AdjustBatch(task: Task, load: Load) returns (k: Task, penalised: bool)
      requires -4 <= task.nice <= 4 && INT_MIN + 1 < lowest <= 13
      ensures k == BatchAdjusted(task, lowest, load) && penalised == load.usage.Over?
    {
      k, penalised := task, false;
      match load.usage {
        case Over =>
          k, penalised := k.(timeslice := STS_BATCH, sprio := lowest - 1), true;
        case Under =>
          k := k.(sprio := (SP_BATCH + k.nice) * 11 / 10,
                  timeslice := if load.share > STS_BATCH then load.share else STS_BATCH);
        case Fair =>
      }
      k := k.(kind := Batch, prio := SP_BATCH + k.nice);
    }

    /** Recompute the priority of a task that is not in the queue. */
    method AdjustPriority(task: Task, load: Load) returns (k: Task, penalised: bool)
      requires FieldsOk(task, tick, lowest) && INT_MIN + 1 < lowest
      modifies this`rprio, this`lowest
      ensures (k, lowest, penalised) == Adjusted(task, tick, old(lowest), load)
      ensures rprio == old(rprio) + k.prio
    {
      k := task;
      penalised := false;
      if tick - k.birth < 20 {
        k := k.(prio := SP_BASE + k.nice, sprio := SP_BASE + k.nice);
      } else {
        var bonus := k.nice;
        if k.state == ST_BLOCKED && k.kind == Batch { bonus := bonus + SPB_SLEEP; }
        if load.rtu <= 40 && k.totalRunning > STS_BASE {
          k := k.(kind := Interactive, timeslice := STS_NORMAL, prio := SP_INTERACTIVE + bonus, sprio := SP_INTERACTIVE + bonus);
        } else if load.rtu >= 90 {
          k, penalised := AdjustBatch(k, load);
          if k.sprio < lowest { lowest := k.sprio; }
        } else {
          k := k.(timeslice := STS_BASE, prio := SP_BASE + bonus, sprio := SP_BASE + bonus);
        }
      }
      rprio := rprio + k.prio;
    }

    /** Settle a task's runtime, give it a new priority and mark it ready. */
    method MakeReady(task: Task, load: Load) returns (k: Task, penalised: bool)
      requires TaskOk(task, tick, lowest) && INT_MIN + 1 < lowest
      modifies this`rprio, this`lowest, this`nblocked
      ensures (k, lowest, penalised) == MadeReady(task, tick, old(lowest), load)
      ensures rprio == old(rprio) + k.prio && nblocked == old(nblocked) - if task.state == ST_BLOCKED then 1 else 0
    {
      k := task;
      var settle := k.state & (ST_NEED_RESCHED | ST_BLOCKED) != 0;
      if k.state == ST_BLOCKED { nblocked := nblocked - 1; }
      if settle { k := k.(totalRunning := k.totalRunning + k.execRt); }
      k, penalised := AdjustPriority(k, load);
      if settle { k := k.(totalAlloc := k.totalAlloc + k.timeslice, execRt := 0); }
      k := k.(state := ST_READY);
    }

    /** Put a task back in line; with switchTask unset it may be left running. */
    method ScheduleTask(t: Tid, switchTask: bool, load: Load) returns (st: Status)
      requires HeapOk() && t in tasks && t != 0 && TaskOk(tasks[t], tick, lowest) && INT_MIN + 1 < lowest
      requires tasks[t].state == ST_READY || |pqueue.Bag()| < CAPACITY
      modifies this`tasks, this`rprio, this`lowest, this`nready, this`nblocked, pqueue`size, pqueue.elems
      ensures HeapOk() && (St(), st) == Schedule(old(St()), t, switchTask, load)
    {
      if tasks[t].state == ST_READY { return StOk; }
      var penalised := Ready(t, load);
      if switchTask || penalised {
        Enqueue(t);
        return StSwitch;
      }
      rprio := rprio - tasks[t].prio;
      st := StOk;
    }

    method Ready(t: Tid, load: Load) returns (penalised: bool)
      requires HeapOk() && t in tasks && TaskOk(tasks[t], tick, lowest) && INT_MIN + 1 < lowest
      modifies this`tasks, this`rprio, this`lowest, this`nblocked
      ensures HeapOk() && t in tasks && penalised == MadeReady(old(tasks)[t], tick, old(lowest), load).2
      ensures St() == Readied(old(St()), t, load).(rprio := old(rprio) + tasks[t].prio)
    {
      var k;
      k, penalised := MakeReady(tasks[t], load);
      tasks := tasks[t := k];
    }

    method Enqueue(t: Tid)
      requires HeapOk() && t in tasks && t != 0 && |pqueue.Bag()| < CAPACITY
      modifies this`nready, pqueue`size, pqueue.elems
      ensures HeapOk() && St() == Enqueued(old(St()), t).(rprio := rprio)
    {
      nready := nready + 1;
      var inserted := pqueue.Insert(tasks[t].sprio, t);
    }

    method Dequeue() returns (t: Tid, ghost e: Elem)
      requires HeapOk() && pqueue.Bag() != multiset{}
      modifies pqueue`size, pqueue.elems
      ensures HeapOk() && IsMax(e, old(pqueue.Bag())) && t == e.payload && pqueue.Bag() == old(pqueue.Bag()) - multiset{e}
    {
      e := pqueue.elems[0];
      assert e == pqueue.Items()[0] && e in pqueue.Bag();
      var st := pqueue.RemoveMax();
      t := st.value;
    }

    /** Pop the first task, put the active one back in line, and switch. */
    method Switch(load: Load) returns (ghost e: Elem)
      requires HeapOk() && pqueue.Bag() != multiset{} && Poppable(St())
      modifies this, pqueue`size, pqueue.elems
      ensures HeapOk() && bound == old(bound) && IsMax(e, old(pqueue.Bag())) && e.payload in old(tasks)
      ensures St() == SwitchTo(old(St()), e, load)
    {
      var t;
      t, e := Dequeue();
      PutActiveBack(load);
      Activate(t);
    }

    method PutActiveBack(load: Load)
      requires HeapOk() && INT_MIN + 1 < lowest
      requires active.Some? ==> active.value in tasks && active.value != 0 && TaskOk(tasks[active.value], tick, lowest)
      requires active.Some? ==> tasks[active.value].state == ST_READY || |pqueue.Bag()| < CAPACITY
      modifies this`tasks, this`rprio, this`lowest, this`nready, this`nblocked, pqueue`size, pqueue.elems
      ensures HeapOk() && St() == PutBack(old(St()), load)
    {
      if active.Some? {
        var _ := ScheduleTask(active.value, true, load);
      }
    }

    method Activate(t: Tid)
      requires HeapOk() && t in tasks
      modifies this
      ensures HeapOk() && bound == old(bound) && St() == Activated(old(St()), t)
    {
      active, iactive, nready, rprio := Some(t), false, nready - 1, rprio - tasks[t].prio;
      tasks := tasks[t := tasks[t].(state := ST_ACTIVE)];
    }

    method Peek() returns (prio: Key, ghost e: Elem)
      requires HeapOk()
      ensures IsPeek(prio, pqueue.Bag()) && (pqueue.Bag() != multiset{} ==> IsMax(e, pqueue.Bag()))
    {
      prio := pqueue.PeekMax();
      e := Elem(0, 0);
      if pqueue.size > 0 {
        e := pqueue.elems[0];
        assert e == pqueue.Items()[0] && e in pqueue.Bag();
      }
    }

    /** The tail of picking the next task: idle if the queue was empty, a switch otherwise. */
    method SetupActive(prio: Key, load: Load) returns (ghost e: Elem)
      requires HeapOk() && Poppable(St()) && (prio != INT_MIN ==> pqueue.Bag() != multiset{})
      modifies this, pqueue`size, pqueue.elems
      ensures HeapOk() && bound == old(bound) && (prio != INT_MIN ==> IsMax(e, old(pqueue.Bag())) && e.payload in old(tasks))
      ensures St() == Setup(old(St()), prio, e, load)
    {
      e := Elem(0, 0);
      if prio == INT_MIN {
        active, iactive := None, true;
      } else {
        e := Switch(load);
      }
    }

    /** Pick the task to run. */
    method GetNext(load: Load) returns (switched: bool, ghost prio: Key, ghost e: Elem)
      requires HeapOk() && Running(St(), bound) && INT_MIN + 2 < lowest
      modifies this, pqueue`size, pqueue.elems
      ensures HeapOk() && bound == old(bound) && IsPeek(prio, old(pqueue.Bag()))
      ensures e.payload in old(tasks) || prio == INT_MIN
      ensures prio != INT_MIN ==> IsMax(e, BagAtSwitch(old(St()), prio, load))
      ensures (St(), switched) == Next(old(St()), prio, e, load)
    {
      var p;
      p, e := Peek();
      prio := p;
      RunningIsPoppable(St(), p, bound);
      if active.None? {
        e := SetupActive(p, load);
        return true, prio, e;
      }
      switched, e := NextAfterActive(p, e, load);
    }

    /** The same with a task active; prio and e0 are what the queue shows. */
    method NextAfterActive(prio: Key, ghost e0: Elem, load: Load) returns (switched: bool, ghost e: Elem)
      requires HeapOk() && Running(St(), bound) && INT_MIN + 2 < lowest && active.Some?
      requires Poppable(St()) && IsPeek(prio, pqueue.Bag()) && (prio != INT_MIN <==> pqueue.Bag() != multiset{})
      requires prio != INT_MIN ==> IsMax(e0, pqueue.Bag())
      modifies this, pqueue`size, pqueue.elems
      ensures HeapOk() && bound == old(bound) && (e.payload in old(tasks) || prio == INT_MIN)
      ensures prio != INT_MIN ==> IsMax(e, BagAtSwitch(old(St()), prio, load))
      ensures (St(), switched) == Next(old(St()), prio, e, load)
    {
      ghost var q := St();
      var a := active.value;
      if prio > tasks[a].sprio {
        e := Preempt(prio, load);
        NextBeaten(q, prio, e, load);
        return true, e;
      }
      if tasks[a].execRt < tasks[a].timeslice {
        NextInTime(q, prio, e0, load);
        return false, e0;
      }
      if tasks[a].state & ST_NEED_RESCHED != 0 && prio < tasks[a].sprio {
        switched, e := Reschedule(prio, e0, load);
        NextFlagged(q, prio, e, load);
        return switched, e;
      }
      e := SetupActive(prio, load);
      NextUsedUp(q, prio, e, load);
      switched := true;
    }

    /** A greater priority is waiting. */
    method Preempt(prio: Key, load: Load) returns (ghost e: Elem)
      requires HeapOk() && Poppable(St()) && active.Some? && pqueue.Bag() != multiset{} && prio != INT_MIN
      modifies this, pqueue`size, pqueue.elems
      ensures HeapOk() && bound == old(bound) && IsMax(e, old(pqueue.Bag())) && e.payload in old(tasks)
      ensures St() == Setup(Mark(old(St()), old(active).value, ST_PREEMPTED), prio, e, load)
    {
      MarkPoppable(St(), ST_PREEMPTED);
      SetFlag(ST_PREEMPTED);
      e := SetupActive(prio, load);
    }

    method SetFlag(flag: bv8)
      requires HeapOk() && active.Some? && active.value in tasks
      modifies this`tasks
      ensures HeapOk() && St() == Mark(old(St()), active.value, flag)
    {
      var a := active.value;
      tasks := tasks[a := tasks[a].(state := tasks[a].state | flag)];
    }

    /** The active task has used up its slice and nothing as good is waiting. */
    method Reschedule(prio: Key, ghost e0: Elem, load: Load) returns (switched: bool, ghost e: Elem)
      requires HeapOk() && Running(St(), bound) && INT_MIN + 2 < lowest && active.Some?
      requires tasks[active.value].state & ST_NEED_RESCHED != 0 && IsPeek(prio, pqueue.Bag())
      requires prio != INT_MIN ==> IsMax(e0, pqueue.Bag())
      modifies this, pqueue`size, pqueue.elems
      ensures HeapOk() && bound == old(bound) && (e.payload in old(tasks) || prio == INT_MIN)
      ensures var (q, st) := Schedule(old(St()), old(active).value, false, load);
        && q.tasks.Keys == old(tasks).Keys && q.active == old(active)
        && (prio != INT_MIN ==> IsMax(e, q.bag))
        && if st == StOk then !switched && St() == q else switched && St() == Setup(q, prio, e, load)
    {
      RunningIsPoppable(St(), prio, bound);
      RescheduledIsPoppable(St(), load, bound);
      var st := ScheduleTask(active.value, false, load);
      if st == StOk { return false, e0; }
      e := SetupActive(prio, load);
      switched := true;
    }

    /** A timer tick; the result says whether to pick a task. */
    method Tick() returns (switch_: bool, ghost prio: Key)
      requires HeapOk() && (active.Some? ==> active.value in tasks)
      modifies this`tick, this`tasks
      ensures HeapOk() && IsPeek(prio, pqueue.Bag()) && (St(), switch_) == Ticked(old(St()), prio)
      ensures !switch_ && active.Some? ==>
        && active.value in tasks
        && tasks[active.value].execRt < tasks[active.value].timeslice
        && forall e :: e in pqueue.Bag() ==> e.key <= tasks[active.value].sprio
    {
      var p, _ := Peek();
      prio := p;
      if active.None? {
        return !iactive || p > INT_MIN, prio;
      }
      var a := active.value;
      tick, tasks := tick + 1, tasks[a := tasks[a].(execRt := tasks[a].execRt + 1)];
      if p > tasks[a].sprio {
        SetFlag(ST_PREEMPTED);
        return true, prio;
      }
      if tasks[a].execRt >= tasks[a].timeslice {
        SetFlag(ST_NEED_RESCHED);
        return true, prio;
      }
      switch_ := false;
    }

    method TickAndPick(load: Load) returns (switched: bool, ghost prio: Key, ghost e: Elem)
      requires Valid() && INT_MIN + 2 < lowest
      modifies this, pqueue`size, pqueue.elems
      ensures HeapOk() && bound == old(bound) && IsPeek(prio, old(pqueue.Bag()))
      ensures e.payload in old(tasks) || prio == INT_MIN
      ensures Ticked(old(St()), prio).1 && prio != INT_MIN ==> IsMax(e, BagAtSwitch(Ticked(old(St()), prio).0, prio, load))
      ensures (St(), switched) == RunQueueSteps.Timer(old(St()), prio, e, load)
      ensures switched ==> if prio == INT_MIN then active.None? else RunsAtLeast(St(), prio)
      ensures !switched ==> active == old(active)
    {
      ghost var q0 := St();
      var switch_;
      ghost var prio1;
      switch_, prio := Tick();
      if !switch_ {
        e := Elem(0, 0);
        if prio != INT_MIN {
          e :| e in q0.bag;
          QueuedKeys(q0, e.payload, bound);
        }
        return false, prio, e;
      }
      TickedAsks(q0, prio, bound);
      ghost var q1 := St();
      switched, prio1, e := GetNext(load);
      PeekUnique(prio, prio1, q0.bag);
      NextSelects(q1, prio, e, load, bound);
    }

    /** A timer interrupt: tick, then pick a task if asked to. Another task comes to run only from the queue
        and only if no queued task beat it. The same task goes on only if no queued task beat it, past its
        slice only if none equalled it. The processor idles exactly when nothing was queued and nothing was
        running. When a queued task outranks the running one afterwards is known from the state before. */
    method OnTimer(load: Load) returns (next: Option<Tid>, ghost prio: Key, ghost e: Elem)
      requires Valid() && INT_MIN + 2 < lowest
      modifies this, pqueue`size, pqueue.elems
      ensures Valid() && bound == old(bound) && tasks.Keys == old(tasks).Keys && LowestStep(old(lowest), lowest)
      ensures next == active && TimerPre(old(St()), prio, e, load, bound) && St() == RunQueueSteps.Timer(old(St()), prio, e, load).0
      ensures next.Some? && next != old(active) ==>
        && next.value in old(tasks) && Entry(old(tasks), next.value) in old(pqueue.Bag())
        && forall x :: x in old(pqueue.Bag()) ==> x.key <= tasks[next.value].sprio
      ensures next.Some? && next == old(active) ==> next.value in old(tasks) && forall x :: x in old(pqueue.Bag()) ==>
        var k := old(tasks)[next.value]; x.key <= k.sprio && (LastTick(k) ==> x.key < k.sprio)
      ensures SliceLasts(old(St())) ==> St() == Counted(old(St()))
      ensures next.None? ==> old(pqueue.Bag()) == multiset{}
      ensures LoadFits(old(St()), prio, load) ==> (next.None? <==> old(pqueue.Bag()) == multiset{} && old(active).None?)
      ensures LoadFits(old(St()), prio, load) && next.None? ==> pqueue.Bag() == multiset{}
      ensures Outranked(St()) <==> WillBeOutranked(old(St()), prio, load)
    {
      ghost var q0 := St();
      var switched;
      switched, prio, e := TickAndPick(load);
      TimerOk(q0, prio, e, load, bound);
      TimerSelects(q0, prio, e, load, bound);
      LastingSlice(q0, prio, e, load, bound);
      next := active;
    }

    /** Admit a new task. */
    method Admit(t: Tid, nice: int) returns (st: Status)
      requires Valid() && t !in tasks && |tasks| < CAPACITY
      modifies this, pqueue`size, pqueue.elems
      ensures Valid() && LowestStep(old(lowest), lowest)
      ensures st == StEinval <==> t == 0 || nice < -4 || nice > 4
      ensures st == StEinval ==> St() == old(St())
      ensures st != StEinval ==> st == StOk && St() == Admitted(old(St()), t, nice)
      ensures st == StOk ==> tasks == old(tasks)[t := Task(Batch, 2, 9 + nice, 9 + nice, nice, 10, 0, 0, 10, tick)]
    {
      if t == 0 || nice < -4 || nice > 4 { return StEinval; }
      AdmittedInNumbers(St(), t, nice);
      AdmittedOk(St(), t, nice, bound);
      bound := if t < bound then bound else t + 1;
      InsertNew(t, nice);
      st := StOk;
    }

    method InsertNew(t: Tid, nice: int)
      requires HeapOk() && t != 0 && -4 <= nice <= 4 && |pqueue.Bag()| < CAPACITY
      modifies this`tasks, this`lowest, this`ntasks, this`nready, this`rprio, pqueue`size, pqueue.elems
      ensures HeapOk() && St() == Admitted(old(St()), t, nice)
    {
      var p := SP_BASE + SPB_BIRTH + nice;
      var k := Task(Batch, ST_ACTIVE, p, p, nice, STS_BASE, 0, 0, STS_BASE, tick);
      if lowest > k.sprio { lowest := k.sprio; }
      ntasks, nready, rprio, tasks := ntasks + 1, nready + 1, rprio + p, tasks[t := k];
      assert HeapOk() && St() == Admitted(old(St()), t, nice).(bag := old(St()).bag);
      PushEntry(t, k.sprio);
    }

    method PushEntry(t: Tid, key: Key)
      requires HeapOk() && t != 0 && |pqueue.Bag()| < CAPACITY
      modifies pqueue`size, pqueue.elems
      ensures HeapOk() && pqueue.Bag() == old(pqueue.Bag()) + multiset{Elem(key, t)}
    {
      var inserted := pqueue.Insert(key, t);
    }

    /** Block a task. A queued task moves to the wait list. The running one is put there too, but the
        counters are taken down a second time: they no longer agree with the queue. */
    method Block(t: Tid) returns (st: Status)
      requires Valid() && t in tasks && (active == Some(t) || Entry(tasks, t) in pqueue.Bag())
      modifies this, pqueue`size, pqueue.elems
      ensures HeapOk() && bound == old(bound) && tasks.Keys == old(tasks).Keys && wait == [t] + old(wait) && lowest == old(lowest)
      ensures old(active) != Some(t) <==> Valid()
      ensures old(active) != Some(t) ==> pqueue.Bag() == old(pqueue.Bag()) - multiset{Entry(old(tasks), t)}
      ensures st == if old(active) == Some(t) then StSwitch else StOk
      ensures St() == if old(active) == Some(t) then Parked(old(St()), t) else Blocked(old(St()), t)
    {
      st := if active == Some(t) then StSwitch else StOk;
      BlockKeepsIff(St(), t, bound);
      QueuedKeys(St(), t, bound);
      MoveToWait(t);
    }

    method MoveToWait(t: Tid)
      requires HeapOk() && t in tasks && (active == Some(t) || Entry(tasks, t) in pqueue.Bag())
      requires forall x :: x in pqueue.Bag() ==> x.key < INT_MAX && (x.payload == t ==> x == Entry(tasks, t))
      modifies this, pqueue`size, pqueue.elems
      ensures HeapOk() && bound == old(bound)
      ensures St() == if old(active) == Some(t) then Parked(old(St()), t) else Blocked(old(St()), t)
    {
      if active.None? || active.value != t { TakeOut(t); }
      Park(t);
    }

    method Park(t: Tid)
      requires HeapOk() && t in tasks
      modifies this`nblocked, this`nready, this`rprio, this`tasks, this`wait
      ensures HeapOk() && St() == Parked(old(St()), t)
    {
      nblocked, nready, rprio := nblocked + 1, nready - 1, rprio - tasks[t].prio;
      tasks, wait := tasks[t := tasks[t].(state := ST_BLOCKED)], [t] + wait;
    }

    method TakeOut(t: Tid)
      requires HeapOk() && t in tasks && Entry(tasks, t) in pqueue.Bag()
      requires forall x :: x in pqueue.Bag() ==> x.key < INT_MAX && (x.payload == t ==> x == Entry(tasks, t))
      modifies pqueue`size, pqueue.elems
      ensures HeapOk() && St() == old(St()).(bag := old(St()).bag - multiset{Entry(tasks, t)})
    {
      RemoveEntry(t);
    }

    method RemoveEntry(t: Tid)
      requires HeapOk() && t in tasks && Entry(tasks, t) in pqueue.Bag()
      requires forall x :: x in pqueue.Bag() ==> x.key < INT_MAX && (x.payload == t ==> x == Entry(tasks, t))
      modifies pqueue`size, pqueue.elems
      ensures HeapOk() && pqueue.Bag() == old(pqueue.Bag()) - multiset{Entry(tasks, t)}
    {
      ghost var items := pqueue.Items();
      assert forall i :: 0 <= i < pqueue.size ==> pqueue.elems[i] == items[i] && items[i] in multiset(items);
      var r, at := pqueue.RemovePayload(p => p == t);
      assert r.Some? && items[0].key < INT_MAX && items[at] == Entry(tasks, t);
    }

    /** Wake the first waiting task that is t, once the scheduler has been started. */
    method Unblock(t: Tid, load: Load) returns (st: Status, ghost at: nat)
      requires Valid() && INT_MIN + 2 < lowest
      modifies this, pqueue`size, pqueue.elems
      ensures Valid() && bound == old(bound) && LowestStep(old(lowest), lowest) && tasks.Keys == old(tasks).Keys
      ensures (old(active).None? && !old(iactive)) || t !in old(wait) ==> St() == old(St())
      ensures old(active).None? && !old(iactive) ==> st == StOk
      ensures (old(active).Some? || old(iactive)) && t !in old(wait) ==> st == StEnoent
      ensures (old(active).Some? || old(iactive)) && t in old(wait) ==>
        at < |old(wait)| && old(wait)[at] == t && WakesUp(old(St()), at, load, St(), st)
    {
      at := 0;
      if active.None? && !iactive { return StOk, at; }
      for i := 0 to |wait|
        invariant Valid() && unchanged(this) && pqueue.Bag() == old(pqueue.Bag())
        invariant forall j :: 0 <= j < i ==> wait[j] != t
      {
        if wait[i] == t {
          st := WakeFound(i, load);
          return st, i;
        }
      }
      st := StEnoent;
    }

    /** Wake the waiting task at index i. */
    method WakeFound(i: nat, load: Load) returns (st: Status)
      requires Valid() && INT_MIN + 2 < lowest && i < |wait|
      modifies this, pqueue`size, pqueue.elems
      ensures Valid() && bound == old(bound) && LowestStep(old(lowest), lowest) && tasks.Keys == old(tasks).Keys
      ensures WakesUp(old(St()), i, load, St(), st)
    {
      var t := wait[i];
      UnblockedOk(St(), i, load, bound);
      UnblockedMoves(St(), i, load, bound);
      UnblockedInNumbers(St(), i, load, bound);
      WaitingCanRun(St(), i, bound);
      WakeAt(i, load);
      st := WakeStatus(tasks, active, t);
    }

    method WakeAt(i: nat, load: Load)
      requires HeapOk() && i < |wait| && INT_MIN + 2 < lowest
      requires wait[i] in tasks && wait[i] != 0 && TaskOk(tasks[wait[i]], tick, lowest) && |pqueue.Bag()| < CAPACITY
      modifies this, pqueue`size, pqueue.elems
      ensures HeapOk() && bound == old(bound) && St() == Unblocked(old(St()), i, load)
    {
      var t := wait[i];
      wait := wait[..i] + wait[i + 1..];
      var _ := ScheduleTask(t, true, load);
    }

    /** Over every run, each admitted task is in exactly one place and the counters agree with the queues;
        and the states passed are those of a run of events. */
    method Run(ops: seq<Op>)
      requires Valid() && INT_MIN + 2 + |ops| < lowest && INT_MIN + 2 + |ops| < 1
      modifies this, pqueue`size, pqueue.elems
      ensures Valid() && (old(Conceivable(St())) ==> Conceivable(St()))
    {
      for i := 0 to |ops|
        invariant Valid() && INT_MIN + 2 + (|ops| - i) < lowest
        invariant old(Conceivable(St())) ==> Conceivable(St())
      {
        ghost var q := St();
        ghost var ev := Step(ops[i]);
        if Conceivable(q) && Moves(q, ev, St()) { ConceivableNext(q, ev, St()); }
      }
    }

    method Step(op: Op) returns (ghost ev: Event)
      requires Valid() && INT_MIN + 2 < lowest
      modifies this, pqueue`size, pqueue.elems
      ensures Valid() && LowestStep(old(lowest), lowest)
      ensures St() == old(St()) || Moves(old(St()), ev, St())
    {
      match op
      case Admit(t, nice) => ev := AdmitIfNew(t, nice);
      case Timer(load) => ev := FireTimer(load);
      case Block(t) => ev := BlockIfQueued(t);
      case Wake(t, load) => ev := Wake(t, load);
    }

    method AdmitIfNew(t: Tid, nice: int) returns (ghost ev: Event)
      requires Valid() && INT_MIN + 2 < lowest
      modifies this, pqueue`size, pqueue.elems
      ensures Valid() && LowestStep(old(lowest), lowest)
      ensures St() == old(St()) || Moves(old(St()), ev, St())
    {
      ev := Enter(t, nice);
      if t !in tasks && |tasks| < CAPACITY { var _ := Admit(t, nice); }
    }

    method FireTimer(load: Load) returns (ghost ev: Event)
      requires Valid() && INT_MIN + 2 < lowest
      modifies this, pqueue`size, pqueue.elems
      ensures Valid() && LowestStep(old(lowest), lowest)
      ensures St() == old(St()) || Moves(old(St()), ev, St())
    {
      ghost var q := St();
      var _, prio, e := OnTimer(load);
      ev := Interrupt(prio, e, load);
      InterruptMoves(q, prio, e, load, bound);
    }

    method BlockIfQueued(t: Tid) returns (ghost ev: Event)
      requires Valid() && INT_MIN + 2 < lowest
      modifies this, pqueue`size, pqueue.elems
      ensures Valid() && LowestStep(old(lowest), lowest)
      ensures St() == old(St()) || Moves(old(St()), ev, St())
    {
      ev := Suspend(t);
      ghost var q := St();
      var queued := IsQueued(t);
      if queued {
        SuspendMoves(q, t);
        var _ := Block(t);
        assert St() == Blocked(q, t);
      }
    }

    method Wake(t: Tid, load: Load) returns (ghost ev: Event)
      requires Valid() && INT_MIN + 2 < lowest
      modifies this, pqueue`size, pqueue.elems
      ensures Valid() && LowestStep(old(lowest), lowest)
      ensures St() == old(St()) || Moves(old(St()), ev, St())
    {
      ghost var q := St();
      var _, at := Unblock(t, load);
      ev := Resume(at, load);
      if (q.active.Some? || q.iactive) && t in q.wait {
        ResumeMoves(q, at, load);
        assert St() == Unblocked(q, at, load);
      } else {
        assert St() == q;
      }
    }

    /** Whether t is one of the queued tasks. */
    method IsQueued(t: Tid) returns (queued: bool)
      requires Valid()
      ensures queued <==> t in tasks && Entry(tasks, t) in pqueue.Bag()
      ensures queued ==> active != Some(t)
    {
      queued := t in tasks && (active.None? || active.value != t) && t !in wait;
      PlaceOf(St(), t, bound);
    }
  }
}
