/** What the MTS scheduler promises about its state on one CPU: where tasks are, what the counters
    say, and how each step moves them. The heap appears here as the bag it holds. */
module RunQueueSteps {
  import opened Basics
  import opened BinaryHeap

  type Tid = Payload

  const ST_ACTIVE: bv8 := 2
  const ST_READY: bv8 := 4
  const ST_BLOCKED: bv8 := 8
  const ST_NEED_RESCHED: bv8 := 16
  const ST_PREEMPTED: bv8 := 32

  const SP_BATCH := 5
  const SP_BASE := 7
  const SP_INTERACTIVE := 10
  const SPB_BIRTH := 2
  const SPB_SLEEP := 3
  const STS_BASE := 10
  const STS_BATCH := 15
  const STS_NORMAL := 5
  const CAPACITY: nat := 256

  datatype TaskType = Interactive | Batch

  datatype Task = Task(
    kind: TaskType, state: bv8, prio: int, sprio: Key, nice: int,
    timeslice: nat, execRt: nat, totalRunning: nat, totalAlloc: nat, birth: nat)

  /** The outcome of the floating-point heuristics: runtime utilisation in percent, how the ticks used
      compare with the fair share, and the share left. Every value is possible. */
  datatype Usage = Over | Under | Fair
  datatype Load = Load(rtu: int, usage: Usage, share: nat)

  datatype Status = StOk | StSwitch | StEinval | StEnoent

  // ---------------------------------------------------------------- invariants

  /** Priorities stay where they cannot be mistaken for the empty queue or the removal marker. */
  ghost predicate PrioOk(t: Task, lowest: int) {
    (t.sprio >= lowest || t.sprio >= 1) && t.sprio <= 17
  }

  ghost predicate FieldsOk(t: Task, tick: nat, lowest: int) {
    -4 <= t.nice <= 4 && t.timeslice > 0 && t.totalAlloc > 0 && t.birth <= tick && PrioOk(t, lowest) && lowest <= 13
  }

  /** Besides, a task cannot have run for longer than it has lived. */
  ghost predicate TaskOk(t: Task, tick: nat, lowest: int) {
    FieldsOk(t, tick, lowest) && t.prio > 0 && t.totalRunning + t.execRt <= tick - t.birth
  }

  function Entry(tasks: map<Tid, Task>, t: Tid): Elem
    requires t in tasks
  {
    Elem(tasks[t].sprio, t)
  }

  /** In how many places task t is: the heap under its current key, the wait list, or loose in hand. */
  ghost function Places(tasks: map<Tid, Task>, bag: multiset<Elem>, wait: seq<Tid>, loose: set<Tid>, t: Tid): nat
    requires t in tasks
  {
    bag[Entry(tasks, t)] + multiset(wait)[t] + (if t in loose then 1 else 0)
  }

  /** Every task is in exactly one place, and the heap holds nothing else and no stale key. */
  ghost predicate Partition(tasks: map<Tid, Task>, bag: multiset<Elem>, wait: seq<Tid>, loose: set<Tid>) {
    && (forall e :: e in bag ==> e.payload in tasks && e == Entry(tasks, e.payload))
    && (forall t :: t in wait ==> t in tasks && tasks[t].state == ST_BLOCKED)
    && loose <= tasks.Keys
    && (forall t :: t in tasks ==> Places(tasks, bag, wait, loose, t) == 1)
    && |bag| + |wait| + |loose| == |tasks| <= CAPACITY
    && 0 !in tasks
  }

  ghost function Queued(tasks: map<Tid, Task>, bag: multiset<Elem>, t: nat): int {
    if t in tasks && Entry(tasks, t) in bag then tasks[t].prio else 0
  }

  /** The sum of prio over the queued tasks below n. */
  ghost function QueuedPrio(tasks: map<Tid, Task>, bag: multiset<Elem>, n: nat): int
    decreases n
  {
    if n == 0 then 0 else QueuedPrio(tasks, bag, n - 1) + Queued(tasks, bag, n - 1)
  }

  /** A change at one task changes the sum by that task's share. */
  lemma {:induction false} QueuedPrioChange(tasks: map<Tid, Task>, bag: multiset<Elem>, tasks': map<Tid, Task>, bag': multiset<Elem>, t: Tid, n: nat)
    requires forall u: nat :: u != t ==> Queued(tasks', bag', u) == Queued(tasks, bag, u)
    ensures QueuedPrio(tasks', bag', n) ==
      QueuedPrio(tasks, bag, n) + if t < n then Queued(tasks', bag', t) - Queued(tasks, bag, t) else 0
    decreases n
  {
    if n > 0 { QueuedPrioChange(tasks, bag, tasks', bag', t, n - 1); }
  }

  // ---------------------------------------------------------------- single moves

  /** A loose task may change its own record freely. */
  lemma {:induction false} RetagLoose(tasks: map<Tid, Task>, bag: multiset<Elem>, wait: seq<Tid>, loose: set<Tid>, t: Tid, r: Task, n: nat)
    requires Partition(tasks, bag, wait, loose) && t in loose
    ensures Partition(tasks[t := r], bag, wait, loose)
    ensures QueuedPrio(tasks[t := r], bag, n) == QueuedPrio(tasks, bag, n)
  {
    assert Places(tasks, bag, wait, loose, t) == 1;
    assert forall e :: e in bag ==> e.payload != t;
    var tasks' := tasks[t := r];
    assert tasks'.Keys == tasks.Keys;
    forall u | u in tasks' ensures Places(tasks', bag, wait, loose, u) == 1 {
      assert Places(tasks, bag, wait, loose, u) == 1;
    }
    QueuedPrioChange(tasks, bag, tasks', bag, t, n);
  }

  /** A loose task goes into the heap. */
  lemma {:induction false} EnqueueLoose(tasks: map<Tid, Task>, bag: multiset<Elem>, wait: seq<Tid>, loose: set<Tid>, t: Tid, n: nat)
    requires Partition(tasks, bag, wait, loose) && t in loose && t < n
    ensures |bag| < CAPACITY && t != 0
    ensures Partition(tasks, bag + multiset{Entry(tasks, t)}, wait, loose - {t})
    ensures QueuedPrio(tasks, bag + multiset{Entry(tasks, t)}, n) == QueuedPrio(tasks, bag, n) + tasks[t].prio
  {
    assert Places(tasks, bag, wait, loose, t) == 1;
    var bag' := bag + multiset{Entry(tasks, t)};
    forall u | u in tasks ensures Places(tasks, bag', wait, loose - {t}, u) == 1 {
      assert Places(tasks, bag, wait, loose, u) == 1;
    }
    QueuedPrioChange(tasks, bag, tasks, bag', t, n);
  }

  /** A queued task comes out of the heap into hand. */
  lemma {:induction false} DequeueToLoose(tasks: map<Tid, Task>, bag: multiset<Elem>, wait: seq<Tid>, loose: set<Tid>, e: Elem, n: nat)
    requires Partition(tasks, bag, wait, loose) && e in bag && e.payload < n
    ensures e.payload in tasks && e.payload !in loose && e.payload !in wait
    ensures Partition(tasks, bag - multiset{e}, wait, loose + {e.payload})
    ensures QueuedPrio(tasks, bag - multiset{e}, n) == QueuedPrio(tasks, bag, n) - tasks[e.payload].prio
  {
    var t := e.payload;
    assert Places(tasks, bag, wait, loose, t) == 1;
    var bag' := bag - multiset{e};
    forall u | u in tasks ensures Places(tasks, bag', wait, loose + {t}, u) == 1 {
      assert Places(tasks, bag, wait, loose, u) == 1;
    }
    QueuedPrioChange(tasks, bag, tasks, bag', t, n);
  }

  /** A loose blocked task joins the wait list. */
  lemma {:induction false} ParkLoose(tasks: map<Tid, Task>, bag: multiset<Elem>, wait: seq<Tid>, loose: set<Tid>, t: Tid)
    requires Partition(tasks, bag, wait, loose) && t in loose && tasks[t].state == ST_BLOCKED
    ensures Partition(tasks, bag, [t] + wait, loose - {t})
  {
    assert Places(tasks, bag, wait, loose, t) == 1;
    assert multiset([t] + wait) == multiset{t} + multiset(wait);
    forall u | u in tasks ensures Places(tasks, bag, [t] + wait, loose - {t}, u) == 1 {
      assert Places(tasks, bag, wait, loose, u) == 1;
    }
  }

  lemma {:induction false} WithoutOne(s: seq<Tid>, i: nat)
    requires i < |s|
    ensures var s' := s[..i] + s[i + 1..];
      multiset(s) == multiset(s') + multiset{s[i]} && forall u :: u in s' ==> u in s
  {
    assert s == s[..i] + [s[i]] + s[i + 1..];
  }

  /** The task at index i leaves the wait list. */
  lemma {:induction false} UnparkToLoose(tasks: map<Tid, Task>, bag: multiset<Elem>, wait: seq<Tid>, loose: set<Tid>, i: nat)
    requires Partition(tasks, bag, wait, loose) && i < |wait|
    ensures wait[i] !in loose && wait[i] in tasks && tasks[wait[i]].state == ST_BLOCKED
    ensures Partition(tasks, bag, wait[..i] + wait[i + 1..], loose + {wait[i]})
  {
    var t := wait[i];
    var wait' := wait[..i] + wait[i + 1..];
    WithoutOne(wait, i);
    assert Places(tasks, bag, wait, loose, t) == 1;
    forall u | u in tasks ensures Places(tasks, bag, wait', loose + {t}, u) == 1 {
      assert Places(tasks, bag, wait, loose, u) == 1;
    }
  }

  // ---------------------------------------------------------------- the state and its steps

  datatype Rq = Rq(
    tasks: map<Tid, Task>, bag: multiset<Elem>, wait: seq<Tid>, active: Option<Tid>, iactive: bool,
    tick: nat, ntasks: int, nready: int, nblocked: int, rprio: int, lowest: int)

  function Clamp(k: int): Key {
    if k < INT_MIN then INT_MIN else if k > INT_MAX then INT_MAX else k
  }

  /** A task that uses nearly all its time: penalised when over its fair share, boosted when under. */
  function BatchAdjusted(k: Task, lowest: int, load: Load): Task {
    var k1 := match load.usage
      case Over => k.(timeslice := STS_BATCH, sprio := Clamp(lowest - 1))
      case Under => k.(sprio := Clamp((SP_BATCH + k.nice) * 11 / 10), timeslice := if load.share > STS_BATCH then load.share else STS_BATCH)
      case Fair => k;
    k1.(kind := Batch, prio := SP_BATCH + k.nice)
  }

  /** The new record of a task, the new low-water mark, and whether the task is penalised. */
  function Adjusted(k: Task, tick: nat, lowest: int, load: Load): (Task, int, bool) {
    if tick - k.birth < 20 then (k.(prio := SP_BASE + k.nice, sprio := Clamp(SP_BASE + k.nice)), lowest, false)
    else
      var bonus := k.nice + if k.state == ST_BLOCKED && k.kind == Batch then SPB_SLEEP else 0;
      if load.rtu <= 40 && k.totalRunning > STS_BASE then
        (k.(kind := Interactive, timeslice := STS_NORMAL, prio := SP_INTERACTIVE + bonus, sprio := Clamp(SP_INTERACTIVE + bonus)), lowest, false)
      else if load.rtu >= 90 then
        var k1 := BatchAdjusted(k, lowest, load);
        (k1, if k1.sprio < lowest then k1.sprio else lowest, load.usage.Over?)
      else (k.(timeslice := STS_BASE, prio := SP_BASE + bonus, sprio := Clamp(SP_BASE + bonus)), lowest, false)
  }

  predicate NeedsSettling(k: Task) { k.state & (ST_NEED_RESCHED | ST_BLOCKED) != 0 }

  /** Runtime settled, new priority, marked ready. */
  function MadeReady(k: Task, tick: nat, lowest: int, load: Load): (Task, int, bool) {
    var k1 := if NeedsSettling(k) then k.(totalRunning := k.totalRunning + k.execRt) else k;
    var (k2, l, p) := Adjusted(k1, tick, lowest, load);
    var k3 := if NeedsSettling(k) then k2.(totalAlloc := k2.totalAlloc + k2.timeslice, execRt := 0) else k2;
    (k3.(state := ST_READY), l, p)
  }

  /** Put task t back in line; with switchTask unset it may be left running. */
  function Schedule(q: Rq, t: Tid, switchTask: bool, load: Load): (r: (Rq, Status))
    requires t in q.tasks
    ensures r.0.tasks.Keys == q.tasks.Keys
  {
    if q.tasks[t].state == ST_READY then (q, StOk)
    else
      var q1 := Readied(q, t, load);
      if switchTask || MadeReady(q.tasks[t], q.tick, q.lowest, load).2 then (Enqueued(q1, t), StSwitch) else (q1, StOk)
  }

  /** Task t has its new record and is in hand. */
  function Readied(q: Rq, t: Tid, load: Load): Rq
    requires t in q.tasks
  {
    var (k, l, _) := MadeReady(q.tasks[t], q.tick, q.lowest, load);
    q.(tasks := q.tasks[t := k], lowest := l, nblocked := q.nblocked - if q.tasks[t].state == ST_BLOCKED then 1 else 0)
  }

  function Enqueued(q: Rq, t: Tid): Rq
    requires t in q.tasks
  {
    q.(rprio := q.rprio + q.tasks[t].prio, nready := q.nready + 1, bag := q.bag + multiset{Entry(q.tasks, t)})
  }

  /** Make the task behind heap element e the active one, after putting the old one back in line. */
  function SwitchTo(q: Rq, e: Elem, load: Load): (r: Rq)
    requires e.payload in q.tasks && (q.active.Some? ==> q.active.value in q.tasks)
    ensures r.tasks.Keys == q.tasks.Keys
  {
    Activated(PutBack(q.(bag := q.bag - multiset{e}), load), e.payload)
  }

  function PutBack(q: Rq, load: Load): (r: Rq)
    requires q.active.Some? ==> q.active.value in q.tasks
    ensures r.tasks.Keys == q.tasks.Keys
  {
    if q.active.Some? then Schedule(q, q.active.value, true, load).0 else q
  }

  /** Task t, out of the heap, becomes the active one. */
  function Activated(q: Rq, t: Tid): Rq
    requires t in q.tasks
  {
    var k := q.tasks[t];
    q.(active := Some(t), iactive := false, tasks := q.tasks[t := k.(state := ST_ACTIVE)],
       nready := q.nready - 1, rprio := q.rprio - k.prio)
  }

  function ToIdle(q: Rq): Rq { q.(active := None, iactive := true) }

  function Mark(q: Rq, t: Tid, flag: bv8): Rq
    requires t in q.tasks
  {
    q.(tasks := q.tasks[t := q.tasks[t].(state := q.tasks[t].state | flag)])
  }

  /** The whole of picking the next task. prio is the greatest key in the queue when the call starts,
      e the element taken if one is taken. */
  function Next(q: Rq, prio: Key, e: Elem, load: Load): (r: (Rq, bool))
    requires q.active.Some? ==> q.active.value in q.tasks
    requires e.payload in q.tasks || prio == INT_MIN
    ensures r.0.tasks.Keys == q.tasks.Keys
  {
    if q.active.None? then (Setup(q, prio, e, load), true)
    else
      var a := q.active.value;
      var k := q.tasks[a];
      if prio > k.sprio then (Setup(Mark(q, a, ST_PREEMPTED), prio, e, load), true)
      else if k.execRt < k.timeslice then (q, false)
      else if k.state & ST_NEED_RESCHED != 0 && prio < k.sprio then
        var (q1, st) := Schedule(q, a, false, load);
        if st == StOk then (q1, false) else (Setup(q1, prio, e, load), true)
      else (Setup(q, prio, e, load), true)
  }

  function Setup(q: Rq, prio: Key, e: Elem, load: Load): (r: Rq)
    requires q.active.Some? ==> q.active.value in q.tasks
    requires e.payload in q.tasks || prio == INT_MIN
    ensures r.tasks.Keys == q.tasks.Keys
  {
    if prio == INT_MIN then ToIdle(q) else SwitchTo(q, e, load)
  }

  /** A timer tick, and whether it asks for a switch. */
  function Ticked(q: Rq, prio: Key): (r: (Rq, bool))
    requires q.active.Some? ==> q.active.value in q.tasks
    ensures r.0.tasks.Keys == q.tasks.Keys
  {
    if q.active.None? then (q, !q.iactive || prio > INT_MIN)
    else
      var a := q.active.value;
      var q1 := Counted(q);
      var k := q1.tasks[a];
      if prio > k.sprio then (Mark(q1, a, ST_PREEMPTED), true)
      else if k.execRt >= k.timeslice then (Mark(q1, a, ST_NEED_RESCHED), true)
      else (q1, false)
  }

  /** A new task enters the queue. */
  function Admitted(q: Rq, t: Tid, nice: int): Rq {
    var p := SP_BASE + SPB_BIRTH + nice;
    var k := Task(Batch, ST_ACTIVE, p, Clamp(p), nice, STS_BASE, 0, 0, STS_BASE, q.tick);
    q.(tasks := q.tasks[t := k], lowest := if q.lowest > k.sprio then k.sprio else q.lowest, ntasks := q.ntasks + 1,
       nready := q.nready + 1, rprio := q.rprio + p, bag := q.bag + multiset{Elem(k.sprio, t)})
  }

  /** A queued task moves to the wait list. */
  function Blocked(q: Rq, t: Tid): Rq
    requires t in q.tasks
  {
    Parked(q.(bag := q.bag - multiset{Entry(q.tasks, t)}), t)
  }

  /** Task t is marked blocked and put on the wait list, one off the ready count. */
  function Parked(q: Rq, t: Tid): Rq
    requires t in q.tasks
  {
    var k := q.tasks[t];
    q.(nblocked := q.nblocked + 1, nready := q.nready - 1, rprio := q.rprio - k.prio,
       tasks := q.tasks[t := k.(state := ST_BLOCKED)], wait := [t] + q.wait)
  }

  /** The waiting task at index i goes back in line. */
  function Unblocked(q: Rq, i: nat, load: Load): Rq
    requires i < |q.wait| && q.wait[i] in q.tasks
  {
    Schedule(q.(wait := q.wait[..i] + q.wait[i + 1..]), q.wait[i], true, load).0
  }

  // ---------------------------------------------------------------- what every step keeps

  ghost predicate AllOk(tasks: map<Tid, Task>, tick: nat, lowest: int, bound: nat) {
    forall t :: t in tasks ==> t < bound && TaskOk(tasks[t], tick, lowest)
  }

  /** Tasks in place, with the given ones in hand. */
  ghost predicate InPlace(q: Rq, loose: set<Tid>, bound: nat) {
    && Partition(q.tasks, q.bag, q.wait, loose) && AllOk(q.tasks, q.tick, q.lowest, bound)
    && INT_MIN < q.lowest <= INT_MAX
  }

  /** What rprio and nready are ahead of the queue: zero at rest. */
  ghost function Debt(q: Rq, bound: nat): int { q.rprio - QueuedPrio(q.tasks, q.bag, bound) }
  ghost function Ahead(q: Rq): int { q.nready - |q.bag| }

  ghost function Holding(q: Rq): set<Tid> { if q.active.Some? then {q.active.value} else {} }

  ghost predicate CountersOk(q: Rq, bound: nat) {
    Ahead(q) == 0 && Debt(q, bound) == 0 && q.nblocked == |q.wait| && q.ntasks == |q.tasks|
  }

  predicate AtRest(k: Task) { k.state == ST_ACTIVE || k.state == ST_READY }

  /** At rest: every task is active, queued or waiting, exactly one of these, and the counters say so. */
  ghost predicate Good(q: Rq, bound: nat) {
    && InPlace(q, Holding(q), bound) && CountersOk(q, bound)
    && (q.active.Some? ==> AtRest(q.tasks[q.active.value]))
  }

  /** The low-water mark never rises, and below 1 it falls one at a time. */
  ghost predicate LowestStep(l: int, l': int) {
    l' <= l && (l' >= l - 1 || l' >= 1)
  }

  /** Everything but the priorities and the timeslice. */
  ghost predicate SameRun(t: Task, t': Task) {
    && t'.state == t.state && t'.nice == t.nice && t'.execRt == t.execRt && t'.birth == t.birth
    && t'.totalRunning == t.totalRunning && t'.totalAlloc == t.totalAlloc
  }

  lemma {:induction false} AdjustedOk(k: Task, tick: nat, lowest: int, load: Load)
    requires FieldsOk(k, tick, lowest) && INT_MIN + 1 < lowest
    ensures var (k', l, p) := Adjusted(k, tick, lowest, load);
      && FieldsOk(k', tick, l) && k'.prio > 0 && LowestStep(lowest, l) && SameRun(k, k')
      && (p ==> k'.sprio == l == lowest - 1)
      && (tick - k.birth < 20 ==> !p && k'.sprio == SP_BASE + k.nice)
  {
  }

  /** How use decides rank: of one grown task, classed interactive, undecided, or batch and short of its
      share, the first outranks the second and the second the third, and slices grow the other way. */
  lemma {:induction false} InteractiveOutranks(k: Task, tick: nat, lowest: int, low: Load, mid: Load, high: Load)
    requires TaskOk(k, tick, lowest) && tick - k.birth >= 20 && k.totalRunning > STS_BASE
    requires low.rtu <= 40 < mid.rtu < 90 <= high.rtu && high.usage == Under
    ensures var (a, b, c) := (Adjusted(k, tick, lowest, low).0, Adjusted(k, tick, lowest, mid).0, Adjusted(k, tick, lowest, high).0);
      && a.sprio > b.sprio > c.sprio && a.prio > b.prio > c.prio
      && a.timeslice < b.timeslice < c.timeslice
      && a.kind == Interactive && b.kind == k.kind && c.kind == Batch
  {
  }

  /** What a task is worth from now on, in numbers: k is its record before and k' after, reward what it
      gets for having slept. Of a grown task the class depends on its use: up to 40 percent interactive,
      90 and more batch, in between undecided. */
  ghost predicate Ranked(k: Task, k': Task, tick: nat, lowest: int, lowest': int, load: Load, reward: int) {
    && (tick - k.birth < 20 ==> Worth(k', k.kind, 7 + k.nice, k.timeslice))
    && (tick - k.birth >= 20 && load.rtu <= 40 && k'.totalRunning > 10 ==> Worth(k', Interactive, 10 + k.nice + reward, 5))
    && (tick - k.birth >= 20 && load.rtu <= 40 && k'.totalRunning <= 10 ==> Worth(k', k.kind, 7 + k.nice + reward, 10))
    && (tick - k.birth >= 20 && 40 < load.rtu < 90 ==> Worth(k', k.kind, 7 + k.nice + reward, 10))
    && (tick - k.birth >= 20 && load.rtu >= 90 ==> RankedBatch(k, k', lowest, load))
    && lowest' == (if tick - k.birth >= 20 && load.rtu >= 90 && k'.sprio < lowest then k'.sprio else lowest)
  }

  ghost predicate Worth(k: Task, kind: TaskType, prio: int, timeslice: nat) {
    k.kind == kind && k.prio == prio && k.sprio == prio && k.timeslice == timeslice
  }

  /** Over its share a batch task goes to the bottom of the queue; short of it, it gets what it is short of
      as its slice, unless 15 ticks are more. */
  ghost predicate RankedBatch(k: Task, k': Task, lowest: int, load: Load) {
    && k'.kind == Batch && k'.prio == 5 + k.nice
    && (load.usage == Over ==> k'.sprio == lowest - 1 && k'.timeslice == 15)
    && (load.usage == Under ==> k'.sprio == 5 + k.nice && k'.timeslice >= 15 && k'.timeslice >= load.share)
    && (load.usage == Under ==> k'.timeslice == 15 || k'.timeslice == load.share)
    && (load.usage == Fair ==> k'.sprio == k.sprio && k'.timeslice == k.timeslice)
  }

  lemma {:induction false} AdjustedInNumbers(k: Task, tick: nat, lowest: int, load: Load)
    requires FieldsOk(k, tick, lowest) && INT_MIN + 1 < lowest
    ensures var (k', l, p) := Adjusted(k, tick, lowest, load);
      && Ranked(k, k', tick, lowest, l, load, if k.state == 8 && k.kind == Batch then 3 else 0) && SameRun(k, k')
      && (p <==> tick - k.birth >= 20 && load.rtu >= 90 && load.usage == Over)
  {
  }

  /** The reward for sleeping: of two grown tasks that differ only in one having slept, short of the use of a
      batch task, the sleeper ends up exactly 3 ahead if it is a batch task and level if it is interactive. */
  lemma {:induction false} SleepIsRewarded(k: Task, asleep: Task, tick: nat, lowest: int, load: Load)
    requires FieldsOk(k, tick, lowest) && INT_MIN + 1 < lowest && tick - k.birth >= 20 && load.rtu < 90
    requires k.state == ST_ACTIVE && asleep == k.(state := ST_BLOCKED)
    ensures var (a, b) := (Adjusted(k, tick, lowest, load).0, Adjusted(asleep, tick, lowest, load).0);
      && b.prio == a.prio + (if k.kind == Batch then 3 else 0) && b.sprio == a.sprio + (if k.kind == Batch then 3 else 0)
      && b.kind == a.kind && b.timeslice == a.timeslice
  {
    AdjustedInNumbers(k, tick, lowest, load);
    AdjustedInNumbers(asleep, tick, lowest, load);
  }

  /** The record of a task that slept or used up its slice when it is ready again, in numbers. */
  ghost predicate FreshSlice(k: Task, k': Task, tick: nat, lowest: int, lowest': int, load: Load, reward: int) {
    && Ranked(k, k', tick, lowest, lowest', load, reward)
    && k'.state == 4 && k'.execRt == 0 && k'.totalRunning == k.totalRunning + k.execRt
    && k'.totalAlloc == k.totalAlloc + k'.timeslice && k'.birth == k.birth && k'.nice == k.nice
  }

  /** A preempted task is ranked anew as well, but goes on with the slice it has. */
  ghost predicate SameSlice(k: Task, k': Task, tick: nat, lowest: int, lowest': int, load: Load) {
    && Ranked(k, k', tick, lowest, lowest', load, 0)
    && k'.state == 4 && k'.execRt == k.execRt && k'.totalRunning == k.totalRunning
    && k'.totalAlloc == k.totalAlloc && k'.birth == k.birth && k'.nice == k.nice
  }

  lemma {:induction false} MadeReadyInNumbers(k: Task, tick: nat, lowest: int, load: Load)
    requires TaskOk(k, tick, lowest) && INT_MIN + 1 < lowest
    ensures var (k', l, p) := MadeReady(k, tick, lowest, load);
      && (k.state & 24 != 0 ==> FreshSlice(k, k', tick, lowest, l, load, if k.state == 8 && k.kind == Batch then 3 else 0))
      && (k.state & 24 == 0 ==> SameSlice(k, k', tick, lowest, l, load))
      && (p <==> tick - k.birth >= 20 && load.rtu >= 90 && load.usage == Over)
  {
    var settled := k.state & 24 != 0;
    assert settled == NeedsSettling(k);
    AdjustedInNumbers(if settled then k.(totalRunning := k.totalRunning + k.execRt) else k, tick, lowest, load);
  }

  /** What waking makes of a record. */
  ghost predicate Woken(k: Task, k': Task, tick: nat, lowest: int, lowest': int, load: Load) {
    FreshSlice(k, k', tick, lowest, lowest', load, if k.kind == Batch then 3 else 0)
  }

  lemma {:induction false} UnblockedInNumbers(q: Rq, i: nat, load: Load, bound: nat)
    requires Good(q, bound) && i < |q.wait| && INT_MIN + 1 < q.lowest
    ensures q.wait[i] in q.tasks
    ensures var (q', t) := (Unblocked(q, i, load), q.wait[i]);
      q'.tasks == q.tasks[t := q'.tasks[t]] && Woken(q.tasks[t], q'.tasks[t], q.tick, q.lowest, q'.lowest, load)
  {
    WaitingCanRun(q, i, bound);
    assert ST_BLOCKED & 24 != 0;
    MadeReadyInNumbers(q.tasks[q.wait[i]], q.tick, q.lowest, load);
  }

  /** What admission makes of a task, in numbers. */
  lemma {:induction false} AdmittedInNumbers(q: Rq, t: Tid, nice: int)
    requires -4 <= nice <= 4
    ensures var q' := Admitted(q, t, nice);
      && q'.tasks == q.tasks[t := Task(Batch, 2, 9 + nice, 9 + nice, nice, 10, 0, 0, 10, q.tick)]
      && q'.bag == q.bag + multiset{Elem(9 + nice, t)} && q'.lowest <= q.lowest && q'.lowest <= 9 + nice
      && (q'.lowest == q.lowest || q'.lowest == 9 + nice)
  {
  }

  /** A task that used up its slice or slept starts a fresh slice, its ticks booked; a preempted one goes
      on where it left off. */
  lemma {:induction false} SliceSettled(k: Task, tick: nat, lowest: int, load: Load)
    ensures var k' := MadeReady(k, tick, lowest, load).0;
      && k'.totalRunning + k'.execRt == k.totalRunning + k.execRt && k'.state == ST_READY
      && (k.state & 24 != 0 ==> k'.execRt == 0 && k'.totalAlloc == k.totalAlloc + k'.timeslice)
      && (k.state & 24 == 0 ==> k'.execRt == k.execRt && k'.totalAlloc == k.totalAlloc)
  {
  }

  lemma {:induction false} MadeReadyOk(k: Task, tick: nat, lowest: int, load: Load)
    requires TaskOk(k, tick, lowest) && INT_MIN + 1 < lowest
    ensures var (k', l, p) := MadeReady(k, tick, lowest, load);
      && TaskOk(k', tick, l) && LowestStep(lowest, l) && k'.state == ST_READY
      && (NeedsSettling(k) ==> k'.execRt == 0)
  {
    AdjustedOk(if NeedsSettling(k) then k.(totalRunning := k.totalRunning + k.execRt) else k, tick, lowest, load);
  }

  /** A new record for one task, under a low-water mark that has only moved down. */
  lemma {:induction false} AllOkUpdate(tasks: map<Tid, Task>, tick: nat, tick': nat, lowest: int, lowest': int, bound: nat, t: Tid, k: Task)
    requires AllOk(tasks, tick, lowest, bound) && t < bound && TaskOk(k, tick', lowest') && lowest' <= lowest && tick <= tick'
    ensures AllOk(tasks[t := k], tick', lowest', bound)
  {
  }

  /** A task in hand may get a new record at any later tick; nothing moves. */
  lemma {:induction false} RecordOk(q: Rq, t: Tid, k: Task, tick: nat, loose: set<Tid>, bound: nat)
    requires InPlace(q, loose, bound) && t in loose && TaskOk(k, tick, q.lowest) && q.tick <= tick
    ensures var q' := q.(tick := tick, tasks := q.tasks[t := k]);
      InPlace(q', loose, bound) && Debt(q', bound) == Debt(q, bound) && Ahead(q') == Ahead(q) && q'.tasks.Keys == q.tasks.Keys
  {
    RetagLoose(q.tasks, q.bag, q.wait, loose, t, k, bound);
    AllOkUpdate(q.tasks, q.tick, tick, q.lowest, q.lowest, bound, t, k);
  }

  lemma {:induction false} ReadiedOk(q: Rq, t: Tid, load: Load, loose: set<Tid>, bound: nat)
    requires InPlace(q, loose, bound) && t in loose && INT_MIN + 1 < q.lowest
    ensures var q' := Readied(q, t, load);
      && InPlace(q', loose, bound) && Debt(q', bound) == Debt(q, bound) && Ahead(q') == Ahead(q)
      && LowestStep(q.lowest, q'.lowest) && q'.tasks == q.tasks[t := q'.tasks[t]] && q'.tasks[t].state == ST_READY
  {
    var (k, l, _) := MadeReady(q.tasks[t], q.tick, q.lowest, load);
    MadeReadyOk(q.tasks[t], q.tick, q.lowest, load);
    RetagLoose(q.tasks, q.bag, q.wait, loose, t, k, bound);
    AllOkUpdate(q.tasks, q.tick, q.tick, q.lowest, l, bound, t, k);
  }

  lemma {:induction false} EnqueuedOk(q: Rq, t: Tid, loose: set<Tid>, bound: nat)
    requires InPlace(q, loose, bound) && t in loose
    ensures var q' := Enqueued(q, t);
      InPlace(q', loose - {t}, bound) && Debt(q', bound) == Debt(q, bound) && Ahead(q') == Ahead(q)
  {
    EnqueueLoose(q.tasks, q.bag, q.wait, loose, t, bound);
  }

  /** Putting a task in hand back in line moves it to the heap or leaves it in hand, and the
      counters move with it. */
  lemma {:induction false} ScheduleOk(q: Rq, t: Tid, switchTask: bool, load: Load, loose: set<Tid>, bound: nat)
    requires InPlace(q, loose, bound) && t in loose && q.tasks[t].state != ST_READY && INT_MIN + 1 < q.lowest
    ensures var (q', st) := Schedule(q, t, switchTask, load);
      && InPlace(q', if st == StSwitch then loose - {t} else loose, bound)
      && Debt(q', bound) == Debt(q, bound) && Ahead(q') == Ahead(q) && LowestStep(q.lowest, q'.lowest)
      && q'.tasks == q.tasks[t := q'.tasks[t]] && q'.tasks[t].state == ST_READY && (switchTask ==> st == StSwitch)
      && q'.tasks.Keys == q.tasks.Keys
  {
    ReadiedOk(q, t, load, loose, bound);
    EnqueuedOk(Readied(q, t, load), t, loose, bound);
  }

  /** The active task is either still in hand, or already back in line and marked ready. */
  ghost predicate ActiveSettled(q: Rq, loose: set<Tid>) {
    q.active.Some? ==>
      var a := q.active.value;
      a in q.tasks && if a in loose then q.tasks[a].state != ST_READY else q.tasks[a].state == ST_READY
  }

  /** In the middle of a switch: task t is out of the heap and the counters do not know yet. */
  ghost predicate Popped(q: Rq, t: Tid, loose: set<Tid>, bound: nat) {
    && InPlace(q, loose, bound) && t in loose
    && Debt(q, bound) == q.tasks[t].prio && Ahead(q) == 1 && q.nblocked == |q.wait| && q.ntasks == |q.tasks|
  }

  lemma {:induction false} PopOk(q: Rq, e: Elem, loose: set<Tid>, bound: nat)
    requires InPlace(q, loose, bound) && CountersOk(q, bound) && e in q.bag
    ensures e.payload in q.tasks && e.payload !in loose
    ensures Popped(q.(bag := q.bag - multiset{e}), e.payload, loose + {e.payload}, bound)
  {
    DequeueToLoose(q.tasks, q.bag, q.wait, loose, e, bound);
  }

  lemma {:induction false} RequeueOk(q: Rq, a: Tid, t: Tid, load: Load, bound: nat)
    requires Popped(q, t, {a, t}, bound) && a != t && q.tasks[a].state != ST_READY && q.tasks[a].state != ST_BLOCKED
    requires INT_MIN + 1 < q.lowest
    ensures var q' := Schedule(q, a, true, load).0; Popped(q', t, {t}, bound) && LowestStep(q.lowest, q'.lowest)
  {
    ScheduleOk(q, a, true, load, {a, t}, bound);
    assert {a, t} - {a} == {t};
    var q' := Schedule(q, a, true, load).0;
    assert q'.tasks.Keys == q.tasks.Keys;
  }

  /** A switch keeps every task in one place, whichever way the old one went. */
  lemma {:induction false} SwitchToOk(q: Rq, e: Elem, load: Load, loose: set<Tid>, bound: nat)
    requires InPlace(q, loose, bound) && CountersOk(q, bound) && e in q.bag
    requires loose <= Holding(q) && ActiveSettled(q, loose)
    requires loose != {} ==> q.tasks[q.active.value].state != ST_BLOCKED && INT_MIN + 1 < q.lowest
    ensures e.payload in q.tasks
    ensures var q' := SwitchTo(q, e, load);
      Good(q', bound) && LowestStep(q.lowest, q'.lowest) && (loose == {} ==> q'.lowest == q.lowest)
  {
    var t := e.payload;
    PopOk(q, e, loose, bound);
    var q1 := q.(bag := q.bag - multiset{e});
    if q.active.Some? && q.active.value in loose {
      assert loose + {t} == {q.active.value, t};
      RequeueOk(q1, q.active.value, t, load, bound);
      ActivateOk(Schedule(q1, q.active.value, true, load).0, t, bound);
    } else {
      assert loose == {} && loose + {t} == {t};
      ActivateOk(q1, t, bound);
    }
  }

  lemma {:induction false} ActivateOk(q: Rq, t: Tid, bound: nat)
    requires Popped(q, t, {t}, bound)
    ensures Good(Activated(q, t), bound) && Activated(q, t).lowest == q.lowest
  {
    var k := q.tasks[t].(state := ST_ACTIVE);
    RecordOk(q, t, k, q.tick, {t}, bound);
  }

  /** Setting a flag on the active task moves nothing. */
  lemma {:induction false} MarkOk(q: Rq, flag: bv8, bound: nat)
    requires InPlace(q, Holding(q), bound) && CountersOk(q, bound) && q.active.Some?
    ensures q.active.value in q.tasks
    ensures var q' := Mark(q, q.active.value, flag); InPlace(q', Holding(q'), bound) && CountersOk(q', bound)
  {
    var a := q.active.value;
    var k := q.tasks[a].(state := q.tasks[a].state | flag);
    RecordOk(q, a, k, q.tick, {a}, bound);
  }

  // ---------------------------------------------------------------- picking the next task

  /** The queue as it is when an element is taken from it. */
  function BagAtSwitch(q: Rq, prio: Key, load: Load): multiset<Elem>
    requires q.active.Some? ==> q.active.value in q.tasks
  {
    if q.active.None? then q.bag
    else
      var k := q.tasks[q.active.value];
      if prio <= k.sprio && k.execRt >= k.timeslice && k.state & ST_NEED_RESCHED != 0 && prio < k.sprio
      then Schedule(q, q.active.value, false, load).0.bag
      else q.bag
  }

  ghost predicate IsMax(e: Elem, bag: multiset<Elem>) {
    e in bag && forall x :: x in bag ==> x.key <= e.key
  }

  /** prio is what peeking at the queue returns. */
  ghost predicate IsPeek(prio: Key, bag: multiset<Elem>) {
    if bag == multiset{} then prio == INT_MIN
    else (exists e :: e in bag && e.key == prio) && forall e :: e in bag ==> e.key <= prio
  }

  /** Asked without a tick having flagged it, the scheduler drops a task whose timeslice is used up when
      nothing else is queued, or when the state word says it is in line although it is running. */
  ghost predicate DropsActive(q: Rq, prio: Key) {
    q.active.Some? && q.active.value in q.tasks &&
      var k := q.tasks[q.active.value];
      prio <= k.sprio && k.execRt >= k.timeslice && k.state & ST_NEED_RESCHED == 0 && (prio == INT_MIN || k.state == ST_READY)
  }

  ghost predicate Running(q: Rq, bound: nat) {
    && InPlace(q, Holding(q), bound) && CountersOk(q, bound)
    && (q.active.Some? ==> q.tasks[q.active.value].state & ST_BLOCKED == 0)
  }

  // The ways through picking a task while one is active.

  lemma {:induction false} NextBeaten(q: Rq, prio: Key, e: Elem, load: Load)
    requires q.active.Some? && q.active.value in q.tasks && e.payload in q.tasks && prio > q.tasks[q.active.value].sprio
    ensures Next(q, prio, e, load) == (Setup(Mark(q, q.active.value, ST_PREEMPTED), prio, e, load), true)
    ensures BagAtSwitch(q, prio, load) == q.bag
  {
  }

  lemma {:induction false} NextInTime(q: Rq, prio: Key, e: Elem, load: Load)
    requires q.active.Some? && q.active.value in q.tasks && (e.payload in q.tasks || prio == INT_MIN)
    requires var k := q.tasks[q.active.value]; prio <= k.sprio && k.execRt < k.timeslice
    ensures Next(q, prio, e, load) == (q, false) && BagAtSwitch(q, prio, load) == q.bag
  {
  }

  lemma {:induction false} NextFlagged(q: Rq, prio: Key, e: Elem, load: Load)
    requires q.active.Some? && q.active.value in q.tasks && (e.payload in q.tasks || prio == INT_MIN)
    requires var k := q.tasks[q.active.value]; prio < k.sprio && k.execRt >= k.timeslice && k.state & ST_NEED_RESCHED != 0
    ensures var (q1, st) := Schedule(q, q.active.value, false, load);
      && q1.active == q.active && BagAtSwitch(q, prio, load) == q1.bag
      && Next(q, prio, e, load) == if st == StOk then (q1, false) else (Setup(q1, prio, e, load), true)
  {
  }

  lemma {:induction false} NextUsedUp(q: Rq, prio: Key, e: Elem, load: Load)
    requires q.active.Some? && q.active.value in q.tasks && (e.payload in q.tasks || prio == INT_MIN)
    requires var k := q.tasks[q.active.value];
      prio <= k.sprio && k.execRt >= k.timeslice && (k.state & ST_NEED_RESCHED == 0 || prio == k.sprio)
    ensures Next(q, prio, e, load) == (Setup(q, prio, e, load), true) && BagAtSwitch(q, prio, load) == q.bag
  {
  }

  /** What picking the next task leaves behind, when it does not drop the active one. */
  lemma {:induction false} NextOk(q: Rq, prio: Key, e: Elem, load: Load, bound: nat)
    requires Running(q, bound) && IsPeek(prio, q.bag) && INT_MIN + 1 < q.lowest && !DropsActive(q, prio)
    requires prio != INT_MIN ==> IsMax(e, BagAtSwitch(q, prio, load))
    ensures e.payload in q.tasks || prio == INT_MIN
    ensures var (q', switched) := Next(q, prio, e, load);
      && ((!switched && q' == q) || Good(q', bound))
      && LowestStep(q.lowest, q'.lowest) && (!switched ==> q'.active == q.active)
  {
    if q.active.None? {
      SetupOk(q, prio, e, load, {}, bound);
    } else {
      var k := q.tasks[q.active.value];
      if prio > k.sprio {
        PreemptOk(q, prio, e, load, bound);
      } else if k.execRt >= k.timeslice {
        if k.state & ST_NEED_RESCHED != 0 && prio < k.sprio {
          RescheduleOk(q, prio, e, load, bound);
        } else {
          assert k.state != ST_READY && k.state != ST_BLOCKED;
          SetupOk(q, prio, e, load, {q.active.value}, bound);
        }
      }
    }
  }

  lemma {:induction false} PreemptOk(q: Rq, prio: Key, e: Elem, load: Load, bound: nat)
    requires Running(q, bound) && INT_MIN + 1 < q.lowest && q.active.Some? && prio > q.tasks[q.active.value].sprio
    requires e in q.bag
    ensures e.payload in q.tasks && Good(Setup(Mark(q, q.active.value, ST_PREEMPTED), prio, e, load), bound)
    ensures LowestStep(q.lowest, Setup(Mark(q, q.active.value, ST_PREEMPTED), prio, e, load).lowest)
  {
    var a := q.active.value;
    MarkOk(q, ST_PREEMPTED, bound);
    assert q.tasks[a].state | ST_PREEMPTED != ST_READY && q.tasks[a].state | ST_PREEMPTED != ST_BLOCKED;
    SetupOk(Mark(q, a, ST_PREEMPTED), prio, e, load, {a}, bound);
  }

  lemma {:induction false} RescheduleOk(q: Rq, prio: Key, e: Elem, load: Load, bound: nat)
    requires Running(q, bound) && INT_MIN + 1 < q.lowest && q.active.Some?
    requires q.tasks[q.active.value].state & ST_NEED_RESCHED != 0
    requires prio != INT_MIN ==> e in Schedule(q, q.active.value, false, load).0.bag
    ensures var (q1, st) := Schedule(q, q.active.value, false, load);
      && (e.payload in q.tasks || prio == INT_MIN) && q1.tasks.Keys == q.tasks.Keys
      && (st == StOk ==> Good(q1, bound) && LowestStep(q.lowest, q1.lowest) && q1.active == q.active)
      && (st != StOk ==> Good(Setup(q1, prio, e, load), bound) && LowestStep(q.lowest, Setup(q1, prio, e, load).lowest))
  {
    var (q1, st) := Schedule(q, q.active.value, false, load);
    if st == StOk {
      RescheduleRunsOn(q, load, bound);
    } else {
      RescheduleRequeues(q, load, bound);
      SetupOk(q1, prio, e, load, {}, bound);
    }
  }

  lemma {:induction false} SetupOk(q: Rq, prio: Key, e: Elem, load: Load, loose: set<Tid>, bound: nat)
    requires InPlace(q, loose, bound) && CountersOk(q, bound)
    requires loose <= Holding(q) && ActiveSettled(q, loose)
    requires loose != {} ==> q.tasks[q.active.value].state != ST_BLOCKED && INT_MIN + 1 < q.lowest && prio != INT_MIN
    requires prio != INT_MIN ==> e in q.bag
    ensures e.payload in q.tasks || prio == INT_MIN
    ensures var q' := Setup(q, prio, e, load);
      Good(q', bound) && LowestStep(q.lowest, q'.lowest) && (loose == {} ==> q'.lowest == q.lowest)
  {
    if prio != INT_MIN { SwitchToOk(q, e, load, loose, bound); }
  }

  /** The path on which the active task runs on. */
  lemma {:induction false} RescheduleRunsOn(q: Rq, load: Load, bound: nat)
    requires Running(q, bound) && INT_MIN + 1 < q.lowest && q.active.Some?
    requires q.tasks[q.active.value].state & ST_NEED_RESCHED != 0
    requires Schedule(q, q.active.value, false, load).1 == StOk
    ensures var q1 := Schedule(q, q.active.value, false, load).0; Good(q1, bound) && LowestStep(q.lowest, q1.lowest)
  {
    var a := q.active.value;
    assert q.tasks[a].state != ST_READY && q.tasks[a].state != ST_BLOCKED;
    ScheduleOk(q, a, false, load, {a}, bound);
  }

  /** The path on which the active task is already back in line when a task is taken. */
  lemma {:induction false} RescheduleRequeues(q: Rq, load: Load, bound: nat)
    requires Running(q, bound) && INT_MIN + 1 < q.lowest && q.active.Some?
    requires q.tasks[q.active.value].state & ST_NEED_RESCHED != 0
    requires Schedule(q, q.active.value, false, load).1 == StSwitch
    ensures var q1 := Schedule(q, q.active.value, false, load).0;
      && InPlace(q1, {}, bound) && CountersOk(q1, bound) && ActiveSettled(q1, {}) && LowestStep(q.lowest, q1.lowest)
      && q1.tasks.Keys == q.tasks.Keys
  {
    var a := q.active.value;
    assert q.tasks[a].state != ST_READY && q.tasks[a].state != ST_BLOCKED;
    ScheduleOk(q, a, false, load, {a}, bound);
    assert {a} - {a} == {};
  }

  /** Exactly then the active task is in no place afterwards: not active, not queued, not waiting. */
  lemma {:induction false} NextDropsActive(q: Rq, prio: Key, e: Elem, load: Load, bound: nat)
    requires Running(q, bound) && DropsActive(q, prio)
    requires prio != INT_MIN ==> e in q.bag
    ensures e.payload in q.tasks || prio == INT_MIN
    ensures var (q', a) := (Next(q, prio, e, load).0, q.active.value);
      && a in q'.tasks && q'.active != Some(a) && a !in q'.wait && forall x :: x in q'.bag ==> x.payload != a
  {
    var a := q.active.value;
    assert Places(q.tasks, q.bag, q.wait, {a}, a) == 1;
    assert forall x :: x in q.bag ==> x.payload != a;
  }

  // ---------------------------------------------------------------- the other steps

  /** The tick itself: one more tick, one more tick of the active task's slice. */
  function Counted(q: Rq): Rq
    requires q.active.Some? && q.active.value in q.tasks
  {
    var a := q.active.value;
    q.(tick := q.tick + 1, tasks := q.tasks[a := q.tasks[a].(execRt := q.tasks[a].execRt + 1)])
  }

  lemma {:induction false} CountedOk(q: Rq, bound: nat)
    requires Good(q, bound) && q.active.Some?
    ensures Good(Counted(q), bound)
  {
    var a := q.active.value;
    var k := q.tasks[a].(execRt := q.tasks[a].execRt + 1);
    RecordOk(q, a, k, q.tick + 1, Holding(q), bound);
    assert Counted(q) == q.(tick := q.tick + 1, tasks := q.tasks[a := k]) && Holding(Counted(q)) == Holding(q);
  }

  lemma {:induction false} TickedSame(q: Rq, prio: Key)
    requires q.active.Some? ==> q.active.value in q.tasks
    ensures var q1 := Ticked(q, prio).0; q1.bag == q.bag && q1.lowest == q.lowest && q1.active == q.active
  {
  }

  /** A tick that asks for nothing leaves the queue at rest. */
  lemma {:induction false} TickedRests(q: Rq, prio: Key, bound: nat)
    requires Good(q, bound) && !Ticked(q, prio).1
    ensures Good(Ticked(q, prio).0, bound)
  {
    if q.active.Some? { CountedOk(q, bound); }
  }

  /** A tick that asks for a switch has set the flag without which the active task would be dropped. */
  lemma {:induction false} TickedAsks(q: Rq, prio: Key, bound: nat)
    requires Good(q, bound) && Ticked(q, prio).1
    ensures Running(Ticked(q, prio).0, bound) && !DropsActive(Ticked(q, prio).0, prio)
  {
    if q.active.Some? {
      CountedOk(q, bound);
      FlaggedOk(Counted(q), if prio > Counted(q).tasks[q.active.value].sprio then ST_PREEMPTED else ST_NEED_RESCHED, bound);
    }
  }

  lemma {:induction false} FlaggedOk(q: Rq, flag: bv8, bound: nat)
    requires Good(q, bound) && q.active.Some? && (flag == ST_PREEMPTED || flag == ST_NEED_RESCHED)
    ensures q.active.value in q.tasks && Running(Mark(q, q.active.value, flag), bound)
    ensures Mark(q, q.active.value, flag).tasks[q.active.value].state & flag != 0
  {
    MarkOk(q, flag, bound);
  }

  /** A timer interrupt: a tick, and the switch it asks for. */
  function Timer(q: Rq, prio: Key, e: Elem, load: Load): (r: (Rq, bool))
    requires q.active.Some? ==> q.active.value in q.tasks
    requires e.payload in q.tasks || prio == INT_MIN
    ensures r.0.tasks.Keys == q.tasks.Keys
  {
    var (q1, switch_) := Ticked(q, prio);
    if switch_ then Next(q1, prio, e, load) else (q1, false)
  }

  /** Timer interrupts lose no task and duplicate none, whatever the heuristics say. */
  lemma {:induction false} TimerOk(q: Rq, prio: Key, e: Elem, load: Load, bound: nat)
    requires Good(q, bound) && IsPeek(prio, q.bag) && INT_MIN + 1 < q.lowest
    requires Ticked(q, prio).1 && prio != INT_MIN ==> IsMax(e, BagAtSwitch(Ticked(q, prio).0, prio, load))
    requires e.payload in q.tasks || prio == INT_MIN
    ensures Good(Timer(q, prio, e, load).0, bound) && LowestStep(q.lowest, Timer(q, prio, e, load).0.lowest)
  {
    var (q1, switch_) := Ticked(q, prio);
    TickedSame(q, prio);
    if switch_ {
      TickedAsks(q, prio, bound);
      NextOk(q1, prio, e, load, bound);
      SwitchIsTaken(q, prio, e, load);
      var q2 := Next(q1, prio, e, load).0;
      assert Good(q2, bound) && Timer(q, prio, e, load).0 == q2;
    } else {
      TickedRests(q, prio, bound);
    }
  }

  /** After a tick that asks for a switch, the active task is not simply kept as it is. */
  lemma {:induction false} SwitchIsTaken(q: Rq, prio: Key, e: Elem, load: Load)
    requires q.active.Some? ==> q.active.value in q.tasks
    requires Ticked(q, prio).1 && (e.payload in q.tasks || prio == INT_MIN)
    ensures var (q1, q2) := (Ticked(q, prio).0, Next(Ticked(q, prio).0, prio, e, load)); q2.1 || q2.0 != q1
  {
    if q.active.Some? {
      var q1 := Ticked(q, prio).0;
      var k := q1.tasks[q.active.value];
      if k.state & ST_NEED_RESCHED != 0 && prio < k.sprio {
        assert k.state != ST_READY;
      }
    }
  }

  lemma {:induction false} AdmittedOk(q: Rq, t: Tid, nice: int, bound: nat)
    requires Good(q, bound) && t != 0 && t !in q.tasks && -4 <= nice <= 4 && |q.tasks| < CAPACITY
    ensures Good(Admitted(q, t, nice), if t < bound then bound else t + 1) && LowestStep(q.lowest, Admitted(q, t, nice).lowest)
  {
    var q' := Admitted(q, t, nice);
    var b' := if t < bound then bound else t + 1;
    AdmitPartition(q.tasks, q.bag, q.wait, Holding(q), t, q'.tasks[t]);
    AdmitAllOk(q, t, nice, bound, b');
    QueuedPrioExtend(q.tasks, q.bag, bound, b');
    QueuedPrioChange(q.tasks, q.bag, q'.tasks, q'.bag, t, b');
  }

  lemma {:induction false} AdmitAllOk(q: Rq, t: Tid, nice: int, bound: nat, bound': nat)
    requires AllOk(q.tasks, q.tick, q.lowest, bound) && -4 <= nice <= 4 && bound <= bound' && t < bound' && INT_MIN < q.lowest
    ensures var q' := Admitted(q, t, nice);
      AllOk(q'.tasks, q'.tick, q'.lowest, bound') && LowestStep(q.lowest, q'.lowest) && INT_MIN < q'.lowest
  {
  }

  lemma {:induction false} AdmitPartition(tasks: map<Tid, Task>, bag: multiset<Elem>, wait: seq<Tid>, loose: set<Tid>, t: Tid, k: Task)
    requires Partition(tasks, bag, wait, loose) && t != 0 && t !in tasks && |tasks| < CAPACITY
    ensures Partition(tasks[t := k], bag + multiset{Elem(k.sprio, t)}, wait, loose) && |tasks[t := k]| == |tasks| + 1
    ensures forall u: nat :: u != t ==> Queued(tasks[t := k], bag + multiset{Elem(k.sprio, t)}, u) == Queued(tasks, bag, u)
    ensures Queued(tasks, bag, t) == 0 && Queued(tasks[t := k], bag + multiset{Elem(k.sprio, t)}, t) == k.prio
  {
    var tasks' := tasks[t := k];
    var bag' := bag + multiset{Elem(k.sprio, t)};
    assert forall x :: x in bag ==> x.payload != t;
    assert tasks'.Keys == tasks.Keys + {t};
    forall u | u in tasks' ensures Places(tasks', bag', wait, loose, u) == 1 {
      if u != t { assert Places(tasks, bag, wait, loose, u) == 1; }
    }
  }

  lemma {:induction false} QueuedPrioExtend(tasks: map<Tid, Task>, bag: multiset<Elem>, n: nat, m: nat)
    requires n <= m && forall t :: t in tasks ==> t < n
    ensures QueuedPrio(tasks, bag, m) == QueuedPrio(tasks, bag, n)
    decreases m
  {
    if n < m { QueuedPrioExtend(tasks, bag, n, m - 1); }
  }

  lemma {:induction false} BlockedOk(q: Rq, t: Tid, bound: nat)
    requires Good(q, bound) && t in q.tasks && Entry(q.tasks, t) in q.bag
    ensures Good(Blocked(q, t), bound)
  {
    var k := q.tasks[t].(state := ST_BLOCKED);
    AllOkUpdate(q.tasks, q.tick, q.tick, q.lowest, q.lowest, bound, t, k);
    BlockMoves(q.tasks, q.bag, q.wait, Holding(q), t, k, bound);
  }

  lemma {:induction false} BlockMoves(tasks: map<Tid, Task>, bag: multiset<Elem>, wait: seq<Tid>, loose: set<Tid>, t: Tid, k: Task, n: nat)
    requires Partition(tasks, bag, wait, loose) && t in tasks && Entry(tasks, t) in bag && t < n && k.state == ST_BLOCKED
    ensures Partition(tasks[t := k], bag - multiset{Entry(tasks, t)}, [t] + wait, loose) && t !in loose
    ensures QueuedPrio(tasks[t := k], bag - multiset{Entry(tasks, t)}, n) == QueuedPrio(tasks, bag, n) - tasks[t].prio
    ensures tasks[t := k].Keys == tasks.Keys
  {
    DequeueToLoose(tasks, bag, wait, loose, Entry(tasks, t), n);
    var bag' := bag - multiset{Entry(tasks, t)};
    RetagLoose(tasks, bag', wait, loose + {t}, t, k, n);
    ParkLoose(tasks[t := k], bag', wait, loose + {t}, t);
    assert loose + {t} - {t} == loose;
  }

  lemma {:induction false} UnblockedOk(q: Rq, i: nat, load: Load, bound: nat)
    requires Good(q, bound) && i < |q.wait| && INT_MIN + 1 < q.lowest
    ensures q.wait[i] in q.tasks
    ensures var q' := Unblocked(q, i, load); Good(q', bound) && LowestStep(q.lowest, q'.lowest)
  {
    var t := q.wait[i];
    var loose := Holding(q);
    UnparkToLoose(q.tasks, q.bag, q.wait, loose, i);
    var q1 := q.(wait := q.wait[..i] + q.wait[i + 1..]);
    ScheduleOk(q1, t, true, load, loose + {t}, bound);
    assert loose + {t} - {t} == loose;
  }

  /** What taking a task and requeueing the active one needs. */
  ghost predicate Poppable(q: Rq) {
    && INT_MIN + 1 < q.lowest
    && (forall x :: x in q.bag ==> x.payload in q.tasks)
    && (q.active.Some? ==>
          q.active.value in q.tasks && q.active.value != 0 && TaskOk(q.tasks[q.active.value], q.tick, q.lowest))
  }

  lemma {:induction false} RunningIsPoppable(q: Rq, prio: Key, bound: nat)
    requires Running(q, bound) && IsPeek(prio, q.bag) && INT_MIN + 1 < q.lowest
    ensures Poppable(q) && (prio != INT_MIN <==> q.bag != multiset{}) && (prio != INT_MIN ==> exists e :: e in q.bag)
    ensures q.active.Some? ==> |q.bag| < CAPACITY
  {
  }

  lemma {:induction false} MarkPoppable(q: Rq, flag: bv8)
    requires Poppable(q) && q.active.Some?
    ensures Poppable(Mark(q, q.active.value, flag))
  {
  }

  /** Rescheduling the active task leaves the queue fit for a pop. */
  lemma {:induction false} RescheduledIsPoppable(q: Rq, load: Load, bound: nat)
    requires Running(q, bound) && INT_MIN + 2 < q.lowest && q.active.Some?
    requires q.tasks[q.active.value].state & ST_NEED_RESCHED != 0
    ensures var (q1, st) := Schedule(q, q.active.value, false, load);
      && Poppable(q1) && q1.tasks.Keys == q.tasks.Keys && q1.active == q.active
      && (st != StOk ==> q1.bag != multiset{})
  {
    var a := q.active.value;
    assert q.tasks[a].state != ST_READY && q.tasks[a].state != ST_BLOCKED;
    ScheduleOk(q, a, false, load, {a}, bound);
  }

  lemma {:induction false} PeekUnique(p: Key, p': Key, bag: multiset<Elem>)
    requires IsPeek(p, bag) && IsPeek(p', bag)
    ensures p == p'
  {
  }

  // ---------------------------------------------------------------- who runs next

  lemma {:induction false} SwitchToPicks(q: Rq, e: Elem, load: Load, loose: set<Tid>, bound: nat)
    requires InPlace(q, loose, bound) && CountersOk(q, bound) && e in q.bag && loose <= Holding(q) && ActiveSettled(q, loose)
    ensures e.payload in q.tasks
    ensures var q' := SwitchTo(q, e, load); q'.active == Some(e.payload) && q'.tasks[e.payload].sprio == e.key
  {
    PopOk(q, e, loose, bound);
  }

  /** The task running in q is one no key up to prio beats. */
  ghost predicate RunsAtLeast(q: Rq, prio: Key) {
    q.active.Some? && q.active.value in q.tasks && q.tasks[q.active.value].sprio >= prio
  }

  lemma {:induction false} SetupPicks(q: Rq, prio: Key, e: Elem, load: Load, loose: set<Tid>, bound: nat)
    requires InPlace(q, loose, bound) && CountersOk(q, bound) && loose <= Holding(q) && ActiveSettled(q, loose)
    requires prio != INT_MIN ==> e in q.bag && e.key >= prio
    ensures e.payload in q.tasks || prio == INT_MIN
    ensures if prio == INT_MIN then Setup(q, prio, e, load).active.None? else RunsAtLeast(Setup(q, prio, e, load), prio)
  {
    if prio != INT_MIN { SwitchToPicks(q, e, load, loose, bound); }
  }

  lemma {:induction false} QueueOnlyGrows(q: Rq, prio: Key, e: Elem, load: Load)
    requires q.active.Some? ==> q.active.value in q.tasks
    requires IsPeek(prio, q.bag) && prio != INT_MIN && IsMax(e, BagAtSwitch(q, prio, load))
    ensures e.key >= prio
  {
    assert q.bag <= BagAtSwitch(q, prio, load);
    var x :| x in q.bag && x.key == prio;
  }

  lemma {:induction false} PreemptPicks(q: Rq, prio: Key, e: Elem, load: Load, bound: nat)
    requires Running(q, bound) && q.active.Some? && prio != INT_MIN && e in q.bag && e.key >= prio
    ensures e.payload in q.tasks && RunsAtLeast(Setup(Mark(q, q.active.value, ST_PREEMPTED), prio, e, load), prio)
  {
    MarkOk(q, ST_PREEMPTED, bound);
    assert q.tasks[q.active.value].state | ST_PREEMPTED != ST_READY;
    SetupPicks(Mark(q, q.active.value, ST_PREEMPTED), prio, e, load, {q.active.value}, bound);
  }

  lemma {:induction false} ReschedulePicks(q: Rq, prio: Key, e: Elem, load: Load, bound: nat)
    requires Running(q, bound) && INT_MIN + 1 < q.lowest && q.active.Some?
    requires q.tasks[q.active.value].state & ST_NEED_RESCHED != 0
    requires var (q1, st) := Schedule(q, q.active.value, false, load);
      st == StSwitch && (prio != INT_MIN ==> e in q1.bag && e.key >= prio)
    ensures var q1 := Schedule(q, q.active.value, false, load).0;
      && (e.payload in q1.tasks || prio == INT_MIN)
      && if prio == INT_MIN then Setup(q1, prio, e, load).active.None? else RunsAtLeast(Setup(q1, prio, e, load), prio)
  {
    RescheduleRequeues(q, load, bound);
    SetupPicks(Schedule(q, q.active.value, false, load).0, prio, e, load, {}, bound);
  }

  ghost predicate Selected(before: Option<Tid>, r: (Rq, bool), prio: Key) {
    && (r.1 ==> if prio == INT_MIN then r.0.active.None? else RunsAtLeast(r.0, prio))
    && (!r.1 ==> r.0.active == before)
  }

  lemma {:induction false} NextSelectsFlagged(q: Rq, prio: Key, e: Elem, load: Load, bound: nat)
    requires Running(q, bound) && INT_MIN + 1 < q.lowest && q.active.Some?
    requires e.payload in q.tasks || prio == INT_MIN
    requires var k := q.tasks[q.active.value];
      k.execRt >= k.timeslice && k.state & ST_NEED_RESCHED != 0 && prio < k.sprio
    requires prio != INT_MIN ==> e in Schedule(q, q.active.value, false, load).0.bag && e.key >= prio
    ensures Selected(q.active, Next(q, prio, e, load), prio)
  {
    if Schedule(q, q.active.value, false, load).1 == StSwitch {
      ReschedulePicks(q, prio, e, load, bound);
    }
  }

  /** A switch takes a task that no task queued before the call beats, and the idle task only when none was
      queued before the call. */
  lemma {:induction false} NextSelects(q: Rq, prio: Key, e: Elem, load: Load, bound: nat)
    requires Running(q, bound) && IsPeek(prio, q.bag) && INT_MIN + 1 < q.lowest && !DropsActive(q, prio)
    requires prio != INT_MIN ==> IsMax(e, BagAtSwitch(q, prio, load))
    requires e.payload in q.tasks || prio == INT_MIN
    ensures Selected(q.active, Next(q, prio, e, load), prio)
  {
    if prio != INT_MIN { QueueOnlyGrows(q, prio, e, load); }
    if q.active.None? {
      SetupPicks(q, prio, e, load, {}, bound);
    } else {
      var k := q.tasks[q.active.value];
      if prio > k.sprio {
        PreemptPicks(q, prio, e, load, bound);
      } else if k.execRt >= k.timeslice {
        if k.state & ST_NEED_RESCHED != 0 && prio < k.sprio {
          NextSelectsFlagged(q, prio, e, load, bound);
        } else {
          assert k.state & ST_NEED_RESCHED != 0 ==> k.state != ST_READY;
          SetupPicks(q, prio, e, load, {q.active.value}, bound);
        }
      }
    }
  }

  /** A task is queued exactly when it is neither active nor waiting. */
  lemma {:induction false} PlaceOf(q: Rq, t: Tid, bound: nat)
    requires Good(q, bound)
    ensures t in q.tasks && Entry(q.tasks, t) in q.bag <==> t in q.tasks && q.active != Some(t) && t !in q.wait
  {
    if t in q.tasks {
      assert Places(q.tasks, q.bag, q.wait, Holding(q), t) == 1;
      assert t in multiset(q.wait) <==> t in q.wait;
    }
  }

  lemma {:induction false} QueuedKeys(q: Rq, t: Tid, bound: nat)
    requires Good(q, bound)
    ensures forall x :: x in q.bag ==> x.payload in q.tasks && x.key < INT_MAX && x == Entry(q.tasks, x.payload)
  {
  }

  lemma {:induction false} WaitingCanRun(q: Rq, i: nat, bound: nat)
    requires Good(q, bound) && i < |q.wait|
    ensures var t := q.wait[i];
      t in q.tasks && t != 0 && TaskOk(q.tasks[t], q.tick, q.lowest) && q.tasks[t].state == ST_BLOCKED && |q.bag| < CAPACITY
  {
  }

  /** Parking the running task takes the ready count below the queue. */
  lemma {:induction false} ParkingTheRunning(q: Rq, t: Tid, bound: nat)
    requires Good(q, bound) && q.active == Some(t)
    ensures t in q.tasks && !Good(Parked(q, t), bound) && Ahead(Parked(q, t)) == -1
  {
  }

  lemma {:induction false} UnblockedMoves(q: Rq, i: nat, load: Load, bound: nat)
    requires Good(q, bound) && i < |q.wait|
    ensures q.wait[i] in q.tasks
    ensures var (q', t) := (Unblocked(q, i, load), q.wait[i]);
      && q'.tasks.Keys == q.tasks.Keys && q'.bag == q.bag + multiset{Entry(q'.tasks, t)}
      && multiset(q'.wait) == multiset(q.wait) - multiset{t} && q'.active == q.active
  {
    WithoutOne(q.wait, i);
    WaitingCanRun(q, i, bound);
  }

  /** Blocking keeps the invariant exactly when the task is not the one running. */
  lemma {:induction false} BlockKeepsIff(q: Rq, t: Tid, bound: nat)
    requires Good(q, bound) && t in q.tasks && (q.active == Some(t) || Entry(q.tasks, t) in q.bag)
    ensures var q' := if q.active == Some(t) then Parked(q, t) else Blocked(q, t);
      (Good(q', bound) <==> q.active != Some(t)) && q'.tasks.Keys == q.tasks.Keys
  {
    if q.active == Some(t) { ParkingTheRunning(q, t, bound); } else { BlockedOk(q, t, bound); }
  }
}
