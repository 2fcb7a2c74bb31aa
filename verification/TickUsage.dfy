/** How the outcome of the scheduler's heuristics follows from the counters: utilisation, and ticks used
    against the fair share of the ticks a task has lived. */
module TickUsage {
  import opened Basics
  import opened BinaryHeap
  import opened RunQueueSteps

  /** Ticks a task has run when its priority is adjusted: the current slice counts once it is settled. */
  function Ran(k: Task): nat { k.totalRunning + if NeedsSettling(k) then k.execRt else 0 }

  /** Ticks used, and the ticks of its share, both times the total priority. */
  function Used(k: Task, rprio: int): int { Ran(k) * (rprio + k.prio) }
  function Due(k: Task, tick: nat): int { (tick - k.birth) * k.prio }

  /** What holds of an outcome whatever the rounding, which is far below the three percent of the code: a
      task found over its share is, and one found under it is. */
  predicate Fits(k: Task, tick: nat, rprio: int, load: Load) {
    tick - k.birth >= 20 && load.rtu >= 90 ==>
      (load.usage == Over ==> Used(k, rprio) > Due(k, tick)) && (load.usage == Under ==> Used(k, rprio) < Due(k, tick))
  }

  /** The outcome in exact arithmetic. A task younger than 20 ticks is not looked at. */
  predicate Exact(k: Task, tick: nat, rprio: int, load: Load) {
    tick - k.birth >= 20 ==>
      && k.totalAlloc > 0 && rprio + k.prio > 0
      && load.rtu == 100 * Ran(k) / k.totalAlloc
      && load.usage == (if 100 * Used(k, rprio) > 103 * Due(k, tick) then Over
                        else if 100 * Used(k, rprio) < 97 * Due(k, tick) then Under else Fair)
      && (load.usage == Under ==> load.share == Due(k, tick) / (rprio + k.prio) - Ran(k))
  }

  lemma {:induction false} ExactFits(k: Task, tick: nat, rprio: int, load: Load)
    requires Exact(k, tick, rprio, load) && k.prio > 0 && k.birth <= tick
    ensures Fits(k, tick, rprio, load)
  {
    Scaled(0, k.prio, tick - k.birth);
  }

  lemma {:induction false} PenalisedMeans(k: Task, tick: nat, lowest: int, load: Load)
    requires MadeReady(k, tick, lowest, load).2
    ensures tick - k.birth >= 20 && load.rtu >= 90 && load.usage == Over
  {
  }

  /** With nothing queued the fair share is everything, and nobody runs for longer than it has lived. */
  lemma {:induction false} AloneIsNotPenalised(k: Task, tick: nat, lowest: int, load: Load)
    requires k.prio > 0 && k.totalRunning + k.execRt <= tick - k.birth && Fits(k, tick, 0, load)
    ensures !MadeReady(k, tick, lowest, load).2
  {
    if MadeReady(k, tick, lowest, load).2 {
      PenalisedMeans(k, tick, lowest, load);
      Scaled(Ran(k), tick - k.birth, k.prio);
      assert false;
    }
  }

  lemma {:induction false} NothingQueued(tasks: map<Tid, Task>, n: nat)
    ensures QueuedPrio(tasks, multiset{}, n) == 0
  {
    if n > 0 { NothingQueued(tasks, n - 1); }
  }
}
