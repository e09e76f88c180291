/** The dispatch loop as a state machine: every interleaving of selections, yields,
    preemptions, blocks, wakes, exits and new entities (`scheduler/mod.rs`). */
module Dispatch {
  import opened Common
  import opened RunBoard

  /** Where the processor is: choosing the next entity, in userspace or a system call
      of a process, polling a process's pending call, or polling a kernel task. */
  datatype Mode = Choosing | InProcess(pid: nat) | PollingCall(pid: nat) | PollingTask(tid: nat)

  /** The board, the entities that ever existed, the last clock reading, the mode. */
  datatype Machine = Machine(board: Board, born: set<Entity>, clock: nat, mode: Mode)

  datatype Event =
    | Select(entity: Entity, now: nat)
    | Suspend
    | Block
    | Resume
    | Leave
    | TaskPending
    | Wake(entity: Entity)
    | Spawn(entity: Entity, now: nat)
    | Idle

  /** Entity the mode is about. */
  function Active(mode: Mode): Option<Entity> {
    match mode
    case Choosing => None
    case InProcess(p) => Some(Process(p))
    case PollingCall(p) => Some(Process(p))
    case PollingTask(t) => Some(Task(t))
  }

  ghost predicate Step(m: Machine, ev: Event, m': Machine) {
    match ev
    case Select(e, now) =>
      // prepare_next_runnable; the clock only moves forward
      && m.mode == Choosing && now > m.clock && IsNext(m.board, e)
      && m' == Machine(Picked(m.board, e, now), m.born, now,
                       if e.Process? then PollingCall(e.pid) else PollingTask(e.tid))
    case Resume =>
      // no pending call, or its result is ready: back to userspace
      m.mode.PollingCall? && m' == m.(mode := InProcess(m.mode.pid))
    case Block =>
      // the pending call is not ready
      m.mode.PollingCall? && m' == m.(board := Moved(m.board, Process(m.mode.pid), Blocked), mode := Choosing)
    case Suspend =>
      // yield, preemption, or a call that returned Pending on its first poll
      m.mode.InProcess? && m' == m.(board := Moved(m.board, Process(m.mode.pid), Runnable), mode := Choosing)
    case Leave =>
      // exit or kill of the running process, completion of the polled task
      && m.mode != Choosing && !m.mode.PollingCall?
      && m' == m.(board := m.board - {Active(m.mode).value}, mode := Choosing)
    case TaskPending =>
      m.mode.PollingTask? && m' == m.(board := Moved(m.board, Task(m.mode.tid), Blocked), mode := Choosing)
    case Wake(e) =>
      m' == m.(board := Woken(m.board, e))
    case Spawn(e, now) =>
      // a process starts as never scheduled, a kernel task as just scheduled
      && e !in m.born && now > m.clock
      && m' == m.(board := m.board[e := Slot(Runnable, if e.Process? then 0 else now)],
                  born := m.born + {e}, clock := now)
    case Idle =>
      m' == m
  }

  /** What every reachable machine satisfies. */
  ghost predicate Inv(m: Machine) {
    && m.board.Keys <= m.born
    && (forall e <- m.board :: m.board[e].key <= m.clock)
    && (forall e <- m.board :: m.board[e].state == Running ==> Active(m.mode) == Some(e))
    && (m.mode != Choosing ==> Active(m.mode).value in m.board)
    && (m.mode.InProcess? || m.mode.PollingCall? ==> m.board[Active(m.mode).value].state == Running)
  }

  /** A run: machines joined by steps. */
  ghost predicate IsRun(run: seq<Machine>, evs: seq<Event>) {
    && |run| == |evs| + 1 && Inv(run[0])
    && forall i :: 0 <= i < |evs| ==> Step(run[i], evs[i], run[i + 1])
  }

  /** A kernel with its first process, before anything was selected. */
  lemma InitialInv(pid: nat)
    ensures Inv(Machine(map[Process(pid) := Slot(Runnable, 0)], {Process(pid)}, 0, Choosing))
  {
  }

  lemma StepKeepsInv(m: Machine, ev: Event, m': Machine)
    requires Inv(m) && Step(m, ev, m')
    ensures Inv(m')
  {
  }

  lemma {:induction false} RunKeepsInv(run: seq<Machine>, evs: seq<Event>, i: nat)
    requires IsRun(run, evs) && i < |run|
    ensures Inv(run[i])
  {
    if i > 0 {
      RunKeepsInv(run, evs, i - 1);
      StepKeepsInv(run[i - 1], evs[i - 1], run[i]);
    }
  }

  /** On no run does the loop come to choose while something is still running: the
      assertion in `prepare_next_runnable` holds. At most one entity ever runs. */
  lemma AssertionHolds(run: seq<Machine>, evs: seq<Event>, i: nat)
    requires IsRun(run, evs) && i < |run|
    ensures run[i].mode == Choosing ==> !AnyRunning(run[i].board)
    ensures forall e, f ::
              e in run[i].board && f in run[i].board && run[i].board[e].state == Running == run[i].board[f].state ==>
                e == f
  {
    RunKeepsInv(run, evs, i);
  }

  // ---------------------------------------------------------------------------
  // Bounded bypass
  // ---------------------------------------------------------------------------

  ghost predicate Waiting(m: Machine, e: Entity) {
    e in m.board && m.board[e].state == Runnable
  }

  /** `f` was selected after `e` started to wait. */
  ghost predicate Overtaken(m: Machine, e: Entity, f: Entity) {
    e in m.board && f in m.born && (f in m.board ==> m.board[f].key > m.board[e].key)
  }

  lemma SelectOvertakes(m: Machine, f: Entity, now: nat, m': Machine, e: Entity)
    requires Inv(m) && Step(m, Select(f, now), m') && Waiting(m, e) && Waiting(m', e)
    ensures Overtaken(m', e, f)
  {
  }

  lemma OvertakenStays(m: Machine, ev: Event, m': Machine, e: Entity, f: Entity)
    requires Inv(m) && Step(m, ev, m') && Waiting(m, e) && Waiting(m', e) && e != f && Overtaken(m, e, f)
    ensures Overtaken(m', e, f) && m'.board[e].key == m.board[e].key
  {
  }

  lemma {:induction false} OvertakenThrough(run: seq<Machine>, evs: seq<Event>, e: Entity, f: Entity, s: nat, t: nat)
    requires IsRun(run, evs) && s <= t < |run| && e != f && Overtaken(run[s], e, f)
    requires forall i :: s <= i <= t ==> Waiting(run[i], e)
    ensures Overtaken(run[t], e, f)
  {
    if s < t {
      OvertakenThrough(run, evs, e, f, s, t - 1);
      RunKeepsInv(run, evs, t - 1);
      OvertakenStays(run[t - 1], evs[t - 1], run[t], e, f);
    }
  }

  /** While an entity waits to run, nobody is selected twice before it. */
  lemma BoundedBypass(run: seq<Machine>, evs: seq<Event>, e: Entity, s: nat, t: nat)
    requires IsRun(run, evs) && s < t < |evs|
    requires forall i :: s <= i <= t ==> Waiting(run[i], e)
    requires evs[s].Select? && evs[t].Select? && evs[s].entity != e
    ensures evs[s].entity != evs[t].entity
  {
    var f := evs[s].entity;
    RunKeepsInv(run, evs, s);
    SelectOvertakes(run[s], f, evs[s].now, run[s + 1], e);
    OvertakenThrough(run, evs, e, f, s + 1, t);
    RunKeepsInv(run, evs, t);
    assert Step(run[t], evs[t], run[t + 1]);
  }
}
