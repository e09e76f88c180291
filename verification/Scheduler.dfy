/** The scheduler's process table and run queues (`scheduler/mod.rs`). */
module Scheduling {
  import opened Common
  import opened RunBoard
  import opened Deadlines

  // ---------------------------------------------------------------------------
  // One run queue
  // ---------------------------------------------------------------------------

  /** An entry of a state's heap: time last selected, and the entity. */
  datatype Item = Item(rtc: nat, entity: Entity)

  predicate PoppedBefore(x: Item, y: Item) {
    Before(x.rtc, x.entity, y.rtc, y.entity)
  }

  predicate Holds(q: seq<Item>, e: Entity) {
    exists i :: 0 <= i < |q| && q[i].entity == e
  }

  predicate Distinct(q: seq<Item>) {
    forall i, j :: 0 <= i < j < |q| ==> q[i].entity != q[j].entity
  }

  /** `retain`: the queue without the entries of one entity. */
  function Without(q: seq<Item>, e: Entity): seq<Item> {
    if q == [] then [] else if q[0].entity == e then Without(q[1..], e) else [q[0]] + Without(q[1..], e)
  }

  lemma {:induction false} WithoutFacts(q: seq<Item>, e: Entity)
    ensures forall x :: x in Without(q, e) <==> x in q && x.entity != e
    ensures Distinct(q) ==> Distinct(Without(q, e))
  {
    if q != [] {
      WithoutFacts(q[1..], e);
      assert q == [q[0]] + q[1..];
      if Distinct(q) { TailDistinct(q); }
      if q[0].entity != e { FrontDistinct(q[0], Without(q[1..], e), q[1..]); }
    }
  }

  lemma FrontDistinct(x: Item, rest: seq<Item>, all: seq<Item>)
    requires forall y <- rest :: y in all
    ensures Distinct(rest) && !Holds(all, x.entity) ==> Distinct([x] + rest)
  {
    if Distinct(rest) && !Holds(all, x.entity) {
      var q := [x] + rest;
      forall i, j | 0 <= i < j < |q|
        ensures q[i].entity != q[j].entity
      {
        assert q[j] == rest[j - 1] && rest[j - 1] in all;
        assert i > 0 ==> q[i] == rest[i - 1];
      }
    }
  }

  /** Pop of the heap: the first entry in heap order, the rest unchanged. */
  method PopFirst(q: seq<Item>) returns (item: Item, rest: seq<Item>)
    requires q != []
    ensures item in q && forall x <- q :: PoppedBefore(item, x)
    ensures exists i :: 0 <= i < |q| && q[i] == item && rest == q[..i] + q[i + 1..]
  {
    var best, i := 0, 1;
    while i < |q|
      invariant 0 <= best < i <= |q|
      invariant forall j :: 0 <= j < i ==> PoppedBefore(q[best], q[j])
    {
      if !PoppedBefore(q[best], q[i]) {
        best := i;
      }
      i := i + 1;
    }
    item := q[best];
    rest := q[..best] + q[best + 1..];
  }

  // ---------------------------------------------------------------------------
  // All queues together
  // ---------------------------------------------------------------------------

  type Queues = map<State, seq<Item>>

  ghost predicate AllStates(qs: Queues) {
    forall st: State :: st in qs
  }

  /** An entry belongs in the queue of its entity's state, under its entity's key. A
      running kernel task is queued under a later clock reading than its key. */
  predicate Fits(x: Item, st: State, b: Board) {
    x.entity in b && b[x.entity].state == st && (st != Running ==> x.rtc == b[x.entity].key)
  }

  /** Every entity sits exactly once, in the queue of its own state, under its own key. */
  ghost predicate Matches(qs: Queues, b: Board) {
    && AllStates(qs)
    && (forall st <- qs :: Distinct(qs[st]))
    && (forall st <- qs :: forall x <- qs[st] :: Fits(x, st, b))
    && (forall e <- b :: Holds(qs[b[e].state], e))
  }

  lemma HoldsMember(q: seq<Item>, e: Entity)
    ensures Holds(q, e) <==> exists x :: x in q && x.entity == e
  {
    if x :| x in q && x.entity == e {
      var i :| 0 <= i < |q| && q[i] == x;
    }
    if i :| 0 <= i < |q| && q[i].entity == e {
      assert q[i] in q;
    }
  }

  lemma WithoutHolds(q: seq<Item>, e: Entity, f: Entity)
    ensures Holds(Without(q, e), f) <==> Holds(q, f) && f != e
  {
    hide Without;
    WithoutFacts(q, e);
    HoldsMember(q, f);
    HoldsMember(Without(q, e), f);
  }

  lemma PushHolds(q: seq<Item>, x: Item, f: Entity)
    ensures Holds(q + [x], f) <==> Holds(q, f) || f == x.entity
  {
    if Holds(q, f) {
      var i :| 0 <= i < |q| && q[i].entity == f;
      assert (q + [x])[i].entity == f;
    }
    assert (q + [x])[|q|] == x;
  }

  lemma PushDistinct(q: seq<Item>, x: Item)
    requires Distinct(q) && !Holds(q, x.entity)
    ensures Distinct(q + [x])
  {
  }

  /** Taking an entity out of the queue of its state. */
  lemma TakeOut(qs: Queues, b: Board, e: Entity)
    requires Matches(qs, b) && e in b
    ensures Matches(qs[b[e].state := Without(qs[b[e].state], e)], b - {e})
  {
    hide Holds, Without;
    var from := b[e].state;
    WithoutFacts(qs[from], e);
    var qs', b' := qs[from := Without(qs[from], e)], b - {e};
    forall st: State, x: Item | x in qs'[st]
      ensures Fits(x, st, b')
    {
      assert x in qs[st] && Fits(x, st, b);
    }
    forall f <- b'
      ensures Holds(qs'[b'[f].state], f)
    {
      WithoutHolds(qs[from], e, f);
    }
  }

  /** Putting an entity that is nowhere into a queue. */
  lemma PutIn(qs: Queues, b: Board, e: Entity, st: State, rtc: nat, key: nat)
    requires Matches(qs, b) && e !in b && (st != Running ==> rtc == key)
    ensures Matches(qs[st := qs[st] + [Item(rtc, e)]], b[e := Slot(st, key)])
  {
    var x := Item(rtc, e);
    var qs', b' := qs[st := qs[st] + [x]], b[e := Slot(st, key)];
    assert !Holds(qs[st], e) by {
      HoldsMember(qs[st], e);
      assert forall y <- qs[st] :: Fits(y, st, b);
    }
    hide Holds;
    PushDistinct(qs[st], x);
    forall t: State, y: Item | y in qs'[t]
      ensures Fits(y, t, b')
    {
      if y != x { assert y in qs[t] && Fits(y, t, b); }
    }
    forall f <- b'
      ensures Holds(qs'[b'[f].state], f)
    {
      PushHolds(qs[st], x, f);
    }
  }

  /** Taking an entity out of a queue it is not in changes nothing. */
  lemma {:induction false} WithoutAbsent(q: seq<Item>, e: Entity)
    requires !Holds(q, e)
    ensures Without(q, e) == q
  {
    if q != [] {
      assert q[0].entity != e;
      assert forall i :: 0 <= i < |q[1..]| ==> q[1..][i] == q[i + 1];
      WithoutAbsent(q[1..], e);
    }
  }

  lemma NotElsewhere(qs: Queues, b: Board, e: Entity, st: State)
    requires Matches(qs, b) && (e in b ==> b[e].state != st)
    ensures Without(qs[st], e) == qs[st]
  {
    HoldsMember(qs[st], e);
    assert forall y <- qs[st] :: Fits(y, st, b);
    WithoutAbsent(qs[st], e);
  }

  /** Popping a queue with one entry per entity takes that entity out. */
  lemma {:induction false} PopIsWithout(q: seq<Item>, i: nat)
    requires Distinct(q) && i < |q|
    ensures q[..i] + q[i + 1..] == Without(q, q[i].entity)
  {
    assert i > 0 ==> q[0].entity != q[i].entity;
    TailDistinct(q);
    WithoutStep(q, q[i].entity);
    hide Without, Distinct, Holds;
    if i == 0 {
      WithoutAbsent(q[1..], q[0].entity);
      assert q[..0] + q[1..] == q[1..];
    } else {
      PopIsWithout(q[1..], i - 1);
      CutTail(q, i);
    }
  }

  lemma TailDistinct(q: seq<Item>)
    requires Distinct(q) && q != []
    ensures Distinct(q[1..]) && !Holds(q[1..], q[0].entity)
  {
  }

  lemma WithoutStep(q: seq<Item>, e: Entity)
    requires q != []
    ensures Without(q, e) == (if q[0].entity == e then [] else [q[0]]) + Without(q[1..], e)
  {
  }

  lemma CutTail(q: seq<Item>, i: nat)
    requires 0 < i < |q|
    ensures q[1..][i - 1] == q[i] && q[..i] + q[i + 1..] == [q[0]] + (q[1..][..i - 1] + q[1..][i..])
  {
  }

  // ---------------------------------------------------------------------------
  // The scheduler
  // ---------------------------------------------------------------------------

  /** What the run queues need of a process. */
  datatype Proc = Proc(state: State, lastScheduled: nat)

  /** The table of processes and kernel-task times is what the board says. */
  ghost predicate Agree(processes: map<nat, Proc>, taskRtc: map<nat, nat>, b: Board) {
    && (forall p: nat :: p in processes <==> Process(p) in b)
    && (forall p <- processes :: b[Process(p)] == Slot(processes[p].state, processes[p].lastScheduled))
    && (forall t: nat :: t in taskRtc <==> Task(t) in b)
    && (forall t <- taskRtc :: b[Task(t)].key == taskRtc[t])
  }

  /** Queues with an entity moved to another state. */
  ghost function Requeued(qs: Queues, e: Entity, from: State, to: State, rtc: nat): Queues
    requires AllStates(qs)
  {
    var out := qs[from := Without(qs[from], e)];
    out[to := out[to] + [Item(rtc, e)]]
  }

  lemma RequeuedMatches(qs: Queues, b: Board, e: Entity, to: State, rtc: nat, key: nat)
    requires Matches(qs, b) && e in b && (to != Running ==> rtc == key)
    ensures Matches(Requeued(qs, e, b[e].state, to, rtc), b[e := Slot(to, key)])
  {
    hide Distinct, Holds, Fits, Without;
    TakeOut(qs, b, e);
    PutIn(qs[b[e].state := Without(qs[b[e].state], e)], b - {e}, e, to, rtc, key);
    assert (b - {e})[e := Slot(to, key)] == b[e := Slot(to, key)];
  }

  lemma HasStates(qs: Queues, b: Board)
    requires Matches(qs, b)
    ensures AllStates(qs)
  {
  }

  lemma AgreeProcess(processes: map<nat, Proc>, taskRtc: map<nat, nat>, b: Board, pid: nat)
    requires Agree(processes, taskRtc, b)
    ensures pid in processes <==> Process(pid) in b
    ensures pid in processes ==> b[Process(pid)] == Slot(processes[pid].state, processes[pid].lastScheduled)
  {
  }

  lemma AgreeTask(processes: map<nat, Proc>, taskRtc: map<nat, nat>, b: Board, tid: nat)
    requires Agree(processes, taskRtc, b)
    ensures tid in taskRtc <==> Task(tid) in b
    ensures tid in taskRtc ==> b[Task(tid)].key == taskRtc[tid]
  {
  }

  lemma AgreePut(processes: map<nat, Proc>, taskRtc: map<nat, nat>, b: Board, pid: nat, p: Proc)
    requires Agree(processes, taskRtc, b)
    ensures Agree(processes[pid := p], taskRtc, b[Process(pid) := Slot(p.state, p.lastScheduled)])
  {
  }

  lemma AgreePutTask(processes: map<nat, Proc>, taskRtc: map<nat, nat>, b: Board, tid: nat, st: State, key: nat)
    requires Agree(processes, taskRtc, b)
    ensures Agree(processes, taskRtc[tid := key], b[Task(tid) := Slot(st, key)])
  {
  }

  lemma AgreeDrop(processes: map<nat, Proc>, taskRtc: map<nat, nat>, b: Board, e: Entity)
    requires Agree(processes, taskRtc, b)
    ensures e.Process? ==> Agree(processes - {e.pid}, taskRtc, b - {e})
    ensures e.Task? ==> Agree(processes, taskRtc - {e.tid}, b - {e})
  {
  }

  class Scheduler {
    var processes: map<nat, Proc>
    var queues: Queues
    var current: Entity
    var taskRtc: map<nat, nat>
    const tracker: DeadlineTracker
    /** State and key of everything that can be scheduled. */
    ghost var board: Board

    ghost predicate Valid()
      reads this
    {
      Agree(processes, taskRtc, board) && Matches(queues, board)
    }

    /** `Scheduler::new` with the first process, runnable and never scheduled. */
    constructor (pid: nat)
      ensures Valid() && fresh(tracker) && tracker.Valid() && tracker.deadlines == []
      ensures board == map[Process(pid) := Slot(Runnable, 0)]
    {
      processes := map[pid := Proc(Runnable, 0)];
      queues := map[Runnable := [Item(0, Process(pid))], Running := [], Blocked := []];
      current := Process(pid);
      taskRtc := map[];
      tracker := new DeadlineTracker();
      board := map[Process(pid) := Slot(Runnable, 0)];
      new;
      FirstMatches(pid);
    }

    method RemoveFromState(st: State, e: Entity)
      requires st in queues
      modifies this`queues
      ensures queues == old(queues)[st := Without(old(queues)[st], e)]
    {
      queues := queues[st := Without(queues[st], e)];
    }

    method AddToState(st: State, e: Entity, rtc: nat)
      requires st in queues
      modifies this`queues
      ensures queues == old(queues)[st := old(queues)[st] + [Item(rtc, e)]]
    {
      queues := queues[st := queues[st] + [Item(rtc, e)]];
    }

    /** `add`: a new runnable process. */
    method Add(pid: nat, last: nat)
      requires Valid() && pid !in processes
      modifies this
      ensures Valid() && board == old(board)[Process(pid) := Slot(Runnable, last)]
    {
      hide Matches, Agree, Without;
      var e := Process(pid);
      ghost var qs, b := queues, board;
      HasStates(qs, b);
      AgreeProcess(processes, taskRtc, b, pid);
      AgreePut(processes, taskRtc, b, pid, Proc(Runnable, last));
      NotElsewhere(qs, b, e, Running);
      NotElsewhere(qs, b, e, Blocked);
      PutIn(qs, b, e, Runnable, last, last);
      processes := processes[pid := Proc(Runnable, last)];
      AddToState(Runnable, e, last);
      RemoveFromState(Running, e);
      RemoveFromState(Blocked, e);
      board := b[e := Slot(Runnable, last)];
      assert queues == qs[Runnable := qs[Runnable] + [Item(last, e)]];
    }

    /** `change_state`: false, and nothing happens, when the process is gone. */
    method ChangeState(pid: nat, st: State) returns (ok: bool)
      requires Valid()
      modifies this
      ensures Valid() && ok == (Process(pid) in old(board))
      ensures board == Moved(old(board), Process(pid), st)
      ensures ok ==> board == old(board)[Process(pid) := Slot(st, old(board)[Process(pid)].key)]
      ensures !ok ==> board == old(board)
      ensures current == old(current) && taskRtc == old(taskRtc)
    {
      hide Matches, Agree, Without;
      AgreeProcess(processes, taskRtc, board, pid);
      if pid !in processes {
        return false;
      }
      var e, prior, last := Process(pid), processes[pid].state, processes[pid].lastScheduled;
      HasStates(queues, board);
      RequeuedMatches(queues, board, e, st, last, last);
      AgreePut(processes, taskRtc, board, pid, Proc(st, last));
      processes := processes[pid := Proc(st, last)];
      RemoveFromState(prior, e);
      AddToState(st, e, last);
      board := Moved(board, e, st);
      return true;
    }

    /** `prepare_next_runnable`: the runnable entity selected least recently becomes the
        running one. The source's assertion is the second precondition. */
    method PrepareNextRunnable(now: nat, later: nat) returns (next: Option<Entity>)
      requires Valid() && !AnyRunning(board)
      modifies this
      ensures Valid()
      ensures next == None ==>
                board == old(board) && current == old(current) && forall e <- board :: board[e].state != Runnable
      ensures next.Some? ==>
                IsNext(old(board), next.value) && board == Picked(old(board), next.value, now) && current == next.value
      ensures next.Some? ==> board == old(board)[next.value := Slot(Running, now)]
    {
      hide Matches, Agree, Without, Holds;
      HasStates(queues, board);
      NoneRunning(queues, board);
      if queues[Runnable] == [] {
        NoneRunnable(queues, board);
        return None;
      }
      ghost var qs, b := queues, board;
      var item, rest := PopFirst(queues[Runnable]);
      PopMatches(qs, b, item, rest);
      var e := item.entity;
      queues := queues[Runnable := rest];
      match e {
        case Process(pid) =>
          AgreeProcess(processes, taskRtc, b, pid);
          AgreePut(processes, taskRtc, b, pid, Proc(Running, now));
          processes := processes[pid := Proc(Running, now)];
          WithoutTwice(qs, b, e);
          RemoveFromState(Runnable, e);
          AddToState(Running, e, now);
          RequeuedMatches(qs, b, e, Running, now, now);
          assert queues == Requeued(qs, e, Runnable, Running, now);
        case Task(tid) =>
          AgreePutTask(processes, taskRtc, b, tid, Running, now);
          taskRtc := taskRtc[tid := now];
          WithoutTwice(qs, b, e);
          RemoveFromState(Runnable, e);
          AddToState(Running, e, later);
          RequeuedMatches(qs, b, e, Running, later, now);
          assert queues == Requeued(qs, e, Runnable, Running, later);
      }
      board := Picked(b, e, now);
      current := e;
      return Some(e);
    }

    /** Taking an entity out of every queue. */
    method RemoveFromAll(e: Entity)
      requires Valid()
      modifies this`queues
      ensures AllStates(queues)
      ensures Matches(queues, board - {e})
      ensures e in board ==> queues == old(queues)[board[e].state := Without(old(queues)[board[e].state], e)]
      ensures e !in board ==> queues == old(queues)
    {
      hide Matches, Agree, Without;
      ghost var qs := queues;
      HasStates(qs, board);
      if e in board { TakeOut(qs, board, e); } else { assert board - {e} == board; }
      AllOut(qs, board, e);
      RemoveFromState(Runnable, e);
      RemoveFromState(Running, e);
      RemoveFromState(Blocked, e);
    }

    /** `remove_process`. */
    method RemoveProcess(pid: nat)
      requires Valid()
      modifies this
      ensures Valid() && board == old(board) - {Process(pid)} && current == old(current)
    {
      hide Matches, Agree;
      RemoveFromAll(Process(pid));
      AgreeDrop(processes, taskRtc, board, Process(pid));
      processes := processes - {pid};
      board := board - {Process(pid)};
    }

    /** `add_kernel_task`, for a task number not in use. */
    method AddKernelTask(tid: nat, now: nat)
      requires Valid() && tid !in taskRtc
      modifies this
      ensures Valid() && board == old(board)[Task(tid) := Slot(Runnable, now)]
    {
      hide Matches, Agree;
      HasStates(queues, board);
      AgreeTask(processes, taskRtc, board, tid);
      AgreePutTask(processes, taskRtc, board, tid, Runnable, now);
      PutIn(queues, board, Task(tid), Runnable, now, now);
      taskRtc := taskRtc[tid := now];
      AddToState(Runnable, Task(tid), now);
      board := board[Task(tid) := Slot(Runnable, now)];
    }

    /** `change_kernel_task_state`: only the state of a live task changes. For a task that
        is gone an entry is queued that nothing stands behind, so the queues agree with the
        entities afterwards exactly when the task is alive. */
    method ChangeKernelTaskState(tid: nat, st: State, now: nat)
      requires Valid()
      modifies this
      ensures current == old(current) && taskRtc == old(taskRtc) && board == Moved(old(board), Task(tid), st)
      ensures tid in taskRtc ==>
                Task(tid) in old(board) && board == old(board)[Task(tid) := Slot(st, old(board)[Task(tid)].key)]
      ensures Valid() <==> tid in taskRtc
      ensures tid !in taskRtc ==> queues == old(queues)[st := old(queues)[st] + [Item(now, Task(tid))]]
    {
      hide Matches, Agree;
      var e, rtc := Task(tid), if tid in taskRtc then taskRtc[tid] else now;
      AgreeTask(processes, taskRtc, board, tid);
      if tid !in taskRtc {
        RemoveFromAll(e);
        StaleEntry(queues, board, st, Item(rtc, e));
        AddToState(st, e, rtc);
        return;
      }
      AgreePutTask(processes, taskRtc, board, tid, st, rtc);
      assert taskRtc[tid := rtc] == taskRtc;
      RemoveFromAll(e);
      PutIn(queues, board - {e}, e, st, rtc, rtc);
      AddToState(st, e, rtc);
      board := Moved(board, e, st);
      assert board == (old(board) - {e})[e := Slot(st, rtc)];
    }

    /** `remove_kernel_task`. */
    method RemoveKernelTask(tid: nat)
      requires Valid()
      modifies this
      ensures Valid() && board == old(board) - {Task(tid)} && current == old(current)
    {
      hide Matches, Agree;
      RemoveFromAll(Task(tid));
      AgreeDrop(processes, taskRtc, board, Task(tid));
      taskRtc := taskRtc - {tid};
      board := board - {Task(tid)};
    }

    /** `wake_process`: only a blocked process is woken. */
    method WakeProcess(pid: nat)
      requires Valid()
      modifies this
      ensures Valid() && board == Woken(old(board), Process(pid)) && current == old(current) && taskRtc == old(taskRtc)
      ensures var e, b := Process(pid), old(board);
              board == if e in b && b[e].state == Blocked then b[e := Slot(Runnable, b[e].key)] else b
    {
      hide Matches, Agree;
      AgreeProcess(processes, taskRtc, board, pid);
      if pid in processes && processes[pid].state == Blocked {
        var _ := ChangeState(pid, Runnable);
      }
    }

    /** `wake_deadline_tasks`, given that kernel tasks with a deadline are alive. */
    method WakeDeadlineTasks(now: nat) returns (count: nat)
      requires Valid() && tracker.Valid()
      requires forall t: nat, i: nat :: Has(tracker.deadlines, t, Task(i)) ==> i in taskRtc
      modifies this, tracker
      ensures Valid() && tracker.Valid() && current == old(current)
      ensures forall e <- old(board) :: e in board && board[e].key == old(board)[e].key
      ensures forall e <- old(board) :: board[e].state ==
                if (e.Task? || old(board)[e].state == Blocked) &&
                  (exists t: nat :: t <= now && Has(old(tracker.deadlines), t, e))
                then Runnable else old(board)[e].state
      ensures board.Keys == old(board).Keys
      ensures forall t: nat, e :: Has(tracker.deadlines, t, e) <==> Has(old(tracker.deadlines), t, e) && t > now
      ensures count == 0 <==> forall t: nat, e :: Has(old(tracker.deadlines), t, e) ==> t > now
    {
      hide Matches, Agree, Has, Sorted;
      ghost var b := board;
      var entities := tracker.CollectExpired(now);
      forall t: nat, e | Has(old(tracker.deadlines), t, e) && t <= now
        ensures e in entities
      {
      }
      assert entities != [] ==> entities[0] in entities;
      assert entities == [] <==> forall t: nat, e :: Has(old(tracker.deadlines), t, e) ==> t > now;
      var i := 0;
      while i < |entities|
        invariant 0 <= i <= |entities| && Valid() && board == WokenAll(b, entities[..i])
        invariant current == old(current) && taskRtc == old(taskRtc)
        modifies this
      {
        WokenAllSnoc(b, entities[..i], entities[i]);
        assert entities[..i + 1] == entities[..i] + [entities[i]];
        assert entities[i] in entities;
        match entities[i] {
          case Task(tid) =>
            AgreeTask(processes, taskRtc, board, tid);
            ChangeKernelTaskState(tid, Runnable, now);
          case Process(pid) =>
            WakeProcess(pid);
        }
        i := i + 1;
      }
      assert entities[..i] == entities;
      forall e | e in b
        ensures e in board && board.Keys == b.Keys && board[e].key == b[e].key
        ensures board[e].state == if e in entities && (e.Task? || b[e].state == Blocked) then Runnable else b[e].state
      {
        WokenAllEffect(b, entities, e);
      }
      WokenAllKeys(b, entities);
      return |entities|;
    }
  }

  /** An entry nothing stands behind. */
  lemma StaleEntry(qs: Queues, b: Board, st: State, x: Item)
    requires Matches(qs, b) && st in qs && x.entity !in b
    ensures !Matches(qs[st := qs[st] + [x]], b)
  {
    var qs' := qs[st := qs[st] + [x]];
    assert x in qs'[st];
    assert !Fits(x, st, b);
  }

  /** Retaining in all three queues changes only the one the entity is in. */
  lemma AllOut(qs: Queues, b: Board, e: Entity)
    requires Matches(qs, b)
    ensures var out := qs[Runnable := Without(qs[Runnable], e)][Running := Without(qs[Running], e)]
                         [Blocked := Without(qs[Blocked], e)];
            out == if e in b then qs[b[e].state := Without(qs[b[e].state], e)] else qs
  {
    hide Holds, Fits, Distinct, Without;
    if e !in b || b[e].state != Runnable { NotElsewhere(qs, b, e, Runnable); }
    if e !in b || b[e].state != Running { NotElsewhere(qs, b, e, Running); }
    if e !in b || b[e].state != Blocked { NotElsewhere(qs, b, e, Blocked); }
    var out := qs[Runnable := Without(qs[Runnable], e)][Running := Without(qs[Running], e)]
                 [Blocked := Without(qs[Blocked], e)];
    forall st: State
      ensures st in out && out[st] == if e in b && st == b[e].state then Without(qs[st], e) else qs[st]
    {
      match st { case Runnable => case Running => case Blocked => }
    }
  }

  lemma {:induction false} WokenAllKeys(b: Board, es: seq<Entity>)
    ensures WokenAll(b, es).Keys == b.Keys
  {
    if es != [] {
      assert Woken(b, es[0]).Keys == b.Keys;
      WokenAllKeys(Woken(b, es[0]), es[1..]);
    }
  }

  lemma NoneRunning(qs: Queues, b: Board)
    requires Matches(qs, b) && !AnyRunning(b)
    ensures qs[Running] == []
  {
    var q := qs[Running];
    assert |q| > 0 ==> q[0] in q && Fits(q[0], Running, b);
  }

  lemma NoneRunnable(qs: Queues, b: Board)
    requires Matches(qs, b) && qs[Runnable] == []
    ensures forall e <- b :: b[e].state != Runnable
  {
    forall e <- b
      ensures b[e].state != Runnable
    {
      assert Holds(qs[b[e].state], e);
    }
  }

  /** The popped entry is the next entity, and the rest of the queue is without it. */
  lemma PopMatches(qs: Queues, b: Board, item: Item, rest: seq<Item>)
    requires Matches(qs, b) && item in qs[Runnable] && forall x <- qs[Runnable] :: PoppedBefore(item, x)
    requires exists i ::
               0 <= i < |qs[Runnable]| && qs[Runnable][i] == item && rest == qs[Runnable][..i] + qs[Runnable][i + 1..]
    ensures IsNext(b, item.entity) && rest == Without(qs[Runnable], item.entity)
  {
    var q := qs[Runnable];
    var i :| 0 <= i < |q| && q[i] == item && rest == q[..i] + q[i + 1..];
    PopIsWithout(q, i);
    assert Fits(item, Runnable, b);
    forall f <- b | b[f].state == Runnable
      ensures Before(b[item.entity].key, item.entity, b[f].key, f)
    {
      assert Holds(q, f);
      var j :| 0 <= j < |q| && q[j].entity == f;
      assert Fits(q[j], Runnable, b);
      assert PoppedBefore(item, q[j]);
    }
  }

  lemma WithoutTwice(qs: Queues, b: Board, e: Entity)
    requires Matches(qs, b)
    ensures Without(Without(qs[Runnable], e), e) == Without(qs[Runnable], e)
  {
    hide Without;
    WithoutFacts(qs[Runnable], e);
    HoldsMember(Without(qs[Runnable], e), e);
    WithoutAbsent(Without(qs[Runnable], e), e);
  }

  lemma FirstMatches(pid: nat)
    ensures Matches(map[Runnable := [Item(0, Process(pid))], Running := [], Blocked := []],
                    map[Process(pid) := Slot(Runnable, 0)])
  {
    var q := [Item(0, Process(pid))];
    assert q[0].entity == Process(pid);
    assert Holds(q, Process(pid));
    forall st: State
      ensures st in map[Runnable := q, Running := [], Blocked := []]
    {
      match st { case Runnable => case Running => case Blocked => }
    }
  }
}
