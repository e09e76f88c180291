/** Who can run: the scheduling state of every process and kernel task, and the
    steps the scheduler makes on it (`scheduler/mod.rs`). */
module RunBoard {
  datatype State = Runnable | Running | Blocked

  datatype Entity = Process(pid: nat) | Task(tid: nat)

  /** State of an entity and the time it was last selected. */
  datatype Slot = Slot(state: State, key: nat)

  type Board = map<Entity, Slot>

  /** Heap order among entities: processes below kernel tasks, then by number. */
  predicate Below(e: Entity, f: Entity) {
    match (e, f)
    case (Process(p), Process(q)) => p < q
    case (Process(_), Task(_)) => true
    case (Task(_), Process(_)) => false
    case (Task(s), Task(t)) => s < t
  }

  /** A queue item with key `k` for `e` is popped before one with key `l` for `f`:
      the older one, the larger entity on a tie. */
  predicate Before(k: nat, e: Entity, l: nat, f: Entity) {
    k < l || (k == l && (Below(f, e) || e == f))
  }

  predicate AnyRunning(b: Board) {
    exists e <- b :: b[e].state == Running
  }

  /** `e` is the entity the scheduler selects. */
  ghost predicate IsNext(b: Board, e: Entity) {
    && e in b && b[e].state == Runnable
    && forall f <- b :: b[f].state == Runnable ==> Before(b[e].key, e, b[f].key, f)
  }

  /** The next entity has waited longest; of several, a kernel task goes before a process
      and a larger number before a smaller. */
  lemma NextWaitedLongest(b: Board, e: Entity, f: Entity)
    requires IsNext(b, e) && f in b && b[f].state == Runnable && f != e
    ensures b[e].key < b[f].key ||
            (b[e].key == b[f].key &&
             match (e, f)
             case (Process(p), Process(q)) => p > q
             case (Task(s), Task(t)) => s > t
             case (Task(_), Process(_)) => true
             case (Process(_), Task(_)) => false)
  {
  }

  /** A change of state; nothing happens to an entity that is gone. */
  function Moved(b: Board, e: Entity, st: State): Board {
    if e in b then b[e := b[e].(state := st)] else b
  }

  function Picked(b: Board, e: Entity, now: nat): Board {
    b[e := Slot(Running, now)]
  }

  /** An entity that is moved is then in that state, with the time it had; no other changes. */
  lemma MovedEffect(b: Board, e: Entity, st: State)
    requires e in b
    ensures var b' := Moved(b, e, st);
            && b'.Keys == b.Keys && b'[e].state == st && b'[e].key == b[e].key
            && forall f <- b :: f != e ==> b'[f] == b[f]
  {
  }

  /** An entity that is picked runs and was selected now; no other changes. */
  lemma PickedEffect(b: Board, e: Entity, now: nat)
    requires e in b
    ensures var b' := Picked(b, e, now);
            && b'.Keys == b.Keys && b'[e].state == Running && b'[e].key == now
            && forall f <- b :: f != e ==> b'[f] == b[f]
  {
  }

  /** A deadline or waker reaching one entity. */
  function Woken(b: Board, e: Entity): Board {
    if e !in b then b
    else if e.Process? && b[e].state != Blocked then b
    else Moved(b, e, Runnable)
  }

  function WokenAll(b: Board, es: seq<Entity>): Board {
    if es == [] then b else WokenAll(Woken(b, es[0]), es[1..])
  }

  lemma {:induction false} WokenAllSnoc(b: Board, es: seq<Entity>, e: Entity)
    ensures WokenAll(b, es + [e]) == Woken(WokenAll(b, es), e)
  {
    if es == [] {
      assert WokenAll(Woken(b, e), []) == Woken(b, e);
      assert ([] + [e])[1..] == [];
    } else {
      assert (es + [e])[1..] == es[1..] + [e];
      WokenAllSnoc(Woken(b, es[0]), es[1..], e);
    }
  }

  /** Waking touches only listed entities, and only their state. */
  lemma {:induction false} WokenAllEffect(b: Board, es: seq<Entity>, e: Entity)
    requires e in b
    ensures e in WokenAll(b, es) && WokenAll(b, es).Keys == b.Keys && WokenAll(b, es)[e].key == b[e].key
    ensures WokenAll(b, es)[e].state ==
            if e in es && (e.Task? || b[e].state == Blocked) then Runnable else b[e].state
  {
    if es != [] { WokenAllEffect(Woken(b, es[0]), es[1..], e); }
  }
}
