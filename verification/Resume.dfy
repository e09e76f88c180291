/** What a process has saved when it is not running, and what it is resumed with
    (`process/mod.rs`, `scheduler/mod.rs`, `syscall/mod.rs`). */
module Resuming {
  import opened Common
  import opened RunBoard

  type Registers = seq<nat>

  /** Full state captured by an interrupt. */
  datatype SavedState = SavedState(rip: nat, rsp: nat, rest: Registers)

  /** How userspace is entered: with the full interrupted state, by a system-call
      return that restores the callee-saved registers, or with nothing to restore. */
  datatype Entry =
    | FromInterrupt(state: SavedState)
    | FromSyscall(ip: nat, sp: nat, code: int, calleeSaved: Registers)
    | FreshStart(ip: nat, sp: nat)

  /** How the process last stopped running. */
  datatype Stop =
    | NeverRan(ip: nat, sp: nat)
    | Preempted(state: SavedState)
    | Yielded(ip: nat, sp: nat, calleeSaved: Registers)
    | Pending(ip: nat, sp: nat, calleeSaved: Registers)

  class ProcessContext {
    var ip: nat
    var sp: nat
    var saved: Option<SavedState>
    var yieldCalleeSaved: Option<Registers>
    var pending: Option<Registers>
    /** None while the process is in userspace or in a system call. */
    ghost var stop: Option<Stop>

    /** The saved fields hold what the last stop needs. Fields of earlier stops may
        still be set: callee-saved registers of an old yield, in particular. */
    ghost predicate Valid()
      reads this
    {
      match stop
      case None => saved == None && pending == None
      case Some(NeverRan(i, s)) => ip == i && sp == s && saved == None && yieldCalleeSaved == None && pending == None
      case Some(Preempted(state)) => ip == state.rip && sp == state.rsp && saved == Some(state) && pending == None
      case Some(Yielded(i, s, cs)) =>
        ip == i && sp == s && saved == None && yieldCalleeSaved == Some(cs) && pending == None
      case Some(Pending(i, s, cs)) => ip == i && sp == s && saved == None && pending == Some(cs)
    }

    /** `from_elf_data`. */
    constructor (entry: nat, stack: nat)
      ensures Valid() && stop == Some(NeverRan(entry, stack))
    {
      ip, sp, saved, yieldCalleeSaved, pending := entry, stack, None, None, None;
      stop := Some(NeverRan(entry, stack));
    }

    /** `save_state`, on preemption of userspace. */
    method SaveState(state: SavedState)
      requires Valid() && stop == None
      modifies this
      ensures Valid() && stop == Some(Preempted(state))
    {
      saved := Some(state);
      ip := state.rip;
      sp := state.rsp;
      stop := Some(Preempted(state));
    }

    /** `set_resume_point`, on yield. */
    method SetResumePoint(i: nat, s: nat, cs: Registers)
      requires Valid() && stop == None
      modifies this
      ensures Valid() && stop == Some(Yielded(i, s, cs))
    {
      ip := i;
      sp := s;
      saved := None;
      yieldCalleeSaved := Some(cs);
      stop := Some(Yielded(i, s, cs));
    }

    /** `poll_and_dispatch` when the first poll is not ready: store the call, then yield. */
    method SuspendCall(i: nat, s: nat, cs: Registers)
      requires Valid() && stop == None
      modifies this
      ensures Valid() && stop == Some(Pending(i, s, cs))
    {
      pending := Some(cs);
      ip := i;
      sp := s;
      saved := None;
      yieldCalleeSaved := Some(cs);
      stop := Some(Pending(i, s, cs));
    }

    /** One dispatch of the selected process: `poll_pending_syscall`, then
        `dispatch_completed_syscall` or `dispatch_normal_process`. `ready` is the result
        of the poll of the pending call, if there is one. */
    method Dispatch(ready: Option<int>) returns (entry: Option<Entry>)
      requires Valid() && stop.Some?
      modifies this
      ensures Valid()
      ensures match old(stop).value
              case NeverRan(i, s) => entry == Some(FreshStart(i, s)) && stop == None
              case Preempted(state) => entry == Some(FromInterrupt(state)) && stop == None
              case Yielded(i, s, cs) => entry == Some(FromSyscall(i, s, 0, cs)) && stop == None
              case Pending(i, s, cs) =>
                (match ready
                 case None => entry == None && stop == old(stop)
                 case Some(code) => entry == Some(FromSyscall(i, s, code, cs)) && stop == None)
    {
      var call := pending;
      pending := None;
      match call {
        case Some(cs) =>
          if ready == None {
            // put the pending call back
            pending := Some(cs);
            return None;
          }
          stop := None;
          return Some(FromSyscall(ip, sp, ready.value, cs));
        case None =>
          var state, cs := saved, yieldCalleeSaved;
          saved := None;
          yieldCalleeSaved := None;
          stop := None;
          if state.Some? {
            return Some(FromInterrupt(state.value));
          } else if cs.Some? {
            return Some(FromSyscall(ip, sp, 0, cs.value));
          } else {
            return Some(FreshStart(ip, sp));
          }
      }
    }
  }
}
