/** Blocking system calls and the wakes that end them: the check, register, check
    again, yield, poll again, block protocol over all its interleavings
    (`syscall/channel.rs`, `syscall/mailbox.rs`, `syscall/process.rs`,
    `process/waker.rs`, `scheduler/mod.rs`). */
module Wakeups {
  import opened Common
  import opened RunBoard
  import opened Channels

  /** A blocking call in progress. */
  datatype Call =
    | Recv(ch: nat, side: Side)
    | Send(ch: nat, side: Side, msg: Message)
    | WaitMailbox(box: nat)
    | WaitChild(child: nat)
    | Sleep(deadline: nat)

  /** A process: running, runnable (with a pending call or not), or blocked in a call. */
  datatype Proc = InCpu | Queued(pending: Option<Call>) | Stuck(call: Call)

  /** A mailbox: how many events are pending, and its waker's slot. */
  datatype Box = Box(events: nat, waiting: Option<nat>)

  /** Process information: whether it exited, and its waker's slot. */
  datatype Child = Child(exited: bool, waiting: Option<nat>)

  datatype World = World(procs: map<nat, Proc>,
                         chans: map<nat, Pair>,
                         boxes: map<nat, Box>,
                         children: map<nat, Child>,
                         deadlines: set<(nat, nat)>,
                         now: nat)
  {
    // things not recorded yet are as they are when created

    function Chan(ch: nat): Pair {
      if ch in chans then chans[ch] else Pair(Half([], false, None), Half([], false, None))
    }

    function Mail(b: nat): Box {
      if b in boxes then boxes[b] else Box(0, None)
    }

    function Kid(c: nat): Child {
      if c in children then children[c] else Child(false, None)
    }
  }

  /** A poll of the call would complete. */
  ghost predicate Completes(w: World, call: Call)
  {
    match call
    case Recv(ch, s) => !RecvOutcome(w.Chan(ch), s, 0).QueueEmpty?
    case Send(ch, s, m) => !SendOutcome(w.Chan(ch), s, m).QueueFull?
    case WaitMailbox(b) => w.Mail(b).events > 0
    case WaitChild(c) => w.Kid(c).exited
    case Sleep(d) => w.now >= d
  }

  /** A receive completes when there is a message or nobody left to send one; a send when
      there is room, nobody left to receive, or the message is too large. */
  lemma CompletesWhen(w: World, ch: nat, s: Side, m: Message)
    ensures var ours, peer := w.Chan(ch).Of(s), w.Chan(ch).Of(s.Peer());
            && (Completes(w, Recv(ch, s)) <==> peer.queue != [] || peer.closed)
            && (Completes(w, Send(ch, s, m)) <==>
                  |ours.queue| < QUEUE_CAPACITY || peer.closed || |m.data| > MAX_MESSAGE_SIZE)
  {
  }

  /** The waker slot a call registers in. */
  datatype Slot = Endpoint(ch: nat, side: Side) | MailboxSlot(box: nat) | ChildSlot(child: nat)

  function SlotOf(call: Call): Option<Slot> {
    match call
    case Recv(ch, s) => Some(Endpoint(ch, s))
    case Send(ch, s, _) => Some(Endpoint(ch, s))
    case WaitMailbox(b) => Some(MailboxSlot(b))
    case WaitChild(c) => Some(ChildSlot(c))
    case Sleep(_) => None
  }

  ghost function Waiting(w: World, slot: Slot): Option<nat>
  {
    match slot
    case Endpoint(ch, s) => w.Chan(ch).Of(s).waiting
    case MailboxSlot(b) => w.Mail(b).waiting
    case ChildSlot(c) => w.Kid(c).waiting
  }

  /** The process will be woken: it sits in the slot of its call, or has a deadline. */
  ghost predicate Listed(w: World, p: nat, call: Call)
  {
    match call
    case Sleep(d) => (d, p) in w.deadlines
    case _ => Waiting(w, SlotOf(call).value) == Some(p)
  }

  /** No process is blocked in vain: its call still cannot complete and whoever makes it
      complete will wake it. A sleeper's deadline stays listed until a tick collects it. */
  ghost predicate NoLostWakeup(w: World) {
    forall p <- w.procs :: Safe(w, w.procs[p], p)
  }

  ghost predicate Safe(w: World, proc: Proc, p: nat)
  {
    proc.Stuck? ==> Listed(w, p, proc.call) && (proc.call.Sleep? || !Completes(w, proc.call))
  }

  // ---------------------------------------------------------------------------
  // Effects
  // ---------------------------------------------------------------------------

  /** `wake_process`: only a blocked process becomes runnable. */
  function Awaken(procs: map<nat, Proc>, who: Option<nat>): map<nat, Proc> {
    match who
    case None => procs
    case Some(p) => if p in procs && procs[p].Stuck? then procs[p := Queued(Some(procs[p].call))] else procs
  }

  ghost function SetChan(w: World, ch: nat, c: Pair, woken: Option<nat>): World {
    w.(chans := w.chans[ch := c], procs := Awaken(w.procs, woken))
  }

  /** A message accepted from side `s`. */
  ghost function Push(w: World, ch: nat, s: Side, m: Message): World
  {
    var c := w.Chan(ch);
    SetChan(w, ch, AfterSend(c, s, m), c.Of(s.Peer()).waiting)
  }

  /** A message taken by side `s`. */
  ghost function Pull(w: World, ch: nat, s: Side): World
    requires w.Chan(ch).Of(s.Peer()).queue != []
  {
    var c := w.Chan(ch);
    SetChan(w, ch, AfterRecv(c, s), if |c.Of(s.Peer()).queue| >= QUEUE_CAPACITY then c.Of(s.Peer()).waiting else None)
  }

  ghost function CloseEnd(w: World, ch: nat, s: Side): World
  {
    var c := w.Chan(ch);
    SetChan(w, ch, AfterClose(c, s), c.Of(s.Peer()).waiting)
  }

  /** A mailbox event that is accepted; merging may leave the count as it is. */
  ghost function Post(w: World, b: nat, count: nat): World
  {
    w.(boxes := w.boxes[b := Box(count, None)], procs := Awaken(w.procs, w.Mail(b).waiting))
  }

  ghost function ChildExits(w: World, c: nat): World
  {
    w.(children := w.children[c := Child(true, None)], procs := Awaken(w.procs, w.Kid(c).waiting))
  }

  /** A timer tick; deadlines are collected only if the scheduler lock is free. */
  function Expired(w: World, time: nat): set<(nat, nat)> {
    set d | d in w.deadlines && d.0 <= time
  }

  ghost function Tick(w: World, time: nat, locked: bool): World {
    if locked then w.(now := time)
    else w.(now := time, deadlines := w.deadlines - Expired(w, time),
            procs := map p | p in w.procs ::
                       if w.procs[p].Stuck? && exists t :: (t, p) in Expired(w, time)
                       then Queued(Some(w.procs[p].call)) else w.procs[p])
  }

  /** Registration by a poll that did not complete. */
  ghost function Enlist(w: World, p: nat, call: Call): World
  {
    match call
    case Recv(ch, s) => w.(chans := w.chans[ch := Registered(w.Chan(ch), s, p)])
    case Send(ch, s, _) => w.(chans := w.chans[ch := Registered(w.Chan(ch), s, p)])
    case WaitMailbox(b) => w.(boxes := w.boxes[b := w.Mail(b).(waiting := Some(p))])
    case WaitChild(c) => w.(children := w.children[c := w.Kid(c).(waiting := Some(p))])
    case Sleep(d) => w.(deadlines := w.deadlines + {(d, p)})
  }

  /** What a poll that completes does besides returning. */
  ghost predicate Finishes(w: World, call: Call, w': World)
    requires Completes(w, call)
  {
    match call
    case Recv(ch, s) => w' == w || (w.Chan(ch).Of(s.Peer()).queue != [] && w' == Pull(w, ch, s))
    case Send(ch, s, m) => if SendOutcome(w.Chan(ch), s, m).Sent? then w' == Push(w, ch, s, m) else w' == w
    case WaitMailbox(b) => w' == w.(boxes := w.boxes[b := w.Mail(b).(events := w.Mail(b).events - 1)])
    case _ => w' == w
  }

  // ---------------------------------------------------------------------------
  // Steps
  // ---------------------------------------------------------------------------

  datatype Action =
    | FirstPoll(pid: nat, call: Call)
    | PollAgain(pid: nat, call: Call)
    | Dispatch(pid: nat)
    | Yield(pid: nat)
    | Spawn(pid: nat)
    | Exit(pid: nat)
    | Deliver(ch: nat, side: Side, msg: Message)
    | Take(ch: nat, side: Side)
    | Close(ch: nat, side: Side)
    | PostEvent(box: nat, count: nat)
    | Forget(box: nat, count: nat)
    | ChildExit(child: nat)
    | TimerTick(time: nat, locked: bool)

  ghost function Becomes(w: World, p: nat, to: Proc): World {
    w.(procs := w.procs[p := to])
  }

  ghost predicate Step(w: World, a: Action, w': World)
  {
    match a
    case FirstPoll(p, call) =>
      // in the system call: return the result, or store the call and yield
      && p in w.procs && w.procs[p] == InCpu
      && (if Completes(w, call) then Finishes(w, call, w')
          else w' == Becomes(Enlist(w, p, call), p, Queued(Some(call))))
    case PollAgain(p, call) =>
      // selected by the scheduler: return the result, or block
      && p in w.procs && w.procs[p] == Queued(Some(call))
      && (if Completes(w, call) then Finishes(Becomes(w, p, InCpu), call, w')
          else w' == Becomes(Enlist(w, p, call), p, Stuck(call)))
    case Dispatch(p) =>
      p in w.procs && w.procs[p] == Queued(None) && w' == Becomes(w, p, InCpu)
    case Yield(p) =>
      p in w.procs && w.procs[p] == InCpu && w' == Becomes(w, p, Queued(None))
    case Spawn(p) =>
      p !in w.procs && w' == Becomes(w, p, Queued(None))
    case Exit(p) =>
      w' == w.(procs := w.procs - {p})
    case Deliver(ch, s, m) =>
      SendOutcome(w.Chan(ch), s, m).Sent? && w' == Push(w, ch, s, m)
    case Take(ch, s) =>
      w.Chan(ch).Of(s.Peer()).queue != [] && w' == Pull(w, ch, s)
    case Close(ch, s) =>
      w' == CloseEnd(w, ch, s)
    case PostEvent(b, n) =>
      n > 0 && w' == Post(w, b, n)
    case Forget(b, n) =>
      n <= w.Mail(b).events && w' == w.(boxes := w.boxes[b := w.Mail(b).(events := n)])
    case ChildExit(c) =>
      w' == ChildExits(w, c)
    case TimerTick(time, locked) =>
      time >= w.now && w' == Tick(w, time, locked)
  }

  /** The step puts a process in a slot that another blocked process is in. */
  ghost predicate Steals(w: World, a: Action)
  {
    && (a.FirstPoll? || a.PollAgain?) && !Completes(w, a.call) && SlotOf(a.call).Some?
    && match Waiting(w, SlotOf(a.call).value)
       case None => false
       case Some(q) => q != a.pid && q in w.procs && w.procs[q].Stuck? && SlotOf(w.procs[q].call) == SlotOf(a.call)
  }

  // ---------------------------------------------------------------------------
  // The invariant
  // ---------------------------------------------------------------------------

  /** Registering leaves every other slot, and every completion, as it was. */
  lemma EnlistEffect(w: World, p: nat, call: Call, other: Call, q: nat)
    ensures var w' := Enlist(w, p, call);
            && Completes(w', other) == Completes(w, other)
            && Listed(w', p, call)
            && (Listed(w, q, other) && (other.Sleep? || SlotOf(other) != SlotOf(call)) ==> Listed(w', q, other))
  {
    EnlistCompletes(w, p, call, other);
    hide Completes;
  }

  lemma EnlistCompletes(w: World, p: nat, call: Call, other: Call)
    ensures Completes(Enlist(w, p, call), other) == Completes(w, other)
  {
  }

  lemma PollKeeps(w: World, a: Action, w': World)
    requires NoLostWakeup(w) && (a.FirstPoll? || a.PollAgain?) && Step(w, a, w') && !Completes(w, a.call)
    requires !Steals(w, a)
    ensures NoLostWakeup(w')
  {
    hide Completes, Steals, Listed;
    forall q <- w'.procs
      ensures Safe(w', w'.procs[q], q)
    {
      if w'.procs[q].Stuck? { PollKeepsFor(w, a, w', q); }
    }
  }

  lemma PollKeepsFor(w: World, a: Action, w': World, q: nat)
    requires NoLostWakeup(w) && (a.FirstPoll? || a.PollAgain?) && Step(w, a, w') && !Completes(w, a.call)
    requires !Steals(w, a)
    requires q in w'.procs && w'.procs[q].Stuck?
    ensures Safe(w', w'.procs[q], q)
  {
    hide Completes, Enlist, Finishes;
    var other := w'.procs[q].call;
    EnlistEffect(w, a.pid, a.call, other, q);
    EnlistOnly(w, a.pid, a.call);
    SameThings(Enlist(w, a.pid, a.call), w', other);
  }

  /** Registering changes no process. */
  lemma EnlistOnly(w: World, p: nat, call: Call)
    ensures Enlist(w, p, call).procs == w.procs
  {
  }

  lemma PushKeeps(w: World, ch: nat, s: Side, m: Message)
    requires NoLostWakeup(w) && SendOutcome(w.Chan(ch), s, m).Sent?
    ensures NoLostWakeup(Push(w, ch, s, m))
  {
    hide Safe;
    forall p <- Push(w, ch, s, m).procs
      ensures Safe(Push(w, ch, s, m), Push(w, ch, s, m).procs[p], p)
    {
      PushSafe(w, ch, s, m, p);
    }
  }

  lemma PushSafe(w: World, ch: nat, s: Side, m: Message, p: nat)
    requires p in w.procs && Safe(w, w.procs[p], p)
    requires SendOutcome(w.Chan(ch), s, m).Sent?
    ensures p in Push(w, ch, s, m).procs && Safe(Push(w, ch, s, m), Push(w, ch, s, m).procs[p], p)
  {
  }

  lemma PullKeeps(w: World, ch: nat, s: Side)
    requires NoLostWakeup(w) && w.Chan(ch).Of(s.Peer()).queue != []
    ensures NoLostWakeup(Pull(w, ch, s))
  {
    hide Safe;
    forall p <- Pull(w, ch, s).procs
      ensures Safe(Pull(w, ch, s), Pull(w, ch, s).procs[p], p)
    {
      PullSafe(w, ch, s, p);
    }
  }

  lemma PullSafe(w: World, ch: nat, s: Side, p: nat)
    requires p in w.procs && Safe(w, w.procs[p], p)
    requires w.Chan(ch).Of(s.Peer()).queue != []
    ensures p in Pull(w, ch, s).procs && Safe(Pull(w, ch, s), Pull(w, ch, s).procs[p], p)
  {
  }

  lemma CloseKeeps(w: World, ch: nat, s: Side)
    requires NoLostWakeup(w)
    ensures NoLostWakeup(CloseEnd(w, ch, s))
  {
    hide Safe;
    forall p <- CloseEnd(w, ch, s).procs
      ensures Safe(CloseEnd(w, ch, s), CloseEnd(w, ch, s).procs[p], p)
    {
      CloseSafe(w, ch, s, p);
    }
  }

  lemma CloseSafe(w: World, ch: nat, s: Side, p: nat)
    requires p in w.procs && Safe(w, w.procs[p], p)
    ensures p in CloseEnd(w, ch, s).procs && Safe(CloseEnd(w, ch, s), CloseEnd(w, ch, s).procs[p], p)
  {
  }

  lemma PostKeeps(w: World, b: nat, n: nat)
    requires NoLostWakeup(w)
    ensures NoLostWakeup(Post(w, b, n))
  {
  }

  lemma ChildExitKeeps(w: World, c: nat)
    requires NoLostWakeup(w)
    ensures NoLostWakeup(ChildExits(w, c))
  {
  }

  lemma TickKeeps(w: World, time: nat, locked: bool)
    requires NoLostWakeup(w)
    ensures NoLostWakeup(Tick(w, time, locked))
  {
  }

  /** A change of one process that is not blocked afterwards keeps the invariant. */
  lemma ProcKeeps(w: World, p: nat, to: Proc)
    requires NoLostWakeup(w) && !to.Stuck?
    ensures NoLostWakeup(Becomes(w, p, to))
  {
    hide Completes;
    forall call
      ensures Completes(Becomes(w, p, to), call) == Completes(w, call)
    {
      SameThings(w, Becomes(w, p, to), call);
    }
  }

  lemma SameThings(w: World, w': World, call: Call)
    requires w' == w.(procs := w'.procs)
    ensures Completes(w', call) == Completes(w, call)
    ensures forall q :: Listed(w', q, call) == Listed(w, q, call)
  {
  }

  lemma FinishKeeps(w: World, call: Call, w': World)
    requires NoLostWakeup(w) && Completes(w, call) && Finishes(w, call, w')
    ensures NoLostWakeup(w')
  {
    match call {
      case Recv(ch, s) => if w' != w { PullKeeps(w, ch, s); }
      case Send(ch, s, m) => if SendOutcome(w.Chan(ch), s, m).Sent? { PushKeeps(w, ch, s, m); }
      case WaitMailbox(b) => FewerEvents(w, b, w.Mail(b).events - 1);
      case _ =>
    }
  }

  lemma FewerEvents(w: World, b: nat, n: nat)
    requires NoLostWakeup(w) && n <= w.Mail(b).events
    ensures NoLostWakeup(w.(boxes := w.boxes[b := w.Mail(b).(events := n)]))
  {
  }

  /** Every step that steals no slot keeps the invariant. */
  lemma StepKeeps(w: World, a: Action, w': World)
    requires NoLostWakeup(w) && Step(w, a, w') && !Steals(w, a)
    ensures NoLostWakeup(w')
  {
    hide NoLostWakeup, Completes, Enlist, Finishes, Push, Pull, CloseEnd, Post, ChildExits, Tick, Steals;
    match a {
      case FirstPoll(p, call) =>
        if Completes(w, call) { FinishKeeps(w, call, w'); } else { PollKeeps(w, a, w'); }
      case PollAgain(p, call) =>
        if Completes(w, call) {
          ProcKeeps(w, p, InCpu);
          SameThings(w, Becomes(w, p, InCpu), call);
          FinishKeeps(Becomes(w, p, InCpu), call, w');
        } else {
          PollKeeps(w, a, w');
        }
      case Dispatch(p) => ProcKeeps(w, p, InCpu);
      case Yield(p) => ProcKeeps(w, p, Queued(None));
      case Spawn(p) => ProcKeeps(w, p, Queued(None));
      case Exit(p) => ExitKeeps(w, p);
      case Deliver(ch, s, m) => PushKeeps(w, ch, s, m);
      case Take(ch, s) => PullKeeps(w, ch, s);
      case Close(ch, s) => CloseKeeps(w, ch, s);
      case PostEvent(b, n) => PostKeeps(w, b, n);
      case Forget(b, n) => FewerEvents(w, b, n);
      case ChildExit(c) => ChildExitKeeps(w, c);
      case TimerTick(time, locked) => TickKeeps(w, time, locked);
    }
  }

  lemma ExitKeeps(w: World, p: nat)
    requires NoLostWakeup(w)
    ensures NoLostWakeup(w.(procs := w.procs - {p}))
  {
    hide Completes;
    forall call
      ensures Completes(w.(procs := w.procs - {p}), call) == Completes(w, call)
    {
      SameThings(w, w.(procs := w.procs - {p}), call);
    }
  }

  /** A step that steals a slot breaks it: the process that was in the slot stays
      blocked and nobody will wake it. */
  lemma StealBreaks(w: World, a: Action, w': World)
    requires NoLostWakeup(w) && Step(w, a, w') && Steals(w, a)
    ensures !NoLostWakeup(w')
  {
    var q := Waiting(w, SlotOf(a.call).value).value;
    assert w'.procs[q] == w.procs[q];
    EnlistEffect(w, a.pid, a.call, a.call, a.pid);
  }

  // ---------------------------------------------------------------------------
  // Runs
  // ---------------------------------------------------------------------------

  ghost predicate IsRun(run: seq<World>, acts: seq<Action>) {
    && |run| == |acts| + 1 && NoLostWakeup(run[0])
    && forall i :: 0 <= i < |acts| ==> Step(run[i], acts[i], run[i + 1])
  }

  /** A kernel with its first process, runnable: nobody waits. */
  lemma InitialRightly(p: nat)
    ensures var w := World(map[p := Queued(None)], map[], map[], map[], {}, 0);
            NoLostWakeup(w) && Punctual(w)
  {
  }

  /** Over any run with at most one waiter per slot no wakeup is ever lost. */
  lemma {:induction false} NeverLost(run: seq<World>, acts: seq<Action>, n: nat)
    requires IsRun(run, acts) && n < |run| && forall i :: 0 <= i < n ==> !Steals(run[i], acts[i])
    ensures NoLostWakeup(run[n])
  {
    hide Step, Steals, NoLostWakeup;
    if n > 0 {
      NeverLost(run, acts, n - 1);
      StepKeeps(run[n - 1], acts[n - 1], run[n]);
    }
  }

  /** Of the messages waiting in one direction only the first ones went, and none came. */
  ghost predicate OnlyTaken(q: seq<Message>, q': seq<Message>) {
    |q'| <= |q| && q' == q[|q| - |q'|..]
  }

  /** Once side `s` is closed it stays so and its peer sends nothing more. */
  ghost predicate StaysClosed(c: Pair, c': Pair, s: Side) {
    c.Of(s).closed ==> c'.Of(s).closed && OnlyTaken(c.Of(s.Peer()).queue, c'.Of(s.Peer()).queue)
  }

  lemma SendStays(c: Pair, t: Side, m: Message, s: Side)
    requires SendOutcome(c, t, m).Sent?
    ensures StaysClosed(c, AfterSend(c, t, m), s)
  {
  }

  lemma RecvStays(c: Pair, t: Side, s: Side)
    requires c.Of(t.Peer()).queue != []
    ensures StaysClosed(c, AfterRecv(c, t), s)
  {
  }

  lemma OtherStays(c: Pair, t: Side, p: nat, s: Side)
    ensures StaysClosed(c, c, s) && StaysClosed(c, AfterClose(c, t), s) && StaysClosed(c, Registered(c, t, p), s)
  {
  }

  lemma FinishStays(w: World, call: Call, w': World, ch: nat, s: Side)
    requires Completes(w, call) && Finishes(w, call, w')
    ensures StaysClosed(w.Chan(ch), w'.Chan(ch), s)
  {
    hide Completes, StaysClosed, SendOutcome, AfterSend, AfterRecv;
    OtherStays(w.Chan(ch), s, 0, s);
    match call {
      case Recv(_, t) => if w.Chan(ch).Of(t.Peer()).queue != [] { RecvStays(w.Chan(ch), t, s); }
      case Send(_, t, m) => if SendOutcome(w.Chan(ch), t, m).Sent? { SendStays(w.Chan(ch), t, m, s); }
      case _ =>
    }
  }

  lemma EnlistStays(w: World, call: Call, p: nat, ch: nat, s: Side)
    ensures StaysClosed(w.Chan(ch), Enlist(w, p, call).Chan(ch), s)
  {
    hide StaysClosed, Registered;
    var t := if call.Recv? || call.Send? then call.side else s;
    OtherStays(w.Chan(ch), t, p, s);
  }

  /** A poll of a blocking call, complete or not, leaves a closed side closed. */
  lemma PollStays(w: World, a: Action, w': World, ch: nat, s: Side)
    requires Step(w, a, w') && (a.FirstPoll? || a.PollAgain?)
    ensures StaysClosed(w.Chan(ch), w'.Chan(ch), s)
  {
    hide StaysClosed, Finishes, Enlist, Completes;
    if Completes(w, a.call) {
      var v := if a.FirstPoll? then w else Becomes(w, a.pid, InCpu);
      SameThings(w, v, a.call);
      FinishStays(v, a.call, w', ch, s);
    } else {
      EnlistStays(w, a.call, a.pid, ch, s);
    }
  }

  /** Once a side is closed every step leaves it closed and adds nothing to what its peer sent. */
  lemma StepStays(w: World, a: Action, w': World, ch: nat, s: Side)
    requires Step(w, a, w')
    ensures StaysClosed(w.Chan(ch), w'.Chan(ch), s)
  {
    hide StaysClosed, Finishes, Enlist, Completes, SendOutcome, AfterSend, AfterRecv, AfterClose;
    OtherStays(w.Chan(ch), s, 0, s);
    match a {
      case FirstPoll(_, _) => PollStays(w, a, w', ch, s);
      case PollAgain(_, _) => PollStays(w, a, w', ch, s);
      case Deliver(to, t, m) => if to == ch { SendStays(w.Chan(ch), t, m, s); }
      case Take(at, t) => if at == ch { RecvStays(w.Chan(ch), t, s); }
      case Close(_, t) => OtherStays(w.Chan(ch), t, 0, s);
      case _ =>
    }
  }

  /** Over any run: from the moment a side is closed its peer delivers only what was queued. */
  lemma {:induction false} ClosedForGood(run: seq<World>, acts: seq<Action>, i: nat, n: nat, ch: nat, s: Side)
    requires IsRun(run, acts) && i <= n < |run| && run[i].Chan(ch).Of(s).closed
    ensures run[n].Chan(ch).Of(s).closed
    ensures OnlyTaken(run[i].Chan(ch).Of(s.Peer()).queue, run[n].Chan(ch).Of(s.Peer()).queue)
  {
    hide Step, NoLostWakeup;
    if n > i {
      ClosedForGood(run, acts, i, n - 1, ch, s);
      StepStays(run[n - 1], acts[n - 1], run[n], ch, s);
    }
  }

  /** So a step keeps the invariant exactly when it steals no slot. */
  lemma StepKeepsIff(w: World, a: Action, w': World)
    requires NoLostWakeup(w) && Step(w, a, w')
    ensures NoLostWakeup(w') <==> !Steals(w, a)
  {
    hide Step, Steals, NoLostWakeup;
    if Steals(w, a) { StealBreaks(w, a, w'); } else { StepKeeps(w, a, w'); }
  }

  // ---------------------------------------------------------------------------
  // Sleepers
  // ---------------------------------------------------------------------------

  /** No blocked sleeper is overdue. */
  ghost predicate Punctual(w: World) {
    forall p <- w.procs :: w.procs[p].Stuck? && w.procs[p].call.Sleep? ==> w.now < w.procs[p].call.deadline
  }

  /** Every blocked process has a call that cannot complete and will be woken. */
  ghost predicate AllWaitRightly(w: World) {
    forall p <- w.procs :: w.procs[p].Stuck? ==> Listed(w, p, w.procs[p].call) && !Completes(w, w.procs[p].call)
  }

  lemma RightlyIff(w: World)
    ensures AllWaitRightly(w) <==> NoLostWakeup(w) && Punctual(w)
  {
    hide Listed;
  }

  /** A tick that cannot take the scheduler lock and passes the deadline of a blocked
      sleeper. */
  ghost predicate Skips(w: World, a: Action) {
    && a.TimerTick? && a.locked
    && exists p :: p in w.procs && w.procs[p].Stuck? && w.procs[p].call.Sleep? && w.procs[p].call.deadline <= a.time
  }

  /** A tick that takes the lock leaves no overdue sleeper, whatever was skipped before. */
  lemma TickClears(w: World, time: nat)
    requires NoLostWakeup(w)
    ensures Punctual(Tick(w, time, false))
  {
    var w' := Tick(w, time, false);
    forall p | p in w'.procs && w'.procs[p].Stuck? && w'.procs[p].call.Sleep?
      ensures w'.now < w'.procs[p].call.deadline
    {
      assert Safe(w, w.procs[p], p);
      assert (w.procs[p].call.deadline, p) in w.deadlines;
    }
  }

  /** A call that completes blocks nobody and takes no time. */
  lemma FinishWakes(w: World, call: Call, w': World, p: nat)
    requires Completes(w, call) && Finishes(w, call, w')
    ensures w'.now == w.now && (p in w'.procs && w'.procs[p].Stuck? ==> p in w.procs && w.procs[p] == w'.procs[p])
  {
    hide Completes, SendOutcome, RecvOutcome, AfterSend, AfterRecv;
  }

  /** Blocked processes other than the one that acts were blocked before, in the same call. */
  lemma StuckBefore(w: World, a: Action, w': World, p: nat)
    requires Step(w, a, w') && p in w'.procs && w'.procs[p].Stuck?
    ensures || (p in w.procs && w.procs[p] == w'.procs[p])
            || (a.PollAgain? && a.pid == p && !Completes(w, a.call) && w'.procs[p] == Stuck(a.call))
    ensures w'.now == if a.TimerTick? then a.time else w.now
  {
    hide Completes, Finishes, SendOutcome, RecvOutcome, AfterSend, AfterRecv, AfterClose, Registered;
    if (a.FirstPoll? || a.PollAgain?) && Completes(w, a.call) {
      var from := if a.FirstPoll? then w else Becomes(w, a.pid, InCpu);
      SameThings(w, from, a.call);
      FinishWakes(from, a.call, w', p);
    }
  }

  /** Only a skipped tick makes a sleeper overdue. */
  lemma PunctualIff(w: World, a: Action, w': World)
    requires NoLostWakeup(w) && Punctual(w) && Step(w, a, w')
    ensures Punctual(w') <==> !Skips(w, a)
  {
    if Skips(w, a) {
      var p :| p in w.procs && w.procs[p].Stuck? && w.procs[p].call.Sleep? && w.procs[p].call.deadline <= a.time;
      assert w'.procs[p] == w.procs[p];
    } else if a.TimerTick? && !a.locked {
      TickClears(w, a.time);
    } else {
      hide Step, NoLostWakeup;
      forall p | p in w'.procs && w'.procs[p].Stuck? && w'.procs[p].call.Sleep?
        ensures w'.now < w'.procs[p].call.deadline
      {
        StuckBefore(w, a, w', p);
      }
    }
  }

  /** From a state in which everybody waits rightly a step leads to another exactly when it
      neither steals a slot nor skips a deadline. */
  lemma RightlyStepIff(w: World, a: Action, w': World)
    requires AllWaitRightly(w) && Step(w, a, w')
    ensures AllWaitRightly(w') <==> !Steals(w, a) && !Skips(w, a)
  {
    hide Step, Steals, Skips, NoLostWakeup, Punctual, AllWaitRightly;
    RightlyIff(w);
    RightlyIff(w');
    StepKeepsIff(w, a, w');
    PunctualIff(w, a, w');
  }

  /** With one waiter per slot and no skipped tick, everybody always waits rightly. */
  lemma {:induction false} AlwaysRightly(run: seq<World>, acts: seq<Action>, n: nat)
    requires IsRun(run, acts) && n < |run| && Punctual(run[0])
    requires forall i :: 0 <= i < n ==> !Steals(run[i], acts[i]) && !Skips(run[i], acts[i])
    ensures AllWaitRightly(run[n])
  {
    hide Step, Steals, Skips, NoLostWakeup, Punctual, AllWaitRightly;
    if n == 0 {
      RightlyIff(run[0]);
    } else {
      AlwaysRightly(run, acts, n - 1);
      RightlyStepIff(run[n - 1], acts[n - 1], run[n]);
    }
  }

  /** After any run with one waiter per slot, the first tick that takes the lock ends all
      delays: from then on everybody waits rightly until the next skipped tick. */
  lemma {:induction false} RightlyAfterTick(run: seq<World>, acts: seq<Action>, t: nat, n: nat)
    requires IsRun(run, acts) && t < n < |run| && acts[t].TimerTick? && !acts[t].locked
    requires forall i :: 0 <= i < n ==> !Steals(run[i], acts[i])
    requires forall i :: t < i < n ==> !Skips(run[i], acts[i])
    ensures AllWaitRightly(run[n])
    decreases n
  {
    hide Steals, Skips, NoLostWakeup, Punctual, AllWaitRightly;
    NeverLost(run, acts, n);
    if n == t + 1 {
      NeverLost(run, acts, t);
      assert Step(run[t], acts[t], run[n]);
      TickClears(run[t], acts[t].time);
      RightlyIff(run[n]);
    } else {
      RightlyAfterTick(run, acts, t, n - 1);
      RightlyStepIff(run[n - 1], acts[n - 1], run[n]);
    }
  }

  /** A sleeper until 5 and a tick at 7 that cannot take the lock: the sleeper stays blocked
      though its call would complete. */
  lemma SkippedTickExample()
    ensures var w := World(map[1 := Stuck(Sleep(5))], map[], map[], map[], {(5, 1)}, 3);
            var w' := w.(now := 7);
            && AllWaitRightly(w) && Step(w, TimerTick(7, true), w') && NoLostWakeup(w')
            && w'.procs[1] == Stuck(Sleep(5)) && Completes(w', Sleep(5))
  {
  }

  /** Two processes in a receive on copies of one endpoint, whose slot holds `slot`. */
  function Shared(first: Proc, second: Proc, slot: Option<nat>, queue: seq<Message>): World {
    World(map[1 := first, 2 := second], map[0 := Pair(Half([], false, slot), Half(queue, false, None))],
          map[], map[], {}, 0)
  }

  lemma SharedFirst()
    ensures Step(Shared(Queued(Some(Recv(0, A))), Queued(Some(Recv(0, A))), None, []), PollAgain(1, Recv(0, A)),
                 Shared(Stuck(Recv(0, A)), Queued(Some(Recv(0, A))), Some(1), []))
  {
    var call := Recv(0, A);
    var w := Shared(Queued(Some(call)), Queued(Some(call)), None, []);
    assert Becomes(Enlist(w, 1, call), 1, Stuck(call)) == Shared(Stuck(call), Queued(Some(call)), Some(1), []);
  }

  lemma SharedSecond()
    ensures Step(Shared(Stuck(Recv(0, A)), Queued(Some(Recv(0, A))), Some(1), []), PollAgain(2, Recv(0, A)),
                 Shared(Stuck(Recv(0, A)), Stuck(Recv(0, A)), Some(2), []))
  {
    var call := Recv(0, A);
    var w := Shared(Stuck(call), Queued(Some(call)), Some(1), []);
    assert Becomes(Enlist(w, 2, call), 2, Stuck(call)) == Shared(Stuck(call), Stuck(call), Some(2), []);
  }

  lemma SharedArrival(m: Message)
    requires |m.data| <= MAX_MESSAGE_SIZE
    ensures Step(Shared(Stuck(Recv(0, A)), Stuck(Recv(0, A)), Some(2), []), Deliver(0, B, m),
                 Shared(Stuck(Recv(0, A)), Queued(Some(Recv(0, A))), None, [m]))
  {
    var call := Recv(0, A);
    var w := Shared(Stuck(call), Stuck(call), Some(2), []);
    assert [] + [m] == [m];
    assert Push(w, 0, B, m) == Shared(Stuck(call), Queued(Some(call)), None, [m]);
  }

  /** On that run the first process is never woken, though a message arrives. */
  lemma SharedEndpointLoses(m: Message)
    requires |m.data| <= MAX_MESSAGE_SIZE
    ensures var call := Recv(0, A);
            var w0 := Shared(Queued(Some(call)), Queued(Some(call)), None, []);
            exists w1, w2, w3 ::
              && NoLostWakeup(w0) && Step(w0, PollAgain(1, call), w1)
              && Step(w1, PollAgain(2, call), w2) && Step(w2, Deliver(0, B, m), w3)
              && 1 in w3.procs && w3.procs[1] == Stuck(call) && Completes(w3, call)
              && Waiting(w3, Endpoint(0, A)) == None
  {
    hide Step;
    SharedFirst();
    SharedSecond();
    SharedArrival(m);
  }
}
