/** Two-ended message channels (`resource/channel.rs`), the handle table
    (`handle.rs`), and the polls of the send and receive system calls
    (`syscall/channel.rs`). */
module Channels {
  import opened Common
  import opened RunBoard

  const QUEUE_CAPACITY: nat := 16

  datatype Side = A | B
  {
    function Peer(): Side {
      if A? then B else A
    }
  }

  /** Message bytes and the resource attached to them, if any. */
  datatype Message = Message(data: seq<Byte>, attachment: Option<nat>)

  /** One side: the messages it sent that wait to be received, whether it is closed,
      and the process registered in its waker. */
  datatype Half = Half(queue: seq<Message>, closed: bool, waiting: Option<nat>)

  datatype Pair = Pair(a: Half, b: Half)
  {
    function Of(s: Side): Half {
      if s.A? then a else b
    }

    function With(s: Side, h: Half): Pair {
      if s.A? then this.(a := h) else this.(b := h)
    }
  }

  datatype SendResult = Sent | MessageTooLarge | SendPeerClosed | QueueFull

  datatype RecvResult = Received(msg: Message) | BufferTooSmall | RecvPeerClosed | QueueEmpty

  function SendOutcome(c: Pair, s: Side, m: Message): SendResult {
    if |m.data| > MAX_MESSAGE_SIZE then MessageTooLarge
    else if c.Of(s.Peer()).closed then SendPeerClosed
    else if |c.Of(s).queue| >= QUEUE_CAPACITY then QueueFull
    else Sent
  }

  function RecvOutcome(c: Pair, s: Side, bufLen: nat): RecvResult {
    var peer := c.Of(s.Peer());
    if peer.queue != [] then
      if bufLen < |peer.queue[0].data| then BufferTooSmall else Received(peer.queue[0])
    else if peer.closed then RecvPeerClosed else QueueEmpty
  }

  /** `IoWaker::wake` takes whoever is registered. */
  function Woke(c: Pair, s: Side): Pair {
    c.With(s, c.Of(s).(waiting := None))
  }

  /** The channel after a send that is accepted. */
  function AfterSend(c: Pair, s: Side, m: Message): Pair {
    Woke(c.With(s, c.Of(s).(queue := c.Of(s).queue + [m])), s.Peer())
  }

  /** The channel after a receive that takes a message; a sender that saw a full queue is woken. */
  function AfterRecv(c: Pair, s: Side): Pair
    requires c.Of(s.Peer()).queue != []
  {
    var q := c.Of(s.Peer()).queue;
    var taken := c.With(s.Peer(), c.Of(s.Peer()).(queue := q[1..]));
    if |q| >= QUEUE_CAPACITY then Woke(taken, s.Peer()) else taken
  }

  function AfterClose(c: Pair, s: Side): Pair {
    Woke(c.With(s, c.Of(s).(closed := true)), s.Peer())
  }

  function Registered(c: Pair, s: Side, pid: nat): Pair {
    c.With(s, c.Of(s).(waiting := Some(pid)))
  }

  // ---------------------------------------------------------------------------
  // The channel object
  // ---------------------------------------------------------------------------

  /** In each direction: all messages accepted, and those received so far. */
  datatype History = History(sent: seq<Message>, received: seq<Message>)

  class Channel {
    var halves: Pair
    /** Messages from A, and from B. */
    ghost var fromA: History
    ghost var fromB: History

    /** Received messages are the first ones sent, in order; the rest are queued, never
        more than the capacity, none over the size limit. */
    ghost predicate Valid()
      reads this
    {
      && fromA.sent == fromA.received + halves.a.queue && |halves.a.queue| <= QUEUE_CAPACITY
      && fromB.sent == fromB.received + halves.b.queue && |halves.b.queue| <= QUEUE_CAPACITY
      && (forall m <- halves.a.queue + halves.b.queue :: |m.data| <= MAX_MESSAGE_SIZE)
    }

    ghost function From(s: Side): History
      reads this
    {
      if s.A? then fromA else fromB
    }

    /** A closed side stays closed, and no further message of its peer is accepted. */
    twostate predicate ClosedForGood()
      reads this
    {
      && (old(halves.a.closed) ==> halves.a.closed && fromB.sent == old(fromB.sent))
      && (old(halves.b.closed) ==> halves.b.closed && fromA.sent == old(fromA.sent))
    }

    /** `create_pair`. */
    constructor ()
      ensures Valid() && halves == Pair(Half([], false, None), Half([], false, None))
      ensures fromA == History([], []) == fromB
    {
      halves := Pair(Half([], false, None), Half([], false, None));
      fromA, fromB := History([], []), History([], []);
    }

    /** `IoWaker::wake` of one side: the process to wake, which is no longer registered. */
    method Wake(s: Side) returns (woken: Option<nat>)
      modifies this`halves
      ensures woken == old(halves).Of(s).waiting && halves == Woke(old(halves), s)
    {
      woken := halves.Of(s).waiting;
      halves := halves.With(s, halves.Of(s).(waiting := None));
    }

    /** `send_with_attachment`. */
    method Send(s: Side, m: Message) returns (r: SendResult, woken: Option<nat>)
      requires Valid()
      modifies this
      ensures Valid() && ClosedForGood() && r == SendOutcome(old(halves), s, m)
      ensures r.MessageTooLarge? <==> |m.data| > MAX_MESSAGE_SIZE
      ensures r.SendPeerClosed? <==> |m.data| <= MAX_MESSAGE_SIZE && old(halves).Of(s.Peer()).closed
      ensures r.QueueFull? <==>
                && |m.data| <= MAX_MESSAGE_SIZE && !old(halves).Of(s.Peer()).closed
                && |old(halves).Of(s).queue| == QUEUE_CAPACITY
      ensures r == Sent ==> halves == AfterSend(old(halves), s, m) && woken == old(halves).Of(s.Peer()).waiting
      ensures r == Sent ==>
                var c := old(halves);
                && halves.Of(s) == Half(c.Of(s).queue + [m], c.Of(s).closed, c.Of(s).waiting)
                && halves.Of(s.Peer()) == Half(c.Of(s.Peer()).queue, false, None)
      ensures r == Sent ==> From(s) == History(old(From(s)).sent + [m], old(From(s)).received)
      ensures r != Sent ==> halves == old(halves) && woken == None && From(s) == old(From(s))
      ensures From(s.Peer()) == old(From(s.Peer()))
    {
      if |m.data| > MAX_MESSAGE_SIZE {
        return MessageTooLarge, None;
      }
      var ours, peer := halves.Of(s), halves.Of(s.Peer());
      if peer.closed {
        return SendPeerClosed, None;
      }
      if |ours.queue| >= QUEUE_CAPACITY {
        return QueueFull, None;
      }
      halves := halves.With(s, ours.(queue := ours.queue + [m]));
      if s.A? {
        fromA := fromA.(sent := fromA.sent + [m]);
      } else {
        fromB := fromB.(sent := fromB.sent + [m]);
      }
      woken := Wake(s.Peer());
      return Sent, woken;
    }

    /** `recv_with_attachment`. */
    method Recv(s: Side, bufLen: nat) returns (r: RecvResult, woken: Option<nat>)
      requires Valid()
      modifies this
      ensures Valid() && ClosedForGood() && r == RecvOutcome(old(halves), s, bufLen)
      ensures r.RecvPeerClosed? <==> old(halves).Of(s.Peer()).queue == [] && old(halves).Of(s.Peer()).closed
      ensures r.QueueEmpty? <==> old(halves).Of(s.Peer()).queue == [] && !old(halves).Of(s.Peer()).closed
      ensures var q := old(halves).Of(s.Peer()).queue; r.Received? <==> q != [] && |q[0].data| <= bufLen
      ensures r.Received? ==> old(halves).Of(s.Peer()).queue != [] && halves == AfterRecv(old(halves), s)
      ensures r.Received? ==>
                var peer := old(halves).Of(s.Peer());
                && r.msg == peer.queue[0] && halves.Of(s) == old(halves).Of(s)
                && (if |peer.queue| == QUEUE_CAPACITY
                    then woken == peer.waiting && halves.Of(s.Peer()) == Half(peer.queue[1..], peer.closed, None)
                    else woken == None && halves.Of(s.Peer()) == Half(peer.queue[1..], peer.closed, peer.waiting))
      ensures r.Received? ==>
                From(s.Peer()) == History(old(From(s.Peer())).sent, old(From(s.Peer())).received + [r.msg])
      ensures !r.Received? ==> halves == old(halves) && woken == None && From(s.Peer()) == old(From(s.Peer()))
      ensures r.RecvPeerClosed? ==> From(s.Peer()).received == From(s.Peer()).sent
      ensures From(s) == old(From(s))
    {
      woken := None;
      var peer := halves.Of(s.Peer());
      if peer.queue == [] {
        if peer.closed {
          return RecvPeerClosed, None;
        } else {
          return QueueEmpty, None;
        }
      }
      var msg, rest := peer.queue[0], peer.queue[1..];
      if bufLen < |msg.data| {
        // the message is put back at the front
        assert [msg] + rest == peer.queue;
        halves := halves.With(s.Peer(), peer.(queue := [msg] + rest));
        return BufferTooSmall, None;
      }
      halves := halves.With(s.Peer(), peer.(queue := rest));
      if s.A? {
        fromB := fromB.(received := fromB.received + [msg]);
      } else {
        fromA := fromA.(received := fromA.received + [msg]);
      }
      if |rest| + 1 >= QUEUE_CAPACITY {
        woken := Wake(s.Peer());
      }
      return Received(msg), woken;
    }

    /** `peek_has_attachment`. */
    method PeekHasAttachment(s: Side) returns (r: Option<bool>)
      ensures r == (var q := halves.Of(s.Peer()).queue; if q == [] then None else Some(q[0].attachment.Some?))
      ensures forall n :: RecvOutcome(halves, s, n).Received? ==>
                r == Some(RecvOutcome(halves, s, n).msg.attachment.Some?)
    {
      var q := halves.Of(s.Peer()).queue;
      if q == [] {
        return None;
      }
      return Some(q[0].attachment.Some?);
    }

    /** `close`, when the last handle to the endpoint goes. */
    method Close(s: Side) returns (woken: Option<nat>)
      requires Valid()
      modifies this
      ensures Valid() && ClosedForGood()
      ensures halves == AfterClose(old(halves), s) && woken == old(halves).Of(s.Peer()).waiting
      ensures halves.Of(s) == Half(old(halves).Of(s).queue, true, old(halves).Of(s).waiting)
      ensures halves.Of(s.Peer()) == old(halves).Of(s.Peer()).(waiting := None)
      ensures fromA == old(fromA) && fromB == old(fromB)
    {
      halves := halves.With(s, halves.Of(s).(closed := true));
      woken := Wake(s.Peer());
    }

    /** `IoWaker::set_waiting`. */
    method SetWaiting(s: Side, pid: nat)
      requires Valid()
      modifies this
      ensures Valid() && ClosedForGood() && halves == Registered(old(halves), s, pid)
      ensures halves.Of(s) == Half(old(halves).Of(s).queue, old(halves).Of(s).closed, Some(pid))
      ensures halves.Of(s.Peer()) == old(halves).Of(s.Peer()) && fromA == old(fromA) && fromB == old(fromB)
    {
      halves := halves.With(s, halves.Of(s).(waiting := Some(pid)));
    }
  }

  // ---------------------------------------------------------------------------
  // The handle table
  // ---------------------------------------------------------------------------

  const MAX_HANDLES: nat := 4096
  const MAX_ID: nat := 0xFF_FFFF_FFFF_FFFF
  const FIRST_ID: nat := 7

  datatype InsertResult = Inserted(id: nat) | TooManyHandles | IdSpaceExhausted

  /** The type tag sits above the 56-bit number. */
  function MakeHandle(tag: nat, id: nat): nat {
    tag * (MAX_ID + 1) + id
  }

  /** The number is the low 56 bits, the tag what is above them. */
  lemma MakeHandleParts(tag: nat, id: nat)
    requires id <= MAX_ID
    ensures MakeHandle(tag, id) / 0x100_0000_0000_0000 == tag
    ensures MakeHandle(tag, id) % 0x100_0000_0000_0000 == id
  {
  }

  lemma MakeHandleInjective(tag: nat, id: nat, tag': nat, id': nat)
    requires id <= MAX_ID && id' <= MAX_ID && MakeHandle(tag, id) == MakeHandle(tag', id')
    ensures tag == tag' && id == id'
  {
  }

  class HandleTable {
    var handles: map<nat, nat>
    var nextId: nat
    /** Every handle ever given out by `insert`, with the resource it named. */
    ghost var issued: map<nat, nat>

    /** Issued handles carry numbers below the counter; one that is still open names the
        resource it was issued for. */
    ghost predicate Valid()
      reads this
    {
      && FIRST_ID <= nextId <= MAX_ID + 1
      && (forall h <- issued :: h % (MAX_ID + 1) < nextId)
      && (forall h <- handles :: h % (MAX_ID + 1) < FIRST_ID || (h in issued && handles[h] == issued[h]))
    }

    constructor ()
      ensures Valid() && handles == map[] && issued == map[]
    {
      handles, nextId := map[], FIRST_ID;
      issued := map[];
    }

    predicate IsFull()
      reads this
    {
      |handles| >= MAX_HANDLES
    }

    /** `insert`: a handle never issued before, unless the table is full or out of numbers. */
    method Insert(tag: nat, resource: nat) returns (r: InsertResult)
      requires Valid()
      modifies this
      ensures Valid()
      ensures r.Inserted? ==> r.id == MakeHandle(tag, old(nextId)) && nextId == old(nextId) + 1
      ensures r.Inserted? ==> r.id !in old(issued) && r.id !in old(handles)
      ensures r.Inserted? ==> handles == old(handles)[r.id := resource] && issued == old(issued)[r.id := resource]
      ensures r.TooManyHandles? <==> old(IsFull())
      ensures r.IdSpaceExhausted? <==> !old(IsFull()) && old(nextId) > MAX_ID
      ensures !r.Inserted? ==> handles == old(handles) && issued == old(issued) && nextId == old(nextId)
    {
      if |handles| >= MAX_HANDLES {
        return TooManyHandles;
      }
      var id := nextId;
      if id > MAX_ID {
        return IdSpaceExhausted;
      }
      nextId := nextId + 1;
      var h := MakeHandle(tag, id);
      assert h % (MAX_ID + 1) == id;
      handles := handles[h := resource];
      issued := issued[h := resource];
      return Inserted(h);
    }

    /** `remove`. */
    method Remove(h: nat)
      requires Valid()
      modifies this
      ensures Valid() && handles == old(handles) - {h} && issued == old(issued)
    {
      handles := handles - {h};
    }
  }

  // ---------------------------------------------------------------------------
  // System-call polls
  // ---------------------------------------------------------------------------

  datatype Poll<T> = Ready(value: T) | NotReady

  datatype SendReply = SendDone | SendWouldBlock | SendTooLarge | SendClosed

  datatype RecvReply = Got(msg: Message, handle: nat) | RecvWouldBlock | RecvTableFull | RecvTooSmall | RecvClosed

  /** What the registration leaves alone decides the outcome. */
  lemma RegisteredSame(c: Pair, s: Side, pid: nat, m: Message, n: nat)
    ensures SendOutcome(Registered(c, s, pid), s, m) == SendOutcome(c, s, m)
    ensures RecvOutcome(Registered(c, s, pid), s, n) == RecvOutcome(c, s, n)
  {
  }

  /** One poll of `handle_send` by process `pid`: it is not ready only when the queue is
      still full after registering, and then the process is registered. */
  method PollSend(ch: Channel, s: Side, m: Message, nonblock: bool, pid: nat)
    returns (p: Poll<SendReply>, woken: Option<nat>)
    requires ch.Valid()
    modifies ch
    ensures ch.Valid() && ch.ClosedForGood()
    ensures p == Ready(SendTooLarge) <==> |m.data| > MAX_MESSAGE_SIZE
    ensures p == Ready(SendClosed) <==> |m.data| <= MAX_MESSAGE_SIZE && old(ch.halves).Of(s.Peer()).closed
    ensures p in {NotReady, Ready(SendWouldBlock)} <==>
              && |m.data| <= MAX_MESSAGE_SIZE && !old(ch.halves).Of(s.Peer()).closed
              && |old(ch.halves).Of(s).queue| == QUEUE_CAPACITY
    ensures p == Ready(SendDone) ==> ch.From(s).sent == old(ch.From(s)).sent + [m]
    ensures p != Ready(SendDone) ==> ch.From(s).sent == old(ch.From(s)).sent
    ensures match SendOutcome(old(ch.halves), s, m)
            case Sent =>
              && p == Ready(SendDone) && ch.halves == AfterSend(old(ch.halves), s, m)
              && woken == old(ch.halves).Of(s.Peer()).waiting
            case MessageTooLarge => p == Ready(SendTooLarge) && ch.halves == old(ch.halves) && woken == None
            case SendPeerClosed => p == Ready(SendClosed) && ch.halves == old(ch.halves) && woken == None
            case QueueFull =>
              && woken == None
              && (if nonblock then p == Ready(SendWouldBlock) && ch.halves == old(ch.halves)
                  else p == NotReady && ch.halves == Registered(old(ch.halves), s, pid))
  {
    var registered := false;
    ghost var c := ch.halves;
    RegisteredSame(c, s, pid, m, 0);
    while true
      invariant ch.Valid() && (registered ==> !nonblock && SendOutcome(c, s, m) == QueueFull)
      invariant ch.halves == if registered then Registered(c, s, pid) else c
      invariant ch.fromA == old(ch.fromA) && ch.fromB == old(ch.fromB)
      decreases !registered
    {
      var r;
      r, woken := ch.Send(s, m);
      match r {
        case Sent => return Ready(SendDone), woken;
        case MessageTooLarge => return Ready(SendTooLarge), None;
        case SendPeerClosed => return Ready(SendClosed), None;
        case QueueFull =>
          if nonblock {
            return Ready(SendWouldBlock), None;
          }
          if registered {
            return NotReady, None;
          }
          ch.SetWaiting(s, pid);
          registered := true;
      }
    }
  }

  /** What one poll of `handle_recv` does to the channel. */
  ghost predicate RecvPolled(c: Pair, c': Pair, s: Side, dstLen: nat, nonblock: bool, full: bool, pid: nat,
                             p: Poll<RecvReply>, woken: Option<nat>) {
    var q := c.Of(s.Peer()).queue;
    if q == [] then
      && woken == None
      && (if c.Of(s.Peer()).closed then p == Ready(RecvClosed) && c' == c
          else if nonblock then p == Ready(RecvWouldBlock) && c' == c
          else p == NotReady && c' == Registered(c, s, pid))
    else if q[0].attachment.Some? && full then p == Ready(RecvTableFull) && c' == c && woken == None
    else if dstLen < |q[0].data| then p == Ready(RecvTooSmall) && c' == c && woken == None
    else
      && p.Ready? && p.value.Got? && p.value.msg == q[0] && c' == AfterRecv(c, s)
      && woken == if |q| >= QUEUE_CAPACITY then c.Of(s.Peer()).waiting else None
  }

  /** One poll of `handle_recv`. An attachment ends up under a handle that was never
      issued before; when the table is full or the buffer too small, the message stays. */
  method PollRecv(ch: Channel, table: HandleTable, s: Side, dstLen: nat, nonblock: bool, tag: nat, pid: nat)
    returns (p: Poll<RecvReply>, woken: Option<nat>)
    requires ch.Valid() && table.Valid()
    modifies ch, table
    ensures ch.Valid() && table.Valid() && ch.ClosedForGood()
    ensures RecvPolled(old(ch.halves), ch.halves, s, dstLen, nonblock, old(table.IsFull()), pid, p, woken)
    ensures p.Ready? && p.value.Got? ==>
              match p.value.msg.attachment
              case None => p.value.handle == 0 && table.handles == old(table.handles)
              case Some(res) =>
                if old(table.nextId) <= MAX_ID then
                  && p.value.handle !in old(table.issued) && p.value.handle !in old(table.handles)
                  && table.handles == old(table.handles)[p.value.handle := res]
                else p.value.handle == 0 && table.handles == old(table.handles)
    ensures !(p.Ready? && p.value.Got?) ==> table.handles == old(table.handles) && table.issued == old(table.issued)
  {
    hide AfterRecv, RecvOutcome;
    var registered := false;
    ghost var c := ch.halves;
    while true
      invariant ch.Valid() && table.Valid()
      invariant table.handles == old(table.handles) && table.issued == old(table.issued)
      invariant table.nextId == old(table.nextId)
      invariant ch.fromA == old(ch.fromA) && ch.fromB == old(ch.fromB)
      invariant registered ==> !nonblock && c.Of(s.Peer()).queue == [] && !c.Of(s.Peer()).closed
      invariant ch.halves == if registered then Registered(c, s, pid) else c
      decreases !registered
    {
      var attached := ch.PeekHasAttachment(s);
      if attached == Some(true) && table.IsFull() {
        return Ready(RecvTableFull), None;
      }
      var bufLen := if dstLen < MAX_MESSAGE_SIZE then dstLen else MAX_MESSAGE_SIZE;
      var r;
      assert forall m <- ch.halves.Of(s.Peer()).queue :: |m.data| <= MAX_MESSAGE_SIZE;
      r, woken := ch.Recv(s, bufLen);
      match r {
        case Received(msg) =>
          var handle := 0;
          if msg.attachment.Some? {
            var inserted := table.Insert(tag, msg.attachment.value);
            if inserted.Inserted? {
              handle := inserted.id;
            }
          }
          return Ready(Got(msg, handle)), woken;
        case BufferTooSmall => return Ready(RecvTooSmall), None;
        case RecvPeerClosed => return Ready(RecvClosed), None;
        case QueueEmpty =>
          if nonblock {
            return Ready(RecvWouldBlock), None;
          }
          if registered {
            return NotReady, None;
          }
          ch.SetWaiting(s, pid);
          registered := true;
      }
    }
  }
}
