/** Round trips to a userspace scheme provider: the lock, the receive loop, and the
    protocol they make together (`resource/scheme.rs`). */
module SchemeProvider {
  import opened Common
  import opened RunBoard
  import opened Channels
  import Encoding
  import SchemeFrames
  import SchemeResponses

  // ---------------------------------------------------------------------------
  // The lock
  // ---------------------------------------------------------------------------

  class AsyncLock {
    var busy: bool
    var waiters: seq<nat>

    /** Nobody is listed twice. */
    ghost predicate Valid()
      reads this
    {
      forall i, j :: 0 <= i < j < |waiters| ==> waiters[i] != waiters[j]
    }

    constructor ()
      ensures Valid() && !busy && waiters == []
    {
      busy, waiters := false, [];
    }

    /** One poll of `acquire`: take the lock, or be listed. */
    method PollAcquire(pid: nat) returns (acquired: bool)
      requires Valid()
      modifies this
      ensures Valid() && busy && acquired == !old(busy)
      ensures acquired ==> waiters == old(waiters)
      ensures !acquired ==> pid in waiters && (forall p :: p in waiters <==> p in old(waiters) || p == pid)
    {
      if !busy {
        busy := true;
        return true;
      }
      if pid !in waiters {
        waiters := waiters + [pid];
      }
      return false;
    }

    /** Dropping the guard: the lock is free, everybody listed is to be woken. */
    method Release() returns (woken: seq<nat>)
      requires Valid()
      modifies this
      ensures Valid() && !busy && waiters == [] && woken == old(waiters)
    {
      busy := false;
      woken := waiters;
      waiters := [];
    }
  }

  // ---------------------------------------------------------------------------
  // Receiving the matching response
  // ---------------------------------------------------------------------------

  const HEADER_LEN: nat := 9

  /** The request number in the header of a response. */
  function ResponseId(data: seq<Byte>): nat
    requires |data| >= HEADER_LEN
  {
    Encoding.FromLittleEndian(data[1..9])
  }

  /** The number is in the second to the ninth byte, least significant first. */
  lemma ResponseIdBytes(data: seq<Byte>)
    requires |data| >= 9
    ensures ResponseId(data) ==
            data[1] as int + 0x100 * data[2] as int + 0x1_0000 * data[3] as int + 0x100_0000 * data[4] as int
            + 0x1_0000_0000 * data[5] as int + 0x100_0000_0000 * data[6] as int
            + 0x1_0000_0000_0000 * data[7] as int + 0x100_0000_0000_0000 * data[8] as int
  {
    Encoding.FourBytes(data[1..9]);
    Encoding.FourBytes(data[5..9]);
    assert data[1..9][4..] == data[5..9] && data[5..9][4..] == [];
  }

  /** Whatever follows it, the frame of a response carries the number of the response. */
  lemma ResponseNumber(r: SchemeResponses.Response, rest: seq<Byte>)
    requires SchemeResponses.FitsResponse(r)
    ensures var bs := SchemeResponses.ResponseFrame(r) + rest; |bs| >= HEADER_LEN && ResponseId(bs) == r.id
  {
    hide SchemeResponses.ResponseFrame;
    SchemeResponses.HeaderRead(r, rest);
    var bs := SchemeResponses.ResponseFrame(r) + rest;
    assert bs[1..][..8] == bs[1..9];
  }

  lemma ListingNumber(id: nat, es: seq<SchemeFrames.DirEntry>, rest: seq<Byte>)
    requires id < Encoding.Limit(8)
    ensures var bs := SchemeFrames.ListingFrame(id, es) + rest; |bs| >= HEADER_LEN && ResponseId(bs) == id
  {
    hide SchemeResponses.ResponseFrame, SchemeFrames.ListingFrame, SchemeFrames.Listing, ResponseId;
    SchemeResponses.ListingIsResponse(id, es);
    ResponseNumber(SchemeResponses.ReaddirOk(id, SchemeFrames.Listing(es)), rest);
  }

  /** The queue starts with the frames of these responses, and the last of them is the
      first with the number. */
  ghost predicate AnswerAtEnd(q: seq<Message>, rs: seq<SchemeResponses.Response>, id: nat) {
    && 0 < |rs| <= |q| && rs[|rs| - 1].id == id
    && (forall i :: 0 <= i < |rs| ==>
          SchemeResponses.FitsResponse(rs[i]) && q[i].data == SchemeResponses.ResponseFrame(rs[i]))
    && (forall i :: 0 <= i < |rs| - 1 ==> rs[i].id != id)
  }

  /** A response the caller with number `id` skips. */
  predicate Orphan(m: Message, id: nat) {
    |m.data| >= HEADER_LEN && ResponseId(m.data) != id
  }

  /** Up to the last of them the responses are orphans, and it is not. */
  lemma AnswerIsFirst(q: seq<Message>, rs: seq<SchemeResponses.Response>, id: nat, i: nat)
    requires AnswerAtEnd(q, rs, id) && i < |rs|
    ensures |q[i].data| >= HEADER_LEN && (Orphan(q[i], id) <==> i < |rs| - 1)
  {
    hide SchemeResponses.FitsResponse, SchemeResponses.ResponseFrame, ResponseId;
    ResponseNumber(rs[i], []);
    assert q[i].data == SchemeResponses.ResponseFrame(rs[i]) + [];
  }

  /** So skipping all orphans and no more ends at it. */
  lemma AnswerFound(q: seq<Message>, id: nat, k: nat)
    requires k <= |q| && (forall i :: 0 <= i < k ==> Orphan(q[i], id)) && (k < |q| ==> !Orphan(q[k], id))
    ensures forall rs :: AnswerAtEnd(q, rs, id) ==> k == |rs| - 1 && k < |q| && |q[k].data| >= HEADER_LEN
  {
    hide Orphan;
    forall rs | AnswerAtEnd(q, rs, id)
      ensures k == |rs| - 1 && k < |q| && |q[k].data| >= HEADER_LEN
    {
      AnswerIsFirst(q, rs, id, |rs| - 1);
      if k < |rs| - 1 { AnswerIsFirst(q, rs, id, k); }
    }
  }

  datatype Reply = Answered(msg: Message) | Disconnected | Protocol

  /** What the receive loop leaves of the queue `q` and returns: orphans at its head are
      discarded, nothing else is. */
  ghost predicate Replied(q: seq<Message>, closed: bool, left: Pair, id: nat, pid: nat, p: Poll<Reply>, skipped: nat) {
    && skipped <= |q| && (forall i :: 0 <= i < skipped ==> Orphan(q[i], id))
    && (if skipped == |q| then
          && left.b.queue == []
          && (if closed then p == Ready(Disconnected) else p == NotReady && left.a.waiting == Some(pid))
        else
          && !Orphan(q[skipped], id) && left.b.queue == q[skipped + 1..]
          && p == if |q[skipped].data| < HEADER_LEN then Ready(Protocol) else Ready(Answered(q[skipped])))
  }

  /** Receiving on the kernel's end, into a buffer that takes any message. */
  method RecvAny(ch: Channel) returns (r: RecvResult)
    requires ch.Valid()
    modifies ch
    ensures ch.Valid() && !r.BufferTooSmall? && ch.halves.a == old(ch.halves).a
    ensures ch.halves.b.closed == old(ch.halves).b.closed
    ensures old(ch.halves).b.queue == [] ==>
              ch.halves.b.queue == [] && r == if ch.halves.b.closed then RecvPeerClosed else QueueEmpty
    ensures old(ch.halves).b.queue != [] ==>
              var q := old(ch.halves).b.queue; r == Received(q[0]) && ch.halves.b.queue == q[1..]
  {
    hide RecvOutcome, AfterRecv;
    assert forall m <- ch.halves.b.queue :: |m.data| <= MAX_MESSAGE_SIZE;
    var woken;
    r, woken := ch.Recv(A, MAX_MESSAGE_SIZE);
  }

  /** The receive loop after the request was sent, up to completion or suspension. */
  method Receive(ch: Channel, id: nat, pid: nat) returns (p: Poll<Reply>, ghost skipped: nat)
    requires ch.Valid()
    modifies ch
    ensures ch.Valid() && Replied(old(ch.halves).b.queue, old(ch.halves).b.closed, ch.halves, id, pid, p, skipped)
  {
    hide ResponseId;
    ghost var q, closed := ch.halves.b.queue, ch.halves.b.closed;
    skipped := 0;
    var registered := false;
    while true
      invariant ch.Valid() && skipped <= |q| && ch.halves.b.queue == q[skipped..] && ch.halves.b.closed == closed
      invariant forall i :: 0 <= i < skipped ==> Orphan(q[i], id)
      invariant registered ==> ch.halves.b.queue == [] && !closed && ch.halves.a.waiting == Some(pid)
      decreases |ch.halves.b.queue|, !registered
    {
      var r := RecvAny(ch);
      match r {
        case Received(msg) =>
          assert msg == q[skipped] && ch.halves.b.queue == q[skipped + 1..];
          if |msg.data| < HEADER_LEN {
            return Ready(Protocol), skipped;
          }
          if ResponseId(msg.data) == id {
            return Ready(Answered(msg)), skipped;
          }
          skipped := skipped + 1;
        case RecvPeerClosed => return Ready(Disconnected), skipped;
        case QueueEmpty =>
          if registered {
            return NotReady, skipped;
          }
          ch.SetWaiting(A, pid);
          registered := true;
        case BufferTooSmall =>
          return Ready(Protocol), skipped;
      }
    }
  }

  /** One poll of the caller waiting for number `id`: when the first queued frame with that
      number is the frame of a response, exactly that message is returned. */
  method PollReply(ch: Channel, id: nat, pid: nat) returns (p: Poll<Reply>, ghost skipped: nat)
    requires ch.Valid()
    modifies ch
    ensures ch.Valid() && Replied(old(ch.halves).b.queue, old(ch.halves).b.closed, ch.halves, id, pid, p, skipped)
    ensures p.Ready? && p.value.Answered? ==> |p.value.msg.data| >= HEADER_LEN && ResponseId(p.value.msg.data) == id
    ensures forall rs :: AnswerAtEnd(old(ch.halves).b.queue, rs, id) ==>
                           && p == Ready(Answered(old(ch.halves).b.queue[|rs| - 1]))
                           && ch.halves.b.queue == old(ch.halves).b.queue[|rs|..]
  {
    hide AnswerAtEnd, ResponseId;
    ghost var q := ch.halves.b.queue;
    p, skipped := Receive(ch, id, pid);
    AnswerFound(q, id, skipped);
  }
}
