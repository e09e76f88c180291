/** Mailboxes that collect events from handles (`resource/mailbox.rs`). */
module Mailboxes {
  import opened Common
  import opened RunBoard
  import opened Channels
  import opened EventFlags

  const MAX_MAILBOX_EVENTS: nat := 256

  datatype Event = Event(handle: nat, flags: Flags)

  // ---------------------------------------------------------------------------
  // Bits
  // ---------------------------------------------------------------------------

  /** Some of the flags posted or handed out has a bit of the mask. */
  predicate Carries(fs: seq<Flags>, mask: Flags) {
    exists i :: 0 <= i < |fs| && Meets(fs[i], mask)
  }

  /** Some entry of the handle has a bit of the mask. */
  predicate Waits(pending: seq<Event>, h: nat, mask: Flags) {
    exists i :: 0 <= i < |pending| && pending[i].handle == h && Meets(pending[i].flags, mask)
  }

  lemma CarriesMore(fs: seq<Flags>, f: Flags, mask: Flags)
    ensures Carries(fs + [f], mask) <==> Carries(fs, mask) || Meets(f, mask)
  {
    hide Meets;
    var more := fs + [f];
    assert more[|fs|] == f;
    assert forall i :: 0 <= i < |fs| ==> more[i] == fs[i];
  }

  predicate DistinctHandles(pending: seq<Event>) {
    forall i, j :: 0 <= i < j < |pending| ==> pending[i].handle != pending[j].handle
  }

  function Find(pending: seq<Event>, h: nat): (r: Option<nat>)
    ensures r.Some? ==> r.value < |pending| && pending[r.value].handle == h
    ensures r == None ==> forall e <- pending :: e.handle != h
  {
    if pending == [] then None
    else if pending[0].handle == h then Some(0)
    else match Find(pending[1..], h)
         case None => None
         case Some(i) => Some(i + 1)
  }

  /** Taking out the entries of one handle. */
  function Without(pending: seq<Event>, h: nat): (r: seq<Event>)
    ensures forall e :: e in r <==> e in pending && e.handle != h
    ensures DistinctHandles(pending) ==> DistinctHandles(r)
    ensures |r| <= |pending|
  {
    if pending == [] then []
    else
      assert pending == [pending[0]] + pending[1..];
      if pending[0].handle == h then Without(pending[1..], h)
      else
        assert DistinctHandles(pending) ==>
                 DistinctHandles(pending[1..]) && forall e <- pending[1..] :: e.handle != pending[0].handle;
        [pending[0]] + Without(pending[1..], h)
  }

  lemma WaitsMember(pending: seq<Event>, h: nat, mask: Flags)
    ensures Waits(pending, h, mask) <==> exists e :: e in pending && e.handle == h && Meets(e.flags, mask)
  {
    hide Meets;
    if e :| e in pending && e.handle == h && Meets(e.flags, mask) {
      var i :| 0 <= i < |pending| && pending[i] == e;
    }
    if i :| 0 <= i < |pending| && pending[i].handle == h && Meets(pending[i].flags, mask) {
      assert pending[i] in pending;
    }
  }

  lemma WaitsWithout(pending: seq<Event>, h: nat, k: nat, mask: Flags)
    requires k != h
    ensures Waits(Without(pending, h), k, mask) <==> Waits(pending, k, mask)
  {
    WaitsMember(pending, k, mask);
    WaitsMember(Without(pending, h), k, mask);
  }

  ghost function HandlesOf(pending: seq<Event>): set<nat> {
    set i | 0 <= i < |pending| :: pending[i].handle
  }

  lemma {:induction false} HandlesCount(pending: seq<Event>)
    requires DistinctHandles(pending)
    ensures |HandlesOf(pending)| == |pending|
  {
    if pending != [] {
      var n := |pending| - 1;
      var front := pending[..n];
      HandlesCount(front);
      assert forall i :: 0 <= i < n ==> front[i] == pending[i];
      assert HandlesOf(pending) == HandlesOf(front) + {pending[n].handle};
    }
  }

  lemma SubsetCount(x: set<nat>, y: set<nat>)
    requires x <= y
    ensures |x| <= |y|
  {
    assert y == x + (y - x);
  }

  /** With an attached handle that has no entry, a full queue means too many handles. */
  lemma FullMeansMany(pending: seq<Event>, attached: set<nat>, h: nat)
    requires DistinctHandles(pending) && HandlesOf(pending) <= attached && h in attached && h !in HandlesOf(pending)
    ensures |pending| < |attached|
  {
    HandlesCount(pending);
    SubsetCount(HandlesOf(pending) + {h}, attached);
  }

  /** At most one entry per handle, all attached, within the bound. */
  ghost predicate Ordered(attached: map<nat, Flags>, pending: seq<Event>) {
    && DistinctHandles(pending) && |pending| <= MAX_MAILBOX_EVENTS
    && (forall e <- pending :: e.handle in attached)
  }

  lemma MergedOrdered(attached: map<nat, Flags>, pending: seq<Event>, i: nat, flags: Flags)
    requires Ordered(attached, pending) && i < |pending|
    ensures Ordered(attached, pending[i := Event(pending[i].handle, flags)])
  {
    var merged := pending[i := Event(pending[i].handle, flags)];
    assert forall j :: 0 <= j < |merged| ==> merged[j].handle == pending[j].handle;
    forall e <- merged
      ensures e.handle in attached
    {
      var j :| 0 <= j < |merged| && merged[j] == e;
      assert pending[j] in pending;
    }
  }

  /** Appending for a handle without an entry; the oldest entry only has to go when more
      handles are attached than the queue can hold. */
  lemma AppendedOrdered(attached: map<nat, Flags>, pending: seq<Event>, e: Event)
    requires Ordered(attached, pending) && e.handle in attached && forall f <- pending :: f.handle != e.handle
    ensures Ordered(attached, (if |pending| >= MAX_MAILBOX_EVENTS then pending[1..] else pending) + [e])
    ensures |pending| >= MAX_MAILBOX_EVENTS ==> |attached| > MAX_MAILBOX_EVENTS
  {
    assert forall i :: 0 <= i < |pending| ==> pending[i] in pending;
    FullMeansMany(pending, attached.Keys, e.handle);
  }

  /** A bit was posted for a handle exactly when it was handed out or waits. */
  ghost predicate Complete(pending: seq<Event>, posts: map<nat, seq<Flags>>, taken: map<nat, seq<Flags>>)
    requires posts.Keys == taken.Keys
  {
    forall h, mask: Flags :: h in posts ==>
      (Carries(posts[h], mask) <==> Carries(taken[h], mask) || Waits(pending, h, mask))
  }

  lemma TakenComplete(pending: seq<Event>, posts: map<nat, seq<Flags>>, taken: map<nat, seq<Flags>>)
    requires posts.Keys == taken.Keys && Complete(pending, posts, taken)
    requires pending != [] && pending[0].handle in posts
    ensures var e := pending[0]; Complete(pending[1..], posts, taken[e.handle := taken[e.handle] + [e.flags]])
  {
    hide Carries, Waits, Meets;
    var e := pending[0];
    var taken' := taken[e.handle := taken[e.handle] + [e.flags]];
    forall h, mask: Flags | h in posts
      ensures Carries(posts[h], mask) <==> Carries(taken'[h], mask) || Waits(pending[1..], h, mask)
    {
      CarriesMore(taken[e.handle], e.flags, mask);
      WaitsFirst(pending, h, mask);
    }
  }

  lemma WaitsFirst(pending: seq<Event>, h: nat, mask: Flags)
    requires pending != []
    ensures Waits(pending, h, mask) <==>
              (pending[0].handle == h && Meets(pending[0].flags, mask)) || Waits(pending[1..], h, mask)
  {
    hide Meets;
    if Waits(pending[1..], h, mask) {
      var i :| 0 <= i < |pending[1..]| && pending[1..][i].handle == h && Meets(pending[1..][i].flags, mask);
      assert pending[i + 1] == pending[1..][i];
    }
    if i :| 0 <= i < |pending| && pending[i].handle == h && Meets(pending[i].flags, mask) {
      assert i > 0 ==> pending[1..][i - 1] == pending[i];
    }
  }

  lemma WaitsLast(pending: seq<Event>, e: Event, h: nat, mask: Flags)
    ensures Waits(pending + [e], h, mask) <==> Waits(pending, h, mask) || (e.handle == h && Meets(e.flags, mask))
  {
    hide Meets;
    var more := pending + [e];
    assert more[|pending|] == e;
    assert forall i :: 0 <= i < |pending| ==> more[i] == pending[i];
  }

  /** The queue after a push. */
  function Pushed(pending: seq<Event>, h: nat, flags: Flags): (r: seq<Event>)
    ensures r != []
  {
    match Find(pending, h)
    case Some(i) => pending[i := Event(h, Or(pending[i].flags, flags))]
    case None => (if |pending| >= MAX_MAILBOX_EVENTS then pending[1..] else pending) + [Event(h, flags)]
  }

  /** The loop of `push_event_bounded`. */
  method PushBounded(pending: seq<Event>, h: nat, flags: Flags) returns (r: seq<Event>)
    ensures r == Pushed(pending, h, flags)
  {
    hide Or;
    var i := 0;
    while i < |pending|
      invariant 0 <= i <= |pending| && forall j :: 0 <= j < i ==> pending[j].handle != h
    {
      if pending[i].handle == h {
        FindFirst(pending, h, i);
        return pending[i := Event(h, Or(pending[i].flags, flags))];
      }
      i := i + 1;
    }
    r := pending;
    if |r| >= MAX_MAILBOX_EVENTS {
      r := r[1..];
    }
    r := r + [Event(h, flags)];
  }

  lemma {:induction false} FindFirst(pending: seq<Event>, h: nat, i: nat)
    requires i < |pending| && pending[i].handle == h && forall j :: 0 <= j < i ==> pending[j].handle != h
    ensures Find(pending, h) == Some(i)
  {
    if i > 0 {
      assert pending[0].handle != h;
      FindFirst(pending[1..], h, i - 1);
    }
  }

  /** Events keep their places: a handle that waits stays where it is, a new one goes last,
      and only a queue of 256 entries loses its first. */
  lemma PushedPlaces(pending: seq<Event>, h: nat, flags: Flags)
    ensures var r := Pushed(pending, h, flags);
            if exists e <- pending :: e.handle == h
            then && |r| == |pending|
                 && (forall i :: 0 <= i < |pending| ==> r[i].handle == pending[i].handle)
                 && (forall i :: 0 <= i < |pending| && pending[i].handle != h ==> r[i] == pending[i])
            else r == (if |pending| >= 256 then pending[1..] else pending) + [Event(h, flags)]
  {
    hide Or;
    if Find(pending, h).Some? { assert pending[Find(pending, h).value] in pending; }
  }

  lemma PushedOrdered(attached: map<nat, Flags>, pending: seq<Event>, h: nat, flags: Flags)
    requires Ordered(attached, pending) && h in attached
    ensures Ordered(attached, Pushed(pending, h, flags))
  {
    hide Ordered, Or;
    match Find(pending, h) {
      case Some(i) => MergedOrdered(attached, pending, i, Or(pending[i].flags, flags));
      case None => AppendedOrdered(attached, pending, Event(h, flags));
    }
  }

  lemma WaitsMerged(pending: seq<Event>, i: nat, flags: Flags, k: nat, mask: Flags)
    requires i < |pending|
    ensures Waits(pending[i := Event(pending[i].handle, Or(pending[i].flags, flags))], k, mask) <==>
              Waits(pending, k, mask) || (pending[i].handle == k && Meets(flags, mask))
  {
    hide Meets, Or;
    var e := pending[i];
    var merged := pending[i := Event(e.handle, Or(e.flags, flags))];
    OrMeets(e.flags, flags, mask);
    assert merged[i] == Event(e.handle, Or(e.flags, flags));
    assert forall j :: 0 <= j < |pending| && j != i ==> merged[j] == pending[j];
    if Waits(pending, k, mask) {
      var j :| 0 <= j < |pending| && pending[j].handle == k && Meets(pending[j].flags, mask);
      assert merged[j].handle == k && Meets(merged[j].flags, mask);
    }
  }

  /** A push adds exactly the bits posted to what waits for the handle. For the others
      nothing changes, except that a full queue loses its oldest entry to a new handle. */
  lemma PushedBits(pending: seq<Event>, h: nat, flags: Flags, k: nat, mask: Flags)
    ensures Waits(Pushed(pending, h, flags), h, mask) <==> Waits(pending, h, mask) || Meets(flags, mask)
    ensures k != h ==>
              (Waits(Pushed(pending, h, flags), k, mask) <==>
                 if Drops(pending, h) then Waits(pending[1..], k, mask) else Waits(pending, k, mask))
  {
    hide Waits, Meets, Or;
    match Find(pending, h) {
      case Some(i) =>
        WaitsMerged(pending, i, flags, h, mask);
        WaitsMerged(pending, i, flags, k, mask);
      case None =>
        var kept := if |pending| >= MAX_MAILBOX_EVENTS then pending[1..] else pending;
        WaitsLast(kept, Event(h, flags), h, mask);
        WaitsLast(kept, Event(h, flags), k, mask);
        if |pending| >= MAX_MAILBOX_EVENTS { WaitsFirst(pending, h, mask); }
        assert pending != [] ==> pending[0] in pending;
    }
  }

  /** In a queue with at most one entry per handle, the bits that wait for a handle
      are those of its entry. */
  lemma EntryBits(pending: seq<Event>, i: nat, mask: Flags)
    requires i < |pending| && DistinctHandles(pending)
    ensures Waits(pending, pending[i].handle, mask) <==> pending[i].flags & mask != 0
  {
    assert Waits(pending, pending[i].handle, mask) <==> Meets(pending[i].flags, mask) by {
      hide Meets;
    }
  }

  /** The queue is full and the handle has no entry. */
  predicate Drops(pending: seq<Event>, h: nat) {
    |pending| >= MAX_MAILBOX_EVENTS && forall e <- pending :: e.handle != h
  }

  lemma PushedComplete(attached: map<nat, Flags>, pending: seq<Event>, posts: map<nat, seq<Flags>>,
                       taken: map<nat, seq<Flags>>, h: nat, flags: Flags)
    requires posts.Keys == taken.Keys == attached.Keys && Complete(pending, posts, taken)
    requires Ordered(attached, pending) && h in attached && |attached| <= MAX_MAILBOX_EVENTS
    ensures Complete(Pushed(pending, h, flags), posts[h := posts[h] + [flags]], taken)
  {
    hide Carries, Waits, Meets, Pushed, Ordered;
    NeverDrops(attached, pending, h, flags);
    forall k, mask: Flags | k in posts
      ensures Carries(posts[h := posts[h] + [flags]][k], mask) <==>
                Carries(taken[k], mask) || Waits(Pushed(pending, h, flags), k, mask)
    {
      CarriesMore(posts[h], flags, mask);
      PushedBits(pending, h, flags, k, mask);
    }
  }

  lemma NeverDrops(attached: map<nat, Flags>, pending: seq<Event>, h: nat, flags: Flags)
    requires Ordered(attached, pending) && h in attached && |attached| <= MAX_MAILBOX_EVENTS
    ensures !Drops(pending, h)
  {
    hide Ordered;
    if Drops(pending, h) { AppendedOrdered(attached, pending, Event(h, flags)); }
  }

  class Mailbox {
    var attached: map<nat, Flags>
    var pending: seq<Event>
    var waiting: Option<nat>
    /** For each handle, since it was attached: the flags of every post accepted, and of
        every event handed out; and whether some post found more handles attached than the
        queue can hold. */
    ghost var posts: map<nat, seq<Flags>>
    ghost var taken: map<nat, seq<Flags>>
    ghost var crowded: bool

    /** At most one entry per handle, all attached, within the bound. Unless the mailbox
        was crowded, a bit was posted for a handle exactly when it was handed out or waits. */
    ghost predicate Valid()
      reads this
    {
      && Ordered(attached, pending)
      && posts.Keys == taken.Keys == attached.Keys
      && (!crowded ==> Complete(pending, posts, taken))
    }

    constructor ()
      ensures Valid() && attached == map[] && pending == [] && waiting == None && !crowded
      ensures posts == map[] == taken
    {
      attached, pending, waiting := map[], [], None;
      posts, taken, crowded := map[], map[], false;
    }

    /** `attach`: a handle that was not attached starts without posts. */
    method Attach(h: nat, mask: Flags)
      requires Valid()
      modifies this
      ensures Valid() && attached == old(attached)[h := mask] && pending == old(pending) && waiting == old(waiting)
      ensures crowded == old(crowded)
      ensures posts == (if h in old(attached) then old(posts) else old(posts)[h := []])
      ensures taken == (if h in old(attached) then old(taken) else old(taken)[h := []])
    {
      if h !in attached {
        assert forall m: Flags :: !Waits(pending, h, m) by {
          assert forall i :: 0 <= i < |pending| ==> pending[i] in pending;
        }
        posts, taken := posts[h := []], taken[h := []];
      }
      attached := attached[h := mask];
    }

    /** `detach`: the handle and its events are forgotten, others keep theirs. */
    method Detach(h: nat)
      requires Valid()
      modifies this
      ensures Valid() && attached == old(attached) - {h} && waiting == old(waiting) && crowded == old(crowded)
      ensures pending == Without(old(pending), h) && posts == old(posts) - {h} && taken == old(taken) - {h}
      ensures forall k, m: Flags :: Waits(pending, k, m) <==> k != h && Waits(old(pending), k, m)
    {
      hide Waits, Carries, Meets, Without;
      forall k, m: Flags
        ensures Waits(Without(pending, h), k, m) <==> k != h && Waits(pending, k, m)
      {
        if k != h { WaitsWithout(pending, h, k, m); } else { WaitsMember(Without(pending, h), h, m); }
      }
      attached := attached - {h};
      pending := Without(pending, h);
      posts, taken := posts - {h}, taken - {h};
    }

    /** What an accepted post does, bit by bit. */
    twostate predicate Posted(h: nat, flags: Flags)
      reads this
    {
      && (forall m: Flags :: Waits(pending, h, m) <==> Waits(old(pending), h, m) || Meets(flags, m))
      && (|attached| <= MAX_MAILBOX_EVENTS ==>
            forall k, m: Flags :: k != h ==> (Waits(pending, k, m) <==> Waits(old(pending), k, m)))
    }

    /** `push_event_bounded`: merge, or append, dropping the oldest entry if full. */
    method PushEvent(h: nat, flags: Flags)
      requires Valid() && h in attached
      modifies this
      ensures Valid() && attached == old(attached) && waiting == old(waiting)
      ensures crowded == (old(crowded) || |attached| > MAX_MAILBOX_EVENTS)
      ensures pending == Pushed(old(pending), h, flags) && Posted(h, flags)
      ensures posts == old(posts)[h := old(posts)[h] + [flags]] && taken == old(taken)
    {
      hide Complete, Ordered, DistinctHandles, Waits, Carries, Meets, Pushed, Drops;
      PushedOrdered(attached, pending, h, flags);
      if !crowded && |attached| <= MAX_MAILBOX_EVENTS {
        PushedComplete(attached, pending, posts, taken, h, flags);
      }
      if |attached| <= MAX_MAILBOX_EVENTS { NeverDrops(attached, pending, h, flags); }
      forall k, m: Flags
        ensures Waits(Pushed(pending, h, flags), h, m) <==> Waits(pending, h, m) || Meets(flags, m)
        ensures k != h && !Drops(pending, h) ==>
                  (Waits(Pushed(pending, h, flags), k, m) <==> Waits(pending, k, m))
      {
        PushedBits(pending, h, flags, k, m);
      }
      pending := PushBounded(pending, h, flags);
      crowded := crowded || |attached| > MAX_MAILBOX_EVENTS;
      posts := posts[h := posts[h] + [flags]];
    }

    /** `post_event`: accepted when the handle is attached with a matching mask; then
        the waiter is woken. */
    method PostEvent(h: nat, flags: Flags) returns (woken: Option<nat>)
      requires Valid()
      modifies this
      ensures Valid() && attached == old(attached) && taken == old(taken)
      ensures if h in old(attached) && flags & old(attached)[h] != 0
              then && pending == Pushed(old(pending), h, flags) && Posted(h, flags)
                   && woken == old(waiting) && waiting == None
                   && posts == old(posts)[h := old(posts)[h] + [flags]]
                   && crowded == (old(crowded) || |attached| > MAX_MAILBOX_EVENTS)
              else && woken == None && pending == old(pending) && waiting == old(waiting)
                   && posts == old(posts) && crowded == old(crowded)
    {
      hide Complete, Ordered, Waits, Carries, Meets, Pushed;
      if h in attached && flags & attached[h] != 0 {
        PushEvent(h, flags);
        woken := waiting;
        waiting := None;
      } else {
        woken := None;
      }
    }

    /** `wait` and `poll`: the oldest entry is handed out. */
    method Take() returns (r: Option<Event>)
      requires Valid()
      modifies this
      ensures Valid() && attached == old(attached) && waiting == old(waiting) && crowded == old(crowded)
      ensures posts == old(posts)
      ensures old(pending) == [] ==> r == None && pending == [] && taken == old(taken)
      ensures old(pending) != [] ==> r == Some(old(pending)[0]) && pending == old(pending)[1..]
      ensures r.Some? ==> r.value.handle in old(taken)
      ensures r.Some? ==> taken == old(taken)[r.value.handle := old(taken)[r.value.handle] + [r.value.flags]]
    {
      hide Complete;
      if pending == [] {
        return None;
      }
      var e := pending[0];
      assert e in pending;
      if !crowded { TakenComplete(pending, posts, taken); }
      taken := taken[e.handle := taken[e.handle] + [e.flags]];
      pending := pending[1..];
      return Some(e);
    }

    /** One poll of the mailbox wait system call: check, register, check again. */
    method PollWait(pid: nat) returns (p: Poll<Event>)
      requires Valid()
      modifies this
      ensures Valid() && attached == old(attached) && posts == old(posts)
      ensures old(pending) != [] ==>
                p == Ready(old(pending)[0]) && pending == old(pending)[1..] && waiting == old(waiting)
      ensures old(pending) == [] ==> p == NotReady && pending == [] && waiting == Some(pid)
    {
      var e := Take();
      if e == None {
        waiting := Some(pid);
        e := Take();
      }
      match e {
        case Some(ev) => return Ready(ev);
        case None => return NotReady;
      }
    }
  }
}
