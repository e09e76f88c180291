/** Wake-up deadlines of entities (`scheduler/deadline.rs`). */
module Deadlines {
  import opened Common
  import opened RunBoard

  /** A time in milliseconds with the entities to wake then. */
  datatype Due = Due(time: nat, entities: seq<Entity>)

  /** Entity `e` is to be woken at time `t`. */
  ghost predicate Has(ds: seq<Due>, t: nat, e: Entity) {
    exists i :: 0 <= i < |ds| && ds[i].time == t && e in ds[i].entities
  }

  /** Sorted by time, one entry per time, no entry empty. */
  predicate Sorted(ds: seq<Due>) {
    && (forall i, j :: 0 <= i < j < |ds| ==> ds[i].time < ds[j].time)
    && (forall i :: 0 <= i < |ds| ==> ds[i].entities != [])
  }

  class DeadlineTracker {
    var deadlines: seq<Due>

    ghost predicate Valid()
      reads this
    {
      Sorted(deadlines)
    }

    constructor ()
      ensures Valid() && deadlines == []
    {
      deadlines := [];
    }

    /** `register`: exactly one more deadline is known. */
    method Register(e: Entity, ms: nat)
      requires Valid()
      modifies this
      ensures Valid()
      ensures forall t: nat, f :: Has(deadlines, t, f) <==> Has(old(deadlines), t, f) || (t == ms && f == e)
    {
      var i := 0;
      while i < |deadlines| && deadlines[i].time < ms
        invariant 0 <= i <= |deadlines| && deadlines == old(deadlines)
        invariant forall j :: 0 <= j < i ==> deadlines[j].time < ms
      {
        i := i + 1;
      }
      if i < |deadlines| && deadlines[i].time == ms {
        deadlines := deadlines[i := Due(ms, deadlines[i].entities + [e])];
        AppendedHas(old(deadlines), i, e);
      } else {
        deadlines := deadlines[..i] + [Due(ms, [e])] + deadlines[i..];
        InsertedHas(old(deadlines), i, Due(ms, [e]));
      }
    }

    /** `collect_expired`: exactly the entities with a deadline up to now are returned,
        and exactly those deadlines forgotten. */
    method CollectExpired(now: nat) returns (woken: seq<Entity>)
      requires Valid()
      modifies this
      ensures Valid()
      ensures forall e :: e in woken <==> exists t: nat :: t <= now && Has(old(deadlines), t, e)
      ensures forall t: nat, e :: Has(deadlines, t, e) <==> Has(old(deadlines), t, e) && t > now
    {
      woken := [];
      var i := 0;
      while i < |deadlines| && deadlines[i].time <= now
        invariant 0 <= i <= |deadlines| && deadlines == old(deadlines)
        invariant forall j :: 0 <= j < i ==> deadlines[j].time <= now
        invariant forall e :: e in woken <==> exists j :: 0 <= j < i && e in deadlines[j].entities
      {
        woken := woken + deadlines[i].entities;
        i := i + 1;
      }
      ExpiredSplit(deadlines, i, now, woken);
      deadlines := deadlines[i..];
    }

    /** `next_deadline`: the earliest deadline known. */
    method NextDeadline() returns (r: Option<nat>)
      requires Valid()
      ensures r == None <==> forall t: nat, e :: !Has(deadlines, t, e)
      ensures r.Some? ==>
                (exists e :: Has(deadlines, r.value, e)) && forall t: nat, e :: Has(deadlines, t, e) ==> r.value <= t
    {
      if deadlines == [] {
        return None;
      }
      assert Has(deadlines, deadlines[0].time, deadlines[0].entities[0]);
      return Some(deadlines[0].time);
    }
  }

  lemma AppendedHas(ds: seq<Due>, i: nat, e: Entity)
    requires i < |ds|
    ensures var ds' := ds[i := Due(ds[i].time, ds[i].entities + [e])];
            forall t: nat, f :: Has(ds', t, f) <==> Has(ds, t, f) || (t == ds[i].time && f == e)
  {
    var ds' := ds[i := Due(ds[i].time, ds[i].entities + [e])];
    forall t: nat, f
      ensures Has(ds', t, f) <==> Has(ds, t, f) || (t == ds[i].time && f == e)
    {
      if Has(ds, t, f) {
        var j :| 0 <= j < |ds| && ds[j].time == t && f in ds[j].entities;
        assert ds'[j].time == t && f in ds'[j].entities;
      }
      assert e in ds'[i].entities;
    }
  }

  lemma InsertedHas(ds: seq<Due>, i: nat, d: Due)
    requires i <= |ds|
    ensures forall t: nat, f ::
              Has(ds[..i] + [d] + ds[i..], t, f) <==> Has(ds, t, f) || (t == d.time && f in d.entities)
  {
    var ds' := ds[..i] + [d] + ds[i..];
    forall t: nat, f
      ensures Has(ds', t, f) <==> Has(ds, t, f) || (t == d.time && f in d.entities)
    {
      if Has(ds, t, f) {
        var j :| 0 <= j < |ds| && ds[j].time == t && f in ds[j].entities;
        assert ds'[if j < i then j else j + 1] == ds[j];
      }
      if Has(ds', t, f) {
        var j :| 0 <= j < |ds'| && ds'[j].time == t && f in ds'[j].entities;
        assert j < i ==> ds[j] == ds'[j];
        assert j > i ==> ds[j - 1] == ds'[j];
      }
      assert ds'[i] == d;
    }
  }

  lemma ExpiredSplit(ds: seq<Due>, i: nat, now: nat, woken: seq<Entity>)
    requires Sorted(ds) && i <= |ds| && (forall j :: 0 <= j < i ==> ds[j].time <= now)
    requires (i < |ds| ==> ds[i].time > now)
    requires forall e :: e in woken <==> exists j :: 0 <= j < i && e in ds[j].entities
    ensures Sorted(ds[i..])
    ensures forall e :: e in woken <==> exists t: nat :: t <= now && Has(ds, t, e)
    ensures forall t: nat, e :: Has(ds[i..], t, e) <==> Has(ds, t, e) && t > now
  {
    assert forall j :: i <= j < |ds| ==> ds[j].time > now;
    forall e
      ensures e in woken <==> exists t: nat :: t <= now && Has(ds, t, e)
    {
      if e in woken {
        var j :| 0 <= j < i && e in ds[j].entities;
        assert Has(ds, ds[j].time, e);
      }
    }
    forall t: nat, e
      ensures Has(ds[i..], t, e) <==> Has(ds, t, e) && t > now
    {
      if Has(ds[i..], t, e) {
        var j :| 0 <= j < |ds[i..]| && ds[i..][j].time == t && e in ds[i..][j].entities;
        assert ds[i + j] == ds[i..][j];
      }
      if Has(ds, t, e) && t > now {
        var j :| 0 <= j < |ds| && ds[j].time == t && e in ds[j].entities;
        assert ds[i..][j - i] == ds[j];
      }
    }
  }
}
