/** Path canonicalisation (`panda-abi/src/path.rs`). */
module Paths {
  import opened Common

  type Text = seq<Byte>

  const SLASH: Byte := 47
  const DOT: Byte := 46

  // ---------------------------------------------------------------------------
  // What a path means
  // ---------------------------------------------------------------------------

  /** Position of the first slash, or the length. */
  function FirstSlash(p: Text): (e: nat)
    ensures e <= |p| && SLASH !in p[..e] && (e < |p| ==> p[e] == SLASH)
  {
    if p == [] || p[0] == SLASH then 0 else 1 + FirstSlash(p[1..])
  }

  /** The non-empty parts between slashes. */
  function Components(p: Text): (cs: seq<Text>)
    ensures forall c <- cs :: c != [] && SLASH !in c
  {
    if p == [] then []
    else
      var e := FirstSlash(p);
      (if e > 0 then [p[..e]] else []) + (if e < |p| then Components(p[e + 1..]) else [])
  }

  /** The effect of one component on the stack of those before it. */
  function Enter(stack: seq<Text>, c: Text): seq<Text> {
    if c == [DOT] then stack
    else if c == [DOT, DOT] then (if stack == [] then [] else stack[..|stack| - 1])
    else stack + [c]
  }

  function Walk(stack: seq<Text>, cs: seq<Text>): seq<Text>
    decreases |cs|
  {
    if cs == [] then stack else Walk(Enter(stack, cs[0]), cs[1..])
  }

  /** Each name with a slash before it. */
  function Slashed(cs: seq<Text>): Text {
    if cs == [] then [] else [SLASH] + cs[0] + Slashed(cs[1..])
  }

  function Join(cs: seq<Text>): Text {
    if cs == [] then [SLASH] else Slashed(cs)
  }

  /** The canonical form of a path: where walking its components from the root ends. */
  function Canon(p: Text): Text {
    Join(Walk([], Components(p)))
  }

  predicate IsName(c: Text) {
    c != [] && SLASH !in c && c != [DOT] && c != [DOT, DOT]
  }

  predicate AllNames(cs: seq<Text>) {
    forall c <- cs :: IsName(c)
  }

  /** Names with single slashes between. */
  predicate NamesOk(q: Text)
    decreases |q|
  {
    var e := FirstSlash(q);
    e > 0 && IsName(q[..e]) && (e == |q| || NamesOk(q[e + 1..]))
  }

  predicate Canonical(p: Text) {
    p != [] && p[0] == SLASH && (|p| == 1 || NamesOk(p[1..]))
  }

  lemma {:induction false} SlashAt(c: Text, rest: Text)
    requires SLASH !in c && (rest == [] || rest[0] == SLASH)
    ensures FirstSlash(c + rest) == |c|
  {
    if c == [] {
      assert c + rest == rest;
    } else {
      assert c[0] in c && (c + rest)[1..] == c[1..] + rest;
      SlashAt(c[1..], rest);
    }
  }

  lemma SkipSlash(p: Text)
    requires p != [] && p[0] == SLASH
    ensures Components(p) == Components(p[1..])
  {
    assert FirstSlash(p) == 0;
    assert [] + Components(p[1..]) == Components(p[1..]);
  }

  lemma TakeAt(p: Text)
    requires FirstSlash(p) > 0
    ensures var e := FirstSlash(p); Components(p) == [p[..e]] + (if e == |p| then [] else Components(p[e + 1..]))
  {
    hide FirstSlash;
  }

  /** A name at the front is the first component. */
  lemma TakeName(c: Text, rest: Text)
    requires c != [] && SLASH !in c && (rest == [] || rest[0] == SLASH)
    ensures Components(c + rest) == [c] + (if rest == [] then [] else Components(rest[1..]))
  {
    SlashAt(c, rest);
    TakeAt(c + rest);
    hide FirstSlash, Components;
    assert (c + rest)[..|c|] == c;
    if rest != [] { assert (c + rest)[|c| + 1..] == rest[1..]; }
  }

  lemma TakeNameOk(c: Text, rest: Text)
    requires IsName(c) && (rest == [] || rest[0] == SLASH)
    ensures NamesOk(c + rest) <==> rest == [] || NamesOk(rest[1..])
  {
    SlashAt(c, rest);
    hide FirstSlash;
    assert (c + rest)[..|c|] == c;
    if rest != [] { assert (c + rest)[|c| + 1..] == rest[1..]; }
  }

  lemma {:induction false} SlashedComponents(cs: seq<Text>)
    requires forall c <- cs :: c != [] && SLASH !in c
    ensures Components(Slashed(cs)) == cs
  {
    hide Components, NamesOk;
    if cs == [] {
      assert Components([]) == [] by { NoComponents(); }
    } else {
      var c, rest := cs[0], Slashed(cs[1..]);
      assert c in cs && forall d <- cs[1..] :: d in cs;
      SlashedComponents(cs[1..]);
      SkipSlash(Slashed(cs));
      assert Slashed(cs)[1..] == c + rest;
      TakeName(c, rest);
      if rest == [] {
        NoComponents();
      } else {
        SkipSlash(rest);
      }
      assert cs == [c] + cs[1..];
    }
  }

  lemma NoComponents()
    ensures Components([]) == []
  {
  }

  lemma {:induction false} WalkNames(stack: seq<Text>, cs: seq<Text>)
    requires AllNames(cs)
    ensures Walk(stack, cs) == stack + cs
    decreases |cs|
  {
    if cs == [] {
      assert stack + cs == stack;
    } else {
      assert cs[0] in cs && forall c <- cs[1..] :: c in cs;
      WalkNames(stack + [cs[0]], cs[1..]);
      assert (stack + [cs[0]]) + cs[1..] == stack + cs;
    }
  }

  lemma {:induction false} WalkGivesNames(stack: seq<Text>, cs: seq<Text>)
    requires AllNames(stack) && forall c <- cs :: c != [] && SLASH !in c
    ensures AllNames(Walk(stack, cs))
    decreases |cs|
  {
    if cs != [] {
      assert cs[0] in cs && forall c <- cs[1..] :: c in cs;
      WalkGivesNames(Enter(stack, cs[0]), cs[1..]);
    }
  }

  /** Paths made of names are canonical, and canonicalising leaves them alone. */
  lemma JoinedIsFixed(cs: seq<Text>)
    requires AllNames(cs)
    ensures Canon(Join(cs)) == Join(cs)
  {
    if cs == [] {
      assert Components([SLASH]) == [];
    } else {
      SlashedComponents(cs);
    }
    WalkNames([], cs);
    assert [] + cs == cs;
  }

  lemma {:induction false} SlashedNamesOk(cs: seq<Text>)
    requires AllNames(cs) && cs != []
    ensures Slashed(cs)[0] == SLASH && NamesOk(Slashed(cs)[1..])
  {
    hide NamesOk, Components;
    var c, rest := cs[0], Slashed(cs[1..]);
    assert c in cs && Slashed(cs)[1..] == c + rest && forall d <- cs[1..] :: d in cs;
    if cs[1..] != [] { SlashedNamesOk(cs[1..]); }
    TakeNameOk(c, rest);
  }

  /** The names of such a text, with slashes before them, are the text again. */
  lemma {:induction false} NamesJoined(q: Text)
    requires NamesOk(q)
    ensures AllNames(Components(q)) && Components(q) != [] && Slashed(Components(q)) == [SLASH] + q
    decreases |q|
  {
    hide IsName, FirstSlash;
    var e := FirstSlash(q);
    var c := q[..e];
    if e == |q| {
      assert c == q && Components(q) == [c] + [];
      SlashedFirst(c, []);
    } else {
      var q' := q[e + 1..];
      NamesJoined(q');
      assert Components(q) == [c] + Components(q');
      SlashedFirst(c, Components(q'));
      assert q == c + ([SLASH] + q');
      assert [SLASH] + c + ([SLASH] + q') == [SLASH] + (c + ([SLASH] + q'));
    }
  }

  lemma SlashedFirst(c: Text, cs: seq<Text>)
    ensures Slashed([c] + cs) == [SLASH] + c + Slashed(cs)
  {
    assert ([c] + cs)[1..] == cs;
  }

  /** A path is canonical exactly when canonicalising leaves it as it is. */
  lemma CanonicalIff(p: Text)
    ensures Canonical(p) <==> Canon(p) == p
  {
    if Canonical(p) {
      if |p| == 1 {
        assert p == Join([]);
        JoinedIsFixed([]);
      } else {
        NamesJoined(p[1..]);
        assert p == [SLASH] + p[1..];
        JoinedIsFixed(Components(p[1..]));
      }
    }
    if Canon(p) == p {
      CanonIsCanonical(p);
    }
  }

  /** Canonicalising always gives a canonical path; so doing it twice changes nothing. */
  lemma CanonIsCanonical(p: Text)
    ensures Canonical(Canon(p)) && Canon(Canon(p)) == Canon(p)
  {
    var cs := Walk([], Components(p));
    WalkGivesNames([], Components(p));
    if cs != [] { SlashedNamesOk(cs); }
    JoinedIsFixed(cs);
  }

  // ---------------------------------------------------------------------------
  // Laws of the canonical form, in bytes
  // ---------------------------------------------------------------------------

  lemma {:induction false} SlashedConcat(cs: seq<Text>, ds: seq<Text>)
    ensures Slashed(cs + ds) == Slashed(cs) + Slashed(ds)
  {
    if cs == [] {
      assert cs + ds == ds;
    } else {
      assert (cs + ds)[1..] == cs[1..] + ds;
      SlashedConcat(cs[1..], ds);
    }
  }

  lemma {:induction false} ComponentsConcat(p: Text, rest: Text)
    requires rest == [] || rest[0] == SLASH
    ensures Components(p + rest) == Components(p) + Components(rest)
    decreases |p|
  {
    hide FirstSlash, Components;
    if p == [] {
      NoComponents();
      assert p + rest == rest && [] + Components(rest) == Components(rest);
    } else if p[0] == SLASH {
      SkipSlash(p);
      SkipSlash(p + rest);
      assert (p + rest)[1..] == p[1..] + rest;
      ComponentsConcat(p[1..], rest);
    } else {
      var e := FirstSlash(p);
      FirstIsPositive(p);
      var c, tail := p[..e], p[e..];
      assert p == c + tail && p + rest == c + (tail + rest);
      TakeName(c, tail);
      TakeName(c, tail + rest);
      NoComponents();
      if tail == [] {
        if rest != [] { SkipSlash(rest); }
        assert tail + rest == rest;
      } else {
        assert (tail + rest)[1..] == tail[1..] + rest;
        ComponentsConcat(tail[1..], rest);
      }
    }
  }

  lemma FirstIsPositive(p: Text)
    requires p != [] && p[0] != SLASH
    ensures 0 < FirstSlash(p)
  {
  }

  lemma {:induction false} WalkConcat(stack: seq<Text>, cs: seq<Text>, ds: seq<Text>)
    ensures Walk(stack, cs + ds) == Walk(Walk(stack, cs), ds)
    decreases |cs|
  {
    hide Enter;
    if cs == [] {
      assert cs + ds == ds;
    } else {
      assert (cs + ds)[1..] == cs[1..] + ds;
      WalkConcat(Enter(stack, cs[0]), cs[1..], ds);
    }
  }

  /** One more part after a slash. */
  lemma PartAfter(p: Text, c: Text)
    requires c != [] && SLASH !in c
    ensures Components(p + [SLASH] + c) == Components(p) + [c]
    ensures Walk([], Components(p + [SLASH] + c)) == Enter(Walk([], Components(p)), c)
  {
    hide FirstSlash, Components, Enter;
    var rest := [SLASH] + c;
    assert p + [SLASH] + c == p + rest && rest[1..] == c && c + [] == c;
    ComponentsConcat(p, rest);
    SkipSlash(rest);
    TakeName(c, []);
    WalkConcat([], Components(p), [c]);
    assert [c][1..] == [];
  }

  /** A canonical path continued by a name. */
  function Below(p: Text, c: Text): Text {
    if p == [SLASH] then [SLASH] + c else p + [SLASH] + c
  }

  lemma JoinBelow(cs: seq<Text>, c: Text)
    requires AllNames(cs)
    ensures Join(cs + [c]) == Below(Join(cs), c)
  {
    hide Slashed;
    SlashedSnoc(cs, c);
    if cs == [] {
      assert Slashed([]) + ([SLASH] + c) == [SLASH] + c by { NoSlashed(); }
    } else {
      assert Slashed(cs) + ([SLASH] + c) == Slashed(cs) + [SLASH] + c;
      SlashedLonger(cs);
    }
  }

  lemma NoSlashed()
    ensures Slashed([]) == []
  {
  }

  lemma SlashedLonger(cs: seq<Text>)
    requires AllNames(cs) && cs != []
    ensures |Slashed(cs)| > 1
  {
    assert cs[0] in cs;
  }

  /** A name after a path continues its canonical form. */
  lemma CanonName(p: Text, c: Text)
    requires IsName(c)
    ensures Canon(p + [SLASH] + c) == Below(Canon(p), c)
  {
    hide FirstSlash, Components, Walk, Join;
    PartAfter(p, c);
    WalkGivesNames([], Components(p));
    JoinBelow(Walk([], Components(p)), c);
  }

  /** A dot after a path, or nothing after the slash, changes nothing. */
  lemma CanonDot(p: Text)
    ensures Canon(p + [SLASH, DOT]) == Canon(p) == Canon(p + [SLASH])
  {
    hide FirstSlash, Components, Walk, Join;
    PartAfter(p, [DOT]);
    assert p + [SLASH, DOT] == p + [SLASH] + [DOT];
    ComponentsConcat(p, [SLASH]);
    SkipSlash([SLASH]);
    NoComponents();
    assert [SLASH][1..] == [] && Components(p) + [] == Components(p);
  }

  /** Two dots after a name undo it. */
  lemma CanonUp(p: Text, c: Text)
    requires IsName(c)
    ensures Canon(p + [SLASH] + c + [SLASH, DOT, DOT]) == Canon(p)
  {
    hide FirstSlash, Components, Walk, Join;
    var q := p + [SLASH] + c;
    PartAfter(p, c);
    PartAfter(q, [DOT, DOT]);
    assert q + [SLASH, DOT, DOT] == q + [SLASH] + [DOT, DOT];
    var stack := Walk([], Components(p));
    assert (stack + [c])[..|stack + [c]| - 1] == stack;
  }

  /** Two dots at the root stay there, an empty path is the root, and a leading slash is implied. */
  lemma CanonRoot(p: Text)
    ensures Canon([SLASH, DOT, DOT]) == [SLASH] == Canon([]) && Canon([SLASH] + p) == Canon(p)
  {
    hide FirstSlash, Components;
    NoComponents();
    PartAfter([], [DOT, DOT]);
    assert [] + [SLASH] + [DOT, DOT] == [SLASH, DOT, DOT];
    SkipSlash([SLASH] + p);
    assert ([SLASH] + p)[1..] == p;
  }

  /** What follows a slash only depends on the canonical form before it. */
  lemma CanonAfter(p: Text, q: Text)
    ensures Canon(Canon(p) + [SLASH] + q) == Canon(p + [SLASH] + q)
  {
    hide FirstSlash, Components, Walk, Join;
    var rest := [SLASH] + q;
    assert Canon(p) + [SLASH] + q == Canon(p) + rest && p + [SLASH] + q == p + rest;
    ComponentsConcat(p, rest);
    ComponentsConcat(Canon(p), rest);
    WalkConcat([], Components(p), Components(rest));
    WalkConcat([], Components(Canon(p)), Components(rest));
    CanonWalk(p);
  }

  lemma CanonWalk(p: Text)
    ensures Walk([], Components(Canon(p))) == Walk([], Components(p))
  {
    var cs := Walk([], Components(p));
    WalkGivesNames([], Components(p));
    hide Components, FirstSlash, Enter;
    if cs == [] {
      SkipSlash([SLASH]);
      NoComponents();
    } else {
      SlashedComponents(cs);
    }
    WalkNames([], cs);
    assert [] + cs == cs;
  }

  /** What the last part of a path does to its result, in bytes. */
  ghost predicate Obeys(p: Text, r: Text) {
    && (p == [] || p == [SLASH, DOT, DOT] ==> r == [SLASH])
    && (forall q: Text :: p == q + [SLASH] || p == q + [SLASH, DOT] ==> r == Canon(q))
    && (forall q, c :: IsName(c) && p == q + [SLASH] + c ==> r == Below(Canon(q), c))
    && (forall q, c :: IsName(c) && p == q + [SLASH] + c + [SLASH, DOT, DOT] ==> r == Canon(q))
  }

  lemma CanonObeys(p: Text)
    ensures Obeys(p, Canon(p))
  {
    hide Canon, IsName;
    CanonRoot([]);
    forall q: Text | p == q + [SLASH] || p == q + [SLASH, DOT]
      ensures Canon(p) == Canon(q)
    {
      CanonDot(q);
    }
    forall q, c | IsName(c) && p == q + [SLASH] + c
      ensures Canon(p) == Below(Canon(q), c)
    {
      CanonName(q, c);
    }
    forall q, c | IsName(c) && p == q + [SLASH] + c + [SLASH, DOT, DOT]
      ensures Canon(p) == Canon(q)
    {
      CanonUp(q, c);
    }
  }

  // ---------------------------------------------------------------------------
  // Checking and canonicalising
  // ---------------------------------------------------------------------------

  /** End of the component that starts at `start`. */
  method ComponentEnd(p: Text, start: nat) returns (i: nat)
    requires start <= |p|
    ensures start <= i <= |p| && i - start == FirstSlash(p[start..])
  {
    i := start;
    while i < |p| && p[i] != SLASH
      invariant start <= i <= |p| && SLASH !in p[start..i]
    {
      i := i + 1;
    }
    SlashAt(p[start..i], p[i..]);
    assert p[start..] == p[start..i] + p[i..];
  }

  /** `is_canonical`: exactly the fixed points of canonicalisation. */
  method IsCanonical(p: Text) returns (ok: bool)
    ensures ok <==> Canon(p) == p
  {
    CanonicalIff(p);
    hide Canon, FirstSlash;
    if p == [] || p[0] != SLASH {
      return false;
    }
    if |p| == 1 {
      return true;
    }
    if p[|p| - 1] == SLASH {
      EndsInSlash(p[1..]);
      return false;
    }
    ok := ScanNames(p);
  }

  /** The loop of `is_canonical`, on a path that does not end in a slash. */
  method ScanNames(p: Text) returns (ok: bool)
    requires |p| > 1 && p[|p| - 1] != SLASH
    ensures ok <==> NamesOk(p[1..])
  {
    hide NamesOk, IsName, FirstSlash;
    var i := 1;
    while i < |p|
      invariant 1 <= i <= |p| + 1
      invariant i <= |p| ==> i < |p| && (NamesOk(p[1..]) <==> NamesOk(p[i..]))
      invariant i == |p| + 1 ==> NamesOk(p[1..])
    {
      var start := i;
      i := ComponentEnd(p, start);
      var component := p[start..i];
      NamesStep(p, start, i);
      if component == [] {
        return false;
      }
      if component == [DOT] || component == [DOT, DOT] {
        return false;
      }
      i := i + 1;
    }
    return true;
  }

  /** The names from a position on are a name up to the next slash and the names after it. */
  lemma NamesStep(p: Text, start: nat, i: nat)
    requires start <= i <= |p| && i - start == FirstSlash(p[start..])
    ensures NamesOk(p[start..]) <==>
              && p[start..i] != [] && p[start..i] != [DOT] && p[start..i] != [DOT, DOT]
              && (i == |p| || NamesOk(p[i + 1..]))
    ensures i < |p| ==> p[i] == SLASH
  {
    assert p[start..][..i - start] == p[start..i];
    if i < |p| {
      assert p[start..][i - start] == p[i];
      assert p[start..][i - start + 1..] == p[i + 1..];
    }
  }

  /** A text that ends in a slash is not made of names. */
  lemma {:induction false} EndsInSlash(q: Text)
    requires q != [] && q[|q| - 1] == SLASH
    ensures !NamesOk(q)
    decreases |q|
  {
    var e := FirstSlash(q);
    assert q[..|q|] == q && q[|q| - 1] in q;
    if 0 < e {
      if e + 1 < |q| {
        EndsInSlash(q[e + 1..]);
      } else {
        assert FirstSlash(q[e + 1..]) == 0;
      }
    }
  }

  const MAX_DEPTH: nat := 64

  predicate IsPush(c: Text) {
    c != [DOT] && c != [DOT, DOT]
  }

  /** Walking the components never holds more than the limit. */
  predicate Shallow(stack: seq<Text>, cs: seq<Text>)
    decreases |cs|
  {
    cs == [] || ((IsPush(cs[0]) ==> |stack| < MAX_DEPTH) && Shallow(Enter(stack, cs[0]), cs[1..]))
  }

  lemma WalkStep(stack: seq<Text>, c: Text, cs: seq<Text>)
    ensures Walk(stack, [c] + cs) == Walk(Enter(stack, c), cs)
    ensures Shallow(stack, [c] + cs) <==> (IsPush(c) ==> |stack| < MAX_DEPTH) && Shallow(Enter(stack, c), cs)
  {
    assert ([c] + cs)[1..] == cs;
  }

  /** The recorded components are those of `stack`. */
  ghost predicate Records(p: Text, at: seq<(nat, nat)>, stack: seq<Text>) {
    && |at| == |stack|
    && forall k :: 0 <= k < |at| ==> at[k].0 + at[k].1 <= |p| && p[at[k].0..at[k].0 + at[k].1] == stack[k]
  }

  /** One component: keep, pop or push; none when the stack is full. */
  method EnterComponent(p: Text, start: nat, end: nat, positions: array<(nat, nat)>, n: nat, ghost stack: seq<Text>)
    returns (r: Option<nat>)
    requires positions.Length == MAX_DEPTH && n <= MAX_DEPTH && start < end <= |p|
    requires Records(p, positions[..n], stack)
    modifies positions
    ensures r == None <==> IsPush(p[start..end]) && |stack| >= MAX_DEPTH
    ensures r.Some? ==> r.value <= MAX_DEPTH && Records(p, positions[..r.value], Enter(stack, p[start..end]))
  {
    var component := p[start..end];
    if component == [DOT] {
      return Some(n);
    } else if component == [DOT, DOT] {
      if n > 0 {
        return Some(n - 1);
      }
      return Some(n);
    } else {
      if n >= MAX_DEPTH {
        return None;
      }
      positions[n] := (start, end - start);
      return Some(n + 1);
    }
  }

  /** The first loop of `canonicalize_path_to_buf`: positions of the components left. */
  method Collect(p: Text, positions: array<(nat, nat)>) returns (count: Option<nat>)
    requires positions.Length == MAX_DEPTH
    modifies positions
    ensures count == None <==> !Shallow([], Components(p))
    ensures count.Some? ==> count.value <= MAX_DEPTH && Records(p, positions[..count.value], Walk([], Components(p)))
  {
    hide FirstSlash, Components, Walk, Shallow, Records, Enter;
    var i, n := 0, 0;
    ghost var stack: seq<Text> := [];
    assert p[0..] == p;
    assert Records(p, positions[..0], []) by { NothingRecorded(p, positions[..0]); }
    while i < |p|
      invariant 0 <= i <= |p| && 0 <= n <= MAX_DEPTH && Records(p, positions[..n], stack)
      invariant Walk(stack, Components(p[i..])) == Walk([], Components(p))
      invariant Shallow(stack, Components(p[i..])) <==> Shallow([], Components(p))
    {
      var start := i;
      i := ComponentEnd(p, start);
      if i > start {
        TakeComponent(p, start, i);
        WalkStep(stack, p[start..i], Components(p[if i == |p| then i else i + 1..]));
        var r := EnterComponent(p, start, i, positions, n, stack);
        if r == None {
          return None;
        }
        n := r.value;
        stack := Enter(stack, p[start..i]);
      } else {
        SkipComponent(p, start);
      }
      if i < |p| {
        i := i + 1;
      }
    }
    assert p[i..] == [];
    NoComponents();
    Finished(stack);
    return Some(n);
  }

  lemma NothingRecorded(p: Text, at: seq<(nat, nat)>)
    requires at == []
    ensures Records(p, at, [])
  {
  }

  lemma Finished(stack: seq<Text>)
    ensures Walk(stack, []) == stack && Shallow(stack, [])
  {
  }

  lemma TakeComponent(p: Text, start: nat, i: nat)
    requires start < i <= |p| && i - start == FirstSlash(p[start..])
    ensures Components(p[start..]) == [p[start..i]] + Components(p[if i == |p| then i else i + 1..])
  {
    hide FirstSlash, Components;
    TakeAt(p[start..]);
    assert p[start..][..i - start] == p[start..i];
    if i == |p| {
      NoComponents();
      assert p[i..] == [];
    } else {
      assert p[start..][i - start + 1..] == p[i + 1..];
    }
  }

  lemma SkipComponent(p: Text, start: nat)
    requires start < |p| && FirstSlash(p[start..]) == 0
    ensures Components(p[start..]) == Components(p[start + 1..])
  {
    hide Components;
    SkipSlash(p[start..]);
    assert p[start..][1..] == p[start + 1..];
  }

  lemma {:induction false} SlashedSnoc(cs: seq<Text>, c: Text)
    ensures Slashed(cs + [c]) == Slashed(cs) + ([SLASH] + c)
  {
    if cs == [] {
      assert cs + [c] == [c] && [c][1..] == [];
    } else {
      assert (cs + [c])[1..] == cs[1..] + [c];
      SlashedSnoc(cs[1..], c);
    }
  }

  /** The length a list of positions needs. */
  method Needed(p: Text, positions: array<(nat, nat)>, count: nat, ghost stack: seq<Text>) returns (needed: nat)
    requires count <= positions.Length && Records(p, positions[..count], stack)
    ensures needed == |Slashed(stack)|
  {
    var i := 0;
    needed := 0;
    assert stack[..0] == [];
    while i < count
      invariant 0 <= i <= count && needed == |Slashed(stack[..i])|
    {
      assert stack[..i + 1] == stack[..i] + [stack[i]];
      SlashedSnoc(stack[..i], stack[i]);
      assert positions[..count][i] == positions[i];
      needed := needed + 1 + positions[i].1;
      i := i + 1;
    }
    assert stack[..i] == stack;
  }

  /** Copy a component into the buffer. */
  method CopyText(buf: array<Byte>, at: nat, text: Text)
    requires at + |text| <= buf.Length
    modifies buf
    ensures buf[..at] == old(buf[..at]) && buf[at..at + |text|] == text
  {
    var i := 0;
    while i < |text|
      invariant 0 <= i <= |text| && buf[..at] == old(buf[..at]) && buf[at..at + i] == text[..i]
    {
      buf[at + i] := text[i];
      assert buf[at..at + i + 1] == buf[at..at + i] + [text[i]];
      assert text[..i + 1] == text[..i] + [text[i]];
      i := i + 1;
    }
    assert text[..i] == text;
  }

  /** The last loop: write each component with its slash. */
  method WriteComponents(p: Text, positions: array<(nat, nat)>, count: nat, buf: array<Byte>, ghost stack: seq<Text>)
    returns (pos: nat)
    requires count <= positions.Length && Records(p, positions[..count], stack) && |Slashed(stack)| <= buf.Length
    modifies buf
    ensures pos == |Slashed(stack)| && buf[..pos] == Slashed(stack)
  {
    var i := 0;
    pos := 0;
    assert stack[..0] == [];
    while i < count
      invariant 0 <= i <= count && pos == |Slashed(stack[..i])| <= buf.Length && buf[..pos] == Slashed(stack[..i])
    {
      var start, len := positions[i].0, positions[i].1;
      assert positions[..count][i] == positions[i];
      assert stack[..i + 1] == stack[..i] + [stack[i]];
      SlashedSnoc(stack[..i], stack[i]);
      SlashedMonotone(stack, i + 1);
      var piece := [SLASH] + p[start..start + len];
      CopyText(buf, pos, piece);
      assert buf[..pos + |piece|] == buf[..pos] + buf[pos..pos + |piece|];
      pos := pos + 1 + len;
      i := i + 1;
    }
    assert stack[..i] == stack;
  }

  lemma {:induction false} SlashedMonotone(cs: seq<Text>, i: nat)
    requires i <= |cs|
    ensures |Slashed(cs[..i])| <= |Slashed(cs)|
    decreases |cs| - i
  {
    if i == |cs| {
      assert cs[..i] == cs;
    } else {
      assert cs[..i + 1] == cs[..i] + [cs[i]];
      SlashedSnoc(cs[..i], cs[i]);
      SlashedMonotone(cs, i + 1);
    }
  }

  /** `canonicalize_path_to_buf`: the canonical form, unless it was too deep on the way or
      is too long for the buffer. */
  method CanonicalizeToBuf(p: Text, buf: array<Byte>) returns (n: Option<nat>)
    modifies buf
    ensures n == None <==> !Shallow([], Components(p)) || |Canon(p)| > buf.Length
    ensures n.Some? ==> n.value == |Canon(p)| && buf[..n.value] == Canon(p)
  {
    hide Shallow, Components, Walk, Records;
    var positions := new (nat, nat)[MAX_DEPTH](_ => (0, 0));
    var count := Collect(p, positions);
    if count == None {
      return None;
    }
    ghost var stack := Walk([], Components(p));
    assert |stack| == count.value by { RecordsLength(p, positions[..count.value], stack); }
    if count.value == 0 {
      if buf.Length == 0 {
        return None;
      }
      buf[0] := SLASH;
      return Some(1);
    }
    var needed := Needed(p, positions, count.value, stack);
    if needed > buf.Length {
      return None;
    }
    var pos := WriteComponents(p, positions, count.value, buf, stack);
    return Some(pos);
  }

  lemma RecordsLength(p: Text, at: seq<(nat, nat)>, stack: seq<Text>)
    requires Records(p, at, stack)
    ensures |at| == |stack|
  {
  }

  const PATH_BUFFER: nat := 4096

  /** Within the limits of the canonicaliser's stack and buffer. */
  predicate WithinLimits(p: Text) {
    Shallow([], Components(p)) && |Canon(p)| <= PATH_BUFFER
  }

  /** `canonicalize` of the file system: the canonical form, on the fast path and on the
      slow one; the root only for paths that are neither canonical nor within limits. */
  method Canonicalize(p: Text) returns (r: Text)
    ensures Canon(p) == p || WithinLimits(p) ==> r == Canon(p)
    ensures Canon(p) == p || WithinLimits(p) ==> Obeys(p, r)
    ensures Canon(p) != p && !WithinLimits(p) ==> r == [SLASH]
    ensures Canon(r) == r
  {
    hide Canon, Shallow, Components, Obeys;
    CanonObeys(p);
    var ok := IsCanonical(p);
    if ok {
      return p;
    }
    CanonIsCanonical(p);
    var buf := new Byte[PATH_BUFFER](_ => 0);
    var n := CanonicalizeToBuf(p, buf);
    match n {
      case Some(len) => return buf[..len];
      case None =>
        RootIsCanonical();
        return [SLASH];
    }
  }

  lemma RootIsCanonical()
    ensures Canon([SLASH]) == [SLASH]
  {
    JoinedIsFixed([]);
  }

  lemma {:induction false} NamesShallow(stack: seq<Text>, cs: seq<Text>)
    requires AllNames(cs)
    ensures Shallow(stack, cs) <==> cs == [] || |stack| + |cs| <= MAX_DEPTH
    decreases |cs|
  {
    if cs != [] {
      assert IsName(cs[0]);
      NamesShallow(stack + [cs[0]], cs[1..]);
    }
  }

  /** A canonical path is within the limits exactly when it has at most so many names and
      so many bytes. */
  lemma CanonicalLimits(p: Text)
    requires Canon(p) == p
    ensures WithinLimits(p) <==> |Components(p)| <= MAX_DEPTH && |p| <= PATH_BUFFER
  {
    CanonicalIff(p);
    if |p| == 1 {
      assert p == [SLASH];
      SkipSlash(p);
      NoComponents();
    } else {
      SkipSlash(p);
      NamesJoined(p[1..]);
      NamesShallow([], Components(p));
    }
  }

  /** A path of 65 names: canonical, and beyond the depth limit. */
  lemma DeepPathExample()
    ensures var p := Slashed(seq(65, _ => [97]));
            Canon(p) == p && !WithinLimits(p)
  {
    var cs: seq<Text> := seq(65, _ => [97]);
    assert AllNames(cs);
    JoinedIsFixed(cs);
    SlashedComponents(cs);
    CanonicalLimits(Slashed(cs));
  }
}
