/** What determines the canonical form of a path and the limits of its computation, in
    bytes (`panda-abi/src/path.rs`). */
module PathLaws {
  import opened Common
  import opened Paths

  // ---------------------------------------------------------------------------
  // The depth limit
  // ---------------------------------------------------------------------------

  /** How many slashes a path has. */
  function Slashes(p: Text): nat {
    multiset(p)[SLASH]
  }

  lemma SlashesConcat(p: Text, q: Text)
    ensures Slashes(p + q) == Slashes(p) + Slashes(q)
  {
  }

  lemma {:induction false} SlashesOfNames(cs: seq<Text>)
    requires AllNames(cs)
    ensures Slashes(Slashed(cs)) == |cs|
  {
    if cs != [] {
      assert cs[0] in cs && forall c <- cs[1..] :: c in cs;
      SlashesOfNames(cs[1..]);
      SlashesConcat([SLASH] + cs[0], Slashed(cs[1..]));
      SlashesConcat([SLASH], cs[0]);
    }
  }

  /** A canonical form has as many slashes as names, and the root one. */
  lemma SlashesOfCanon(p: Text)
    ensures var n := |Walk([], Components(p))|; Slashes(Canon(p)) == if n == 0 then 1 else n
  {
    WalkGivesNames([], Components(p));
    SlashesOfNames(Walk([], Components(p)));
  }

  lemma {:induction false} ShallowConcat(stack: seq<Text>, cs: seq<Text>, c: Text)
    ensures Shallow(stack, cs + [c]) <==> Shallow(stack, cs) && (IsPush(c) ==> |Walk(stack, cs)| < MAX_DEPTH)
    decreases |cs|
  {
    hide Enter;
    if cs == [] {
      assert cs + [c] == [c] && [c][1..] == [];
    } else {
      assert (cs + [c])[1..] == cs[1..] + [c];
      ShallowConcat(Enter(stack, cs[0]), cs[1..], c);
    }
  }

  lemma {:induction false} ShallowBound(stack: seq<Text>, cs: seq<Text>)
    requires Shallow(stack, cs) && |stack| <= MAX_DEPTH
    ensures |Walk(stack, cs)| <= MAX_DEPTH
    decreases |cs|
  {
    if cs != [] { ShallowBound(Enter(stack, cs[0]), cs[1..]); }
  }

  /** The part a path ends in, and what is before it: nothing, or something ending in a slash. */
  lemma {:induction false} LastPart(p: Text) returns (q: Text, c: Text)
    ensures p == q + c && SLASH !in c && (q == [] || q[|q| - 1] == SLASH)
  {
    if p == [] || p[|p| - 1] == SLASH {
      return p, [];
    }
    var last := [p[|p| - 1]];
    var front := p[..|p| - 1];
    q, c := LastPart(front);
    c := c + last;
    assert p == front + last;
  }

  /** The parts of a path that ends in a part. */
  lemma PartsEnd(q: Text, c: Text)
    requires c != [] && SLASH !in c && (q == [] || q[|q| - 1] == SLASH)
    ensures Components(q + c) == Components(q) + [c]
  {
    hide Components, FirstSlash;
    if q == [] {
      TakeName(c, []);
      NoComponents();
      assert q + c == c == c + [];
    } else {
      var front := q[..|q| - 1];
      assert q == front + [SLASH];
      PartAfter(front, c);
      ComponentsConcat(front, [SLASH]);
      SkipSlash([SLASH]);
      NoComponents();
      assert [SLASH][1..] == [] && Components(front) + [] == Components(front);
    }
  }

  /** One more byte. */
  lemma ByteMore(p: Text, b: Byte)
    ensures Shallow([], Components(p + [b])) <==>
              Shallow([], Components(p)) && |Walk([], Components(p + [b]))| <= MAX_DEPTH
  {
    hide Components, FirstSlash, Shallow;
    if Shallow([], Components(p)) { ShallowBound([], Components(p)); }
    if Shallow([], Components(p + [b])) { ShallowBound([], Components(p + [b])); }
    if b == SLASH {
      ComponentsConcat(p, [b]);
      SkipSlash([SLASH]);
      NoComponents();
      assert [SLASH][1..] == [] && Components(p) + [] == Components(p);
    } else {
      var q, c := LastPart(p);
      var d: Text := c + [b];
      assert p + [b] == q + d;
      PartsEnd(q, d);
      ShallowConcat([], Components(q), d);
      WalkConcat([], Components(q), [d]);
      var ds: seq<Text> := [d];
      assert ds[1..] == [];
      if c == [] {
        assert p == q;
      } else {
        PartsEnd(q, c);
        ShallowConcat([], Components(q), c);
        assert IsPush(c) ==> IsPush(d) by { assert d[..|c|] == c; }
      }
    }
  }

  /** No prefix of the path leads deeper than the limit. */
  ghost predicate NeverDeep(p: Text) {
    forall k :: 0 <= k <= |p| ==> Slashes(Canon(p[..k])) <= 64
  }

  /** The canonicaliser's stack suffices exactly when no prefix of the path has a canonical
      form with more than 64 slashes. */
  lemma {:induction false} DepthLimit(p: Text)
    ensures Shallow([], Components(p)) <==> NeverDeep(p)
  {
    hide Components, FirstSlash, Shallow, Canon, Slashes, Walk;
    SlashesOfCanon(p);
    assert p[..|p|] == p;
    if p == [] {
      NoComponents();
      assert Shallow([], []) by { Finished([]); }
      assert Walk([], []) == [] by { Finished([]); }
    } else {
      var front, b := p[..|p| - 1], p[|p| - 1];
      assert p == front + [b];
      DepthLimit(front);
      ByteMore(front, b);
      assert forall k :: 0 <= k <= |front| ==> front[..k] == p[..k];
    }
  }

  /** So the limits are on the canonical forms of the path and its prefixes. */
  lemma LimitsInBytes(p: Text)
    ensures WithinLimits(p) <==> NeverDeep(p) && |Canon(p)| <= 4096
  {
    DepthLimit(p);
  }

  // ---------------------------------------------------------------------------
  // The laws determine the form
  // ---------------------------------------------------------------------------

  /** Laws a meaning of paths may have. */
  ghost predicate Lawful(f: Text -> Text) {
    && f([]) == [SLASH] == f([SLASH, DOT, DOT])
    && (forall p :: f([SLASH] + p) == f(p))
    && (forall p :: f(p + [SLASH]) == f(p) == f(p + [SLASH, DOT]))
    && (forall p, c :: IsName(c) ==> f(p + [SLASH] + c) == Below(f(p), c))
    && (forall p, c :: IsName(c) ==> f(p + [SLASH] + c + [SLASH, DOT, DOT]) == f(p))
    && (forall p, q, c :: f(p) == f(q) ==> f(p + [SLASH] + c) == f(q + [SLASH] + c))
  }

  lemma CanonIsLawful()
    ensures Lawful(Canon)
  {
    hide IsName;
    forall p: Text
      ensures Canon([SLASH] + p) == Canon(p) && Canon(p + [SLASH]) == Canon(p) == Canon(p + [SLASH, DOT])
    {
      CanonRoot(p);
      CanonDot(p);
    }
    CanonRoot([]);
    forall p, c | IsName(c)
      ensures Canon(p + [SLASH] + c) == Below(Canon(p), c)
      ensures Canon(p + [SLASH] + c + [SLASH, DOT, DOT]) == Canon(p)
    {
      CanonName(p, c);
      CanonUp(p, c);
    }
    forall p, q, c | Canon(p) == Canon(q)
      ensures Canon(p + [SLASH] + c) == Canon(q + [SLASH] + c)
    {
      CanonAfter(p, c);
      CanonAfter(q, c);
    }
  }

  lemma LawfulName(f: Text -> Text, p: Text, c: Text)
    requires Lawful(f) && IsName(c)
    ensures f(p + [SLASH] + c) == Below(f(p), c)
  {
  }

  /** A lawful meaning leaves canonical paths alone. */
  lemma {:induction false} LawfulFixes(f: Text -> Text, cs: seq<Text>)
    requires Lawful(f) && AllNames(cs)
    ensures f(Slashed(cs)) == Join(cs)
  {
    hide IsName, Lawful, Slashed, Join;
    if cs == [] {
      LawfulRoot(f);
      NoSlashed();
      NoNames();
    } else {
      var n := |cs| - 1;
      var front, c := cs[..n], cs[n];
      assert cs == front + [c] && c in cs && forall d <- front :: d in cs;
      LawfulFixes(f, front);
      LawfulName(f, Slashed(front), c);
      SlashedSnoc(front, c);
      assert Slashed(front) + ([SLASH] + c) == Slashed(front) + [SLASH] + c;
      JoinBelow(front, c);
    }
  }

  lemma LawfulSame(f: Text -> Text, p: Text, q: Text, c: Text)
    requires Lawful(f) && f(p) == f(q)
    ensures f(p + [SLASH] + c) == f(q + [SLASH] + c)
  {
  }

  lemma LawfulLeading(f: Text -> Text, p: Text)
    requires Lawful(f)
    ensures f([SLASH] + p) == f(p)
  {
  }

  lemma LawfulBack(f: Text -> Text, p: Text, c: Text)
    requires Lawful(f) && IsName(c)
    ensures f(p + [SLASH] + c + [SLASH, DOT, DOT]) == f(p)
  {
  }

  lemma UpText(p: Text, c: Text)
    ensures p + ([SLASH] + c) + [SLASH] + [DOT, DOT] == p + [SLASH] + c + [SLASH, DOT, DOT]
  {
  }

  lemma NoNames()
    ensures Join([]) == [SLASH]
  {
  }

  lemma LawfulRoot(f: Text -> Text)
    requires Lawful(f)
    ensures f([]) == [SLASH] == f([SLASH, DOT, DOT])
  {
  }

  /** Two dots take it up from any stack of names. */
  lemma LawfulUpFrom(f: Text -> Text, cs: seq<Text>)
    requires Lawful(f) && AllNames(cs)
    ensures f(Slashed(cs) + [SLASH] + [DOT, DOT]) == Join(Enter(cs, [DOT, DOT]))
  {
    hide IsName, Lawful, Slashed, Join;
    if cs == [] {
      LawfulRoot(f);
      NoSlashed();
      assert [] + [SLASH] + [DOT, DOT] == [SLASH, DOT, DOT];
      assert Join([]) == [SLASH] by { NoNames(); }
    } else {
      var n := |cs| - 1;
      var front, c := cs[..n], cs[n];
      assert cs == front + [c] && c in cs && forall d <- front :: d in cs;
      SlashedSnoc(front, c);
      UpText(Slashed(front), c);
      LawfulBack(f, Slashed(front), c);
      LawfulFixes(f, front);
    }
  }

  lemma LawfulUp(f: Text -> Text, p: Text)
    requires Lawful(f) && f(p) == Canon(p)
    ensures f(p + [SLASH] + [DOT, DOT]) == Canon(p + [SLASH] + [DOT, DOT])
  {
    hide Components, Walk, IsName, FirstSlash, Lawful, Slashed, Enter, Join;
    var cs := Walk([], Components(p));
    WalkGivesNames([], Components(p));
    LawfulFixes(f, cs);
    PartAfter(p, [DOT, DOT]);
    LawfulSame(f, p, Slashed(cs), [DOT, DOT]);
    LawfulUpFrom(f, cs);
  }

  /** There is only one lawful meaning. */
  lemma {:induction false} OnlyCanon(f: Text -> Text, p: Text)
    requires Lawful(f)
    ensures f(p) == Canon(p)
    decreases |p|
  {
    hide Canon, IsName, Lawful;
    LawfulRoot(f);
    CanonRoot(p);
    var q, c := LastPart(p);
    if q == [] {
      assert p == c && [SLASH] + p == [] + [SLASH] + c;
      LawfulLeading(f, p);
      LastStep(f, [], c);
    } else {
      var front := q[..|q| - 1];
      assert q == front + [SLASH] && p == front + [SLASH] + c;
      OnlyCanon(f, front);
      LastStep(f, front, c);
    }
  }

  lemma LastStep(f: Text -> Text, p: Text, c: Text)
    requires Lawful(f) && f(p) == Canon(p) && SLASH !in c
    ensures f(p + [SLASH] + c) == Canon(p + [SLASH] + c)
  {
    hide Canon;
    if c == [] {
      assert p + [SLASH] + c == p + [SLASH];
      CanonDot(p);
    } else if c == [DOT] {
      assert p + [SLASH] + c == p + [SLASH, DOT];
      CanonDot(p);
    } else if c == [DOT, DOT] {
      LawfulUp(f, p);
    } else {
      CanonName(p, c);
    }
  }
}
