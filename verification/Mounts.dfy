/** Resolving a path to a mounted file system (`vfs/mod.rs`). */
module Mounts {
  import opened Common
  import opened Paths

  /** The path is the mount point or continues it with a slash. */
  predicate Under(mount: Text, p: Text) {
    mount <= p && (|p| == |mount| || p[|mount|] == SLASH)
  }

  /** What is left of a path below its mount point. */
  function Relative(mount: Text, p: Text): Text
    requires Under(mount, p)
  {
    if |p| > |mount| then p[|mount| + 1..] else []
  }

  lemma RebuildPath(mount: Text, p: Text)
    requires Under(mount, p)
    ensures p == if |p| == |mount| then mount else mount + [SLASH] + Relative(mount, p)
  {
  }

  /** `resolve_path`: the longest mount the path is under, the first among equals. */
  method ResolvePath(mounts: seq<Text>, p: Text) returns (r: Option<(nat, Text)>)
    ensures r == None <==> forall m <- mounts :: !Under(m, p)
    ensures r.Some? ==> var (i, relative) := r.value;
              && i < |mounts| && Under(mounts[i], p) && relative == Relative(mounts[i], p)
              && (forall j :: 0 <= j < |mounts| && Under(mounts[j], p) ==> |mounts[j]| <= |mounts[i]|)
              && (forall j :: 0 <= j < i && Under(mounts[j], p) ==> |mounts[j]| < |mounts[i]|)
  {
    var best: Option<(nat, nat)> := None;
    var index := 0;
    while index < |mounts|
      invariant 0 <= index <= |mounts|
      invariant best == None <==> forall j :: 0 <= j < index ==> !Under(mounts[j], p)
      invariant best.Some? ==>
                  best.value.1 < index && best.value.0 == |mounts[best.value.1]| && Under(mounts[best.value.1], p)
      invariant best.Some? ==> forall j :: 0 <= j < index && Under(mounts[j], p) ==> |mounts[j]| <= best.value.0
      invariant best.Some? ==> forall j :: 0 <= j < best.value.1 && Under(mounts[j], p) ==> |mounts[j]| < best.value.0
    {
      var mount := mounts[index];
      if mount <= p {
        var len := |mount|;
        if |p| == len || p[len] == SLASH {
          match best {
            case None => best := Some((len, index));
            case Some(b) =>
              if len > b.0 {
                best := Some((len, index));
              }
          }
        }
      }
      index := index + 1;
    }
    match best {
      case None => return None;
      case Some(b) =>
        var relative := if |p| > b.0 then p[b.0 + 1..] else [];
        return Some((b.1, relative));
    }
  }

  // ---------------------------------------------------------------------------
  // Prefixes of bytes are prefixes of components
  // ---------------------------------------------------------------------------

  /** A canonical path other than the root is its components with slashes before them. */
  lemma CanonicalJoined(p: Text)
    requires Canon(p) == p && p != [SLASH]
    ensures Components(p) != [] && Slashed(Components(p)) == p
  {
    CanonicalIff(p);
    NamesJoined(p[1..]);
    hide Components, FirstSlash;
    SkipSlash(p);
    assert p == [SLASH] + p[1..];
  }

  /** For canonical paths the byte test is the component test: a mount other than the root
      is matched exactly by the paths whose components begin with its own. */
  lemma UnderIsComponentPrefix(mount: Text, p: Text)
    requires Canon(mount) == mount && mount != [SLASH] && Canon(p) == p
    ensures Under(mount, p) <==> Components(mount) <= Components(p)
  {
    hide Canon, Components, FirstSlash;
    CanonicalJoined(mount);
    if Under(mount, p) {
      var rest := p[|mount|..];
      assert p == mount + rest;
      ComponentsConcat(mount, rest);
    }
    if Components(mount) <= Components(p) {
      if p == [SLASH] {
        RootHasNoComponents();
      } else {
        CanonicalJoined(p);
        var cs := Components(mount);
        var ds := Components(p)[|cs|..];
        assert Components(p) == cs + ds;
        SlashedConcat(cs, ds);
        assert p == mount + Slashed(ds);
      }
    }
  }

  lemma RootHasNoComponents()
    ensures Components([SLASH]) == []
  {
    SkipSlash([SLASH]);
  }

  /** A file system mounted at the root is reached only by the root path itself. */
  lemma RootMountMatches(p: Text)
    requires Canon(p) == p
    ensures Under([SLASH], p) <==> p == [SLASH]
  {
    CanonicalIff(p);
    hide Canon;
  }

  /** Canonical mounts other than the root. */
  ghost predicate Proper(mounts: seq<Text>) {
    forall m <- mounts :: Canon(m) == m && m != [SLASH]
  }

  /** The mount with the most components among those whose components begin the path's;
      none exactly when there is none. */
  ghost predicate Chosen(mounts: seq<Text>, p: Text, r: Option<(nat, Text)>) {
    && (r == None <==> forall m <- mounts :: !(Components(m) <= Components(p)))
    && (r.Some? ==>
          && r.value.0 < |mounts| && Components(mounts[r.value.0]) <= Components(p)
          && forall m <- mounts :: Components(m) <= Components(p) ==>
               |Components(m)| <= |Components(mounts[r.value.0])|)
  }

  /** Of two canonical prefixes of a path the one with more components is the longer. */
  lemma MoreComponentsLonger(m: Text, n: Text, p: Text)
    requires Canon(m) == m && m != [SLASH] && Canon(n) == n && n != [SLASH]
    requires Components(m) <= Components(p) && Components(n) <= Components(p) && |Components(m)| < |Components(n)|
    ensures |m| < |n|
  {
    hide Canon, Components, Slashed;
    CanonicalJoined(m);
    CanonicalJoined(n);
    PrefixOfPrefix(Components(m), Components(n), Components(p));
    SlashedLonger(Components(n), |Components(m)|);
  }

  lemma PrefixOfPrefix(cs: seq<Text>, ds: seq<Text>, all: seq<Text>)
    requires cs <= all && ds <= all && |cs| < |ds|
    ensures cs == ds[..|cs|]
  {
  }

  lemma SlashedLonger(cs: seq<Text>, k: nat)
    requires k < |cs|
    ensures |Slashed(cs[..k])| < |Slashed(cs)|
  {
    hide Slashed;
    assert cs[..k + 1] == cs[..k] + [cs[k]];
    SlashedSnoc(cs[..k], cs[k]);
    SlashedMonotone(cs, k + 1);
  }

  /** Choosing the longest mount in bytes is choosing the longest in components. */
  lemma LongestChosen(mounts: seq<Text>, p: Text, r: Option<(nat, Text)>)
    requires Proper(mounts) && Canon(p) == p && (r == None <==> forall m <- mounts :: !Under(m, p))
    requires r.Some? ==> r.value.0 < |mounts| && Under(mounts[r.value.0], p)
    requires r.Some? ==> forall j :: 0 <= j < |mounts| && Under(mounts[j], p) ==> |mounts[j]| <= |mounts[r.value.0]|
    ensures Chosen(mounts, p, r)
  {
    hide Canon, Components, Under;
    forall m <- mounts
      ensures Under(m, p) <==> Components(m) <= Components(p)
    {
      UnderIsComponentPrefix(m, p);
    }
    if r.Some? {
      var best := mounts[r.value.0];
      forall m <- mounts | Components(m) <= Components(p)
        ensures |Components(m)| <= |Components(best)|
      {
        if |Components(best)| < |Components(m)| { MoreComponentsLonger(best, m, p); }
      }
    }
  }

  /** What `canonicalize` makes of a path. */
  function Cleaned(p: Text): Text {
    if Canon(p) == p || WithinLimits(p) then Canon(p) else [SLASH]
  }

  /** `resolve_mount`: canonicalise, then resolve. */
  method ResolveMount(mounts: seq<Text>, p: Text) returns (r: Option<(nat, Text)>)
    ensures r == None <==> forall m <- mounts :: !Under(m, Cleaned(p))
    ensures r.Some? ==> var (i, relative) := r.value;
              && i < |mounts| && Under(mounts[i], Cleaned(p))
              && Cleaned(p) == (if |Cleaned(p)| == |mounts[i]| then mounts[i] else mounts[i] + [SLASH] + relative)
              && (forall j :: 0 <= j < |mounts| && Under(mounts[j], Cleaned(p)) ==> |mounts[j]| <= |mounts[i]|)
              && (forall j :: 0 <= j < i && Under(mounts[j], Cleaned(p)) ==> |mounts[j]| < |mounts[i]|)
    ensures r.Some? && |Cleaned(p)| == |mounts[r.value.0]| ==> r.value.1 == []
    ensures Canon(p) == p || WithinLimits(p) ==> Obeys(p, Cleaned(p))
    ensures Proper(mounts) ==> Chosen(mounts, Cleaned(p), r)
  {
    hide Canon, WithinLimits, Obeys;
    var canonical := Canonicalize(p);
    assert canonical == Cleaned(p);
    r := ResolvePath(mounts, canonical);
    if r.Some? { RebuildPath(mounts[r.value.0], canonical); }
    if Proper(mounts) { LongestChosen(mounts, canonical, r); }
  }
}
