/** Relative slash-separated paths, as the snapshot code writes them into trees,
    layers and whiteout lists, and the byte-wise order that `sort.Strings` uses. */
module Paths {
  type Path = string

  /** Index of the last slash, or -1. */
  function LastSlash(p: string): (r: int)
    ensures -1 <= r < |p|
    ensures r >= 0 ==> p[r] == '/'
    ensures forall i :: r < i < |p| ==> p[i] != '/'
  {
    if p == "" then -1
    else if p[|p| - 1] == '/' then |p| - 1
    else LastSlash(p[..|p| - 1])
  }

  predicate NoSlash(s: string)
  {
    forall i :: 0 <= i < |s| ==> s[i] != '/'
  }

  /** The containing directory; the root directory is the empty string. */
  function Parent(p: string): (r: string)
  {
    if LastSlash(p) < 0 then "" else p[..LastSlash(p)]
  }

  function Base(p: string): (r: string)
    ensures NoSlash(r)
  {
    if LastSlash(p) < 0 then p else p[LastSlash(p) + 1..]
  }

  function Join(dir: string, base: string): string
  {
    if dir == "" then base else dir + "/" + base
  }

  /** What `canonicalLayerPath` accepts: relative, clean, and not the root. */
  predicate Canonical(p: string)
    decreases |p|
  {
    && Base(p) != "" && Base(p) != "." && Base(p) != ".."
    && (LastSlash(p) >= 0 ==> Canonical(Parent(p)))
  }

  /** `strings.HasPrefix(p, a + "/")`. */
  predicate Under(p: string, a: string)
  {
    |a| < |p| && p[..|a|] == a && p[|a|] == '/'
  }

  /** The whiteout `a` hides `p`. */
  predicate Covers(a: string, p: string)
  {
    p == a || Under(p, a)
  }

  lemma NotUnderItself(p: string)
    ensures !Under(p, p)
  {
  }

  lemma UnderParent(p: string, a: string)
    ensures Under(p, a) <==> LastSlash(p) >= 0 && (a == Parent(p) || Under(Parent(p), a))
  {
    if Under(p, a) {
      assert LastSlash(p) >= |a|;
      assert Parent(p) == p[..LastSlash(p)];
      if LastSlash(p) > |a| {
        assert Parent(p)[..|a|] == p[..|a|];
      }
    }
    if LastSlash(p) >= 0 && Under(Parent(p), a) {
      assert p[..|a|] == Parent(p)[..|a|];
    }
  }

  lemma UnderTransitive(a: string, b: string, c: string)
    requires Under(b, a) && Under(c, b)
    ensures Under(c, a)
  {
    assert c[..|a|] == c[..|b|][..|a|];
    assert c[|a|] == c[..|b|][|a|];
  }

  /** Two directories above one path are themselves nested. */
  lemma AncestorsNest(p: string, a: string, b: string)
    requires Covers(a, p) && Covers(b, p)
    ensures Covers(a, b) || Covers(b, a)
  {
    if |a| < |b| {
      assert b[..|a|] == p[..|a|];
      assert b[|a|] == p[|a|];
    } else if |b| < |a| {
      assert a[..|b|] == p[..|b|];
      assert a[|b|] == p[|b|];
    } else {
      assert a == p[..|a|] && b == p[..|b|];
    }
  }

  lemma SplitAt(p: string, k: int)
    requires 0 <= k < |p| && p[k] == '/'
    ensures p == p[..k] + "/" + p[k + 1..]
  {
  }

  lemma {:induction false} SplitJoin(p: string)
    requires Parent(p) != "" || LastSlash(p) < 0
    ensures Join(Parent(p), Base(p)) == p
  {
    if LastSlash(p) >= 0 {
      SplitAt(p, LastSlash(p));
    }
  }

  lemma {:induction false} CanonicalNonEmpty(p: string)
    requires Canonical(p)
    ensures p != ""
  {
  }

  lemma {:induction false} CanonicalParts(p: string)
    requires Canonical(p)
    ensures p != "" && Join(Parent(p), Base(p)) == p
    ensures Base(p) != "" && Base(p) != "." && Base(p) != ".."
    ensures LastSlash(p) >= 0 <==> Parent(p) != ""
    ensures Parent(p) != "" ==> Canonical(Parent(p)) && |Parent(p)| < |p|
  {
    CanonicalNonEmpty(p);
    if LastSlash(p) >= 0 {
      CanonicalNonEmpty(Parent(p));
    }
    SplitJoin(p);
  }

  lemma {:induction false} NotUnderRoot(p: string)
    requires Canonical(p)
    ensures !Under(p, "")
    decreases |p|
  {
    UnderParent(p, "");
    CanonicalParts(p);
    if LastSlash(p) >= 0 {
      NotUnderRoot(Parent(p));
    }
  }

  lemma LastSlashAt(p: string, k: int)
    requires 0 <= k < |p| && p[k] == '/'
    requires forall i :: k < i < |p| ==> p[i] != '/'
    ensures LastSlash(p) == k
  {
  }

  lemma JoinParts(dir: string, base: string)
    requires NoSlash(base)
    ensures Parent(Join(dir, base)) == dir && Base(Join(dir, base)) == base
    ensures LastSlash(Join(dir, base)) >= 0 <==> dir != ""
  {
    if dir != "" {
      LastSlashAt(dir + "/" + base, |dir|);
    }
  }

  /** Byte-wise order on strings. */
  predicate Leq(a: string, b: string)
  {
    a == "" || (b != "" && (a[0] < b[0] || (a[0] == b[0] && Leq(a[1..], b[1..]))))
  }

  predicate Before(a: string, b: string)
  {
    Leq(a, b) && a != b
  }

  lemma {:induction false} LeqTotal(a: string, b: string)
    ensures Leq(a, b) || Leq(b, a)
    ensures Leq(a, b) && Leq(b, a) ==> a == b
  {
    if a != "" && b != "" {
      LeqTotal(a[1..], b[1..]);
      if a[0] == b[0] && a[1..] == b[1..] {
        assert a == [a[0]] + a[1..] && b == [b[0]] + b[1..];
      }
    }
  }

  lemma {:induction false} LeqTransitive(a: string, b: string, c: string)
    requires Leq(a, b) && Leq(b, c)
    ensures Leq(a, c)
  {
    if a != "" && a[0] == b[0] && b[0] == c[0] {
      LeqTransitive(a[1..], b[1..], c[1..]);
    }
  }

  lemma BeforeTransitive(a: string, b: string, c: string)
    requires Before(a, b) && Leq(b, c)
    ensures Before(a, c)
  {
    LeqTransitive(a, b, c);
    LeqTotal(a, b);
  }

  lemma {:induction false} PrefixLeq(a: string, b: string)
    requires a <= b
    ensures Leq(a, b)
  {
    if a != "" {
      PrefixLeq(a[1..], b[1..]);
    }
  }

  /** A directory sorts strictly before everything below it. */
  lemma AncestorFirst(p: string, a: string)
    requires Under(p, a)
    ensures Before(a, p)
  {
    PrefixLeq(a, p);
  }

  predicate StrictlySorted(s: seq<string>)
  {
    forall i, j :: 0 <= i < j < |s| ==> Before(s[i], s[j])
  }
}
