/** When chunk lists of any lengths have one Merkle root. */
module MerkleLists {
  import opened Merkle

  /** The tree over a complete list, one whose length is a power of two. */
  function Perfect(h: Hash, g: seq<string>): string
    requires g != []
    decreases |g|
  {
    if |g| == 1 then g[0] else h(Perfect(h, g[..|g| / 2]) + "\n" + Perfect(h, g[|g| / 2..]))
  }

  predicate IsPower(n: nat)
  {
    n == 1 || (n > 1 && n % 2 == 0 && IsPower(n / 2))
  }

  /** Groups are joined in pairs, an odd last group with itself. */
  function Merge(gs: seq<seq<string>>): (r: seq<seq<string>>)
    ensures |r| == (|gs| + 1) / 2
  {
    seq((|gs| + 1) / 2, i requires 0 <= i < (|gs| + 1) / 2 =>
      gs[2 * i] + if 2 * i + 1 < |gs| then gs[2 * i + 1] else gs[2 * i])
  }

  function Joined(gs: seq<seq<string>>): seq<string>
    requires gs != []
    decreases |gs|
  {
    if |gs| == 1 then gs[0] else Joined(Merge(gs))
  }

  function Singles(ds: seq<string>): (r: seq<seq<string>>)
    ensures |r| == |ds| && forall i :: 0 <= i < |r| ==> r[i] == [ds[i]]
  {
    seq(|ds|, i requires 0 <= i < |ds| => [ds[i]])
  }

  /** The complete list that repeating odd nodes makes of a list of leaves. */
  function Completed(ds: seq<string>): seq<string>
    requires ds != []
  {
    Joined(Singles(ds))
  }

  predicate AllFrom(g: seq<string>, ds: seq<string>)
  {
    forall s :: s in g ==> s in ds
  }

  /** Every group is complete, all are of one length, and their trees are the nodes of a level. */
  ghost predicate Grouped(h: Hash, ds: seq<string>, gs: seq<seq<string>>, m: nat, all: seq<string>)
  {
    && |gs| == |ds| > 0 && IsPower(m)
    && forall i :: 0 <= i < |gs| ==> |gs[i]| == m && AllFrom(gs[i], all) && Perfect(h, gs[i]) == ds[i]
  }

  lemma JoinPerfect(h: Hash, a: seq<string>, b: seq<string>)
    requires |a| == |b| > 0
    ensures Perfect(h, a + b) == h(Perfect(h, a) + "\n" + Perfect(h, b))
  {
    var g := a + b;
    assert |g| / 2 == |a| && g[..|a|] == a && g[|a|..] == b;
  }

  lemma GroupedAbove(h: Hash, ds: seq<string>, gs: seq<seq<string>>, m: nat, all: seq<string>)
    requires Grouped(h, ds, gs, m, all)
    ensures Grouped(h, Level(h, ds), Merge(gs), 2 * m, all)
  {
    hide Perfect;
    forall i | 0 <= i < |Merge(gs)|
      ensures var g := Merge(gs)[i]; |g| == 2 * m && AllFrom(g, all) && Perfect(h, g) == Level(h, ds)[i]
    {
      var left := gs[2 * i];
      var right := if 2 * i + 1 < |gs| then gs[2 * i + 1] else left;
      JoinPerfect(h, left, right);
    }
  }

  lemma PowerIsPositive(m: nat)
    requires IsPower(m)
    ensures m > 0
  {
  }

  lemma {:induction false} RootIsPerfect(h: Hash, ds: seq<string>, gs: seq<seq<string>>, m: nat, all: seq<string>)
    requires Grouped(h, ds, gs, m, all)
    ensures Joined(gs) != [] && Root(h, ds) == Perfect(h, Joined(gs))
    ensures IsPower(|Joined(gs)|) && AllFrom(Joined(gs), all)
    decreases |ds|
  {
    hide Perfect, Merge, IsPower;
    if |ds| > 1 {
      GroupedAbove(h, ds, gs, m, all);
      RootIsPerfect(h, Level(h, ds), Merge(gs), 2 * m, all);
    } else {
      assert IsPower(m) ==> m > 0 by { PowerIsPositive(m); }
    }
  }

  /** The root of a list is the tree over its completion. */
  lemma RootOfCompleted(h: Hash, ds: seq<string>)
    requires ds != []
    ensures Completed(ds) != [] && Root(h, ds) == Perfect(h, Completed(ds))
    ensures IsPower(|Completed(ds)|) && AllFrom(Completed(ds), ds)
  {
    hide Root, Joined;
    assert Grouped(h, ds, Singles(ds), 1, ds);
    RootIsPerfect(h, ds, Singles(ds), 1, ds);
  }

  ghost predicate Injective(h: Hash)
  {
    forall x, y :: h(x) == h(y) ==> x == y
  }

  ghost predicate IsPair(h: Hash, s: string)
  {
    exists a: string, b: string :: s == h(a + "\n" + b)
  }

  /** No leaf is the digest of a pair, and each is one line. */
  ghost predicate AreLeaves(h: Hash, ds: seq<string>)
  {
    forall s :: s in ds ==> OneLine(s) && !IsPair(h, s)
  }

  lemma PerfectIsOneLine(h: Hash, g: seq<string>)
    requires g != [] && AreLeaves(h, g) && DigestsOneLine(h)
    ensures OneLine(Perfect(h, g))
  {
    hide OneLine, IsPair;
  }

  lemma PerfectIsPair(h: Hash, g: seq<string>)
    requires |g| > 1
    ensures Perfect(h, g) == h(Perfect(h, g[..|g| / 2]) + "\n" + Perfect(h, g[|g| / 2..]))
    ensures IsPair(h, Perfect(h, g))
  {
  }

  lemma HalvesAreLeaves(h: Hash, g: seq<string>)
    requires AreLeaves(h, g)
    ensures AreLeaves(h, g[..|g| / 2]) && AreLeaves(h, g[|g| / 2..])
  {
    hide OneLine, IsPair;
  }

  lemma SameHalves(h: Hash, a: seq<string>, b: seq<string>)
    requires Injective(h) && DigestsOneLine(h) && AreLeaves(h, a) && AreLeaves(h, b)
    requires |a| > 1 && |b| > 1 && Perfect(h, a) == Perfect(h, b)
    ensures Perfect(h, a[..|a| / 2]) == Perfect(h, b[..|b| / 2])
    ensures Perfect(h, a[|a| / 2..]) == Perfect(h, b[|b| / 2..])
  {
    hide OneLine, IsPair, Perfect, DigestsOneLine, AreLeaves;
    HalvesAreLeaves(h, a);
    HalvesAreLeaves(h, b);
    PerfectIsPair(h, a);
    PerfectIsPair(h, b);
    PerfectIsOneLine(h, a[..|a| / 2]);
    PerfectIsOneLine(h, b[..|b| / 2]);
    SplitAtNewline(Perfect(h, a[..|a| / 2]), Perfect(h, a[|a| / 2..]),
                   Perfect(h, b[..|b| / 2]), Perfect(h, b[|b| / 2..]));
  }

  lemma PerfectOfOne(h: Hash, g: seq<string>)
    requires |g| == 1
    ensures Perfect(h, g) == g[0] && g == [g[0]]
  {
  }

  lemma HalfOfPower(n: nat)
    requires IsPower(n)
    ensures n == 1 || (n / 2 > 0 && n % 2 == 0 && IsPower(n / 2))
  {
  }

  lemma {:induction false} PerfectInjective(h: Hash, a: seq<string>, b: seq<string>)
    requires Injective(h) && DigestsOneLine(h) && AreLeaves(h, a) && AreLeaves(h, b)
    requires IsPower(|a|) && IsPower(|b|) && Perfect(h, a) == Perfect(h, b)
    ensures a == b
    decreases |a|
  {
    hide OneLine, IsPower, IsPair, DigestsOneLine, Injective, Perfect;
    HalvesAreLeaves(h, a);
    HalvesAreLeaves(h, b);
    HalfOfPower(|a|);
    HalfOfPower(|b|);
    if |a| > 1 && |b| > 1 {
      SameHalves(h, a, b);
      PerfectInjective(h, a[..|a| / 2], b[..|b| / 2]);
      PerfectInjective(h, a[|a| / 2..], b[|b| / 2..]);
      assert a == a[..|a| / 2] + a[|a| / 2..] && b == b[..|b| / 2] + b[|b| / 2..];
    } else if |a| > 1 {
      PerfectIsPair(h, a);
      PerfectOfOne(h, b);
    } else if |b| > 1 {
      PerfectIsPair(h, b);
      PerfectOfOne(h, a);
    } else {
      PerfectOfOne(h, a);
      PerfectOfOne(h, b);
    }
  }

  /** What the root is taken of: an empty list counts as the digest of nothing. */
  function LeavesOf(h: Hash, ds: seq<string>): (r: seq<string>)
    ensures r != []
  {
    if ds == [] then [h("")] else ds
  }

  lemma NothingIsLeaf(h: Hash)
    requires Injective(h) && DigestsOneLine(h)
    ensures AreLeaves(h, [h("")])
  {
    hide OneLine;
    forall a: string, b: string ensures h("") != h(a + "\n" + b) {
      assert |a + "\n" + b| > 0;
    }
  }

  /** Lists of any lengths have one root if and only if their completions are equal, given an
      injective digest and no leaf that is the digest of a pair. */
  lemma SameRootIff(h: Hash, a: seq<string>, b: seq<string>)
    requires Injective(h) && DigestsOneLine(h) && AreLeaves(h, a) && AreLeaves(h, b)
    ensures Root(h, a) == Root(h, b) <==> Completed(LeavesOf(h, a)) == Completed(LeavesOf(h, b))
  {
    hide Completed, Perfect, OneLine, Injective;
    var x, y := LeavesOf(h, a), LeavesOf(h, b);
    NothingIsLeaf(h);
    assert Root(h, x) == Root(h, a) && Root(h, y) == Root(h, b);
    RootOfCompleted(h, x);
    RootOfCompleted(h, y);
    if Root(h, a) == Root(h, b) {
      PerfectInjective(h, Completed(x), Completed(y));
    }
  }

  // ----- a list is the front of its completion

  function Flat(gs: seq<seq<string>>): seq<string>
  {
    if gs == [] then [] else Flat(gs[..|gs| - 1]) + gs[|gs| - 1]
  }

  lemma FlatAppend(gs: seq<seq<string>>, g: seq<string>)
    ensures Flat(gs + [g]) == Flat(gs) + g
  {
    assert (gs + [g])[..|gs|] == gs;
  }

  lemma FlatTwo(gs: seq<seq<string>>, a: seq<string>, b: seq<string>)
    ensures Flat(gs + [a, b]) == Flat(gs) + (a + b)
  {
    hide Flat;
    FlatAppend(gs, a);
    FlatAppend(gs + [a], b);
    assert gs + [a] + [b] == gs + [a, b];
    assert Flat(gs) + a + b == Flat(gs) + (a + b);
  }

  lemma MergeLast(gs: seq<seq<string>>, k: nat)
    requires gs != [] && k == (if |gs| % 2 == 0 then |gs| - 2 else |gs| - 1)
    ensures Merge(gs) == Merge(gs[..k]) + [gs[k] + gs[|gs| - 1]]
  {
    assert |Merge(gs)| == k / 2 + 1;
    forall i | 0 <= i < k / 2 ensures Merge(gs)[i] == Merge(gs[..k])[i] {
      assert 2 * i + 1 < k;
    }
  }

  /** An even number of groups loses nothing. */
  lemma {:induction false} FlatMergeEven(gs: seq<seq<string>>)
    requires |gs| % 2 == 0
    ensures Flat(Merge(gs)) == Flat(gs)
    decreases |gs|
  {
    hide Merge, Flat;
    if gs == [] {
      assert Merge(gs) == [];
    } else {
      var k := |gs| - 2;
      MergeLast(gs, k);
      FlatMergeEven(gs[..k]);
      FlatTwo(gs[..k], gs[k], gs[k + 1]);
      FlatAppend(Merge(gs[..k]), gs[k] + gs[k + 1]);
      assert gs == gs[..k] + [gs[k], gs[k + 1]];
    }
  }

  /** What is joined begins with what there was. */
  lemma FlatMergeExtends(gs: seq<seq<string>>)
    ensures Flat(gs) <= Flat(Merge(gs))
  {
    hide Merge, Flat;
    if |gs| % 2 == 0 {
      FlatMergeEven(gs);
    } else {
      var k := |gs| - 1;
      MergeLast(gs, k);
      FlatMergeEven(gs[..k]);
      FlatAppend(Merge(gs[..k]), gs[k] + gs[k]);
      FlatAppend(gs[..k], gs[k]);
      assert gs == gs[..k] + [gs[k]];
    }
  }

  lemma {:induction false} FlatSingles(ds: seq<string>)
    ensures Flat(Singles(ds)) == ds
  {
    if ds != [] {
      var n := |ds| - 1;
      FlatSingles(ds[..n]);
      assert Singles(ds)[..n] == Singles(ds[..n]);
    }
  }

  lemma {:induction false} JoinedExtends(gs: seq<seq<string>>)
    requires gs != []
    ensures Flat(gs) <= Joined(gs)
    decreases |gs|
  {
    hide Merge;
    if |gs| == 1 {
      assert gs[..0] == [];
      assert Flat(gs) == Flat([]) + gs[0];
    } else {
      FlatMergeExtends(gs);
      JoinedExtends(Merge(gs));
    }
  }

  /** Of two lists with one root the shorter is the front of the longer. */
  lemma SameRootIsFront(h: Hash, a: seq<string>, b: seq<string>)
    requires Injective(h) && DigestsOneLine(h) && AreLeaves(h, a) && AreLeaves(h, b)
    requires 0 < |a| <= |b| && Root(h, a) == Root(h, b)
    ensures a <= b
  {
    hide Root, Joined, Flat, AreLeaves, OneLine, Injective;
    SameRootIff(h, a, b);
    FlatSingles(a);
    FlatSingles(b);
    JoinedExtends(Singles(a));
    JoinedExtends(Singles(b));
  }
}
