/** Computing a layer from two listings. */
module Diff {
  import opened Paths
  import opened Trees
  import opened Layers

  // ----- sort.Strings

  function InsertSorted(x: string, s: seq<string>): (r: seq<string>)
    ensures Elems(r) == Elems(s) + {x}
  {
    if s == [] then [x]
    else if Leq(x, s[0]) then [x] + s
    else
      assert s == [s[0]] + s[1..];
      var rest := InsertSorted(x, s[1..]);
      assert forall y :: y in rest <==> y in Elems(rest);
      [s[0]] + rest
  }

  function SortStrings(s: seq<string>): (r: seq<string>)
    ensures Elems(r) == Elems(s)
  {
    if s == [] then []
    else
      assert s == [s[0]] + s[1..];
      InsertSorted(s[0], SortStrings(s[1..]))
  }

  predicate NoRepeats(s: seq<string>)
  {
    forall i, j :: 0 <= i < j < |s| ==> s[i] != s[j]
  }

  lemma {:induction false} InsertKeepsOrder(x: string, s: seq<string>)
    requires StrictlySorted(s) && x !in s
    ensures StrictlySorted(InsertSorted(x, s))
  {
    hide Leq;
    if s != [] {
      LeqTotal(x, s[0]);
      if Leq(x, s[0]) {
        forall i | 0 <= i < |s| ensures Before(x, s[i]) {
          if i > 0 {
            BeforeTransitive(x, s[0], s[i]);
          }
        }
      } else {
        InsertKeepsOrder(x, s[1..]);
        forall y | y in InsertSorted(x, s[1..]) ensures Before(s[0], y) {
          assert y in Elems(s[1..]) + {x};
        }
      }
    }
  }

  lemma {:induction false} SortIsStrict(s: seq<string>)
    requires NoRepeats(s)
    ensures StrictlySorted(SortStrings(s))
  {
    if s != [] {
      SortIsStrict(s[1..]);
      assert s[0] !in Elems(SortStrings(s[1..]));
      InsertKeepsOrder(s[0], SortStrings(s[1..]));
    }
  }

  // ----- mergeWhiteouts

  function Named(groups: seq<seq<Path>>): set<Path>
  {
    set g, p | g in groups && p in g && p != "" :: p
  }

  lemma KeptSoFar(sorted: seq<Path>, i: int, path: Path)
    requires StrictlySorted(sorted) && 0 <= i < |sorted| && path == sorted[i]
    ensures path in Tops(Elems(sorted)) <==>
            !exists q :: q in Tops(Elems(sorted)) * Elems(sorted[..i]) && Under(path, q)
  {
    hide LastSlash, Leq, Under;
    var s := Elems(sorted);
    if path !in Tops(s) {
      var q :| q in s && Under(path, q);
      TopAbove(s, path, q);
      var w :| w in Tops(s) && Covers(w, path);
      AncestorFirst(path, w);
      var j :| 0 <= j < |sorted| && sorted[j] == w;
      LeqTotal(w, path);
      assert j < i;
      assert sorted[..i][j] == w;
    }
  }

  lemma KeepOne(sorted: seq<Path>, i: int, kept: seq<Path>, next: seq<Path>)
    requires StrictlySorted(sorted) && 0 <= i < |sorted|
    requires StrictlySorted(kept) && Elems(kept) == Tops(Elems(sorted)) * Elems(sorted[..i])
    requires next == if exists q :: q in Elems(kept) && Under(sorted[i], q) then kept else kept + [sorted[i]]
    ensures StrictlySorted(next) && Elems(next) == Tops(Elems(sorted)) * Elems(sorted[..i + 1])
  {
    hide Leq, Under, Tops;
    var path := sorted[i];
    KeptSoFar(sorted, i, path);
    assert sorted[..i + 1] == sorted[..i] + [path];
    ElemsAppend(sorted[..i], path);
    ElemsAppend(kept, path);
    forall k | 0 <= k < |kept| ensures Before(kept[k], path) {
      assert kept[k] in Elems(sorted[..i]);
      var j :| 0 <= j < i && sorted[..i][j] == kept[k];
    }
  }

  lemma EmptyIsSorted(s: seq<string>)
    requires s == []
    ensures StrictlySorted(s) && Elems(s) == {}
  {
  }

  /** The inner loop: is `path` below something already kept in `a[..n]`? */
  method Covered(a: array<Path>, n: nat, path: Path) returns (covered: bool)
    requires n <= a.Length
    ensures covered <==> exists q :: q in Elems(a[..n]) && Under(path, q)
  {
    hide Under;
    covered := false;
    for j := 0 to n
      invariant forall k :: 0 <= k < j ==> !Under(path, a[k])
    {
      if Under(path, a[j]) {
        assert a[..n][j] in Elems(a[..n]);
        return true;
      }
    }
  }

  method CompactInPlace(sorted: seq<Path>) returns (pruned: seq<Path>)
    requires StrictlySorted(sorted)
    ensures StrictlySorted(pruned)
    ensures Elems(pruned) == Tops(Elems(sorted))
  {
    assert Tops(Elems(sorted)) <= Elems(sorted);
    hide Leq, Under, Tops, StrictlySorted, Elems;
    var a := new Path[|sorted|](i requires 0 <= i < |sorted| => sorted[i]);
    var n := 0;
    assert StrictlySorted(a[..0]) && Elems(a[..0]) == {} && Elems(sorted[..0]) == {} by {
      EmptyIsSorted(a[..0]);
      EmptyIsSorted(sorted[..0]);
    }
    for i := 0 to a.Length
      invariant a.Length == |sorted| && 0 <= n <= i
      invariant forall k :: i <= k < |sorted| ==> a[k] == sorted[k]
      invariant StrictlySorted(a[..n])
      invariant Elems(a[..n]) == Tops(Elems(sorted)) * Elems(sorted[..i])
    {
      var path := a[i];
      ghost var kept := a[..n];
      var covered := Covered(a, n, path);
      if !covered {
        a[n] := path;
        n := n + 1;
        assert a[..n] == kept + [path];
      }
      KeepOne(sorted, i, kept, a[..n]);
    }
    assert sorted[..|sorted|] == sorted;
    pruned := a[..n];
  }

  /** `mergeWhiteouts`: the second half compacts the sorted list in place, writing the
      kept paths over the front of the slice it is still reading. */
  method MergeWhiteouts(groups: seq<seq<Path>>) returns (pruned: seq<Path>)
    ensures StrictlySorted(pruned)
    ensures Elems(pruned) == Tops(Named(groups))
    ensures forall p :: Hides(Elems(pruned), p) <==> Hides(Named(groups), p)
  {
    var seen: set<Path> := {};
    var merged: seq<Path> := [];
    for g := 0 to |groups|
      invariant NoRepeats(merged) && Elems(merged) == seen == Named(groups[..g])
    {
      var group := groups[g];
      assert groups[..g + 1] == groups[..g] + [group];
      ghost var before := seen;
      for i := 0 to |group|
        invariant NoRepeats(merged) && Elems(merged) == seen
        invariant seen == before + (Elems(group[..i]) - {""})
      {
        assert group[..i + 1] == group[..i] + [group[i]];
        if group[i] != "" && group[i] !in seen {
          assert group[i] !in Elems(merged);
          seen := seen + {group[i]};
          merged := merged + [group[i]];
        }
      }
      assert group[..|group|] == group;
    }
    assert groups[..|groups|] == groups;
    SortIsStrict(merged);
    pruned := CompactInPlace(SortStrings(merged));
    forall p ensures Hides(Elems(pruned), p) <==> Hides(Named(groups), p) {
      TopsHideTheSame(Named(groups), p);
    }
  }

  // ----- typeChangeWhiteouts and diffLayerEntries

  lemma ListingGrows(es: seq<TreeEntry>, i: int)
    requires IsListing(es) && 0 <= i < |es|
    ensures TreeMap(es[..i + 1]) == TreeMap(es[..i])[es[i].path := es[i].node]
    ensures es[i].path !in TreeMap(es[..i])
  {
    hide Leq;
    assert es[..i + 1][..i] == es[..i];
    if es[i].path in TreeMap(es[..i]) {
      var j := TreeMapIndex(es[..i], es[i].path);
      assert false;
    }
  }

  method TypeChangeWhiteouts(parent: seq<TreeEntry>, changed: seq<TreeEntry>) returns (ws: seq<Path>)
    requires IsListing(changed)
    ensures Elems(ws) == set q | q in TreeMap(changed) && q in TreeMap(parent) &&
                                 !SameType(TreeMap(parent)[q], TreeMap(changed)[q])
  {
    var parentMap := TreeMap(parent);
    ws := [];
    for i := 0 to |changed|
      invariant Elems(ws) == set q | q in TreeMap(changed[..i]) && q in parentMap &&
                                     !SameType(parentMap[q], TreeMap(changed[..i])[q])
    {
      var e := changed[i];
      ListingGrows(changed, i);
      ElemsAppend(ws, e.path);
      if e.path in parentMap && !SameType(parentMap[e.path], e.node) {
        ws := ws + [e.path];
      }
    }
    assert changed[..|changed|] == changed;
  }

  lemma AppendListing(es: seq<TreeEntry>, from: seq<TreeEntry>, i: int)
    requires IsListing(from) && 0 <= i < |from| && IsListing(es)
    requires forall e :: e in es ==> e in from[..i]
    ensures IsListing(es + [from[i]])
    ensures TreeMap(es + [from[i]]) == TreeMap(es)[from[i].path := from[i].node]
  {
    hide Before;
    assert (es + [from[i]])[..|es|] == es;
    forall k | 0 <= k < |es| ensures Before(es[k].path, from[i].path) {
      assert es[k] in from[..i];
    }
  }

  lemma NothingChanged(p: Tree, es: seq<TreeEntry>)
    ensures IsListing([]) && TreeMap([]) == Changed(p, TreeMap(es[..0]))
  {
  }

  lemma ChangedGrows(p: Tree, c: Tree, q: Path, n: Node)
    requires q !in c
    ensures Changed(p, c[q := n]) == if q in p && p[q] == n then Changed(p, c) else Changed(p, c)[q := n]
  {
  }

  /** The first loop of `diffLayerEntries`, and all of `changedOverlayEntries`. */
  method ChangedEntries(parent: seq<TreeEntry>, current: seq<TreeEntry>) returns (entries: seq<TreeEntry>)
    requires IsListing(current)
    ensures IsListing(entries)
    ensures TreeMap(entries) == Changed(TreeMap(parent), TreeMap(current))
    ensures forall e :: e in entries ==> e in current
  {
    hide TreeMap, IsListing, Changed;
    var parentMap := TreeMap(parent);
    entries := [];
    assert IsListing(entries) && TreeMap(entries) == Changed(parentMap, TreeMap(current[..0])) by {
      NothingChanged(parentMap, current);
    }
    for i := 0 to |current|
      invariant IsListing(entries)
      invariant forall e :: e in entries ==> e in current[..i]
      invariant TreeMap(entries) == Changed(parentMap, TreeMap(current[..i]))
    {
      ListingGrows(current, i);
      ChangedGrows(parentMap, TreeMap(current[..i]), current[i].path, current[i].node);
      assert current[..i + 1] == current[..i] + [current[i]];
      if !(current[i].path in parentMap && parentMap[current[i].path] == current[i].node) {
        AppendListing(entries, current, i);
        entries := entries + [current[i]];
      }
    }
    assert current[..|current|] == current;
  }

  method MissingPaths(parent: seq<TreeEntry>, currentMap: Tree) returns (ws: seq<Path>)
    ensures Elems(ws) == TreeMap(parent).Keys - currentMap.Keys
  {
    ws := [];
    for i := 0 to |parent|
      invariant Elems(ws) == TreeMap(parent[..i]).Keys - currentMap.Keys
    {
      assert parent[..i + 1][..i] == parent[..i];
      ElemsAppend(ws, parent[i].path);
      if parent[i].path !in currentMap {
        ws := ws + [parent[i].path];
      }
    }
    assert parent[..|parent|] == parent;
  }

  lemma NamedPair(a: seq<Path>, b: seq<Path>)
    ensures Named([a, b]) == Elems(a) + Elems(b) - {""}
  {
    assert a in [a, b] && b in [a, b];
  }

  lemma RootIsNoEntry(t: Tree)
    requires IsTree(t)
    ensures "" !in t
  {
    if "" in t {
      CanonicalNonEmpty("");
    }
  }

  /** `diffLayerEntries`. */
  method DiffLayerEntries(parent: seq<TreeEntry>, current: seq<TreeEntry>) returns (l: Layer)
    requires IsListing(parent) && IsTree(TreeMap(parent)) && IsListing(current)
    ensures IsDelta(TreeMap(parent), TreeMap(current), l)
  {
    hide TreeMap, IsListing, IsTree, StrictlySorted, Tops, Named;
    var entries := ChangedEntries(parent, current);
    var missing := MissingPaths(parent, TreeMap(current));
    var retyped := TypeChangeWhiteouts(parent, entries);
    var whiteouts := MergeWhiteouts([missing, retyped]);
    NamedPair(missing, retyped);
    RootIsNoEntry(TreeMap(parent));
    assert Elems(missing) + Elems(retyped) - {""} == Dropped(TreeMap(parent), TreeMap(current));
    l := Layer(whiteouts, entries);
  }
}
