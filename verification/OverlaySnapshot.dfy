/** The layer and the tree that a snapshot of an overlay mount records. */
module OverlaySnapshot {
  import opened Paths
  import opened Trees
  import opened Layers
  import opened RestoreProofs
  import opened Diff
  import opened Overlay

  /** `effectiveOverlayWhiteouts`. */
  method EffectiveOverlayWhiteouts(parent: seq<TreeEntry>, whiteouts: seq<Path>) returns (r: seq<Path>)
    ensures Elems(r) == Elems(whiteouts) * TreeMap(parent).Keys
  {
    var parentMap := TreeMap(parent);
    var filtered: seq<Path> := [];
    for i := 0 to |whiteouts|
      invariant Elems(filtered) == Elems(whiteouts[..i]) * parentMap.Keys
    {
      assert whiteouts[..i + 1] == whiteouts[..i] + [whiteouts[i]];
      ElemsAppend(whiteouts[..i], whiteouts[i]);
      ElemsAppend(filtered, whiteouts[i]);
      if whiteouts[i] in parentMap {
        filtered := filtered + [whiteouts[i]];
      }
    }
    assert whiteouts[..|whiteouts|] == whiteouts;
    r := SortStrings(filtered);
  }

  // ----- mergeOverlayTree

  predicate AboveChange(changed: Tree, p: Path)
  {
    exists e :: e in changed && Under(e, p)
  }

  /** The parent tree without what `hidden` covers, the changed entries on top, and the
      parent's directories put back above them. */
  function Merged(parent: Tree, hidden: set<Path>, changed: Tree): Tree
  {
    map p | p in parent.Keys + changed.Keys &&
            (p in changed || !Hides(hidden, p) || (parent[p].Dir? && AboveChange(changed, p))) ::
      if p in changed then changed[p] else parent[p]
  }

  method DeleteCovered(merged: Tree, target: Path) returns (r: Tree)
    ensures r == RemoveAll(merged, target)
  {
    r := merged;
    var todo := merged.Keys;
    while todo != {}
      invariant todo <= merged.Keys
      invariant r == map q | q in merged && (q in todo || !Covers(target, q)) :: merged[q]
    {
      var path :| path in todo;
      if Covers(target, path) {
        r := r - {path};
      }
      todo := todo - {path};
    }
  }

  /** What the ancestor loop puts back, from the parent of `e` down to length `n`. */
  function PutBack(parent: Tree, merged: Tree, e: Path, n: int): Tree
  {
    map b | b in parent && Under(e, b) && |b| > n && b !in merged && parent[b].Dir? :: parent[b]
  }

  lemma ShorterAncestor(p: Path, a: Path)
    ensures Covers(a, p) ==> |a| <= |p| && (|a| == |p| ==> a == p)
  {
  }

  lemma ParentShorter(a: Path)
    requires a != ""
    ensures |Parent(a)| < |a|
  {
  }

  lemma PutBackOneMore(parent: Tree, merged: Tree, e: Path, a: Path)
    requires Canonical(a) && Under(e, a)
    ensures PutBack(parent, merged, e, |Parent(a)|) ==
            PutBack(parent, merged, e, |a|) +
            (if a !in merged && a in parent && parent[a].Dir? then map[a := parent[a]] else map[])
  {
    hide LastSlash, Canonical, Under, Parent;
    CanonicalParts(a);
    forall b | Under(e, b) ensures |b| > |Parent(a)| <==> |b| > |a| || b == a {
      AncestorsNest(e, a, b);
      UnderParent(a, b);
      ShorterAncestor(b, a);
      ShorterAncestor(a, b);
      if Parent(a) != "" {
        ShorterAncestor(Parent(a), b);
      }
      ParentShorter(a);
    }
  }

  lemma AncestorUp(e: Path, a: Path)
    requires Canonical(a) && Under(e, a)
    ensures |Parent(a)| < |a|
    ensures Parent(a) != "" ==> Canonical(Parent(a)) && Under(e, Parent(a))
  {
    hide LastSlash, Canonical, Under, Parent;
    CanonicalParts(a);
    UnderParent(a, Parent(a));
    if Parent(a) != "" {
      UnderTransitive(Parent(a), a, e);
    }
  }

  lemma RestoreStep(parent: Tree, merged: Tree, e: Path, a: Path, r: Tree)
    requires Canonical(a) && Under(e, a)
    requires r == merged + PutBack(parent, merged, e, |a|)
    ensures (if a !in r && a in parent && parent[a].Dir? then r[a := parent[a]] else r) ==
            merged + PutBack(parent, merged, e, |Parent(a)|)
  {
    hide LastSlash, Canonical, Under, Parent;
    PutBackOneMore(parent, merged, e, a);
    assert a !in PutBack(parent, merged, e, |a|);
  }

  lemma NothingPutBack(parent: Tree, merged: Tree, e: Path)
    requires Canonical(e)
    ensures PutBack(parent, merged, e, |Parent(e)|) == map[]
  {
    hide LastSlash, Canonical, Under, Parent;
    forall b | Under(e, b) ensures |b| <= |Parent(e)| {
      UnderParent(e, b);
      ShorterAncestor(Parent(e), b);
    }
  }

  method RestoreAncestors(parent: Tree, merged: Tree, e: Path) returns (r: Tree)
    requires Canonical(e)
    ensures r == merged + PutBack(parent, merged, e, 0)
  {
    hide LastSlash, Canonical, Under, Parent, PutBack;
    r := merged;
    var ancestor := Parent(e);
    CanonicalParts(e);
    UnderParent(e, ancestor);
    NothingPutBack(parent, merged, e);
    while ancestor != ""
      invariant ancestor != "" ==> Canonical(ancestor) && Under(e, ancestor)
      invariant r == merged + PutBack(parent, merged, e, |ancestor|)
      decreases |ancestor|
    {
      RestoreStep(parent, merged, e, ancestor, r);
      AncestorUp(e, ancestor);
      if ancestor !in r {
        if ancestor in parent && parent[ancestor].Dir? {
          r := r[ancestor := parent[ancestor]];
        }
      }
      ancestor := Parent(ancestor);
    }
  }

  lemma AboveGrows(changed: Tree, e: Path, n: Node, p: Path)
    ensures AboveChange(changed[e := n], p) <==> AboveChange(changed, p) || Under(e, p)
  {
    hide Under;
    var c := changed[e := n];
    if AboveChange(changed, p) {
      var x :| x in changed && Under(x, p);
      assert x in c;
    }
    assert e in c;
  }

  lemma MergedGrows(parent: Tree, hidden: set<Path>, changed: Tree, e: Path, n: Node)
    requires Canonical(e)
    ensures var m := Merged(parent, hidden, changed)[e := n];
            Merged(parent, hidden, changed[e := n]) == m + PutBack(parent, m, e, 0)
  {
    hide Canonical, Under, Hides, AboveChange;
    var m := Merged(parent, hidden, changed)[e := n];
    forall p | p in parent
      ensures AboveChange(changed[e := n], p) <==> AboveChange(changed, p) || Under(e, p)
      ensures Under(e, p) ==> |p| > 0
    {
      AboveGrows(changed, e, n, p);
      NotUnderRoot(e);
    }
  }

  lemma MergedStart(parent: Tree, ws: seq<Path>)
    ensures Merged(parent, Elems(ws), map[]) == Minus(parent, Elems(ws))
  {
  }

  lemma NoElems(s: seq<Path>)
    ensures Elems(s[..0]) == {}
  {
  }

  lemma AppendToMap(es: seq<TreeEntry>, e: TreeEntry)
    ensures TreeMap(es + [e]) == TreeMap(es)[e.path := e.node]
  {
    assert (es + [e])[..|es|] == es;
  }

  /** The entries of a Go map, collected in any order and sorted by path. */
  method ListTree(m: Tree) returns (es: seq<TreeEntry>)
    ensures IsListing(es) && TreeMap(es) == m
  {
    hide NoRepeats, SortStrings, TreeMap, Before, Elems;
    var keys := ListSet(m.Keys);
    SortIsStrict(keys);
    var sorted := SortStrings(keys);
    es := [];
    assert TreeMap(es) == map[] && Elems(sorted[..0]) == {} by { EmptyListing(es); NoElems(sorted); }
    while |es| < |sorted|
      invariant |es| <= |sorted| && Elems(sorted[..|es|]) <= m.Keys
      invariant forall k :: 0 <= k < |es| ==> es[k].path == sorted[k]
      invariant TreeMap(es) == map p | p in Elems(sorted[..|es|]) :: m[p]
    {
      var i := |es|;
      ElemsHas(sorted, i);
      assert sorted[..i + 1] == sorted[..i] + [sorted[i]];
      ElemsAppend(sorted[..i], sorted[i]);
      var e := TreeEntry(sorted[i], m[sorted[i]]);
      AppendToMap(es, e);
      es := es + [e];
    }
    assert sorted[..|es|] == sorted;
  }

  /** `mergeOverlayTree`. */
  method MergeOverlayTree(parent: seq<TreeEntry>, changed: seq<TreeEntry>, whiteouts: seq<Path>)
    returns (result: seq<TreeEntry>)
    requires IsListing(changed) && forall q :: q in TreeMap(changed) ==> Canonical(q)
    ensures IsListing(result)
    ensures TreeMap(result) == Merged(TreeMap(parent), Elems(whiteouts), TreeMap(changed))
  {
    hide TreeMap, IsListing, Canonical, Covers;
    var parentMap := TreeMap(parent);
    var merged := parentMap;
    assert Minus(parentMap, Elems(whiteouts[..0])) == parentMap by {
      NothingHidden(parentMap);
      assert Elems(whiteouts[..0]) == {};
    }
    for i := 0 to |whiteouts|
      invariant merged == Minus(parentMap, Elems(whiteouts[..i]))
    {
      merged := DeleteCovered(merged, whiteouts[i]);
      MinusOneMore(parentMap, whiteouts[..i + 1]);
      assert whiteouts[..i + 1][..i] == whiteouts[..i];
    }
    assert whiteouts[..|whiteouts|] == whiteouts;
    MergedStart(parentMap, whiteouts);
    EmptyListing(changed);
    for i := 0 to |changed|
      invariant merged == Merged(parentMap, Elems(whiteouts), TreeMap(changed[..i]))
    {
      var e := changed[i];
      TreeMapHas(changed, i);
      ListingGrows(changed, i);
      MergedGrows(parentMap, Elems(whiteouts), TreeMap(changed[..i]), e.path, e.node);
      merged := merged[e.path := e.node];
      merged := RestoreAncestors(parentMap, merged, e.path);
    }
    assert changed[..|changed|] == changed;
    result := ListTree(merged);
  }

  // ----- what is recorded

  lemma TopsEqual(s: set<Path>, t: set<Path>)
    requires s <= t && forall p :: p in t ==> Hides(s, p)
    ensures Tops(s) == Tops(t)
  {
    hide Under;
    forall p | p in Tops(t) ensures p in Tops(s) {
      var w :| w in s && Covers(w, p);
    }
    forall p | p in Tops(s) ensures p in Tops(t) {
      forall q | q in t && Under(p, q) ensures false {
        var w :| w in s && Covers(w, q);
        if w != q {
          UnderTransitive(w, q, p);
        }
      }
    }
  }

  /** The paths whose type the upper directory changes. */
  function Retyped(parent: Tree, upper: Tree): set<Path>
  {
    set q | q in parent && q in upper && !SameType(parent[q], upper[q])
  }

  /** Whiteouts of paths the parent has, and type changes. */
  function Removed(parent: Tree, upper: Tree, whiteouts: set<Path>): set<Path>
  {
    whiteouts * parent.Keys + Retyped(parent, upper)
  }

  /** An entry of the parent is hidden by a recorded whiteout exactly if it is hidden in
      the mount, or lies at or below an opaque directory, or is retyped. */
  lemma RemovedHides(parent: Tree, upper: Tree, ws: set<Path>, os: set<Path>, p: Path)
    requires IsTree(parent) && IsUpper(upper, ws, os) && p in parent
    ensures Hides(Removed(parent, upper, ws + os), p) <==>
            Hides(ws, p) || Hides(os, p) || BlockedBy(upper, p) || p in Retyped(parent, upper)
  {
    hide LastSlash, Canonical, Under, Parent, Unreserved;
    var s := Removed(parent, upper, ws + os);
    forall w | Covers(w, p) ensures w in parent && (w != p ==> parent[w].Dir?) {
      if w != p {
        AncestorIsDir(parent, p, w);
      }
    }
    if Hides(ws, p) || Hides(os, p) {
      var w :| w in ws + os && Covers(w, p);
      assert w in s;
    }
    if BlockedBy(upper, p) {
      var a :| a in upper && !upper[a].Dir? && Under(p, a);
      assert Covers(a, p);
      assert a != p by { NotUnderItself(p); }
      assert a in Retyped(parent, upper);
    }
    assert p in Retyped(parent, upper) ==> p in s && Covers(p, p);
  }

  lemma RemovedIsDropped(parent: Tree, upper: Tree, ws: set<Path>)
    requires IsTree(parent) && IsUpper(upper, ws, {})
    ensures Tops(Removed(parent, upper, ws)) == Tops(Dropped(parent, View(parent, upper, ws, {})))
  {
    hide IsTree, Unreserved, Tops, BlockedBy;
    var s, d := Removed(parent, upper, ws), Dropped(parent, View(parent, upper, ws, {}));
    assert ws + {} == ws;
    forall q | q in s ensures q in d {
      if q in ws {
        assert Covers(q, q);
        assert Hides(ws, q);
      }
    }
    forall q | q in d ensures Hides(s, q) {
      RemovedHides(parent, upper, ws, {}, q);
    }
    TopsEqual(s, d);
  }

  lemma ChangedByUpper(parent: Tree, upper: Tree, ws: set<Path>, os: set<Path>)
    ensures Changed(parent, View(parent, upper, ws, os)) == Changed(parent, upper)
  {
  }

  /** An upper entry that equals the parent's, sits in or is an opaque directory, and has
      no changed entry below it. */
  predicate Lost(parent: Tree, upper: Tree, opaques: set<Path>, u: Path)
  {
    && u in upper && u in parent && parent[u] == upper[u]
    && Hides(opaques, u) && !AboveChange(Changed(parent, upper), u)
  }

  lemma MergedAt(parent: Tree, upper: Tree, ws: set<Path>, os: set<Path>, p: Path)
    requires IsTree(parent) && IsUpper(upper, ws, os)
    ensures var m := Merged(parent, Tops(Removed(parent, upper, ws + os)), Changed(parent, upper));
            var v := View(parent, upper, ws, os);
            (p in m <==> p in v && !Lost(parent, upper, os, p)) && (p in m ==> m[p] == v[p])
  {
    hide LastSlash, Canonical, Under, Parent, Tops, Removed;
    var ch := Changed(parent, upper);
    TopsHideTheSame(Removed(parent, upper, ws + os), p);
    if p in parent {
      RemovedHides(parent, upper, ws, os, p);
      RootIsNoEntry(parent);
      if AboveChange(ch, p) {
        var e :| e in ch && Under(e, p);
        AncestorIsDir(upper, e, p);
      }
      if p !in upper && Hides(os, p) && !BelowOpaque(os, p) {
        assert p in os;
      }
      if p in upper && BlockedBy(upper, p) {
        var a :| a in upper && !upper[a].Dir? && Under(p, a);
        AncestorIsDir(upper, p, a);
        assert false;
      }
    }
  }

  lemma LostIsShown(parent: Tree, upper: Tree, ws: set<Path>, os: set<Path>, u: Path)
    requires Lost(parent, upper, os, u)
    ensures u in View(parent, upper, ws, os)
  {
  }

  /** With opaque directories the recorded tree is the mounted view if and only if no
      unchanged upper entry is lost; without them it always is. */
  lemma RecordsViewIff(parent: Tree, upper: Tree, ws: set<Path>, os: set<Path>)
    requires IsTree(parent) && IsUpper(upper, ws, os)
    ensures Merged(parent, Tops(Removed(parent, upper, ws + os)), Changed(parent, upper)) ==
            View(parent, upper, ws, os)
            <==> !exists u :: Lost(parent, upper, os, u)
  {
    hide Merged, View, Removed, Changed, Tops, IsTree, IsUpper;
    var m := Merged(parent, Tops(Removed(parent, upper, ws + os)), Changed(parent, upper));
    var v := View(parent, upper, ws, os);
    forall p ensures (p in m <==> p in v && !Lost(parent, upper, os, p)) && (p in m ==> m[p] == v[p]) {
      MergedAt(parent, upper, ws, os, p);
    }
    forall u | Lost(parent, upper, os, u) ensures u in v {
      LostIsShown(parent, upper, ws, os, u);
    }
  }

  lemma NothingLost(parent: Tree, upper: Tree)
    ensures !exists u :: Lost(parent, upper, {}, u)
  {
  }

  lemma CanonicalTree(t: Tree)
    requires IsTree(t)
    ensures forall q :: q in t ==> Canonical(q)
  {
  }

  /** The layer of an overlay: the topmost of what went away, and the changed entries of the
      upper. */
  predicate IsUpperLayer(parent: Tree, upper: Tree, whiteouts: set<Path>, l: Layer)
  {
    && IsListing(l.entries) && TreeMap(l.entries) == Changed(parent, upper)
    && StrictlySorted(l.whiteouts) && Elems(l.whiteouts) == Tops(Removed(parent, upper, whiteouts))
  }

  /** The overlay branch of `Snapshot`. Without opaque directories the layer is, list for list,
      the one a full scan of the mounted view gives, and the recorded tree is that view. */
  method SnapshotUpper(parent: seq<TreeEntry>, upper: seq<TreeEntry>, upperWhiteouts: seq<Path>,
                       ghost os: set<Path>, ghost ws: set<Path>)
    returns (l: Layer, tree: seq<TreeEntry>)
    requires IsListing(parent) && IsTree(TreeMap(parent))
    requires IsListing(upper) && IsUpper(TreeMap(upper), ws, os)
    requires Elems(upperWhiteouts) == ws + os
    ensures IsListing(tree) && IsUpperLayer(TreeMap(parent), TreeMap(upper), ws + os, l)
    ensures TreeMap(tree) ==
            Merged(TreeMap(parent), Tops(Removed(TreeMap(parent), TreeMap(upper), ws + os)),
                   Changed(TreeMap(parent), TreeMap(upper)))
    ensures os == {} ==> IsDelta(TreeMap(parent), View(TreeMap(parent), TreeMap(upper), ws, os), l)
    ensures TreeMap(tree) == View(TreeMap(parent), TreeMap(upper), ws, os) <==>
            !exists u :: Lost(TreeMap(parent), TreeMap(upper), os, u)
  {
    hide TreeMap, IsListing, IsTree, Tops, Merged, View, Hides, StrictlySorted, Named;
    ghost var p, u := TreeMap(parent), TreeMap(upper);
    var entries := ChangedEntries(parent, upper);
    var effective := EffectiveOverlayWhiteouts(parent, upperWhiteouts);
    var retyped := TypeChangeWhiteouts(parent, entries);
    NamedPair(effective, retyped);
    RootIsNoEntry(p);
    assert Elems(effective) + Elems(retyped) - {""} == Removed(p, u, ws + os);
    var whiteouts := MergeWhiteouts([effective, retyped]);
    CanonicalTree(u);
    tree := MergeOverlayTree(parent, entries, whiteouts);
    l := Layer(whiteouts, entries);
    RecordsViewIff(p, u, ws, os);
    if os == {} {
      assert ws + os == ws;
      RemovedIsDropped(p, u, ws);
      ChangedByUpper(p, u, ws, os);
    }
  }

  /** Two ways to record a mount without opaque directories: from its upper, or by scanning
      all it shows. The layers are the same list for list, the recorded trees are the same,
      and unpacking the layer over the parent gives that tree wherever it can be unpacked. */
  method RecordBothWays(parent: seq<TreeEntry>, upper: seq<TreeEntry>, upperWhiteouts: seq<Path>,
                        scanned: seq<TreeEntry>)
    returns (fromUpper: Layer, fromScan: Layer, tree: seq<TreeEntry>)
    requires IsListing(parent) && IsTree(TreeMap(parent)) && Unreserved(TreeMap(parent))
    requires IsListing(upper) && IsUpper(TreeMap(upper), Elems(upperWhiteouts), {})
    requires IsListing(scanned) && TreeMap(scanned) == View(TreeMap(parent), TreeMap(upper), Elems(upperWhiteouts), {})
    ensures fromUpper == fromScan && tree == scanned
    ensures ApplyAll(TreeMap(parent), MakeLayer(fromUpper)) ==
            if Restorable(TreeMap(parent), TreeMap(scanned)) then Ok(TreeMap(tree)) else Fail
  {
    hide TreeMap, IsListing, IsTree, IsUpper, View, IsDelta, Unreserved, Restorable, ApplyAll, MakeLayer;
    ghost var p, u, ws := TreeMap(parent), TreeMap(upper), Elems(upperWhiteouts);
    assert Elems(upperWhiteouts) == ws + {};
    fromUpper, tree := SnapshotUpper(parent, upper, upperWhiteouts, {}, ws);
    fromScan := DiffLayerEntries(parent, scanned);
    assert !exists q :: Lost(p, u, {}, q);
    DeltaUnique(p, TreeMap(scanned), fromUpper, fromScan);
    ListingUnique(tree, scanned);
    ViewIsTree(p, u, ws, {});
    RestoreDelta(p, TreeMap(scanned), fromUpper);
  }
}
