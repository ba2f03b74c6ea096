/** Unpacking the delta between two trees onto the first gives the second. */
module RestoreProofs {
  import opened Paths
  import opened Trees
  import opened Layers

  lemma {:induction false} InspectClear(t: Tree, p: Path)
    requires p == "" || Canonical(p)
    requires p != "" ==> forall a :: a in t && Covers(a, p) ==> t[a].Dir?
    ensures Inspect(t, p) != Blocked
    decreases |p|
  {
    if p != "" {
      CanonicalParts(p);
      if LastSlash(p) >= 0 {
        forall a | a in t && Covers(a, Parent(p)) ensures t[a].Dir? {
          UnderParent(p, a);
        }
        InspectClear(t, Parent(p));
      }
    }
  }

  lemma {:induction false} ExistingDir(t: Tree, p: Path, mode: int)
    requires IsTree(t) && HasDir(t, p)
    ensures Inspect(t, p) == Directory && MkdirAll(t, p, mode) == Ok(t)
    decreases |p|
  {
    if p != "" {
      CanonicalParts(p);
      if LastSlash(p) >= 0 {
        ExistingDir(t, Parent(p), mode);
      }
    }
  }

  // ----- the whiteouts at the head of the layer

  function Minus(t: Tree, s: set<Path>): Tree
  {
    map q | q in t && !Hides(s, q) :: t[q]
  }

  lemma ApplyOneWhiteout(p: Tree, t: Tree, w: Path)
    requires IsTree(p) && Unreserved(p) && w in p
    requires t.Keys <= p.Keys && forall q :: q in t ==> t[q] == p[q]
    ensures ApplyHeader(t, Header(WhiteoutName(w), File(0, ""))) ==
            if NoBackslash(Base(w)) then Ok(RemoveAll(t, w)) else Fail
  {
    hide LastSlash, Canonical, Inspect, Under, Join, Parent, RemoveAll;
    WhiteoutNameParts(w);
    CanonicalParts(w);
    assert Base(w) != ".wh..opq" by {
      assert ".wh." <= ".wh..opq";
    }
    if Parent(w) != "" {
      forall a | a in t && Covers(a, Parent(w)) ensures t[a].Dir? {
        UnderParent(w, a);
        AncestorIsDir(p, w, a);
      }
    }
    InspectClear(t, Parent(w));
  }

  lemma MinusOneMore(p: Tree, ws: seq<Path>)
    requires ws != []
    ensures RemoveAll(Minus(p, Elems(ws[..|ws| - 1])), ws[|ws| - 1]) == Minus(p, Elems(ws))
  {
    hide Covers;
    var n := |ws| - 1;
    assert ws == ws[..n] + [ws[n]];
    assert Elems(ws) == Elems(ws[..n]) + {ws[n]};
  }

  lemma NothingHidden(p: Tree)
    ensures Minus(p, {}) == p
  {
  }

  lemma {:induction false} ApplyWhiteouts(p: Tree, ws: seq<Path>)
    requires IsTree(p) && Unreserved(p) && Elems(ws) <= p.Keys
    ensures ApplyAll(p, WhiteoutHeaders(ws)) ==
            if forall w :: w in Elems(ws) ==> NoBackslash(Base(w)) then Ok(Minus(p, Elems(ws))) else Fail
    decreases |ws|
  {
    hide IsTree, Unreserved, Hides, Covers, NoBackslash, Base, ApplyHeader, WhiteoutName;
    var hs := WhiteoutHeaders(ws);
    if ws == [] {
      assert Elems(ws) == {};
      NothingHidden(p);
    } else {
      var n := |ws| - 1;
      assert ws == ws[..n] + [ws[n]];
      assert Elems(ws) == Elems(ws[..n]) + {ws[n]};
      assert hs[..n] == WhiteoutHeaders(ws[..n]);
      ApplyWhiteouts(p, ws[..n]);
      ApplyOneWhiteout(p, Minus(p, Elems(ws[..n])), ws[n]);
      MinusOneMore(p, ws);
    }
  }

  // ----- the entries after them

  lemma PrefixMap(es: seq<TreeEntry>, k: int)
    requires IsListing(es) && 0 <= k <= |es|
    ensures forall i :: 0 <= i < k ==> es[i].path in TreeMap(es[..k])
    ensures forall q :: q in TreeMap(es[..k]) ==>
                          q in TreeMap(es) && TreeMap(es[..k])[q] == TreeMap(es)[q]
    ensures forall q :: q in TreeMap(es[..k]) ==> exists i :: 0 <= i < k && es[i].path == q
  {
    hide TreeMap, Before;
    forall i | 0 <= i < k ensures es[i].path in TreeMap(es[..k]) {
      TreeMapHas(es[..k], i);
    }
    forall q | q in TreeMap(es[..k])
      ensures q in TreeMap(es) && TreeMap(es[..k])[q] == TreeMap(es)[q]
      ensures exists i :: 0 <= i < k && es[i].path == q
    {
      var i := TreeMapIndex(es[..k], q);
      TreeMapAt(es, i);
    }
  }

  /** `t` plus the listed entries is `c`, and no listed entry changes a type in `t`. */
  predicate Completes(t: Tree, es: seq<TreeEntry>, c: Tree)
  {
    && IsListing(es)
    && t + TreeMap(es) == c
    && forall q :: q in t ==> q in c && SameType(t[q], c[q])
  }

  lemma ParentPresent(t: Tree, es: seq<TreeEntry>, c: Tree, k: int, q: Path)
    requires IsTree(c) && Completes(t, es, c) && 0 <= k <= |es| && q in c
    requires IsTree(t)
    requires q in t || exists j :: 0 <= j <= k && j < |es| && es[j].path == q
    ensures HasDir(t + TreeMap(es[..k]), Parent(q))
  {
    hide LastSlash, Canonical, Under, Parent, Leq, TreeMap;
    var a := Parent(q);
    PrefixMap(es, k);
    CanonicalParts(q);
    assert HasDir(c, a);
    if a != "" && a !in t {
      var i := TreeMapIndex(es, a);
      var j :| 0 <= j <= k && j < |es| && es[j].path == q;
      UnderParent(q, a);
      AncestorFirst(q, a);
      LeqTotal(a, q);
      assert i < j;
    }
  }

  lemma PartialTree(t: Tree, es: seq<TreeEntry>, c: Tree, k: int)
    requires IsTree(t) && IsTree(c) && Completes(t, es, c) && 0 <= k <= |es|
    ensures IsTree(t + TreeMap(es[..k]))
    ensures k < |es| ==> HasDir(t + TreeMap(es[..k]), Parent(es[k].path))
  {
    PrefixMap(es, k);
    forall q | q in t + TreeMap(es[..k])
      ensures Canonical(q) && HasDir(t + TreeMap(es[..k]), Parent(q))
    {
      ParentPresent(t, es, c, k, q);
    }
    if k < |es| {
      TreeMapAt(es, k);
      ParentPresent(t, es, c, k, es[k].path);
    }
  }

  /** In a tree that has the parent and nothing of another type in the way. */
  lemma ApplyEntry(t: Tree, q: Path, n: Node)
    requires IsTree(t) && Canonical(q) && !IsMarker(q) && HasDir(t, Parent(q))
    requires q in t ==> SameType(t[q], n)
    ensures ApplyHeader(t, Header(q, n)) == Ok(t[q := n])
  {
    hide LastSlash, Canonical, Under, Parent, Base;
    CanonicalParts(q);
    ExistingDir(t, Parent(q), 0x1ED);
    match n
    case Dir(mode) =>
      ExistingDir(t, Parent(q), mode);
      if q in t {
        ExistingDir(t, q, mode);
      } else {
        assert t[q := n][q := n] == t[q := n];
      }
    case File(_, _) =>
    case Symlink(_) =>
      forall r | r in t ensures r == q || !Covers(q, r) {
        if Under(r, q) {
          AncestorIsDir(t, r, q);
        }
      }
      assert RemoveAll(t, q)[q := n] == t[q := n];
  }

  lemma TreeMapGrows(es: seq<TreeEntry>, k: int)
    requires 0 <= k < |es|
    ensures TreeMap(es[..k + 1]) == TreeMap(es[..k])[es[k].path := es[k].node]
  {
    assert es[..k + 1][..k] == es[..k];
  }

  lemma ApplyNextEntry(t: Tree, es: seq<TreeEntry>, c: Tree, k: int)
    requires IsTree(t) && IsTree(c) && Unreserved(c) && Completes(t, es, c) && 0 <= k < |es|
    ensures ApplyHeader(t + TreeMap(es[..k]), Header(es[k].path, es[k].node)) ==
            Ok(t + TreeMap(es[..k + 1]))
  {
    hide LastSlash, Canonical, Under, Parent, Base, ApplyHeader, IsListing, TreeMap, Leq;
    assert TreeMap(es[..k + 1]) == TreeMap(es[..k])[es[k].path := es[k].node] by { TreeMapGrows(es, k); }
    var u, e := t + TreeMap(es[..k]), es[k];
    PartialTree(t, es, c, k);
    PrefixMap(es, k);
    TreeMapAt(es, k);
    ApplyEntry(u, e.path, e.node);
    assert t + TreeMap(es[..k + 1]) == u[e.path := e.node];
  }

  lemma {:induction false} ApplyEntries(t: Tree, es: seq<TreeEntry>, c: Tree, k: int)
    requires IsTree(t) && IsTree(c) && Unreserved(c) && Completes(t, es, c) && 0 <= k <= |es|
    ensures ApplyAll(t, EntryHeaders(es)[..k]) == Ok(t + TreeMap(es[..k]))
  {
    hide IsTree, Unreserved, Completes, ApplyHeader;
    if k == 0 {
      assert t + TreeMap(es[..0]) == t;
    } else {
      ApplyEntries(t, es, c, k - 1);
      ApplyNextEntry(t, es, c, k - 1);
      assert EntryHeaders(es)[..k][..k - 1] == EntryHeaders(es)[..k - 1];
    }
  }

  // ----- the whole layer

  /** What the whiteouts leave: the common paths that kept their type. */
  lemma AfterWhiteouts(p: Tree, c: Tree, q: Path)
    requires IsTree(p) && IsTree(c) && q in p
    ensures Hides(Tops(Dropped(p, c)), q) <==> q in Dropped(p, c)
  {
    TopsHideTheSame(Dropped(p, c), q);
    if Hides(Dropped(p, c), q) {
      var w :| w in Dropped(p, c) && Covers(w, q);
      if q != w && q in c {
        AncestorIsDir(p, q, w);
        AncestorIsDir(c, q, w);
      }
    }
  }

  /** The base names a restore of the step from `p` to `c` has to delete by name. */
  predicate Restorable(p: Tree, c: Tree)
  {
    forall w :: w in Tops(Dropped(p, c)) ==> NoBackslash(Base(w))
  }

  lemma SurvivorsFormTree(p: Tree, c: Tree, l: Layer)
    requires IsTree(p) && IsTree(c) && IsDelta(p, c, l)
    ensures IsTree(Minus(p, Elems(l.whiteouts)))
    ensures Completes(Minus(p, Elems(l.whiteouts)), l.entries, c)
  {
    hide LastSlash, Canonical, Under, Base, Parent, Tops, TreeMap, IsListing, StrictlySorted;
    var t := Minus(p, Elems(l.whiteouts));
    forall q | q in p ensures q in t <==> q in c && SameType(p[q], c[q]) {
      AfterWhiteouts(p, c, q);
    }
    assert t + Changed(p, c) == c;
  }

  /** The delta restores exactly the new tree, unless it has to delete a name that holds
      a backslash; then the restore fails. */
  lemma RestoreDelta(p: Tree, c: Tree, l: Layer)
    requires IsTree(p) && Unreserved(p) && IsTree(c) && Unreserved(c) && IsDelta(p, c, l)
    ensures ApplyAll(p, MakeLayer(l)) == if Restorable(p, c) then Ok(c) else Fail
  {
    hide IsTree, Unreserved, Base, ApplyAll, NoBackslash, Minus, Hides, IsListing, StrictlySorted, Under;
    var ws, es := l.whiteouts, l.entries;
    ApplyAppend(p, WhiteoutHeaders(ws), EntryHeaders(es));
    ApplyWhiteouts(p, ws);
    if Restorable(p, c) {
      var t := Minus(p, Elems(ws));
      SurvivorsFormTree(p, c, l);
      ApplyEntries(t, es, c, |es|);
      assert es[..|es|] == es;
      assert EntryHeaders(es)[..|es|] == EntryHeaders(es);
    }
  }

  /** A layer without a parent deletes nothing, so it restores any tree. */
  lemma RootRestores(c: Tree, l: Layer)
    requires IsTree(c) && Unreserved(c) && IsDelta(map[], c, l)
    ensures ApplyAll(map[], MakeLayer(l)) == Ok(c)
  {
    hide Canonical, Base, IsDelta, ApplyAll, MakeLayer;
    RestoreDelta(map[], c, l);
  }

  // ----- a chain of layers

  function Fold(t: Tree, layers: seq<Layer>): Outcome<Tree>
  {
    if layers == [] then Ok(t)
    else
      var n := |layers| - 1;
      var before := Fold(t, layers[..n]);
      if before.Fail? then Fail else ApplyAll(before.value, MakeLayer(layers[n]))
  }

  function HeadTree(trees: seq<Tree>): Tree
  {
    if trees == [] then map[] else trees[|trees| - 1]
  }

  /** Each layer is the delta from the tree before it, the first one starting from
      nothing. */
  predicate IsHistory(layers: seq<Layer>, trees: seq<Tree>)
  {
    && |layers| == |trees|
    && (trees != [] ==>
          var n := |trees| - 1;
          && IsTree(trees[n]) && Unreserved(trees[n])
          && IsDelta(HeadTree(trees[..n]), trees[n], layers[n])
          && IsHistory(layers[..n], trees[..n]))
  }

  predicate AllRestorable(trees: seq<Tree>)
  {
    trees == [] || (var n := |trees| - 1;
                    Restorable(HeadTree(trees[..n]), trees[n]) && AllRestorable(trees[..n]))
  }

  lemma HeadIsTree(layers: seq<Layer>, trees: seq<Tree>)
    requires IsHistory(layers, trees)
    ensures IsTree(HeadTree(trees)) && Unreserved(HeadTree(trees))
  {
  }

  /** Restoring a chain gives the tree of its head. */
  lemma {:induction false} RestoreChain(layers: seq<Layer>, trees: seq<Tree>)
    requires IsHistory(layers, trees)
    ensures Fold(map[], layers) == if AllRestorable(trees) then Ok(HeadTree(trees)) else Fail
    decreases |trees|
  {
    hide IsTree, Unreserved, IsDelta, Restorable, ApplyAll;
    if trees != [] {
      var n := |trees| - 1;
      RestoreChain(layers[..n], trees[..n]);
      HeadIsTree(layers[..n], trees[..n]);
      RestoreDelta(HeadTree(trees[..n]), trees[n], layers[n]);
    }
  }
}
