/** Reading one file of a snapshot without restoring it: the newest layer that says
    anything about the name decides. */
module Reads {
  import opened Paths
  import opened Trees
  import opened Layers
  import opened RestoreProofs

  datatype ReadResult = Found(data: Bytes) | Deleted | Absent | Broken

  /** `whiteoutTarget`. */
  function ReadTarget(name: string): string
  {
    if !IsMarker(name) || !Deletable(Base(name)[4..]) then ""
    else Join(Parent(name), Base(name)[4..])
  }

  /** What one header says about `name`; `Absent` lets the loop go on. */
  function HeaderSays(h: Header, name: Path): ReadResult
  {
    if !Canonical(h.name) then Broken
    else if IsMarker(h.name) then
      if !(h.body.File? && h.body.data == "") then Broken
      else if ReadTarget(h.name) == name then Deleted
      else Absent
    else if h.name != name then Absent
    else
      match h.body
      case File(_, data) => Found(data)
      case Symlink(link) => Found(link)
      case Dir(_) => Broken
  }

  function LayerSays(hs: seq<Header>, name: Path): ReadResult
  {
    if hs == [] then Absent
    else if HeaderSays(hs[0], name) != Absent then HeaderSays(hs[0], name)
    else LayerSays(hs[1..], name)
  }

  /** `readFileFromLayer`. */
  method ReadFileFromLayer(layer: seq<Header>, name: Path) returns (r: ReadResult)
    ensures r == LayerSays(layer, name)
  {
    var i := 0;
    while i < |layer|
      invariant 0 <= i <= |layer|
      invariant LayerSays(layer, name) == LayerSays(layer[i..], name)
    {
      assert layer[i..][0] == layer[i] && layer[i..][1..] == layer[i + 1..];
      r := HeaderSays(layer[i], name);
      if r != Absent {
        return;
      }
      i := i + 1;
    }
    return Absent;
  }

  function NewestSays(layers: seq<Layer>, name: Path): ReadResult
  {
    if layers == [] then Absent
    else
      var n := |layers| - 1;
      var newest := LayerSays(MakeLayer(layers[n]), name);
      if newest != Absent then newest else NewestSays(layers[..n], name)
  }

  /** The loop of `ReadSnapshotFile` over unencrypted layers, newest first. */
  method ReadSnapshotFile(layers: seq<Layer>, name: Path) returns (r: ReadResult)
    ensures r == NewestSays(layers, name)
  {
    hide LayerSays, MakeLayer;
    var i := |layers|;
    assert layers[..i] == layers;
    while i > 0
      invariant 0 <= i <= |layers|
      invariant NewestSays(layers, name) == NewestSays(layers[..i], name)
    {
      assert layers[..i][..i - 1] == layers[..i - 1];
      r := ReadFileFromLayer(MakeLayer(layers[i - 1]), name);
      if r != Absent {
        return;
      }
      i := i - 1;
    }
    return Absent;
  }

  // ----- what a delta layer says

  lemma {:induction false} SaysFirst(a: seq<Header>, b: seq<Header>, name: Path)
    ensures LayerSays(a + b, name) == if LayerSays(a, name) != Absent then LayerSays(a, name) else LayerSays(b, name)
  {
    if a == [] {
      assert a + b == b;
    } else {
      assert (a + b)[1..] == a[1..] + b;
      SaysFirst(a[1..], b, name);
    }
  }

  lemma MarkerSays(w: Path, name: Path)
    requires Canonical(w) && Canonical(name)
    ensures HeaderSays(Header(WhiteoutName(w), File(0, "")), name) ==
            if w == name && NoBackslash(Base(w)) then Deleted else Absent
  {
    hide LastSlash, Parent, Base, WhiteoutName, Join;
    WhiteoutNameParts(w);
    CanonicalParts(w);
    CanonicalParts(name);
  }

  lemma {:induction false} WhiteoutsSay(ws: seq<Path>, name: Path)
    requires Canonical(name) && forall w :: w in ws ==> Canonical(w)
    ensures LayerSays(WhiteoutHeaders(ws), name) ==
            if name in ws && NoBackslash(Base(name)) then Deleted else Absent
  {
    hide Canonical, Base, WhiteoutName, HeaderSays, NoBackslash;
    if ws != [] {
      assert WhiteoutHeaders(ws)[1..] == WhiteoutHeaders(ws[1..]);
      assert ws == [ws[0]] + ws[1..];
      WhiteoutsSay(ws[1..], name);
      MarkerSays(ws[0], name);
    }
  }

  function BodySays(n: Node): ReadResult
  {
    match n
    case File(_, data) => Found(data)
    case Symlink(link) => Found(link)
    case Dir(_) => Broken
  }

  lemma EmptyMap(es: seq<TreeEntry>)
    requires es == []
    ensures TreeMap(es) == map[]
  {
  }

  lemma TreeMapTail(es: seq<TreeEntry>)
    requires IsListing(es) && es != []
    ensures TreeMap(es) == TreeMap(es[1..])[es[0].path := es[0].node]
  {
    hide TreeMap, Before;
    forall q | q in TreeMap(es)
      ensures q == es[0].path || (q in TreeMap(es[1..]) && TreeMap(es[1..])[q] == TreeMap(es)[q])
    {
      var i := TreeMapIndex(es, q);
      if i > 0 {
        assert es[1..][i - 1] == es[i];
        TreeMapAt(es[1..], i - 1);
      }
    }
    forall q | q in TreeMap(es[1..]) ensures q in TreeMap(es) {
      var i := TreeMapIndex(es[1..], q);
      TreeMapAt(es, i + 1);
    }
    TreeMapAt(es, 0);
  }

  lemma {:induction false} EntriesSay(es: seq<TreeEntry>, name: Path)
    requires IsListing(es) && forall e :: e in es ==> Canonical(e.path) && !IsMarker(e.path)
    ensures LayerSays(EntryHeaders(es), name) ==
            if name in TreeMap(es) then BodySays(TreeMap(es)[name]) else Absent
  {
    hide Canonical, IsMarker, TreeMap, Before;
    if es == [] {
      EmptyMap(es);
    } else {
      assert EntryHeaders(es)[1..] == EntryHeaders(es[1..]);
      EntriesSay(es[1..], name);
      TreeMapTail(es);
      assert es[0] in es;
    }
  }

  lemma DeltaSays(p: Tree, c: Tree, l: Layer, name: Path)
    requires IsTree(p) && IsTree(c) && Unreserved(c) && IsDelta(p, c, l) && Canonical(name)
    ensures LayerSays(MakeLayer(l), name) ==
            if name in Tops(Dropped(p, c)) && NoBackslash(Base(name)) then Deleted
            else if name in Changed(p, c) then BodySays(c[name])
            else Absent
  {
    hide LastSlash, Canonical, Base, Parent, TreeMap, Before, LayerSays, NoBackslash;
    SaysFirst(WhiteoutHeaders(l.whiteouts), EntryHeaders(l.entries), name);
    forall w | w in l.whiteouts ensures Canonical(w) {
      assert w in Elems(l.whiteouts);
    }
    assert name in l.whiteouts <==> name in Elems(l.whiteouts);
    WhiteoutsSay(l.whiteouts, name);
    forall e | e in l.entries ensures Canonical(e.path) && !IsMarker(e.path) {
      var i :| 0 <= i < |l.entries| && l.entries[i] == e;
      TreeMapAt(l.entries, i);
    }
    EntriesSay(l.entries, name);
  }

  /** A path both trees have is deleted by name exactly if its type changed. */
  lemma CommonPathOnTop(p: Tree, c: Tree, q: Path)
    requires IsTree(p) && IsTree(c) && q in p && q in c
    ensures q in Tops(Dropped(p, c)) <==> !SameType(p[q], c[q])
  {
    hide LastSlash, Canonical, Parent, Under;
    forall a | a in Dropped(p, c) && Under(q, a) ensures false {
      AncestorIsDir(p, q, a);
      AncestorIsDir(c, q, a);
    }
  }

  // ----- reading the head of a history

  /** The newest layer that carries `q` also changed its type. */
  predicate NewestRetypes(trees: seq<Tree>, q: Path)
  {
    trees != [] &&
    (var n := |trees| - 1;
     var p := HeadTree(trees[..n]);
     if q in Changed(p, trees[n]) then q in p && !SameType(p[q], trees[n][q])
     else NewestRetypes(trees[..n], q))
  }

  lemma TopsWithin(p: Tree, c: Tree)
    ensures Tops(Dropped(p, c)) <= p.Keys
  {
  }

  /** Reading a path of the head tree gives the bytes a restore would write, except exactly
      when the newest layer that carries it changed its type: that layer's whiteout of the
      same name is found first. (A name with a backslash is never read as deleted.) */
  lemma {:induction false} ReadHead(layers: seq<Layer>, trees: seq<Tree>, q: Path)
    requires IsHistory(layers, trees) && q in HeadTree(trees) && Canonical(q)
    ensures NewestSays(layers, q) ==
            if NewestRetypes(trees, q) && NoBackslash(Base(q)) then Deleted else BodySays(HeadTree(trees)[q])
    decreases |trees|
  {
    hide Canonical, Base, NoBackslash, IsTree, Unreserved, IsDelta, Tops, Dropped, LayerSays, MakeLayer;
    var n := |trees| - 1;
    var p, c := HeadTree(trees[..n]), trees[n];
    HeadIsTree(layers[..n], trees[..n]);
    DeltaSays(p, c, layers[n], q);
    TopsWithin(p, c);
    if q in p {
      CommonPathOnTop(p, c, q);
    }
    if q !in Changed(p, c) {
      ReadHead(layers[..n], trees[..n], q);
    }
  }

  /** A path the last snapshot deleted reads as deleted only if nothing above it was
      deleted with it; below a deleted directory the read goes on to older layers and
      answers what it answered before the deletion. */
  lemma ReadAfterDelete(layers: seq<Layer>, trees: seq<Tree>, q: Path)
    requires IsHistory(layers, trees) && trees != []
    requires q in HeadTree(trees[..|trees| - 1]) && q !in HeadTree(trees)
    ensures NewestSays(layers, q) ==
            if q in Tops(Dropped(HeadTree(trees[..|trees| - 1]), HeadTree(trees))) && NoBackslash(Base(q)) then Deleted
            else NewestSays(layers[..|trees| - 1], q)
  {
    hide Canonical, Base, NoBackslash, IsDelta, Tops, Dropped, LayerSays, MakeLayer;
    var n := |trees| - 1;
    HeadIsTree(layers[..n], trees[..n]);
    DeltaSays(HeadTree(trees[..n]), trees[n], layers[n], q);
  }

  /** How many snapshots there are up to the last one that has `q`. */
  function LastWith(trees: seq<Tree>, q: Path): (m: nat)
    ensures m <= |trees| && (m > 0 ==> q in trees[m - 1]) && (m < |trees| ==> q !in HeadTree(trees))
  {
    if trees == [] then 0
    else if q in trees[|trees| - 1] then |trees|
    else LastWith(trees[..|trees| - 1], q)
  }

  /** A path the head tree does not have was never there, and reads as absent; or the last
      snapshot that had it decides together with the one that took it away: deleted if it was
      whited out by its own name, else what a read returned when it was still there. */
  lemma {:induction false} ReadAbsent(layers: seq<Layer>, trees: seq<Tree>, q: Path)
    requires IsHistory(layers, trees) && q !in HeadTree(trees) && Canonical(q)
    ensures var m := LastWith(trees, q);
            NewestSays(layers, q) ==
            if m == 0 then Absent
            else if NoBackslash(Base(q)) &&
                    (q in Tops(Dropped(trees[m - 1], trees[m])) || NewestRetypes(trees[..m], q)) then Deleted
            else BodySays(trees[m - 1][q])
    decreases |trees|
  {
    hide Canonical, Base, NoBackslash, IsTree, Unreserved, IsDelta, Tops, Dropped, LayerSays, MakeLayer;
    if trees != [] {
      var n := |trees| - 1;
      var p, c := HeadTree(trees[..n]), trees[n];
      HeadIsTree(layers[..n], trees[..n]);
      if q in p {
        ReadAfterDelete(layers, trees, q);
        ReadHead(layers[..n], trees[..n], q);
      } else {
        DeltaSays(p, c, layers[n], q);
        TopsWithin(p, c);
        ReadAbsent(layers[..n], trees[..n], q);
        var m := LastWith(trees, q);
        assert m > 0 ==> trees[..n][..m] == trees[..m];
      }
    }
  }
}
