/** Unpacking the layer that was recorded from an upper with opaque directories. It can name a
    file without naming the directories above it, and its whiteouts take those away. */
module OpaqueRestores {
  import opened Paths
  import opened Trees
  import opened Layers
  import opened RestoreProofs
  import opened Overlay
  import opened OverlaySnapshot

  /** Every directory on the way is made unless it is there. */
  lemma {:induction false} MkdirAllMakes(t: Tree, p: Path, mode: int)
    requires p == "" || Canonical(p)
    requires p != "" ==> forall a :: a in t && Covers(a, p) ==> t[a].Dir?
    ensures MkdirAll(t, p, mode).Ok?
    ensures var r := MkdirAll(t, p, mode).value;
            && (forall q :: q in r <==> q in t || (p != "" && Covers(q, p)))
            && forall q :: q in r ==> r[q] == if q in t then t[q] else Dir(mode)
    decreases |p|
  {
    hide LastSlash, Canonical, Under, Parent;
    if p != "" {
      CanonicalParts(p);
      forall q ensures Under(p, q) <==> Parent(p) != "" && Covers(q, Parent(p)) {
        UnderParent(p, q);
      }
      MkdirAllMakes(t, Parent(p), mode);
    }
  }

  /** The mode that missing directories above an entry are made with. */
  function ModeFor(n: Node): int
  {
    match n
    case Dir(mode) => mode
    case _ => 0x1ED
  }

  /** The mode for `a` from the first entry below it. */
  function FirstMode(es: seq<TreeEntry>, a: Path): int
  {
    if es == [] then 0
    else if Under(es[0].path, a) then ModeFor(es[0].node)
    else FirstMode(es[1..], a)
  }

  lemma {:induction false} FirstModeAt(es: seq<TreeEntry>, a: Path, k: int)
    requires 0 <= k < |es| && Under(es[k].path, a) && forall i :: 0 <= i < k ==> !Under(es[i].path, a)
    ensures FirstMode(es, a) == ModeFor(es[k].node)
    decreases k
  {
    hide Under, ModeFor;
    if k > 0 {
      FirstModeAt(es[1..], a, k - 1);
    }
  }

  predicate Placed(es: seq<TreeEntry>, k: int, q: Path)
    requires 0 <= k <= |es|
  {
    exists i :: 0 <= i < k && es[i].path == q
  }

  predicate AtOrAbove(es: seq<TreeEntry>, k: int, q: Path)
    requires 0 <= k <= |es|
  {
    exists i :: 0 <= i < k && Covers(q, es[i].path)
  }

  /** The entries come from `upper`, and nothing in `t` is of another type than there or below
      something that is no directory there. */
  predicate Fits(t: Tree, upper: Tree, es: seq<TreeEntry>)
  {
    && IsTree(upper) && Unreserved(upper) && IsListing(es)
    && (forall i :: 0 <= i < |es| ==> es[i].path in upper && upper[es[i].path] == es[i].node)
    && (forall q :: q in t && q in upper ==> SameType(t[q], upper[q]))
    && (forall q, a :: q in t && a in upper && Under(q, a) ==> upper[a].Dir?)
  }

  /** What is there after `k` entries have been unpacked onto `t`. */
  function Unpacked(t: Tree, upper: Tree, es: seq<TreeEntry>, k: int): Tree
    requires 0 <= k <= |es|
  {
    map q | q in t.Keys + upper.Keys && (q in t || AtOrAbove(es, k, q)) ::
      if q in upper && Placed(es, k, q) then upper[q]
      else if q in t then t[q]
      else Dir(FirstMode(es, q))
  }

  lemma OneMore(es: seq<TreeEntry>, k: int, q: Path)
    requires 0 <= k < |es|
    ensures Placed(es, k + 1, q) <==> Placed(es, k, q) || q == es[k].path
    ensures AtOrAbove(es, k + 1, q) <==> AtOrAbove(es, k, q) || Covers(q, es[k].path)
    ensures Placed(es, k, q) ==> AtOrAbove(es, k, q)
  {
    hide Under;
  }

  /** An entry is not above one that was unpacked before it. */
  lemma NotAboveEarlier(es: seq<TreeEntry>, k: int)
    requires IsListing(es) && 0 <= k < |es|
    ensures !AtOrAbove(es, k, es[k].path)
  {
    hide Under, Leq;
    forall i | 0 <= i < k ensures !Covers(es[k].path, es[i].path) {
      if Under(es[i].path, es[k].path) {
        AncestorFirst(es[i].path, es[k].path);
        LeqTotal(es[i].path, es[k].path);
      }
    }
  }

  lemma AboveAreDirs(t: Tree, upper: Tree, es: seq<TreeEntry>, k: int)
    requires Fits(t, upper, es) && 0 <= k < |es|
    ensures forall a :: Under(es[k].path, a) ==> a in upper && upper[a].Dir?
    ensures forall a :: a in Unpacked(t, upper, es, k) && Under(es[k].path, a) ==>
                          Unpacked(t, upper, es, k)[a].Dir?
    ensures var q := es[k].path; q in Unpacked(t, upper, es, k) ==> q in t && Unpacked(t, upper, es, k)[q] == t[q]
  {
    hide Under, Placed, AtOrAbove, IsTree, IsListing, Unreserved;
    forall a | Under(es[k].path, a) ensures a in upper && upper[a].Dir? {
      AncestorIsDir(upper, es[k].path, a);
    }
    NotAboveEarlier(es, k);
    OneMore(es, k, es[k].path);
  }

  /** Nothing lies below an entry that is no directory. */
  lemma NothingBelow(t: Tree, upper: Tree, es: seq<TreeEntry>, k: int)
    requires Fits(t, upper, es) && 0 <= k < |es| && !es[k].node.Dir?
    ensures forall q :: q in Unpacked(t, upper, es, k) ==> !Under(q, es[k].path)
  {
    hide Under, IsTree, IsListing, Unreserved, FirstMode;
    forall q | q in Unpacked(t, upper, es, k) && Under(q, es[k].path) ensures false {
      if q !in t {
        AncestorIsDir(upper, q, es[k].path);
      }
    }
  }

  lemma NotEarlier(es: seq<TreeEntry>, k: int, q: Path)
    requires 0 <= k <= |es| && !AtOrAbove(es, k, q)
    ensures forall i :: 0 <= i < k ==> !Under(es[i].path, q)
  {
  }

  /** What one more entry makes of it. */
  lemma UnpackedGrows(t: Tree, upper: Tree, es: seq<TreeEntry>, k: int, made: Tree)
    requires Fits(t, upper, es) && 0 <= k < |es|
    requires var u := Unpacked(t, upper, es, k);
             && (forall q :: q in made <==> q in u || Covers(q, es[k].path))
             && (forall q :: q in made && q != es[k].path ==>
                   made[q] == if q in u then u[q] else Dir(ModeFor(es[k].node)))
             && made[es[k].path] == es[k].node
    ensures made == Unpacked(t, upper, es, k + 1)
  {
    hide Under, Placed, AtOrAbove, IsTree, IsListing, Unreserved, FirstMode, ModeFor;
    var u, next := Unpacked(t, upper, es, k), Unpacked(t, upper, es, k + 1);
    AboveAreDirs(t, upper, es, k);
    forall q ensures q in made <==> q in next {
      OneMore(es, k, q);
    }
    forall q | q in made ensures made[q] == next[q] {
      OneMore(es, k, q);
      if q !in u && q != es[k].path {
        NotEarlier(es, k, q);
        FirstModeAt(es, q, k);
      }
    }
  }

  lemma UnpackOne(t: Tree, upper: Tree, es: seq<TreeEntry>, k: int)
    requires Fits(t, upper, es) && 0 <= k < |es|
    ensures ApplyHeader(Unpacked(t, upper, es, k), Header(es[k].path, es[k].node)) ==
            Ok(Unpacked(t, upper, es, k + 1))
  {
    hide LastSlash, Canonical, Under, Parent, Base, Unpacked, IsListing, Inspect, MkdirAll, FirstMode;
    var u, e := Unpacked(t, upper, es, k), es[k];
    AboveAreDirs(t, upper, es, k);
    CanonicalParts(e.path);
    forall a ensures Under(e.path, a) <==> Parent(e.path) != "" && Covers(a, Parent(e.path)) {
      UnderParent(e.path, a);
    }
    InspectClear(u, Parent(e.path));
    MkdirAllMakes(u, Parent(e.path), 0x1ED);
    match e.node {
      case Dir(mode) =>
        InspectClear(u, e.path);
        MkdirAllMakes(u, e.path, mode);
        UnpackedGrows(t, upper, es, k, MkdirAll(u, e.path, mode).value[e.path := e.node]);
      case File(_, _) =>
        UnpackedGrows(t, upper, es, k, MkdirAll(u, Parent(e.path), 0x1ED).value[e.path := e.node]);
      case Symlink(_) =>
        NothingBelow(t, upper, es, k);
        var made := MkdirAll(u, Parent(e.path), 0x1ED).value;
        forall q | q in made ensures q == e.path || !Covers(e.path, q) {
          if Under(q, e.path) && q !in u {
            UnderTransitive(e.path, q, e.path);
            NotUnderItself(e.path);
          }
        }
        assert RemoveAll(made, e.path)[e.path := e.node] == made[e.path := e.node];
        UnpackedGrows(t, upper, es, k, made[e.path := e.node]);
    }
  }

  lemma {:induction false} UnpackEntries(t: Tree, upper: Tree, es: seq<TreeEntry>, k: int)
    requires Fits(t, upper, es) && 0 <= k <= |es|
    ensures ApplyAll(t, EntryHeaders(es)[..k]) == Ok(Unpacked(t, upper, es, k))
  {
    hide Fits, ApplyHeader, FirstMode;
    if k == 0 {
      assert Unpacked(t, upper, es, 0) == t;
    } else {
      UnpackEntries(t, upper, es, k - 1);
      UnpackOne(t, upper, es, k - 1);
      assert EntryHeaders(es)[..k][..k - 1] == EntryHeaders(es)[..k - 1];
    }
  }

  // ----- the layer of an overlay, unpacked over the snapshot below

  /** Unchanged directories that a whiteout takes away and an entry below them brings back. */
  function Remade(parent: Tree, upper: Tree, whiteouts: set<Path>): set<Path>
  {
    set a | a in parent && a !in Changed(parent, upper) && Hides(Removed(parent, upper, whiteouts), a) &&
            AboveChange(Changed(parent, upper), a)
  }

  lemma UpperFits(parent: Tree, upper: Tree, ws: set<Path>, os: set<Path>, l: Layer)
    requires IsTree(parent) && IsUpper(upper, ws, os) && IsUpperLayer(parent, upper, ws + os, l)
    ensures Fits(Minus(parent, Elems(l.whiteouts)), upper, l.entries)
  {
    hide LastSlash, Canonical, Under, Parent, Tops, Removed, TreeMap, IsListing, StrictlySorted;
    var t := Minus(parent, Elems(l.whiteouts));
    forall q | q in t ensures !BlockedBy(upper, q) && q !in Retyped(parent, upper) {
      TopsHideTheSame(Removed(parent, upper, ws + os), q);
      RemovedHides(parent, upper, ws, os, q);
    }
    forall i | 0 <= i < |l.entries|
      ensures l.entries[i].path in upper && upper[l.entries[i].path] == l.entries[i].node
    {
      TreeMapAt(l.entries, i);
    }
  }

  lemma PlacedAtEnd(es: seq<TreeEntry>, q: Path)
    requires IsListing(es)
    ensures Placed(es, |es|, q) <==> q in TreeMap(es)
    ensures AtOrAbove(es, |es|, q) <==> q in TreeMap(es) || AboveChange(TreeMap(es), q)
  {
    hide Under, TreeMap, IsListing;
    forall i | 0 <= i < |es| ensures es[i].path in TreeMap(es) {
      TreeMapAt(es, i);
    }
    if q in TreeMap(es) {
      var i := TreeMapIndex(es, q);
    }
    if AboveChange(TreeMap(es), q) {
      var e :| e in TreeMap(es) && Under(e, q);
      var i := TreeMapIndex(es, e);
    }
  }

  /** The recorded tree, with the modes that unpacking gives to directories it makes again. */
  function WithModes(m: Tree, remade: set<Path>, es: seq<TreeEntry>): Tree
  {
    map q | q in m :: if q in remade then Dir(FirstMode(es, q)) else m[q]
  }

  lemma DirAbove(upper: Tree, changed: Tree, q: Path)
    requires IsTree(upper) && changed.Keys <= upper.Keys
    ensures AboveChange(changed, q) ==> q in upper && upper[q].Dir?
  {
    hide Under, IsTree;
    if AboveChange(changed, q) {
      var e :| e in changed && Under(e, q);
      AncestorIsDir(upper, e, q);
    }
  }

  lemma UnpackedIsRecorded(parent: Tree, upper: Tree, ws: set<Path>, os: set<Path>, l: Layer)
    requires IsTree(parent) && IsUpper(upper, ws, os) && IsUpperLayer(parent, upper, ws + os, l)
    ensures Unpacked(Minus(parent, Elems(l.whiteouts)), upper, l.entries, |l.entries|) ==
            WithModes(Merged(parent, Tops(Removed(parent, upper, ws + os)), Changed(parent, upper)),
                      Remade(parent, upper, ws + os), l.entries)
  {
    hide Under, Tops, Removed, TreeMap, IsListing, StrictlySorted, Placed, AtOrAbove, AboveChange, FirstMode, IsTree,
         Unreserved, Hides;
    var t := Minus(parent, Elems(l.whiteouts));
    var ch := Changed(parent, upper);
    forall q
      ensures Placed(l.entries, |l.entries|, q) <==> q in ch
      ensures AtOrAbove(l.entries, |l.entries|, q) <==> q in ch || AboveChange(ch, q)
      ensures AboveChange(ch, q) ==> q in upper && upper[q].Dir?
      ensures q in parent ==> (q in t <==> !Hides(Removed(parent, upper, ws + os), q))
    {
      PlacedAtEnd(l.entries, q);
      if q in parent {
        TopsHideTheSame(Removed(parent, upper, ws + os), q);
      }
      DirAbove(upper, ch, q);
    }
  }

  lemma RemovedWithin(parent: Tree, upper: Tree, whiteouts: set<Path>)
    ensures Tops(Removed(parent, upper, whiteouts)) <= parent.Keys
  {
  }

  /** The layer that is recorded from an upper gives the recorded tree, but for directories
      that its whiteouts take away and no entry names: they get the mode of the first entry
      below them if that is a directory, else 0755. A name with a backslash that has to be
      deleted makes it fail. */
  lemma RestoreUpper(parent: Tree, upper: Tree, ws: set<Path>, os: set<Path>, l: Layer)
    requires IsTree(parent) && Unreserved(parent) && IsUpper(upper, ws, os)
    requires IsUpperLayer(parent, upper, ws + os, l)
    ensures var m := Merged(parent, Tops(Removed(parent, upper, ws + os)), Changed(parent, upper));
            ApplyAll(parent, MakeLayer(l)) ==
            if forall w :: w in Elems(l.whiteouts) ==> NoBackslash(Base(w)) then
              Ok(WithModes(m, Remade(parent, upper, ws + os), l.entries))
            else Fail
  {
    hide IsTree, Unreserved, IsUpper, Base, ApplyAll, NoBackslash, Minus, Hides, IsListing, StrictlySorted, Under,
         Fits, Unpacked, Merged, Remade, WithModes, Tops, Removed;
    var wos, es := l.whiteouts, l.entries;
    assert Elems(wos) <= parent.Keys by { RemovedWithin(parent, upper, ws + os); }
    ApplyAppend(parent, WhiteoutHeaders(wos), EntryHeaders(es));
    ApplyWhiteouts(parent, wos);
    UpperFits(parent, upper, ws, os, l);
    UnpackEntries(Minus(parent, Elems(wos)), upper, es, |es|);
    UnpackedIsRecorded(parent, upper, ws, os, l);
    assert EntryHeaders(es)[..|es|] == EntryHeaders(es);
  }

  lemma RemadeIsRecorded(parent: Tree, upper: Tree, ws: set<Path>, os: set<Path>, a: Path)
    requires IsUpper(upper, ws, os) && a in Remade(parent, upper, ws + os)
    ensures var m := Merged(parent, Tops(Removed(parent, upper, ws + os)), Changed(parent, upper));
            a in m && m[a] == parent[a]
  {
    hide Under, Tops, Removed, Hides, Unreserved, IsTree, AboveChange;
    DirAbove(upper, Changed(parent, upper), a);
  }

  /** Unpacking gives the recorded tree if and only if no name with a backslash is deleted and
      every directory that is made again gets the mode it had. */
  lemma RestoreUpperIff(parent: Tree, upper: Tree, ws: set<Path>, os: set<Path>, l: Layer)
    requires IsTree(parent) && Unreserved(parent) && IsUpper(upper, ws, os)
    requires IsUpperLayer(parent, upper, ws + os, l)
    ensures var m := Merged(parent, Tops(Removed(parent, upper, ws + os)), Changed(parent, upper));
            ApplyAll(parent, MakeLayer(l)) == Ok(m) <==>
            && (forall w :: w in Elems(l.whiteouts) ==> NoBackslash(Base(w)))
            && (forall a :: a in Remade(parent, upper, ws + os) ==> parent[a] == Dir(FirstMode(l.entries, a)))
  {
    hide IsTree, Unreserved, IsUpper, IsUpperLayer, Base, ApplyAll, MakeLayer, NoBackslash, Hides, Under, AboveChange,
         Tops, Removed, FirstMode;
    RestoreUpper(parent, upper, ws, os, l);
    var m := Merged(parent, Tops(Removed(parent, upper, ws + os)), Changed(parent, upper));
    var remade := Remade(parent, upper, ws + os);
    forall a | a in remade ensures a in m && m[a] == parent[a] {
      RemadeIsRecorded(parent, upper, ws, os, a);
    }
    if forall a :: a in remade ==> parent[a] == Dir(FirstMode(l.entries, a)) {
      assert WithModes(m, remade, l.entries) == m;
    }
    if WithModes(m, remade, l.entries) == m {
      forall a | a in remade ensures parent[a] == Dir(FirstMode(l.entries, a)) {
        assert WithModes(m, remade, l.entries)[a] == Dir(FirstMode(l.entries, a));
      }
    }
  }
}
