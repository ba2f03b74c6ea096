/** Snapshotting an overlay mount from its upper directory instead of scanning the
    merged view. */
module Overlay {
  import opened Paths
  import opened Trees
  import opened Layers
  import opened Diff

  // ----- what an overlay shows

  /** Somewhere above `p` the upper directory has a file or a link. */
  predicate BlockedBy(upper: Tree, p: Path)
  {
    exists a :: a in upper && !upper[a].Dir? && Under(p, a)
  }

  predicate BelowOpaque(opaques: set<Path>, p: Path)
  {
    exists o :: o in opaques && Under(p, o)
  }

  predicate Shows(parent: Tree, upper: Tree, whiteouts: set<Path>, opaques: set<Path>, p: Path)
  {
    p in upper || (p in parent && !Hides(whiteouts, p) && !BelowOpaque(opaques, p) && !BlockedBy(upper, p))
  }

  /** The merged directory: upper entries, and lower entries nothing hides. */
  function View(parent: Tree, upper: Tree, whiteouts: set<Path>, opaques: set<Path>): Tree
  {
    map p | p in parent.Keys + upper.Keys && Shows(parent, upper, whiteouts, opaques, p) ::
      if p in upper then upper[p] else parent[p]
  }

  /** What `scanOverlayUpper` hands on: a tree with nothing below a whiteout, and every
      opaque directory present unless a whiteout covers it. */
  predicate IsUpper(upper: Tree, whiteouts: set<Path>, opaques: set<Path>)
  {
    && IsTree(upper) && Unreserved(upper)
    && (forall u :: u in upper ==> !Hides(whiteouts, u))
    && (forall o :: o in opaques ==> HasDir(upper, o) || Hides(whiteouts, o))
  }

  lemma HiddenBelow(s: set<Path>, a: Path, p: Path)
    requires Hides(s, a) && Under(p, a)
    ensures Hides(s, p)
  {
    var w :| w in s && Covers(w, a);
    if w != a {
      UnderTransitive(w, a, p);
    }
  }

  lemma ShownParent(parent: Tree, upper: Tree, ws: set<Path>, os: set<Path>, p: Path)
    requires IsTree(parent) && IsUpper(upper, ws, os) && Shows(parent, upper, ws, os, p)
    ensures Canonical(p) && HasDir(View(parent, upper, ws, os), Parent(p))
  {
    hide LastSlash, Canonical, Under, Parent;
    if p !in upper {
      var a := Parent(p);
      CanonicalParts(p);
      if a != "" {
        UnderParent(p, a);
        if a !in upper {
          if Hides(ws, a) {
            HiddenBelow(ws, a, p);
          }
          forall o | o in os && Under(a, o) ensures Under(p, o) {
            UnderTransitive(o, a, p);
          }
          forall b | b in upper && Under(a, b) ensures Under(p, b) {
            UnderTransitive(b, a, p);
          }
        }
      }
    } else {
      assert HasDir(upper, Parent(p));
    }
  }

  lemma ViewIsTree(parent: Tree, upper: Tree, ws: set<Path>, os: set<Path>)
    requires IsTree(parent) && Unreserved(parent) && IsUpper(upper, ws, os)
    ensures IsTree(View(parent, upper, ws, os)) && Unreserved(View(parent, upper, ws, os))
  {
    hide Shows, Canonical, LastSlash, Parent, Base;
    var v := View(parent, upper, ws, os);
    forall p | p in v ensures Canonical(p) && HasDir(v, Parent(p)) {
      ShownParent(parent, upper, ws, os, p);
    }
    forall p | p in v ensures p in parent || p in upper {
    }
  }

  // ----- scanOverlayUpper

  const OPAQUE := ".wh..wh..opq"

  function WhiteoutTarget(p: Path): Path
  {
    if Base(p) == OPAQUE || !IsMarker(p) || |Base(p)| == 4 then ""
    else Join(Parent(p), Base(p)[4..])
  }

  function OpaqueTarget(p: Path): Path
  {
    if Base(p) == OPAQUE then Parent(p) else ""
  }

  function WhiteoutsIn(raw: Tree): set<Path>
  {
    set q | q in raw && WhiteoutTarget(q) != "" :: WhiteoutTarget(q)
  }

  function OpaquesIn(raw: Tree): set<Path>
  {
    set q | q in raw && OpaqueTarget(q) != "" :: OpaqueTarget(q)
  }

  function UpperIn(raw: Tree): Tree
  {
    map q | q in raw && !IsMarker(q) && !Hides(WhiteoutsIn(raw), q) :: raw[q]
  }

  method IsCovered(path: Path, whiteouts: set<Path>) returns (covered: bool)
    ensures covered <==> Hides(whiteouts, path)
  {
    var todo := whiteouts;
    while todo != {}
      invariant todo <= whiteouts
      invariant forall w :: w in whiteouts - todo ==> !Covers(w, path)
    {
      var w :| w in todo;
      if Covers(w, path) {
        return true;
      }
      todo := todo - {w};
    }
    return false;
  }

  lemma EmptyListing(raw: seq<TreeEntry>)
    ensures TreeMap(raw[..0]) == map[] && IsListing([]) && TreeMap([]) == map[]
  {
  }

  /** Ranging over a Go map: every member once, in some order. */
  method ListSet(s: set<Path>) returns (r: seq<Path>)
    ensures NoRepeats(r) && Elems(r) == s
  {
    r := [];
    var todo := s;
    while todo != {}
      invariant todo <= s && NoRepeats(r) && Elems(r) == s - todo
    {
      var p :| p in todo;
      assert p !in Elems(r);
      ElemsAppend(r, p);
      r := r + [p];
      todo := todo - {p};
    }
  }

  /** `scanOverlayUpper`, from the entries `scanTree` finds in the upper directory. */
  method ScanOverlayUpper(raw: seq<TreeEntry>) returns (filtered: seq<TreeEntry>, whiteouts: seq<Path>)
    requires IsListing(raw)
    ensures IsListing(filtered) && TreeMap(filtered) == UpperIn(TreeMap(raw))
    ensures Elems(whiteouts) == WhiteoutsIn(TreeMap(raw)) + OpaquesIn(TreeMap(raw))
  {
    hide TreeMap, IsListing, WhiteoutTarget, OpaqueTarget, IsMarker, Hides;
    var whiteoutSet, opaqueSet: set<Path> := {}, {};
    var i := 0;
    assert TreeMap(raw[..0]) == map[] by { EmptyListing(raw); }
    while i < |raw|
      invariant 0 <= i <= |raw|
      invariant whiteoutSet == WhiteoutsIn(TreeMap(raw[..i]))
      invariant opaqueSet == OpaquesIn(TreeMap(raw[..i]))
    {
      ListingGrows(raw, i);
      var target := WhiteoutTarget(raw[i].path);
      if target != "" {
        whiteoutSet := whiteoutSet + {target};
      }
      var opaqueTarget := OpaqueTarget(raw[i].path);
      if opaqueTarget != "" {
        opaqueSet := opaqueSet + {opaqueTarget};
      }
      i := i + 1;
    }
    assert raw[..|raw|] == raw;
    filtered := [];
    i := 0;
    assert IsListing([]) && TreeMap([]) == map[] by { EmptyListing(raw); }
    while i < |raw|
      invariant 0 <= i <= |raw|
      invariant IsListing(filtered)
      invariant forall e :: e in filtered ==> e in raw[..i]
      invariant TreeMap(filtered) == map q | q in TreeMap(raw[..i]) && !IsMarker(q) && !Hides(whiteoutSet, q) ::
                                       TreeMap(raw[..i])[q]
    {
      ListingGrows(raw, i);
      assert raw[..i + 1] == raw[..i] + [raw[i]];
      var covered := IsCovered(raw[i].path, whiteoutSet);
      if !IsMarker(raw[i].path) && !covered {
        AppendListing(filtered, raw, i);
        filtered := filtered + [raw[i]];
      }
      i := i + 1;
    }
    var listed := ListSet(whiteoutSet);
    var opaques := ListSet(opaqueSet);
    assert forall p :: p in listed + opaques <==> p in listed || p in opaques;
    whiteouts := SortStrings(listed + opaques);
  }

  /** The scan of a directory whose markers are plain files is a proper upper. */
  lemma ScannedUpper(raw: Tree)
    requires IsTree(raw) && forall q :: q in raw && IsMarker(q) ==> raw[q].File?
    ensures IsUpper(UpperIn(raw), WhiteoutsIn(raw), OpaquesIn(raw))
  {
    hide LastSlash, Canonical, Under, Parent, Base, WhiteoutTarget, IsMarker;
    var u, ws, os := UpperIn(raw), WhiteoutsIn(raw), OpaquesIn(raw);
    forall p | p in u ensures HasDir(u, Parent(p)) {
      var a := Parent(p);
      CanonicalParts(p);
      if a != "" {
        UnderParent(p, a);
        assert HasDir(raw, a);
        if Hides(ws, a) {
          HiddenBelow(ws, a, p);
        }
      }
    }
    forall o | o in os ensures HasDir(u, o) || Hides(ws, o) {
      var q :| q in raw && OpaqueTarget(q) == o;
      assert HasDir(raw, o);
    }
    NoMarkers(u);
  }
}
