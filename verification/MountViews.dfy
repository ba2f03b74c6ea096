/** How single changes of the upper directory and its whiteout markers change what a
    lazy mount shows. */
module MountViews {
  import opened Paths
  import opened Trees
  import opened Layers
  import opened Overlay

  /** What the mount shows over a lower tree. */
  function Shown(lower: Tree, upper: Tree, marks: set<Path>): Tree
  {
    View(lower, upper, marks, {})
  }

  /** Markers lie in directories of the upper, and never beside an upper entry of the same
      name. (Not all of them stand for snapshot paths: they move with a renamed directory.) */
  predicate IsMount(lower: Tree, upper: Tree, marks: set<Path>)
  {
    && IsTree(lower) && Unreserved(lower) && IsTree(upper) && Unreserved(upper)
    && forall m :: m in marks ==> Canonical(m) && !IsMarker(m) && m !in upper && HasDir(upper, Parent(m))
  }

  /** `lookupVisible`: marker first, then upper, then lower; no look at the directories
      above. */
  function LookupVisible(lower: Tree, upper: Tree, marks: set<Path>, p: Path): Option<Node>
  {
    if p == "" then Some(Dir(0x1ED))
    else if p in marks then None
    else if p in upper then Some(upper[p])
    else if p in lower then Some(lower[p])
    else None
  }

  /** What the kernel does to reach a path: look its names up from the root, one in the
      directory found before. */
  function Walk(lower: Tree, upper: Tree, marks: set<Path>, p: Path): Option<Node>
    decreases |p|
  {
    if p == "" then LookupVisible(lower, upper, marks, p)
    else
      match Walk(lower, upper, marks, Parent(p))
      case Some(Dir(_)) => LookupVisible(lower, upper, marks, p)
      case _ => None
  }

  function Look(t: Tree, p: Path): Option<Node>
  {
    if p in t then Some(t[p]) else None
  }

  lemma {:induction false} UpperNotHidden(lower: Tree, upper: Tree, marks: set<Path>, u: Path)
    requires IsMount(lower, upper, marks) && u in upper
    ensures !Hides(marks, u) && !BlockedBy(upper, u)
  {
    hide LastSlash, Canonical, Under, Parent, Unreserved;
    forall w | w in marks && Covers(w, u) ensures false {
      if w != u {
        AncestorIsDir(upper, u, w);
      }
    }
    forall a | a in upper && !upper[a].Dir? && Under(u, a) ensures false {
      AncestorIsDir(upper, u, a);
    }
  }

  lemma MountIsUpper(lower: Tree, upper: Tree, marks: set<Path>)
    requires IsMount(lower, upper, marks)
    ensures IsUpper(upper, marks, {})
    ensures IsTree(Shown(lower, upper, marks)) && Unreserved(Shown(lower, upper, marks))
  {
    hide LastSlash, Canonical, Under, Parent, Unreserved, Hides, BlockedBy, IsTree, View;
    forall u | u in upper ensures !Hides(marks, u) {
      UpperNotHidden(lower, upper, marks, u);
    }
    ViewIsTree(lower, upper, marks, {});
  }

  lemma HiddenAtOrAbove(s: set<Path>, p: Path)
    requires Canonical(p)
    ensures Hides(s, p) <==> p in s || (Parent(p) != "" && Hides(s, Parent(p)))
  {
    hide LastSlash, Canonical, Under, Parent;
    CanonicalParts(p);
    NotUnderRoot(p);
    forall w ensures Covers(w, p) <==> w == p || (Parent(p) != "" && Covers(w, Parent(p))) {
      UnderParent(p, w);
    }
    if Parent(p) != "" && Hides(s, Parent(p)) {
      var w :| w in s && Covers(w, Parent(p));
      assert Covers(w, p);
    }
    assert p in s ==> Covers(p, p);
  }

  lemma BlockedAtOrAbove(upper: Tree, p: Path)
    requires Canonical(p)
    ensures BlockedBy(upper, p) <==>
            Parent(p) != "" && (BlockedBy(upper, Parent(p)) || (Parent(p) in upper && !upper[Parent(p)].Dir?))
  {
    hide LastSlash, Canonical, Under, Parent;
    CanonicalParts(p);
    NotUnderRoot(p);
    forall a ensures Under(p, a) <==> Parent(p) != "" && (a == Parent(p) || Under(Parent(p), a)) {
      UnderParent(p, a);
    }
    if Parent(p) != "" && BlockedBy(upper, Parent(p)) {
      var a :| a in upper && !upper[a].Dir? && Under(Parent(p), a);
      assert Under(p, a);
    }
  }

  /** One lookup in a visible directory sees the view. */
  lemma LookupSeesView(lower: Tree, upper: Tree, marks: set<Path>, p: Path)
    requires IsMount(lower, upper, marks) && Canonical(p)
    ensures var v := Shown(lower, upper, marks);
            && (p in v <==> LookupVisible(lower, upper, marks, p).Some? && HasDir(v, Parent(p)))
            && (p in v ==> LookupVisible(lower, upper, marks, p) == Some(v[p]))
  {
    hide LastSlash, Canonical, Under, Parent, Unreserved;
    var a := Parent(p);
    CanonicalParts(p);
    MountIsUpper(lower, upper, marks);
    if p in upper {
      UpperNotHidden(lower, upper, marks, p);
      assert HasDir(upper, a);
    } else if p in lower {
      assert HasDir(lower, a);
      assert p in marks ==> Covers(p, p) && Hides(marks, p);
      HiddenAtOrAbove(marks, p);
      BlockedAtOrAbove(upper, p);
      if a in upper {
        UpperNotHidden(lower, upper, marks, a);
      }
    }
  }

  /** Walking lookups from the root, one name at a time, see exactly the view. */
  lemma {:induction false} WalkSeesView(lower: Tree, upper: Tree, marks: set<Path>, p: Path)
    requires IsMount(lower, upper, marks) && Canonical(p)
    ensures Walk(lower, upper, marks, p) == Look(Shown(lower, upper, marks), p)
    decreases |p|
  {
    hide LastSlash, Canonical, Under, IsMount, Shown;
    CanonicalParts(p);
    LookupSeesView(lower, upper, marks, p);
    if Parent(p) != "" {
      WalkSeesView(lower, upper, marks, Parent(p));
    }
  }

  // ----- one change of the upper directory

  lemma NothingBelow(lower: Tree, upper: Tree, marks: set<Path>, p: Path)
    requires IsMount(lower, upper, marks)
    requires var v := Shown(lower, upper, marks); p !in v || !v[p].Dir?
    ensures forall q :: q in Shown(lower, upper, marks) ==> !Under(q, p)
  {
    hide LastSlash, Canonical, Under, Parent, IsMount, View, IsTree;
    MountIsUpper(lower, upper, marks);
    var v := Shown(lower, upper, marks);
    forall q | q in v && Under(q, p) ensures false {
      AncestorIsDir(v, q, p);
    }
  }

  lemma MarksElsewhere(lower: Tree, upper: Tree, marks: set<Path>, p: Path)
    requires IsMount(lower, upper, marks) && Canonical(p) && p !in upper
    ensures forall m :: m in marks ==> !Under(m, p)
    ensures forall q :: q in upper ==> !Under(q, p)
  {
    hide LastSlash, Canonical, Under, Parent, Unreserved;
    forall q | q in upper && Under(q, p) ensures false {
      AncestorIsDir(upper, q, p);
    }
    forall m | m in marks && Under(m, p) ensures false {
      UnderParent(m, p);
      assert HasDir(upper, Parent(m));
      CanonicalParts(m);
      if Parent(m) != p {
        AncestorIsDir(upper, Parent(m), p);
      }
    }
  }

  lemma ParentIsNotSelf(p: Path)
    requires p != ""
    ensures Parent(p) != p
  {
  }

  /** Writing a file, a link or a directory entry at `p`, whose marker goes away. */
  lemma PutIsMount(lower: Tree, upper: Tree, marks: set<Path>, p: Path, n: Node)
    requires IsMount(lower, upper, marks) && Canonical(p) && !IsMarker(p) && HasDir(upper, Parent(p))
    requires p in upper ==> upper[p].Dir? == n.Dir?
    ensures IsMount(lower, upper[p := n], marks - {p})
  {
    hide LastSlash, Canonical, Under, Base;
    forall q | q in upper && Parent(q) == p ensures n.Dir? {
      CanonicalParts(p);
      assert HasDir(upper, Parent(q));
    }
    CanonicalNonEmpty(p);
    forall m | m in marks && Parent(m) == p ensures n.Dir? {
      assert HasDir(upper, Parent(m));
    }
    ParentIsNotSelf(p);
  }

  function Below(lower: Tree, p: Path): Tree
  {
    map q | q in lower && Under(q, p) :: lower[q]
  }

  lemma HidesWithout(marks: set<Path>, p: Path, q: Path)
    ensures q == p || Under(q, p) || (Hides(marks - {p}, q) <==> Hides(marks, q))
  {
    hide Under;
    if Hides(marks, q) {
      var w :| w in marks && Covers(w, q);
      if w != p {
        assert w in marks - {p};
      }
    }
  }

  lemma BlockedWith(upper: Tree, p: Path, n: Node, q: Path)
    requires p in upper ==> upper[p].Dir? == n.Dir?
    ensures BlockedBy(upper[p := n], q) <==> BlockedBy(upper, q) || (!n.Dir? && Under(q, p))
  {
    hide Under;
    var u := upper[p := n];
    if BlockedBy(upper, q) {
      var a :| a in upper && !upper[a].Dir? && Under(q, a);
      assert a in u && !u[a].Dir?;
    }
    assert p in u;
  }

  lemma SubsetHides(s: set<Path>, t: set<Path>, p: Path)
    requires s <= t
    ensures Hides(s, p) ==> Hides(t, p)
  {
  }

  lemma UncoveredBetween(upper: Tree, marks: set<Path>, p: Path, q: Path)
    requires Under(q, p) && !Hides(marks, p) && !BlockedBy(upper, p) && p !in upper
    requires forall m :: m in marks ==> !Under(m, p)
    requires forall u :: u in upper ==> !Under(u, p)
    ensures !Hides(marks, q) && !BlockedBy(upper, q)
  {
    hide Under;
    forall m | m in marks && Covers(m, q) ensures false {
      AncestorsNest(q, m, p);
    }
    forall a | a in upper && Under(q, a) ensures upper[a].Dir? {
      AncestorsNest(q, a, p);
    }
  }

  /** Above `p`, whose parent is in the upper, and below it, where the upper has nothing,
      neither a marker other than `p`'s nor an upper file is in the way. */
  lemma Uncovered(lower: Tree, upper: Tree, marks: set<Path>, p: Path, q: Path)
    requires IsMount(lower, upper, marks) && Canonical(p) && p !in upper && HasDir(upper, Parent(p))
    requires Under(q, p)
    ensures !Hides(marks - {p}, q) && !BlockedBy(upper, q)
  {
    hide LastSlash, Canonical, Under, Parent, Unreserved, Hides, BlockedBy, IsTree;
    MarksElsewhere(lower, upper, marks, p);
    if Parent(p) != "" {
      UpperNotHidden(lower, upper, marks, Parent(p));
    }
    BlockedAtOrAbove(upper, p);
    HiddenAtOrAbove(marks - {p}, p);
    SubsetHides(marks - {p}, marks, Parent(p));
    UncoveredBetween(upper, marks - {p}, p, q);
  }

  lemma NotMarked(lower: Tree, upper: Tree, marks: set<Path>, p: Path)
    requires IsMount(lower, upper, marks) && p in Shown(lower, upper, marks)
    ensures p !in marks
  {
    assert p in marks ==> Covers(p, p);
  }

  lemma PutShowsAt(lower: Tree, upper: Tree, marks: set<Path>, p: Path, n: Node, q: Path)
    requires IsMount(lower, upper, marks) && Canonical(p) && !IsMarker(p) && HasDir(upper, Parent(p))
    requires p in upper ==> upper[p].Dir? == n.Dir?
    requires var v := Shown(lower, upper, marks); p in v ==> v[p].Dir? == n.Dir?
    requires q != p
    ensures var v, w := Shown(lower, upper, marks), Shown(lower, upper[p := n], marks - {p});
            if Under(q, p) && n.Dir? && p !in v then q !in v && (q in w <==> q in lower) &&
                (q in w ==> w[q] == lower[q])
            else (q in w <==> q in v) && (q in v ==> w[q] == v[q])
  {
    hide LastSlash, Canonical, Under, Parent, Base, Hides, BlockedBy, IsTree, IsMount;
    var v := Shown(lower, upper, marks);
    assert !BelowOpaque({}, q);
    HidesWithout(marks, p, q);
    BlockedWith(upper, p, n, q);
    if p in v {
      NotMarked(lower, upper, marks, p);
      assert marks - {p} == marks;
    }
    if Under(q, p) {
      if p !in v || !n.Dir? {
        NothingBelow(lower, upper, marks, p);
        if n.Dir? {
          Uncovered(lower, upper, marks, p, q);
        }
      }
    }
  }

  lemma UpperShows(lower: Tree, upper: Tree, marks: set<Path>, p: Path)
    ensures p in upper ==> p in Shown(lower, upper, marks) && Shown(lower, upper, marks)[p] == upper[p]
  {
  }

  lemma PutShows(lower: Tree, upper: Tree, marks: set<Path>, p: Path, n: Node)
    requires IsMount(lower, upper, marks) && Canonical(p) && !IsMarker(p) && HasDir(upper, Parent(p))
    requires p in upper ==> upper[p].Dir? == n.Dir?
    requires var v := Shown(lower, upper, marks); p in v ==> v[p].Dir? == n.Dir?
    ensures var v := Shown(lower, upper, marks);
            Shown(lower, upper[p := n], marks - {p}) ==
            if n.Dir? && p !in v then v + Below(lower, p)[p := n] else v[p := n]
  {
    hide IsMount, Shown, Under, HasDir, Canonical, IsMarker;
    var w := Shown(lower, upper[p := n], marks - {p});
    UpperShows(lower, upper[p := n], marks - {p}, p);
    forall q | q != p
      ensures var v := Shown(lower, upper, marks);
              if Under(q, p) && n.Dir? && p !in v then q !in v && (q in w <==> q in lower) &&
                  (q in w ==> w[q] == lower[q])
              else (q in w <==> q in v) && (q in v ==> w[q] == v[q])
    {
      PutShowsAt(lower, upper, marks, p, n, q);
    }
  }

  /** The markers left when the upper directory `p` is removed with all it holds. */
  function MarksOutside(marks: set<Path>, p: Path): set<Path>
  {
    set m | m in marks && !Under(m, p)
  }

  lemma DropIsMount(lower: Tree, upper: Tree, marks: set<Path>, p: Path)
    requires IsMount(lower, upper, marks)
    ensures IsMount(lower, RemoveAll(upper, p), MarksOutside(marks, p))
  {
    hide LastSlash, Canonical, Under, Parent, Base;
    var u := RemoveAll(upper, p);
    forall q | q in upper && !Covers(p, q) && HasDir(upper, Parent(q)) ensures HasDir(u, Parent(q)) {
      CanonicalParts(q);
      UnderParent(q, p);
    }
    forall m | m in marks && !Under(m, p) ensures HasDir(u, Parent(m)) {
      CanonicalParts(m);
      UnderParent(m, p);
    }
  }

  lemma DropShowsAt(lower: Tree, upper: Tree, marks: set<Path>, p: Path, q: Path)
    requires !Covers(p, q)
    ensures var v, w := Shown(lower, upper, marks), Shown(lower, RemoveAll(upper, p), MarksOutside(marks, p));
            (q in w <==> q in v) && (q in v ==> w[q] == v[q])
  {
    hide Under;
    var u, ms := RemoveAll(upper, p), MarksOutside(marks, p);
    assert !BelowOpaque({}, q);
    if Hides(marks, q) {
      var m :| m in marks && Covers(m, q);
      if m != q && Under(m, p) {
        UnderTransitive(p, m, q);
      }
      assert m in ms;
    }
    if BlockedBy(upper, q) {
      var a :| a in upper && !upper[a].Dir? && Under(q, a);
      if Under(a, p) {
        UnderTransitive(p, a, q);
      }
      assert a in u && !u[a].Dir?;
    }
  }

  lemma DropShows(lower: Tree, upper: Tree, marks: set<Path>, p: Path)
    ensures RemoveAll(Shown(lower, RemoveAll(upper, p), MarksOutside(marks, p)), p) ==
            RemoveAll(Shown(lower, upper, marks), p)
  {
    hide Shown, Covers;
    forall q | !Covers(p, q)
      ensures var v, w := Shown(lower, upper, marks), Shown(lower, RemoveAll(upper, p), MarksOutside(marks, p));
              (q in w <==> q in v) && (q in v ==> w[q] == v[q])
    {
      DropShowsAt(lower, upper, marks, p, q);
    }
  }

  lemma MarkIsMount(lower: Tree, upper: Tree, marks: set<Path>, p: Path)
    requires IsMount(lower, upper, marks) && p in lower && p !in upper && HasDir(upper, Parent(p))
    ensures IsMount(lower, upper, marks + {p})
  {
  }

  lemma MarkShowsAt(lower: Tree, upper: Tree, marks: set<Path>, p: Path, q: Path)
    requires IsMount(lower, upper, marks) && p in lower && p !in upper && HasDir(upper, Parent(p))
    ensures var v, w := Shown(lower, upper, marks), Shown(lower, upper, marks + {p});
            (q in w <==> q in v && !Covers(p, q)) && (q in w ==> w[q] == v[q])
  {
    hide LastSlash, Canonical, Under, Parent, Base, BlockedBy;
    MarksElsewhere(lower, upper, marks, p);
    assert !BelowOpaque({}, q);
    if Covers(p, q) {
      assert p in marks + {p};
      assert Hides(marks + {p}, q);
    } else if Hides(marks, q) {
      var m :| m in marks && Covers(m, q);
      assert m in marks + {p};
    }
  }

  /** A marker takes its path and everything below it out of the view. */
  lemma MarkShows(lower: Tree, upper: Tree, marks: set<Path>, p: Path)
    requires IsMount(lower, upper, marks) && p in lower && p !in upper && HasDir(upper, Parent(p))
    ensures Shown(lower, upper, marks + {p}) == RemoveAll(Shown(lower, upper, marks), p)
  {
    hide Shown, Covers, IsMount, HasDir;
    forall q
      ensures var v, w := Shown(lower, upper, marks), Shown(lower, upper, marks + {p});
              (q in w <==> q in v && !Covers(p, q)) && (q in w ==> w[q] == v[q])
    {
      MarkShowsAt(lower, upper, marks, p, q);
    }
  }

  /** Without a snapshot entry there is nothing to bring back. */
  lemma NothingToMark(lower: Tree, upper: Tree, marks: set<Path>, p: Path)
    requires IsMount(lower, upper, marks) && p !in lower && p !in upper && Canonical(p)
    ensures RemoveAll(Shown(lower, upper, marks), p) == Shown(lower, upper, marks)
  {
    hide LastSlash, Canonical, Under, Parent, Base, BlockedBy, Hides;
    MarksElsewhere(lower, upper, marks, p);
    forall q | q in Shown(lower, upper, marks) ensures !Covers(p, q) {
      if q in lower && Under(q, p) {
        AncestorIsDir(lower, q, p);
      }
    }
  }
}
