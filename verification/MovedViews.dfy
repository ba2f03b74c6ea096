/** What a lazy mount shows after `os.Rename` has moved a directory of its upper, with the
    markers in it, to another place. */
module MovedViews {
  import opened Paths
  import opened Trees
  import opened Layers
  import opened Overlay
  import opened MountViews

  // ----- paths that move

  /** Where a path at or below `to` was before. */
  function Back(q: Path, from: Path, to: Path): Path
    requires Covers(to, q)
  {
    from + q[|to|..]
  }

  lemma BackAndForth(q: Path, from: Path, to: Path)
    requires Covers(to, q)
    ensures Covers(from, Back(q, from, to)) && Back(Back(q, from, to), to, from) == q
    ensures Under(q, to) <==> Under(Back(q, from, to), from)
    ensures q == to <==> Back(q, from, to) == from
  {
  }

  lemma BackUnder(q: Path, a: Path, from: Path, to: Path)
    requires Covers(to, q) && Covers(to, a)
    ensures Under(q, a) <==> Under(Back(q, from, to), Back(a, from, to))
    ensures q == a <==> Back(q, from, to) == Back(a, from, to)
  {
    var s, t := q[|to|..], a[|to|..];
    assert q == to + s && a == to + t;
    if |t| < |s| {
      assert q[..|a|] == to + s[..|t|] && (from + s)[..|from + t|] == from + s[..|t|];
      assert q[|a|] == s[|t|] == (from + s)[|from + t|];
      if to + s[..|t|] == to + t {
        assert s[..|t|] == (to + s[..|t|])[|to|..];
      }
      if from + s[..|t|] == from + t {
        assert s[..|t|] == (from + s[..|t|])[|from|..];
      }
    }
    if from + s == from + t {
      assert s == (from + s)[|from|..];
    }
  }

  lemma LastSlashOf(to: Path, s: string)
    requires s != "" && s[0] == '/'
    ensures LastSlash(to + s) == |to| + LastSlash(s) && LastSlash(s) >= 0
  {
    LastSlashAt(to + s, |to| + LastSlash(s));
  }

  lemma PartsBelow(to: Path, s: string)
    requires s != "" && s[0] == '/'
    ensures LastSlash(s) >= 0 && LastSlash(to + s) >= 0
    ensures Parent(to + s) == to + s[..LastSlash(s)] && Base(to + s) == s[LastSlash(s) + 1..]
  {
    LastSlashOf(to, s);
    assert (to + s)[..|to| + LastSlash(s)] == to + s[..LastSlash(s)];
  }

  lemma StillCovers(to: Path, s: string, k: int)
    requires 0 <= k < |s| && s[0] == '/' && s[k] == '/'
    ensures Covers(to, to + s[..k]) && (to + s[..k])[|to|..] == s[..k]
  {
    if k == 0 {
      assert to + s[..k] == to;
    }
  }

  lemma BackParent(q: Path, from: Path, to: Path)
    requires Under(q, to)
    ensures Covers(to, Parent(q)) && Parent(Back(q, from, to)) == Back(Parent(q), from, to)
    ensures Base(Back(q, from, to)) == Base(q) && |Parent(q)| < |q|
    ensures LastSlash(Back(q, from, to)) >= 0 && LastSlash(q) >= 0
  {
    hide Parent, Base, LastSlash;
    var s := q[|to|..];
    assert q == to + s;
    PartsBelow(to, s);
    PartsBelow(from, s);
    StillCovers(to, s, LastSlash(s));
  }

  lemma {:induction false} BackCanonical(q: Path, from: Path, to: Path)
    requires Covers(to, q) && Canonical(to) && Canonical(Back(q, from, to))
    ensures Canonical(q)
    decreases |q|
  {
    hide Under, Base, Parent;
    if q != to {
      BackParent(q, from, to);
      BackCanonical(Parent(q), from, to);
    }
  }

  // ----- the upper and its markers after the move

  /** Two directories, neither in the other; the second place is free and has its parent in the
      upper. */
  predicate CanMove(lower: Tree, upper: Tree, marks: set<Path>, from: Path, to: Path)
  {
    && IsMount(lower, upper, marks) && from in upper && upper[from].Dir?
    && Canonical(to) && !IsMarker(to) && HasDir(upper, Parent(to))
    && !Covers(from, to) && !Covers(to, from)
    && forall q :: q in upper ==> !Covers(to, q)
  }

  function Forth(paths: set<Path>, from: Path, to: Path): set<Path>
  {
    set p | p in paths && Covers(from, p) :: Back(p, to, from)
  }

  function MovedUpper(upper: Tree, from: Path, to: Path): Tree
  {
    map q | q in upper.Keys + Forth(upper.Keys, from, to) &&
            (if Covers(to, q) then Back(q, from, to) in upper else q in upper && !Covers(from, q)) ::
      if Covers(to, q) then upper[Back(q, from, to)] else upper[q]
  }

  /** The marker of `to` itself is gone. */
  function MovedMarks(marks: set<Path>, from: Path, to: Path): set<Path>
  {
    set m | m in marks + Forth(marks, from, to) &&
            (if Covers(to, m) then Back(m, from, to) in marks else m in marks && !Covers(from, m))
  }

  lemma MovedUpperAt(upper: Tree, from: Path, to: Path, q: Path)
    ensures q in MovedUpper(upper, from, to) <==>
            if Covers(to, q) then Back(q, from, to) in upper else q in upper && !Covers(from, q)
    ensures q in MovedUpper(upper, from, to) ==>
              MovedUpper(upper, from, to)[q] == if Covers(to, q) then upper[Back(q, from, to)] else upper[q]
  {
    if Covers(to, q) {
      BackAndForth(q, from, to);
      if Back(q, from, to) in upper {
        assert q in Forth(upper.Keys, from, to);
      }
    }
  }

  lemma MovedMarksAt(marks: set<Path>, from: Path, to: Path, m: Path)
    ensures m in MovedMarks(marks, from, to) <==>
            if Covers(to, m) then Back(m, from, to) in marks else m in marks && !Covers(from, m)
  {
    if Covers(to, m) {
      BackAndForth(m, from, to);
      if Back(m, from, to) in marks {
        assert m in Forth(marks, from, to);
      }
    }
  }

  lemma FromIsNamed(lower: Tree, upper: Tree, marks: set<Path>, p: Path)
    requires IsMount(lower, upper, marks) && p in upper
    ensures p != ""
  {
    hide Parent, LastSlash;
    CanonicalNonEmpty(p);
  }

  lemma ParentOutside(q: Path, d: Path)
    requires q != "" && Parent(q) != "" && !Covers(d, q)
    ensures !Covers(d, Parent(q))
  {
    hide Under;
    var a := Parent(q);
    UnderParent(q, a);
    if Covers(d, a) && a != d {
      UnderTransitive(d, a, q);
    }
  }

  lemma RootBack(a: Path, from: Path, to: Path)
    requires Covers(to, a) && from != ""
    ensures Back(a, from, to) != ""
  {
  }

  lemma ParentUp(p: Path)
    requires p != ""
    ensures !Covers(p, Parent(p))
  {
  }

  lemma ParentMoves(lower: Tree, upper: Tree, marks: set<Path>, from: Path, to: Path, q: Path)
    requires CanMove(lower, upper, marks, from, to) && Canonical(q) && !Covers(from, q)
    requires if Covers(to, q) then Canonical(Back(q, from, to)) && HasDir(upper, Parent(Back(q, from, to)))
             else HasDir(upper, Parent(q))
    ensures HasDir(MovedUpper(upper, from, to), Parent(q))
  {
    hide MovedUpper, IsMount, Canonical, Under, Parent;
    var a := Parent(q);
    CanonicalParts(q);
    MovedUpperAt(upper, from, to, a);
    if Under(q, to) {
      BackParent(q, from, to);
      assert from != "" by { FromIsNamed(lower, upper, marks, from); }
      RootBack(a, from, to);
    } else if a != "" {
      ParentOutside(q, from);
      if q == to {
        ParentUp(to);
      } else {
        ParentOutside(q, to);
      }
    }
  }

  /** A path of the upper, or a marker, in its new place. */
  lemma MovedPath(lower: Tree, upper: Tree, marks: set<Path>, from: Path, to: Path, q: Path)
    requires CanMove(lower, upper, marks, from, to)
    requires if Covers(to, q) then Back(q, from, to) in upper || Back(q, from, to) in marks
             else (q in upper || q in marks) && !Covers(from, q)
    ensures Canonical(q) && !IsMarker(q) && !Covers(from, q)
    ensures if Covers(to, q) then Canonical(Back(q, from, to)) && HasDir(upper, Parent(Back(q, from, to)))
            else HasDir(upper, Parent(q))
  {
    hide Canonical, Under, Parent, Base, LastSlash;
    if Covers(to, q) {
      BackCanonical(q, from, to);
      if q != to {
        BackParent(q, from, to);
      }
      if Covers(from, q) {
        AncestorsNest(q, from, to);
      }
    }
  }

  lemma MovedIsMount(lower: Tree, upper: Tree, marks: set<Path>, from: Path, to: Path)
    requires CanMove(lower, upper, marks, from, to)
    ensures IsMount(lower, MovedUpper(upper, from, to), MovedMarks(marks, from, to))
  {
    hide MovedUpper, MovedMarks, Canonical, Under, Parent, Base, LastSlash;
    var u, m := MovedUpper(upper, from, to), MovedMarks(marks, from, to);
    forall q | q in u ensures Canonical(q) && !IsMarker(q) && HasDir(u, Parent(q)) {
      MovedUpperAt(upper, from, to, q);
      MovedPath(lower, upper, marks, from, to, q);
      ParentMoves(lower, upper, marks, from, to, q);
    }
    forall q | q in m ensures Canonical(q) && !IsMarker(q) && q !in u && HasDir(u, Parent(q)) {
      MovedUpperAt(upper, from, to, q);
      MovedMarksAt(marks, from, to, q);
      MovedPath(lower, upper, marks, from, to, q);
      ParentMoves(lower, upper, marks, from, to, q);
    }
    NoMarkers(u);
  }

  // ----- what the mount shows then

  /** The marker or the upper file that would hide `q` hides where it was before, and the other
      way round; so a snapshot entry below `to` shows unless its new neighbours hide it. */
  predicate Arrives(lower: Tree, upper: Tree, marks: set<Path>, from: Path, to: Path, q: Path)
  {
    Covers(to, q) &&
    (var r := Back(q, from, to);
     r in upper || (q in lower && !Hides(marks, r) && !BlockedBy(upper, r)))
  }

  /** The view after the directory has been moved: at and below `to` what the upper had at and
      below `from`, and the snapshot entries there that nothing of it hides. */
  function DirMoved(lower: Tree, upper: Tree, marks: set<Path>, from: Path, to: Path): Tree
  {
    var v := Shown(lower, upper, marks);
    map q | q in v.Keys + lower.Keys + Forth(upper.Keys, from, to) &&
            (if Covers(to, q) then Arrives(lower, upper, marks, from, to, q) else q in v && !Covers(from, q)) ::
      if Covers(to, q) then (if Back(q, from, to) in upper then upper[Back(q, from, to)] else lower[q]) else v[q]
  }

  /** Nothing above a place in an upper directory hides it. */
  lemma NothingOver(lower: Tree, upper: Tree, marks: set<Path>, p: Path, a: Path)
    requires IsMount(lower, upper, marks) && Canonical(p) && HasDir(upper, Parent(p)) && Under(p, a)
    ensures a !in marks && (a in upper ==> upper[a].Dir?)
  {
    hide LastSlash, Canonical, Under, Parent, IsTree, Unreserved;
    UnderParent(p, a);
    CanonicalParts(p);
    var d := Parent(p);
    if d != a {
      UpperNotHidden(lower, upper, marks, d);
      AncestorIsDir(upper, d, a);
    }
  }

  lemma NotOver(w: Path, q: Path, d: Path)
    requires Covers(w, q) && !Covers(d, q)
    ensures !Covers(d, w)
  {
    hide Under;
    if Covers(d, w) && d != w && w != q {
      UnderTransitive(d, w, q);
    }
  }

  lemma HiddenElsewhere(upper: Tree, marks: set<Path>, from: Path, to: Path, q: Path)
    requires !Covers(to, q) && !Covers(from, q)
    ensures Hides(MovedMarks(marks, from, to), q) <==> Hides(marks, q)
    ensures BlockedBy(MovedUpper(upper, from, to), q) <==> BlockedBy(upper, q)
  {
    hide MovedMarks, MovedUpper, Under;
    forall w | Covers(w, q) ensures w in MovedMarks(marks, from, to) <==> w in marks {
      NotOver(w, q, to);
      NotOver(w, q, from);
      MovedMarksAt(marks, from, to, w);
    }
    forall a | Under(q, a)
      ensures a in MovedUpper(upper, from, to) <==> a in upper
      ensures a in upper ==> MovedUpper(upper, from, to)[a] == upper[a]
    {
      NotOver(a, q, to);
      NotOver(a, q, from);
      MovedUpperAt(upper, from, to, a);
    }
  }

  lemma UpperParent(lower: Tree, upper: Tree, marks: set<Path>, p: Path)
    requires IsMount(lower, upper, marks) && p in upper
    ensures Canonical(p) && HasDir(upper, Parent(p))
  {
  }

  /** A marker over the new place was over the old one. */
  lemma MarkWasThere(lower: Tree, upper: Tree, marks: set<Path>, from: Path, to: Path, q: Path)
    requires CanMove(lower, upper, marks, from, to) && Covers(to, q) && Hides(MovedMarks(marks, from, to), q)
    ensures Hides(marks, Back(q, from, to))
  {
    hide MovedMarks, Under, Canonical, Parent, IsMount;
    var w :| w in MovedMarks(marks, from, to) && Covers(w, q);
    MovedMarksAt(marks, from, to, w);
    AncestorsNest(q, w, to);
    if Covers(to, w) {
      BackUnder(q, w, from, to);
      assert Covers(Back(w, from, to), Back(q, from, to));
    } else {
      NothingOver(lower, upper, marks, to, w);
    }
  }

  /** And a marker over the old place has come along. */
  lemma MarkHasCome(lower: Tree, upper: Tree, marks: set<Path>, from: Path, to: Path, q: Path)
    requires CanMove(lower, upper, marks, from, to) && Covers(to, q) && Hides(marks, Back(q, from, to))
    ensures Hides(MovedMarks(marks, from, to), q)
  {
    hide MovedMarks, Under, Canonical, Parent, IsMount;
    BackAndForth(q, from, to);
    var w :| w in marks && Covers(w, Back(q, from, to));
    AncestorsNest(Back(q, from, to), w, from);
    if Covers(from, w) {
      var x := Back(w, to, from);
      BackAndForth(w, to, from);
      BackUnder(q, x, from, to);
      MovedMarksAt(marks, from, to, x);
      assert Covers(x, q);
    } else {
      UpperParent(lower, upper, marks, from);
      NothingOver(lower, upper, marks, from, w);
    }
  }

  lemma FileWasThere(lower: Tree, upper: Tree, marks: set<Path>, from: Path, to: Path, q: Path)
    requires CanMove(lower, upper, marks, from, to) && Covers(to, q) && BlockedBy(MovedUpper(upper, from, to), q)
    ensures BlockedBy(upper, Back(q, from, to))
  {
    hide MovedUpper, Under, Canonical, Parent, IsMount;
    var u := MovedUpper(upper, from, to);
    var a :| a in u && !u[a].Dir? && Under(q, a);
    MovedUpperAt(upper, from, to, a);
    AncestorsNest(q, a, to);
    if Covers(to, a) {
      BackUnder(q, a, from, to);
      assert Under(Back(q, from, to), Back(a, from, to));
    } else {
      NothingOver(lower, upper, marks, to, a);
    }
  }

  lemma FileHasCome(lower: Tree, upper: Tree, marks: set<Path>, from: Path, to: Path, q: Path)
    requires CanMove(lower, upper, marks, from, to) && Covers(to, q) && BlockedBy(upper, Back(q, from, to))
    ensures BlockedBy(MovedUpper(upper, from, to), q)
  {
    hide MovedUpper, Under, Canonical, Parent, IsMount;
    BackAndForth(q, from, to);
    var a :| a in upper && !upper[a].Dir? && Under(Back(q, from, to), a);
    AncestorsNest(Back(q, from, to), a, from);
    if Covers(from, a) {
      var x := Back(a, to, from);
      BackAndForth(a, to, from);
      BackUnder(q, x, from, to);
      MovedUpperAt(upper, from, to, x);
      assert Under(q, x);
    } else {
      UpperParent(lower, upper, marks, from);
      NothingOver(lower, upper, marks, from, a);
    }
  }

  lemma HiddenThere(lower: Tree, upper: Tree, marks: set<Path>, from: Path, to: Path, q: Path)
    requires CanMove(lower, upper, marks, from, to) && Covers(to, q)
    ensures Hides(MovedMarks(marks, from, to), q) <==> Hides(marks, Back(q, from, to))
    ensures BlockedBy(MovedUpper(upper, from, to), q) <==> BlockedBy(upper, Back(q, from, to))
  {
    hide CanMove, Hides, BlockedBy, Covers;
    if Hides(MovedMarks(marks, from, to), q) {
      MarkWasThere(lower, upper, marks, from, to, q);
    }
    if Hides(marks, Back(q, from, to)) {
      MarkHasCome(lower, upper, marks, from, to, q);
    }
    if BlockedBy(MovedUpper(upper, from, to), q) {
      FileWasThere(lower, upper, marks, from, to, q);
    }
    if BlockedBy(upper, Back(q, from, to)) {
      FileHasCome(lower, upper, marks, from, to, q);
    }
  }

  lemma MovedShowsAt(lower: Tree, upper: Tree, marks: set<Path>, from: Path, to: Path, q: Path)
    requires CanMove(lower, upper, marks, from, to) && !Covers(from, q)
    ensures Look(Shown(lower, MovedUpper(upper, from, to), MovedMarks(marks, from, to)), q) ==
            Look(DirMoved(lower, upper, marks, from, to), q)
  {
    hide MovedUpper, MovedMarks, Under, Canonical, Parent, IsMount, Hides, BlockedBy;
    MovedUpperAt(upper, from, to, q);
    if Covers(to, q) {
      HiddenThere(lower, upper, marks, from, to, q);
      BackAndForth(q, from, to);
      if Back(q, from, to) in upper {
        assert q in Forth(upper.Keys, from, to);
      }
    } else {
      HiddenElsewhere(upper, marks, from, to, q);
    }
  }

  lemma NothingLeft(lower: Tree, upper: Tree, marks: set<Path>, from: Path, to: Path, q: Path)
    requires CanMove(lower, upper, marks, from, to) && Covers(from, q)
    ensures q !in DirMoved(lower, upper, marks, from, to)
  {
    hide Under, IsMount, Canonical, Parent, Shown, Arrives;
    if Covers(to, q) {
      AncestorsNest(q, from, to);
    }
  }

  lemma SameLooks(a: Tree, b: Tree)
    requires forall q :: Look(a, q) == Look(b, q)
    ensures a == b
  {
    forall q ensures q in a <==> q in b {
      assert Look(a, q) == Look(b, q);
    }
    forall q | q in a ensures a[q] == b[q] {
      assert Look(a, q) == Look(b, q);
    }
  }

  /** All of it, but for what the snapshot still has at and below `from`. */
  lemma MovedShows(lower: Tree, upper: Tree, marks: set<Path>, from: Path, to: Path)
    requires CanMove(lower, upper, marks, from, to)
    ensures RemoveAll(Shown(lower, MovedUpper(upper, from, to), MovedMarks(marks, from, to)), from) ==
            DirMoved(lower, upper, marks, from, to)
  {
    hide MovedUpper, MovedMarks, Under, Canonical, Parent, IsMount, Shown, DirMoved;
    var v := Shown(lower, MovedUpper(upper, from, to), MovedMarks(marks, from, to));
    var w := DirMoved(lower, upper, marks, from, to);
    forall q ensures Look(RemoveAll(v, from), q) == Look(w, q) {
      if Covers(from, q) {
        NothingLeft(lower, upper, marks, from, to, q);
      } else {
        MovedShowsAt(lower, upper, marks, from, to, q);
      }
    }
    SameLooks(RemoveAll(v, from), w);
  }

  // ----- the whole rename, from what there was before it

  /** The view after the directory `from` of view `v` has been renamed to `to`: below `to` come
      the upper's entries below `from`, and the snapshot's own entries below `to` that nothing
      of them hides. What the snapshot has below `from` stays behind. */
  function Renamed(lower: Tree, upper: Tree, marks: set<Path>, v: Tree, from: Path, to: Path): Tree
    requires from in v
  {
    map q | q in v.Keys + {to} + lower.Keys + Forth(upper.Keys, from, to) &&
            (if q == to then true
             else if Covers(to, q) then Arrives(lower, upper, marks, from, to, q)
             else q in v && !Covers(from, q)) ::
      if q == to then v[from]
      else if Covers(to, q) then (if Back(q, from, to) in upper then upper[Back(q, from, to)] else lower[q])
      else v[q]
  }

  /** What a plain rename does: the whole directory moves. */
  function PlainlyRenamed(v: Tree, from: Path, to: Path): Tree
  {
    map q | q in v.Keys + Forth(v.Keys, from, to) &&
            (if Covers(to, q) then Back(q, from, to) in v else q in v && !Covers(from, q)) ::
      if Covers(to, q) then v[Back(q, from, to)] else v[q]
  }

  predicate Silent(upper: Tree, marks: set<Path>, r: Path)
  {
    r !in upper && !Hides(marks, r) && !BlockedBy(upper, r)
  }

  /** Wherever the upper says nothing, the snapshot has the same below both places. In
      particular it does if all that shows below `from` has been copied up and the snapshot has
      nothing below `to`. */
  ghost predicate NothingLeftBehind(lower: Tree, upper: Tree, marks: set<Path>, from: Path, to: Path)
  {
    forall q :: Under(q, to) && Silent(upper, marks, Back(q, from, to)) ==>
        Look(lower, q) == Look(lower, Back(q, from, to))
  }

  lemma RenamedLook(lower: Tree, upper: Tree, marks: set<Path>, v: Tree, from: Path, to: Path, q: Path)
    requires from in v
    ensures Look(Renamed(lower, upper, marks, v, from, to), q) ==
            if q == to then Some(v[from])
            else if Under(q, to) then
              (var r := Back(q, from, to);
               if r in upper then Some(upper[r]) else if Silent(upper, marks, r) then Look(lower, q) else None)
            else if Covers(from, q) then None else Look(v, q)
  {
    hide Under, Hides, BlockedBy;
    if Covers(to, q) {
      BackAndForth(q, from, to);
      if Back(q, from, to) in upper {
        assert q in Forth(upper.Keys, from, to);
      }
    }
  }

  lemma PlainLook(v: Tree, from: Path, to: Path, q: Path)
    requires from in v
    ensures Look(PlainlyRenamed(v, from, to), q) ==
            if q == to then Some(v[from])
            else if Under(q, to) then Look(v, Back(q, from, to))
            else if Covers(from, q) then None else Look(v, q)
  {
    hide Under;
    if Covers(to, q) {
      BackAndForth(q, from, to);
      if Back(q, from, to) in v {
        assert q in Forth(v.Keys, from, to);
      }
    }
  }

  lemma ShownLook(lower: Tree, upper: Tree, marks: set<Path>, r: Path)
    ensures Look(Shown(lower, upper, marks), r) ==
            if r in upper then Some(upper[r]) else if Silent(upper, marks, r) then Look(lower, r) else None
  {
    hide Hides, BlockedBy;
  }

  lemma SilentIsAbsent(upper: Tree, marks: set<Path>, r: Path)
    ensures Silent(upper, marks, r) ==> r !in upper
  {
  }

  /** The rename of a directory is the plain one if and only if nothing is left behind. */
  lemma RenamedPlainlyIff(lower: Tree, upper: Tree, marks: set<Path>, from: Path, to: Path)
    requires from in Shown(lower, upper, marks)
    ensures var v := Shown(lower, upper, marks);
            Renamed(lower, upper, marks, v, from, to) == PlainlyRenamed(v, from, to) <==>
            NothingLeftBehind(lower, upper, marks, from, to)
  {
    hide Renamed, PlainlyRenamed, Shown, Under, Silent;
    var v := Shown(lower, upper, marks);
    var actual, plain := Renamed(lower, upper, marks, v, from, to), PlainlyRenamed(v, from, to);
    forall q
      ensures Look(actual, q) == Look(plain, q) <==>
              (Under(q, to) && Silent(upper, marks, Back(q, from, to)) ==>
               Look(lower, q) == Look(lower, Back(q, from, to)))
    {
      RenamedLook(lower, upper, marks, v, from, to, q);
      PlainLook(v, from, to, q);
      NotUnderItself(to);
      if Under(q, to) {
        ShownLook(lower, upper, marks, Back(q, from, to));
        SilentIsAbsent(upper, marks, Back(q, from, to));
      }
    }
    if NothingLeftBehind(lower, upper, marks, from, to) {
      SameLooks(actual, plain);
    }
  }

  // ----- from the state before the rename to the one just before the move

  /** Copying up, and clearing the new place, leave the upper below `from` as it was. */
  predicate SameBelow(u0: Tree, m0: set<Path>, u2: Tree, m2: set<Path>, from: Path)
  {
    && (forall r :: r in u0 && Under(r, from) ==> r in u2 && u2[r] == u0[r])
    && (forall r :: r in u2 && Under(r, from) ==> r in u0)
    && (forall r :: r in m0 && Under(r, from) ==> r in m2)
    && (forall r :: r in m2 && Under(r, from) ==> r in m0)
  }

  /** A visible directory: no marker at or above it, and no file above it. */
  lemma VisibleIsClear(lower: Tree, upper: Tree, marks: set<Path>, p: Path, w: Path)
    requires IsMount(lower, upper, marks) && p in Shown(lower, upper, marks) && Covers(w, p)
    ensures w !in marks && (w != p && w in upper ==> upper[w].Dir?)
  {
    hide Under, Canonical, Parent, IsMount;
    if p in upper {
      UpperNotHidden(lower, upper, marks, p);
    }
  }

  lemma SilentBelow(lower: Tree, u0: Tree, m0: set<Path>, u2: Tree, m2: set<Path>, from: Path, r: Path)
    requires IsMount(lower, u0, m0) && IsMount(lower, u2, m2) && SameBelow(u0, m0, u2, m2, from)
    requires var v := Shown(lower, u0, m0); from in v && v[from].Dir?
    requires var v := Shown(lower, u2, m2); from in v && v[from].Dir?
    requires Under(r, from)
    ensures Silent(u2, m2, r) <==> Silent(u0, m0, r)
  {
    hide Under, IsMount, Shown;
    forall w | Covers(w, r) ensures w in m2 <==> w in m0 {
      AncestorsNest(r, w, from);
      if Covers(w, from) {
        VisibleIsClear(lower, u0, m0, from, w);
        VisibleIsClear(lower, u2, m2, from, w);
      }
    }
    forall a | Under(r, a) ensures a in u2 && !u2[a].Dir? <==> a in u0 && !u0[a].Dir? {
      AncestorsNest(r, a, from);
      if Covers(a, from) {
        VisibleIsClear(lower, u0, m0, from, a);
        VisibleIsClear(lower, u2, m2, from, a);
        UpperShows(lower, u0, m0, from);
        UpperShows(lower, u2, m2, from);
      }
    }
  }

  lemma MovingIsMount(lower: Tree, upper: Tree, marks: set<Path>, from: Path, to: Path)
    requires CanMove(lower, upper, marks, from, to)
    ensures IsMount(lower, upper, marks) && from in upper && upper[from].Dir?
  {
    hide IsMount;
  }

  lemma UpperBelow(u0: Tree, m0: set<Path>, u2: Tree, m2: set<Path>, from: Path, r: Path)
    requires SameBelow(u0, m0, u2, m2, from) && Under(r, from)
    ensures Look(u2, r) == Look(u0, r)
  {
  }

  lemma LookAfter(a: Tree, b: Tree, to: Path, q: Path)
    requires RemoveAll(a, to) == RemoveAll(b, to) && !Covers(to, q)
    ensures Look(a, q) == Look(b, q)
  {
    hide Under;
    assert Look(RemoveAll(a, to), q) == Look(a, q);
    assert Look(RemoveAll(b, to), q) == Look(b, q);
  }

  lemma MovedLook(lower: Tree, upper: Tree, marks: set<Path>, from: Path, to: Path, q: Path)
    requires CanMove(lower, upper, marks, from, to)
    ensures Look(DirMoved(lower, upper, marks, from, to), q) ==
            if q == to then Some(upper[from])
            else if Under(q, to) then
              (var r := Back(q, from, to);
               if r in upper then Some(upper[r]) else if Silent(upper, marks, r) then Look(lower, q) else None)
            else if Covers(from, q) then None else Look(Shown(lower, upper, marks), q)
  {
    hide Under, Hides, BlockedBy, IsMount, Canonical, Shown;
    if Covers(to, q) {
      BackAndForth(q, from, to);
      if Back(q, from, to) in upper {
        assert q in Forth(upper.Keys, from, to);
      }
    }
  }

  lemma RenamedInSteps(lower: Tree, u0: Tree, m0: set<Path>, u2: Tree, m2: set<Path>, from: Path, to: Path)
    requires IsMount(lower, u0, m0) && CanMove(lower, u2, m2, from, to) && SameBelow(u0, m0, u2, m2, from)
    requires var v := Shown(lower, u0, m0); from in v && v[from].Dir? && u2[from] == v[from]
    requires RemoveAll(Shown(lower, u2, m2), to) == RemoveAll(Shown(lower, u0, m0), to)
    ensures DirMoved(lower, u2, m2, from, to) == Renamed(lower, u0, m0, Shown(lower, u0, m0), from, to)
  {
    hide Under, IsMount, Shown, DirMoved, Renamed, CanMove, Silent, SameBelow, RemoveAll;
    var v := Shown(lower, u0, m0);
    var d, n := DirMoved(lower, u2, m2, from, to), Renamed(lower, u0, m0, v, from, to);
    MovingIsMount(lower, u2, m2, from, to);
    UpperShows(lower, u2, m2, from);
    forall q ensures Look(d, q) == Look(n, q) {
      RenamedLook(lower, u0, m0, v, from, to, q);
      MovedLook(lower, u2, m2, from, to, q);
      if Under(q, to) {
        BackAndForth(q, from, to);
        SilentBelow(lower, u0, m0, u2, m2, from, Back(q, from, to));
        UpperBelow(u0, m0, u2, m2, from, Back(q, from, to));
      } else if q != to {
        LookAfter(Shown(lower, u2, m2), v, to, q);
      }
    }
    SameLooks(d, n);
  }
}
