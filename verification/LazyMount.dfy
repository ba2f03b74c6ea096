/** The copy-up mount: every operation changes the upper directory and its whiteout
    markers, and what the mount shows changes as a plain map of paths would. */
module LazyMount {
  import opened Paths
  import opened Trees
  import opened Layers
  import opened Overlay
  import opened OverlaySnapshot
  import opened MountViews
  import opened MovedViews

  datatype Errno = OK | ENOENT | ENOTDIR | EISDIR | EROFS | EIO

  // ----- the same operations on a plain map

  datatype Op =
    | Write(path: Path, offset: nat, data: Bytes)
    | Truncate(path: Path, size: nat)
    | Chmod(path: Path, mode: nat)
    | Touch(path: Path)
    | Create(path: Path, mode: nat)
    | Mkdir(path: Path, mode: nat)
    | Symlink(path: Path, link: string)
    | Unlink(path: Path)
    | Rmdir(path: Path)
    | Rename(path: Path, to: Path)
    | RenameDir(path: Path, to: Path)

  function Zeros(n: nat): (r: Bytes)
    ensures |r| == n
  {
    seq(n, i => '\0')
  }

  /** `WriteAt`: a gap past the end fills with zeros. */
  function Splice(bytes: Bytes, offset: nat, data: Bytes): Bytes
  {
    if data == "" then bytes
    else
      var padded := if |bytes| < offset then bytes + Zeros(offset - |bytes|) else bytes;
      padded[..offset] + data + if offset + |data| < |padded| then padded[offset + |data|..] else ""
  }

  function Resize(bytes: Bytes, size: nat): Bytes
  {
    if size <= |bytes| then bytes[..size] else bytes + Zeros(size - |bytes|)
  }

  predicate FileAt(t: Tree, p: Path)
  {
    p in t && t[p].File?
  }

  predicate Vacant(t: Tree, p: Path)
  {
    Canonical(p) && !IsMarker(p) && p !in t && HasDir(t, Parent(p))
  }

  /** What the kernel has looked up before it renames a directory. It does not look whether a
      directory in the way is empty. */
  predicate MayRenameDir(t: Tree, from: Path, to: Path)
  {
    && from in t && t[from].Dir? && (Vacant(t, to) || (to in t && t[to].Dir?))
    && !Covers(from, to) && !Covers(to, from)
  }

  /** What the kernel has looked up before it sends the request. */
  predicate Permitted(t: Tree, op: Op)
  {
    match op
    case Write(p, _, _) => FileAt(t, p)
    case Truncate(p, _) => FileAt(t, p)
    case Chmod(p, _) => p in t && !t[p].Symlink?
    case Touch(p) => p in t
    case Create(p, _) => Vacant(t, p)
    case Mkdir(p, _) => Vacant(t, p)
    case Symlink(p, _) => Vacant(t, p)
    case Unlink(p) => p in t && !t[p].Dir?
    case Rmdir(p) => p in t && t[p].Dir?
    case Rename(p, q) => p in t && !t[p].Dir? && p != q && (Vacant(t, q) || (q in t && !t[q].Dir?))
    case RenameDir(p, q) => MayRenameDir(t, p, q)
  }

  /** Operations that need the bytes of a file. */
  predicate NeedsBytes(t: Tree, op: Op)
  {
    match op
    case Write(_, _, _) => true
    case Truncate(_, _) => true
    case Chmod(p, _) => FileAt(t, p)
    case Touch(p) => FileAt(t, p)
    case Rename(p, _) => FileAt(t, p)
    case _ => false
  }

  /** The plain operation on a map of paths, which knows of no snapshot. Removing a directory
      removes what it holds. */
  function Pure(t: Tree, op: Op): Tree
    requires Permitted(t, op)
  {
    match op
    case Write(p, off, data) => t[p := File(t[p].mode, Splice(t[p].data, off, data))]
    case Truncate(p, size) => t[p := File(t[p].mode, Resize(t[p].data, size))]
    case Chmod(p, mode) => t[p := t[p].(mode := mode % 512)]
    case Touch(p) => t
    case Create(p, mode) => t[p := File(mode % 512, "")]
    case Mkdir(p, mode) => t[p := Dir(mode % 512)]
    case Symlink(p, link) => t[p := Node.Symlink(link)]
    case Unlink(p) => RemoveAll(t, p)
    case Rmdir(p) => RemoveAll(t, p)
    case Rename(p, q) => RemoveAll(t[q := t[p]], p)
    case RenameDir(p, q) => PlainlyRenamed(t, p, q)
  }

  /** The map after a permitted operation. Making a directory where the snapshot had one
      brings the snapshot's content below it back. */
  function Plain(lower: Tree, t: Tree, op: Op): Tree
    requires Permitted(t, op)
  {
    if op.Mkdir? then t + Below(lower, op.path)[op.path := Dir(op.mode % 512)] else Pure(t, op)
  }

  function PlainRun(lower: Tree, t: Tree, ops: seq<Op>, done: seq<bool>): Tree
    requires |done| == |ops|
  {
    if ops == [] then t
    else
      var n := |ops| - 1;
      var before := PlainRun(lower, t, ops[..n], done[..n]);
      if done[n] && Permitted(before, ops[n]) then Plain(lower, before, ops[n]) else before
  }

  function PureRun(t: Tree, ops: seq<Op>, done: seq<bool>): Tree
    requires |done| == |ops|
  {
    if ops == [] then t
    else
      var n := |ops| - 1;
      var before := PureRun(t, ops[..n], done[..n]);
      if done[n] && Permitted(before, ops[n]) then Pure(before, ops[n]) else before
  }

  /** A directory is made where the snapshot has something below. */
  predicate Uncovers(lower: Tree, op: Op)
  {
    op.Mkdir? && exists q :: q in lower && Under(q, op.path)
  }

  lemma NothingUncovered(lower: Tree, t: Tree, op: Op)
    requires op.Mkdir? && Permitted(t, op) && !Uncovers(lower, op)
    ensures Plain(lower, t, op) == Pure(t, op)
  {
    hide Under, Permitted;
    assert Below(lower, op.path) == map[];
  }

  lemma {:induction false} RunIsPure(lower: Tree, t: Tree, ops: seq<Op>, done: seq<bool>)
    requires |done| == |ops| && forall i :: 0 <= i < |ops| ==> !Uncovers(lower, ops[i])
    ensures PlainRun(lower, t, ops, done) == PureRun(t, ops, done)
  {
    hide Under, Permitted, Pure;
    if ops != [] {
      var n := |ops| - 1;
      RunIsPure(lower, t, ops[..n], done[..n]);
      var before := PureRun(t, ops[..n], done[..n]);
      if ops[n].Mkdir? && Permitted(before, ops[n]) {
        NothingUncovered(lower, before, ops[n]);
      }
    }
  }

  // ----- the mount

  lemma FreshShows(tree: Tree)
    requires IsTree(tree)
    ensures Shown(tree, map[], {}) == tree && IsTree(map[])
  {
  }

  lemma UnderAlong(p: Path, parent: Path)
    requires Under(p, parent)
    ensures forall q :: Covers(q, parent) ==> Under(p, q)
  {
    hide Under;
    forall q | Covers(q, parent) ensures Under(p, q) {
      if q != parent {
        UnderTransitive(q, parent, p);
      }
    }
  }

  lemma LookupInLower(lower: Tree, upper: Tree, marks: set<Path>, p: Path)
    requires IsMount(lower, upper, marks) && Canonical(p) && p !in upper
    requires LookupVisible(lower, upper, marks, p).Some?
    ensures p in lower && !IsMarker(p) && p !in marks
    ensures LookupVisible(lower, upper, marks, p) == Some(lower[p])
  {
    CanonicalNonEmpty(p);
  }

  lemma SeenInLower(lower: Tree, upper: Tree, marks: set<Path>, p: Path)
    ensures p !in upper && p in Shown(lower, upper, marks) ==>
              p in lower && Shown(lower, upper, marks)[p] == lower[p]
  {
  }

  lemma TreeHasParent(t: Tree, p: Path)
    requires IsTree(t) && p in t
    ensures Canonical(p) && HasDir(t, Parent(p))
  {
  }

  /** A visible path outside the upper comes from the snapshot. */
  lemma VisibleSource(lower: Tree, upper: Tree, marks: set<Path>, p: Path)
    requires IsMount(lower, upper, marks)
    ensures var v := Shown(lower, upper, marks);
            p in v && p !in upper ==> p in lower && v[p] == lower[p] && HasDir(v, Parent(p)) && v[p := lower[p]] == v
  {
    hide IsTree, View;
    MountIsUpper(lower, upper, marks);
    SeenInLower(lower, upper, marks, p);
    var v := Shown(lower, upper, marks);
    if p in v && p !in upper {
      TreeHasParent(v, p);
    }
  }

  lemma LowerIsPlain(lower: Tree, upper: Tree, marks: set<Path>, p: Path)
    requires IsMount(lower, upper, marks) && p in lower
    ensures Canonical(p) && !IsMarker(p)
  {
  }

  lemma DropKeepsParent(lower: Tree, upper: Tree, marks: set<Path>, p: Path)
    requires IsMount(lower, upper, marks) && Canonical(p) && HasDir(Shown(lower, upper, marks), Parent(p))
    ensures HasDir(Shown(lower, RemoveAll(upper, p), MarksOutside(marks, p)), Parent(p))
  {
    hide LastSlash, Under, Shown, IsMount;
    var a := Parent(p);
    if a != "" {
      CanonicalParts(p);
      UnderParent(p, a);
      ShorterAncestor(a, p);
      DropShowsAt(lower, upper, marks, p, a);
    }
  }

  lemma FileHoldsNothing(lower: Tree, upper: Tree, marks: set<Path>, p: Path)
    requires IsMount(lower, upper, marks) && p in upper && !upper[p].Dir?
    ensures RemoveAll(upper, p) == upper - {p} && MarksOutside(marks, p) == marks
  {
    hide LastSlash, Canonical, Under, Parent, Unreserved;
    forall q | q in upper && Under(q, p) ensures false {
      AncestorIsDir(upper, q, p);
    }
    forall m | m in marks && Under(m, p) ensures false {
      UnderParent(m, p);
      CanonicalParts(m);
      if Parent(m) != p {
        AncestorIsDir(upper, Parent(m), p);
      }
    }
  }

  lemma VacantUpper(lower: Tree, upper: Tree, marks: set<Path>, p: Path)
    requires p !in Shown(lower, upper, marks)
    ensures p !in upper
  {
  }

  lemma VacantBelow(lower: Tree, v: Tree, p: Path, n: Node)
    requires IsTree(v) && p !in v
    ensures v + Below(lower, p)[p := n] == v[p := n] <==> forall q :: q in lower ==> !Under(q, p)
  {
    hide LastSlash, Canonical, Under, Parent;
    forall q | q in v && Under(q, p) ensures false {
      AncestorIsDir(v, q, p);
    }
    NotUnderItself(p);
    var w := v + Below(lower, p)[p := n];
    if q :| q in lower && Under(q, p) {
      assert q in w && q !in v[p := n];
    } else {
      assert Below(lower, p) == map[];
    }
  }

  /** Neither end of a permitted rename holds anything, and they do not nest. */
  lemma RenamePaths(v: Tree, from: Path, to: Path)
    requires IsTree(v) && Unreserved(v) && Permitted(v, Op.Rename(from, to))
    ensures Canonical(from) && HasDir(v, Parent(from))
    ensures Canonical(to) && !IsMarker(to) && HasDir(v, Parent(to))
    ensures !Covers(to, from) && !Covers(from, to)
    ensures Parent(to) == "" || !Covers(to, Parent(to))
    ensures RemoveAll(v, to)[to := v[from]] == v[to := v[from]]
  {
    hide LastSlash, Canonical, Under, Parent;
    forall q | q in v && Under(q, to) ensures false {
      AncestorIsDir(v, q, to);
    }
    forall q | q in v && Under(q, from) ensures false {
      AncestorIsDir(v, q, from);
    }
    var a := Parent(to);
    CanonicalParts(to);
    if Under(to, from) {
      UnderParent(to, from);
      if a != from {
        AncestorIsDir(v, a, from);
      }
    }
    if a != "" {
      ShorterAncestor(a, to);
    }
    assert forall q :: q in v && Covers(to, q) ==> q == to;
  }

  lemma PermittedPath(v: Tree, op: Op)
    requires IsTree(v) && Permitted(v, op)
    ensures Canonical(op.path) && HasDir(v, Parent(op.path))
  {
  }

  lemma BytesFromLower(lower: Tree, upper: Tree, marks: set<Path>, op: Op)
    requires Permitted(Shown(lower, upper, marks), op)
    ensures NeedsBytes(Shown(lower, upper, marks), op) && op.path !in upper ==> FileAt(lower, op.path)
  {
    hide Shown;
    SeenInLower(lower, upper, marks, op.path);
  }

  function RawUpper(upper: Tree, marks: set<Path>): Tree
  {
    upper + map m | m in marks :: WhiteoutName(m) := File(0x180, "")
  }

  lemma MarkerTarget(m: Path)
    requires Canonical(m) && !IsMarker(m)
    ensures WhiteoutTarget(WhiteoutName(m)) == m && OpaqueTarget(WhiteoutName(m)) == ""
    ensures IsMarker(WhiteoutName(m)) && m != ""
  {
    hide LastSlash, Parent, Base, WhiteoutName;
    WhiteoutNameParts(m);
    CanonicalParts(m);
    assert |".wh." + Base(m)| > 4;
  }

  lemma PlainName(q: Path)
    requires !IsMarker(q)
    ensures WhiteoutTarget(q) == "" && OpaqueTarget(q) == ""
  {
    hide LastSlash;
    assert ".wh." <= OPAQUE;
  }

  lemma NotReserved(t: Tree, q: Path)
    requires Unreserved(t) && q in t
    ensures !IsMarker(q)
  {
  }

  lemma RawScan(lower: Tree, upper: Tree, marks: set<Path>)
    requires IsMount(lower, upper, marks)
    ensures var raw := RawUpper(upper, marks);
            WhiteoutsIn(raw) == marks && OpaquesIn(raw) == {} && UpperIn(raw) == upper
  {
    hide LastSlash, Parent, Canonical, Base, WhiteoutName, WhiteoutTarget, OpaqueTarget, IsMarker, Hides, IsTree, Under;
    var raw := RawUpper(upper, marks);
    forall m | m in marks
      ensures WhiteoutTarget(WhiteoutName(m)) == m && OpaqueTarget(WhiteoutName(m)) == ""
      ensures IsMarker(WhiteoutName(m)) && WhiteoutName(m) in raw && m != ""
    {
      MarkerTarget(m);
    }
    forall q | q in upper
      ensures !IsMarker(q) && WhiteoutTarget(q) == "" && OpaqueTarget(q) == "" && !Hides(marks, q)
    {
      NotReserved(upper, q);
      PlainName(q);
      UpperNotHidden(lower, upper, marks, q);
    }
    forall m | m in marks ensures m in WhiteoutsIn(raw) {
      var q := WhiteoutName(m);
      assert q in raw && WhiteoutTarget(q) == m;
    }
    assert WhiteoutsIn(raw) == marks;
  }

  /** All that shows below `from` has been copied up, and the snapshot has nothing below `to`. */
  predicate CopiedUp(lower: Tree, upper: Tree, v: Tree, from: Path, to: Path)
  {
    (forall r :: r in v && Under(r, from) ==> r in upper) && forall q :: q in lower ==> !Under(q, to)
  }

  /** What `Do` needs to succeed, with what is shown and what has been copied up. */
  predicate Succeeds(lower: Tree, upper: Tree, marks: set<Path>, readable: set<Path>, readOnly: bool, op: Op)
  {
    var t := Shown(lower, upper, marks);
    && Permitted(t, op) && !readOnly
    && (NeedsBytes(t, op) && op.path !in upper ==> op.path in readable)
    && (op.RenameDir? ==> CopiedUp(lower, upper, t, op.path, op.to))
  }

  /** The upper directory, without markers, and the paths that are marked. */
  datatype State = State(upper: Tree, marks: set<Path>)

  /** A request succeeds exactly if it can, and does to the view what it should. */
  predicate Follows(lower: Tree, readable: set<Path>, readOnly: bool, before: State, op: Op, ok: bool, after: State)
  {
    var v := Shown(lower, before.upper, before.marks);
    && (ok <==> Succeeds(lower, before.upper, before.marks, readable, readOnly, op))
    && Shown(lower, after.upper, after.marks) == if ok then Plain(lower, v, op) else v
  }

  predicate Traced(lower: Tree, readable: set<Path>, readOnly: bool, ops: seq<Op>, done: seq<bool>,
                   trace: seq<State>)
  {
    && |done| == |ops| && |trace| == |ops| + 1
    && forall i :: 0 <= i < |ops| ==> Follows(lower, readable, readOnly, trace[i], ops[i], done[i], trace[i + 1])
  }

  lemma NothingTraced(lower: Tree, readable: set<Path>, readOnly: bool, trace: seq<State>)
    requires |trace| == 1
    ensures Traced(lower, readable, readOnly, [], [], trace)
  {
  }

  lemma TracedOneMore(lower: Tree, readable: set<Path>, readOnly: bool, ops: seq<Op>, done: seq<bool>,
                      trace: seq<State>, op: Op, ok: bool, now: State)
    requires Traced(lower, readable, readOnly, ops, done, trace)
    requires Follows(lower, readable, readOnly, trace[|ops|], op, ok, now)
    ensures Traced(lower, readable, readOnly, ops + [op], done + [ok], trace + [now])
  {
    hide Follows;
  }

  lemma AllSucceed(lower: Tree, readable: set<Path>, ops: seq<Op>, done: seq<bool>, trace: seq<State>)
    requires Traced(lower, readable, false, ops, done, trace) && forall p :: FileAt(lower, p) ==> p in readable
    ensures forall i :: 0 <= i < |ops| && !ops[i].RenameDir? ==>
                          (done[i] <==> Permitted(Shown(lower, trace[i].upper, trace[i].marks), ops[i]))
  {
    hide Shown, Plain, Permitted, NeedsBytes, CopiedUp;
    forall i | 0 <= i < |ops| && !ops[i].RenameDir?
      ensures done[i] <==> Permitted(Shown(lower, trace[i].upper, trace[i].marks), ops[i])
    {
      assert Follows(lower, readable, false, trace[i], ops[i], done[i], trace[i + 1]);
      if Permitted(Shown(lower, trace[i].upper, trace[i].marks), ops[i]) {
        BytesFromLower(lower, trace[i].upper, trace[i].marks, ops[i]);
      }
    }
  }

  lemma CopiedLeavesNothing(lower: Tree, upper: Tree, marks: set<Path>, from: Path, to: Path)
    requires CopiedUp(lower, upper, Shown(lower, upper, marks), from, to)
    ensures NothingLeftBehind(lower, upper, marks, from, to)
  {
    hide Under, Hides, BlockedBy;
    forall q | Under(q, to) && Silent(upper, marks, Back(q, from, to))
      ensures Look(lower, q) == Look(lower, Back(q, from, to))
    {
      BackAndForth(q, from, to);
    }
  }

  lemma DirPaths(v: Tree, from: Path, to: Path)
    requires IsTree(v) && Unreserved(v) && MayRenameDir(v, from, to)
    ensures Canonical(from) && HasDir(v, Parent(from))
    ensures Canonical(to) && !IsMarker(to) && HasDir(v, Parent(to))
  {
    hide LastSlash, Canonical, Parent, Base;
  }

  lemma RemovedTwice(v: Tree, p: Path)
    ensures RemoveAll(RemoveAll(v, p), p) == RemoveAll(v, p)
  {
    hide Under;
  }

  /** What is not shown is not in the upper, and nothing is below it. */
  lemma ClearedPlace(lower: Tree, upper: Tree, marks: set<Path>, to: Path)
    requires IsMount(lower, upper, marks) && to !in Shown(lower, upper, marks)
    ensures forall q :: q in upper ==> !Covers(to, q)
  {
    hide Under, Canonical, Parent, Base;
    UpperShows(lower, upper, marks, to);
    forall q | q in upper && Covers(to, q) ensures false {
      AncestorIsDir(upper, q, to);
    }
  }

  lemma Apart(r: Path, from: Path, to: Path)
    requires Under(r, from) && !Covers(from, to) && !Covers(to, from)
    ensures !Covers(to, r) && !Under(to, r) && !Covers(r, from)
  {
    if Covers(to, r) {
      AncestorsNest(r, from, to);
    }
    if Under(to, r) {
      UnderTransitive(from, r, to);
    }
  }

  lemma BelowStays(u0: Tree, m0: set<Path>, u1: Tree, u2: Tree, m2: set<Path>, from: Path, to: Path)
    requires !Covers(from, to) && !Covers(to, from)
    requires forall q :: q in u0 ==> q in u1 && u1[q] == u0[q]
    requires forall q :: q in u1 ==> q in u0 || Covers(q, from) || Under(to, q)
    requires forall q :: q in u1 && !Covers(to, q) ==> q in u2 && u2[q] == u1[q]
    requires forall q :: q in u2 ==> q in u1 || Under(to, q)
    requires forall m :: !Covers(to, m) ==> (m in m2 <==> m in m0)
    ensures SameBelow(u0, m0, u2, m2, from)
  {
    hide Under;
    forall r | Under(r, from) ensures !Covers(to, r) && !Under(to, r) && !Covers(r, from) {
      Apart(r, from, to);
    }
  }

  lemma MovedParent(lower: Tree, upper: Tree, marks: set<Path>, from: Path, to: Path)
    requires CanMove(lower, upper, marks, from, to)
    ensures var u := MovedUpper(upper, from, to);
            from !in u && HasDir(Shown(lower, u, MovedMarks(marks, from, to)), Parent(from))
  {
    hide LastSlash, Canonical, Under, Parent, MovedUpper, MovedMarks;
    MovedUpperAt(upper, from, to, from);
    UpperParent(lower, upper, marks, from);
    CanonicalParts(from);
    var a := Parent(from);
    if a != "" {
      UnderParent(from, a);
      MovedUpperAt(upper, from, to, a);
      ParentUp(from);
      ParentOutside(from, to);
      UpperShows(lower, MovedUpper(upper, from, to), MovedMarks(marks, from, to), a);
    }
  }

  class Mount {
    const lower: Tree
    /** Snapshot files whose content can be read (see `Reads`). */
    const readable: set<Path>
    const readOnly: bool
    var upper: Tree
    var marks: set<Path>

    ghost predicate Valid()
      reads this
    {
      IsMount(lower, upper, marks)
    }

    function Shows(): Tree
      reads this
    {
      Shown(lower, upper, marks)
    }

    /** A fresh mount shows the snapshot. */
    constructor (tree: Tree, readable: set<Path>, readOnly: bool)
      requires IsTree(tree) && Unreserved(tree)
      ensures Valid() && Shows() == tree && lower == tree && upper == map[] && marks == {}
      ensures this.readable == readable && this.readOnly == readOnly
    {
      lower := tree;
      this.readable := readable;
      this.readOnly := readOnly;
      upper := map[];
      marks := {};
      new;
      FreshShows(tree);
    }

    function Lookup(p: Path): Option<Node>
      reads this
    {
      LookupVisible(lower, upper, marks, p)
    }

    /** What walking lookups from the root see at a path. */
    function Sees(p: Path): Option<Node>
      reads this
    {
      Walk(lower, upper, marks, p)
    }

    lemma SeesWhatItShows()
      requires Valid()
      ensures forall p :: Canonical(p) ==> Sees(p) == Look(Shows(), p)
    {
      hide IsMount, Canonical, Shown, Look, Walk;
      forall p | Canonical(p) ensures Sees(p) == Look(Shows(), p) {
        WalkSeesView(lower, upper, marks, p);
      }
    }

    /** `ensureParentDir`: copies up the directories above `p`; nothing visible changes. */
    method EnsureParentDir(p: Path) returns (err: Errno)
      requires Valid() && Canonical(p)
      modifies this`upper
      ensures Valid() && Shows() == old(Shows())
      ensures err == OK <==> HasDir(Shows(), Parent(p))
      ensures err == OK ==> HasDir(upper, Parent(p))
      ensures forall q :: q in old(upper) ==> q in upper && upper[q] == old(upper[q])
      ensures forall q :: q in upper ==> q in old(upper) || Under(p, q)
      decreases |p|, 0
    {
      hide LastSlash, Canonical, Under, Shown, IsMount;
      var parent := Parent(p);
      CanonicalParts(p);
      UnderParent(p, parent);
      if parent != "" {
        LookupSeesView(lower, upper, marks, parent);
        var entry := Lookup(parent);
        if entry.None? || !entry.value.Dir? {
          return ENOTDIR;
        }
        if parent !in upper {
          err := CopyUpMetadata(parent, entry.value);
          UnderAlong(p, parent);
          return;
        }
        UpperShows(lower, upper, marks, parent);
      }
      return OK;
    }

    /** `copyUpMetadata` of a directory or a link that the lookup found in the snapshot. */
    method CopyUpMetadata(p: Path, entry: Node) returns (err: Errno)
      requires Valid() && Canonical(p) && p !in upper && !entry.File? && Lookup(p) == Some(entry)
      modifies this`upper
      ensures Valid() && Shows() == old(Shows())
      ensures err == OK <==> p in Shows()
      ensures err == OK ==> p in upper && upper[p] == entry
      ensures forall q :: q in old(upper) ==> q in upper && upper[q] == old(upper[q])
      ensures forall q :: q in upper ==> q in old(upper) || Covers(q, p)
      decreases |p|, 1
    {
      hide LastSlash, Canonical, Under, Shown, IsMount;
      LookupSeesView(lower, upper, marks, p);
      LookupInLower(lower, upper, marks, p);
      err := EnsureParentDir(p);
      if err != OK {
        return;
      }
      if p in upper {
        NotUnderItself(p);
        assert false;
      }
      PutIsMount(lower, upper, marks, p, entry);
      PutShows(lower, upper, marks, p, entry);
      assert marks - {p} == marks;
      upper := upper[p := entry];
    }

    /** `copyUpFile`. It does not look whether `p` is visible: a deleted snapshot file
        comes back, with its marker gone. */
    method CopyUpFile(p: Path) returns (err: Errno)
      requires Valid() && Canonical(p)
      modifies this`upper, this`marks
      ensures Valid()
      ensures err == OK <==> p in old(upper) ||
                             (FileAt(lower, p) && HasDir(old(Shows()), Parent(p)) && p in readable)
      ensures Shows() == if err == OK && p !in old(upper) then old(Shows())[p := lower[p]] else old(Shows())
      ensures err == OK ==> p in upper && p in Shows() && Shows()[p] == upper[p]
    {
      hide LastSlash, Canonical, Under, Shown, IsMount, Parent;
      UpperShows(lower, upper, marks, p);
      if p in upper {
        return OK;
      }
      if p !in lower {
        return ENOENT;
      }
      if !lower[p].File? {
        return EIO;
      }
      LookupSeesView(lower, upper, marks, p);
      LowerIsPlain(lower, upper, marks, p);
      err := EnsureParentDir(p);
      if err != OK {
        return;
      }
      if p !in readable {
        return EIO;
      }
      NotUnderItself(p);
      PutIsMount(lower, upper, marks, p, lower[p]);
      PutShows(lower, upper, marks, p, lower[p]);
      upper := upper[p := lower[p]];
      marks := marks - {p};
      UpperShows(lower, upper, marks, p);
    }

    /** Changing an entry that is already in the upper, keeping its type. */
    method ChangeUpper(p: Path, n: Node)
      requires Valid() && p in upper && upper[p].Dir? == n.Dir?
      modifies this`upper
      ensures Valid() && Shows() == old(Shows())[p := n] && p in upper
    {
      hide LastSlash, Canonical, Under, Shown, Parent;
      UpperShows(lower, upper, marks, p);
      PutIsMount(lower, upper, marks, p, n);
      PutShows(lower, upper, marks, p, n);
      assert marks - {p} == marks;
      upper := upper[p := n];
    }

    /** `Write`. For a visible file it is the plain write; for a deleted snapshot file in a
        visible directory it brings the file back and writes into it. */
    method Write(p: Path, offset: nat, data: Bytes) returns (err: Errno)
      requires Valid() && Canonical(p) && (p in Shows() ==> Shows()[p].File?)
      modifies this`upper, this`marks
      ensures Valid()
      ensures err == OK <==> !readOnly && (p in old(upper) ||
                             (FileAt(lower, p) && HasDir(old(Shows()), Parent(p)) && p in readable))
      ensures err != OK ==> Shows() == old(Shows())
      ensures err == OK ==>
                var before := if p in old(Shows()) then old(Shows()) else old(Shows())[p := lower[p]];
                Shows() == before[p := File(before[p].mode, Splice(before[p].data, offset, data))]
    {
      hide LastSlash, Canonical, Under, Shown, IsMount, Parent, Splice;
      if readOnly {
        return EROFS;
      }
      UpperShows(lower, upper, marks, p);
      VisibleSource(lower, upper, marks, p);
      err := CopyUpFile(p);
      if err != OK {
        return;
      }
      ChangeUpper(p, File(upper[p].mode, Splice(upper[p].data, offset, data)));
    }

    /** `Setattr`. With neither mode nor size it still copies the entry up; a mode or a size
        meant for a link is sent to what the link names. */
    method Setattr(p: Path, mode: Option<nat>, size: Option<nat>) returns (err: Errno)
      requires Valid() && Canonical(p) && p in Shows()
      requires mode.Some? ==> !Shows()[p].Symlink?
      requires size.Some? ==> Shows()[p].File?
      modifies this`upper, this`marks
      ensures Valid()
      ensures err == OK <==> !readOnly && (FileAt(old(Shows()), p) && p !in old(upper) ==> p in readable)
      ensures err != OK ==> Shows() == old(Shows())
      ensures err == OK ==>
                var n := old(Shows())[p];
                var chmodded := if mode.Some? then n.(mode := mode.value % 512) else n;
                Shows() == old(Shows())[p := if size.Some? then File(chmodded.mode, Resize(n.data, size.value))
                                        else chmodded]
    {
      hide LastSlash, Canonical, Under, Shown, IsMount, Parent, Resize;
      if readOnly {
        return EROFS;
      }
      UpperShows(lower, upper, marks, p);
      VisibleSource(lower, upper, marks, p);
      LookupSeesView(lower, upper, marks, p);
      if Shows()[p].File? {
        err := CopyUpFile(p);
        if err != OK {
          return;
        }
      } else if p !in upper {
        err := CopyUpMetadata(p, Shows()[p]);
        UpperShows(lower, upper, marks, p);
      }
      ghost var v := Shows();
      assert v == old(Shows());
      var n := upper[p];
      if mode.Some? {
        n := n.(mode := mode.value % 512);
      }
      if size.Some? {
        n := File(n.mode, Resize(n.data, size.value));
      }
      ChangeUpper(p, n);
      return OK;
    }

    /** `createWhiteout`. */
    method CreateWhiteout(p: Path) returns (err: Errno)
      requires Valid() && p in lower && p !in upper
      modifies this`upper, this`marks
      ensures Valid()
      ensures err == OK <==> HasDir(old(Shows()), Parent(p))
      ensures Shows() == if err == OK then RemoveAll(old(Shows()), p) else old(Shows())
      ensures forall q :: q in old(upper) ==> q in upper && upper[q] == old(upper[q])
      ensures forall q :: q in upper ==> q in old(upper) || Under(p, q)
      ensures old(marks) <= marks <= old(marks) + {p}
    {
      hide LastSlash, Under, Shown, Parent, Base;
      err := EnsureParentDir(p);
      NotUnderItself(p);
      if err == OK {
        MarkIsMount(lower, upper, marks, p);
        MarkShows(lower, upper, marks, p);
        marks := marks + {p};
      }
    }

    /** `unlink`, for files and links and, with everything they hold, for directories. */
    method Unlink(p: Path, dir: bool) returns (err: Errno)
      requires Valid() && Canonical(p) && HasDir(Shows(), Parent(p))
      modifies this`upper, this`marks
      ensures Valid()
      ensures err == OK <==> !readOnly && p in old(Shows()) && dir == old(Shows())[p].Dir?
      ensures Shows() == if err == OK then RemoveAll(old(Shows()), p) else old(Shows())
      ensures forall q :: q in old(upper) && !Covers(p, q) ==> q in upper && upper[q] == old(upper[q])
      ensures forall q :: q in upper ==> q in old(upper) || Under(p, q)
      ensures forall m :: !Covers(p, m) ==> (m in marks <==> m in old(marks))
    {
      hide LastSlash, Canonical, Under, Shown, IsMount, Parent;
      if readOnly {
        return EROFS;
      }
      LookupSeesView(lower, upper, marks, p);
      var entry := Lookup(p);
      if entry.None? {
        return ENOENT;
      }
      if dir && !entry.value.Dir? {
        return ENOTDIR;
      }
      if !dir && entry.value.Dir? {
        return EISDIR;
      }
      ghost var v := Shows();
      if p in upper {
        DropIsMount(lower, upper, marks, p);
        DropShows(lower, upper, marks, p);
        DropKeepsParent(lower, upper, marks, p);
        if entry.value.Dir? {
          upper := RemoveAll(upper, p);
          marks := MarksOutside(marks, p);
        } else {
          UpperShows(lower, upper, marks, p);
          FileHoldsNothing(lower, upper, marks, p);
          upper := upper - {p};
        }
      }
      assert RemoveAll(Shows(), p) == RemoveAll(v, p);
      if p in lower {
        err := CreateWhiteout(p);
      } else {
        NothingToMark(lower, upper, marks, p);
      }
      return OK;
    }

    /** Making a new entry: `lazyFuseCreate`, `lazyFuseSymlink`, `lazyFuseMkdir`. */
    method Make(p: Path, n: Node) returns (err: Errno)
      requires Valid() && Vacant(Shows(), p)
      modifies this`upper, this`marks
      ensures Valid()
      ensures err == if readOnly then EROFS else OK
      ensures Shows() == if readOnly then old(Shows())
                         else if n.Dir? then old(Shows()) + Below(lower, p)[p := n]
                         else old(Shows())[p := n]
    {
      hide LastSlash, Canonical, Under, Shown, IsMount, Parent;
      if readOnly {
        return EROFS;
      }
      err := EnsureParentDir(p);
      VacantUpper(lower, upper, marks, p);
      PutIsMount(lower, upper, marks, p, n);
      PutShows(lower, upper, marks, p, n);
      marks := marks - {p};
      upper := upper[p := n];
    }

    /** Making a directory at an unseen path is the plain `mkdir` if and only if the
        snapshot has nothing below that path. */
    method Mkdir(p: Path, mode: nat) returns (err: Errno)
      requires Valid() && Vacant(Shows(), p)
      modifies this`upper, this`marks
      ensures Valid()
      ensures err == if readOnly then EROFS else OK
      ensures !readOnly ==> Shows() == old(Shows()) + Below(lower, p)[p := Dir(mode % 512)]
      ensures !readOnly ==> (Shows() == old(Shows())[p := Dir(mode % 512)] <==>
                             forall q :: q in lower ==> !Under(q, p))
      ensures readOnly ==> Shows() == old(Shows())
    {
      hide LastSlash, Canonical, Under, Shown, IsMount, Parent, IsTree;
      MountIsUpper(lower, upper, marks);
      VacantBelow(lower, Shows(), p, Dir(mode % 512));
      err := Make(p, Dir(mode % 512));
    }

    /** `os.Rename` within the upper, after the marker of `to` is gone. */
    method MoveUpper(from: Path, to: Path)
      requires Valid() && from in upper && !upper[from].Dir? && from != to
      requires Vacant(Shows(), to) && HasDir(upper, Parent(to)) && Canonical(from)
      modifies this`upper, this`marks
      ensures Valid() && from !in upper
      ensures RemoveAll(Shows(), from) == RemoveAll(old(Shows())[to := old(upper[from])], from)
      ensures HasDir(Shows(), Parent(from))
    {
      hide LastSlash, Canonical, Under, Shown, IsMount, Parent, IsTree, IsMarker;
      ghost var v := Shows();
      var n := upper[from];
      VisibleSource(lower, upper, marks, from);
      VacantUpper(lower, upper, marks, to);
      UpperShows(lower, upper, marks, from);
      MountIsUpper(lower, upper, marks);
      TreeHasParent(v, from);
      PutIsMount(lower, upper, marks, to, n);
      PutShows(lower, upper, marks, to, n);
      marks := marks - {to};
      upper := upper[to := n];
      assert Shows() == v[to := n];
      DropIsMount(lower, upper, marks, from);
      DropShows(lower, upper, marks, from);
      DropKeepsParent(lower, upper, marks, from);
      FileHoldsNothing(lower, upper, marks, from);
      upper := upper - {from};
    }

    /** `lazyFuseRename` of a file or a link. */
    method Rename(from: Path, to: Path) returns (err: Errno)
      requires Valid() && Permitted(Shows(), Op.Rename(from, to))
      modifies this`upper, this`marks
      ensures Valid()
      ensures err == OK <==> !readOnly && (FileAt(old(Shows()), from) && from !in old(upper) ==> from in readable)
      ensures Shows() == if err == OK then Plain(lower, old(Shows()), Op.Rename(from, to)) else old(Shows())
    {
      hide LastSlash, Canonical, Under, Shown, IsMount, Parent, IsTree, IsMarker;
      if readOnly {
        return EROFS;
      }
      ghost var v := Shows();
      MountIsUpper(lower, upper, marks);
      RenamePaths(v, from, to);
      UpperShows(lower, upper, marks, from);
      VisibleSource(lower, upper, marks, from);
      LookupSeesView(lower, upper, marks, from);
      var entry := Lookup(from).value;
      if entry.File? {
        err := CopyUpFile(from);
        if err != OK {
          return;
        }
      } else if from !in upper {
        err := CopyUpMetadata(from, entry);
      }
      UpperShows(lower, upper, marks, from);
      err := EnsureParentDir(to);
      assert Shows() == v && from in upper && upper[from] == v[from];
      LookupSeesView(lower, upper, marks, to);
      if Lookup(to).Some? {
        err := Unlink(to, false);
      }
      VacantUpper(lower, upper, marks, to);
      assert Shows()[to := v[from]] == v[to := v[from]] && Vacant(Shows(), to);
      MoveUpper(from, to);
      if from in lower {
        err := CreateWhiteout(from);
      } else {
        NothingToMark(lower, upper, marks, from);
      }
      return OK;
    }

    /** Everything before `os.Rename`: both ends are copied up, and the new place is cleared. */
    method PrepareRename(from: Path, to: Path)
      requires Valid() && MayRenameDir(Shows(), from, to) && !readOnly
      modifies this`upper, this`marks
      ensures CanMove(lower, upper, marks, from, to) && upper[from] == old(Shows())[from]
      ensures SameBelow(old(upper), old(marks), upper, marks, from)
      ensures RemoveAll(Shows(), to) == RemoveAll(old(Shows()), to)
    {
      hide LastSlash, Canonical, Under, Shown, IsMount, Parent, IsTree, IsMarker;
      ghost var v := Shows();
      MountIsUpper(lower, upper, marks);
      DirPaths(v, from, to);
      VisibleSource(lower, upper, marks, from);
      UpperShows(lower, upper, marks, from);
      LookupSeesView(lower, upper, marks, from);
      var err;
      if from !in upper {
        err := CopyUpMetadata(from, Lookup(from).value);
      }
      err := EnsureParentDir(to);
      assert Shows() == v && from in upper && upper[from] == v[from];
      ghost var u1 := upper;
      LookupSeesView(lower, upper, marks, to);
      CanonicalNonEmpty(to);
      ParentUp(to);
      if Lookup(to).Some? {
        err := Unlink(to, true);
      }
      RemovedTwice(v, to);
      ClearedPlace(lower, upper, marks, to);
      BelowStays(old(upper), old(marks), u1, upper, marks, from, to);
    }

    /** `lazyFuseRename` of a directory. It moves what the upper has of it; it is the plain
        rename if and only if that leaves nothing behind. */
    method RenameDir(from: Path, to: Path) returns (err: Errno)
      requires Valid() && MayRenameDir(Shows(), from, to)
      modifies this`upper, this`marks
      ensures Valid()
      ensures err == if readOnly then EROFS else OK
      ensures readOnly ==> Shows() == old(Shows())
      ensures !readOnly ==> Shows() == Renamed(lower, old(upper), old(marks), old(Shows()), from, to)
      ensures !readOnly ==> (Shows() == PlainlyRenamed(old(Shows()), from, to) <==>
                             NothingLeftBehind(lower, old(upper), old(marks), from, to))
    {
      hide LastSlash, Canonical, Under, Shown, IsMount, Parent, IsTree, IsMarker, Renamed, PlainlyRenamed, DirMoved,
           NothingLeftBehind, MovedUpper, MovedMarks, SameBelow, RemoveAll, CanMove;
      if readOnly {
        return EROFS;
      }
      ghost var v := Shows();
      MountIsUpper(lower, upper, marks);
      DirPaths(v, from, to);
      RenamedPlainlyIff(lower, upper, marks, from, to);
      PrepareRename(from, to);
      MovedIsMount(lower, upper, marks, from, to);
      MovedShows(lower, upper, marks, from, to);
      RenamedInSteps(lower, old(upper), old(marks), upper, marks, from, to);
      MovedParent(lower, upper, marks, from, to);
      upper, marks := MovedUpper(upper, from, to), MovedMarks(marks, from, to);
      if from in lower {
        err := CreateWhiteout(from);
      } else {
        NothingToMark(lower, upper, marks, from);
      }
      return OK;
    }

    /** One request the kernel has let through. It fails only where the bytes of a
        snapshot file are needed and cannot be read; then nothing visible changes. */
    method Do(op: Op) returns (done: bool)
      requires Valid() && Permitted(Shows(), op)
      requires op.RenameDir? ==> CopiedUp(lower, upper, Shows(), op.path, op.to)
      modifies this`upper, this`marks
      ensures Valid()
      ensures done <==> !readOnly &&
                        (NeedsBytes(old(Shows()), op) && op.path !in old(upper) ==> op.path in readable)
      ensures Shows() == if done then Plain(lower, old(Shows()), op) else old(Shows())
    {
      hide LastSlash, Canonical, Under, Shown, IsMount, Parent, IsTree, IsMarker, Splice, Resize, RemoveAll, CopiedUp,
           Renamed, PlainlyRenamed, NothingLeftBehind;
      MountIsUpper(lower, upper, marks);
      PermittedPath(Shows(), op);
      VisibleSource(lower, upper, marks, op.path);
      var err;
      match op {
      case Write(p, offset, data) => err := Write(p, offset, data);
      case Truncate(p, size) => err := Setattr(p, None, Some(size));
      case Chmod(p, mode) => err := Setattr(p, Some(mode), None);
      case Touch(p) => err := Setattr(p, None, None);
      case Create(p, mode) => err := Make(p, File(mode % 512, ""));
      case Mkdir(p, mode) => err := Mkdir(p, mode);
      case Symlink(p, link) => err := Make(p, Node.Symlink(link));
      case Unlink(p) => err := Unlink(p, false);
      case Rmdir(p) => err := Unlink(p, true);
      case Rename(p, q) => err := Rename(p, q);
      case RenameDir(p, q) =>
        CopiedLeavesNothing(lower, upper, marks, p, q);
        err := RenameDir(p, q);
      }
      done := err == OK;
    }

    /** Any run of requests: what walking lookups see is what the same run does to a map that
        a new directory may uncover snapshot entries in, and to a plain map if none does. A
        request the kernel refuses reaches neither, and neither does a directory rename that
        would leave something behind. `trace` is the upper and the markers along the way: every
        request succeeds exactly if they let it. */
    method Run(ops: seq<Op>) returns (done: seq<bool>, ghost trace: seq<State>)
      requires Valid()
      modifies this`upper, this`marks
      ensures Valid() && |done| == |ops|
      ensures Traced(lower, readable, readOnly, ops, done, trace)
      ensures trace[0] == State(old(upper), old(marks)) && trace[|ops|] == State(upper, marks)
      ensures Shows() == PlainRun(lower, old(Shows()), ops, done)
      ensures forall p :: Canonical(p) ==> Sees(p) == Look(PlainRun(lower, old(Shows()), ops, done), p)
      ensures (forall i :: 0 <= i < |ops| ==> !Uncovers(lower, ops[i])) ==>
                forall p :: Canonical(p) ==> Sees(p) == Look(PureRun(old(Shows()), ops, done), p)
      ensures !readOnly && (forall p :: FileAt(lower, p) ==> p in readable) ==>
                forall i :: 0 <= i < |ops| && !ops[i].RenameDir? ==>
                  (done[i] <==> Permitted(Shown(lower, trace[i].upper, trace[i].marks), ops[i]))
    {
      hide Shown, IsMount, Permitted, Plain, Uncovers, Canonical, Look, PureRun, Walk, CopiedUp, NeedsBytes, Traced;
      done := [];
      trace := [State(upper, marks)];
      NothingTraced(lower, readable, readOnly, trace);
      for i := 0 to |ops|
        invariant Valid() && |done| == i
        invariant Shows() == PlainRun(lower, old(Shows()), ops[..i], done)
        invariant |trace| == i + 1 && trace[0] == State(old(upper), old(marks)) && trace[i] == State(upper, marks)
        invariant Traced(lower, readable, readOnly, ops[..i], done, trace)
      {
        var ok := false;
        if Permitted(Shows(), ops[i]) &&
           (ops[i].RenameDir? ==> CopiedUp(lower, upper, Shows(), ops[i].path, ops[i].to)) {
          BytesFromLower(lower, upper, marks, ops[i]);
          ok := Do(ops[i]);
        }
        assert ops[..i + 1] == ops[..i] + [ops[i]];
        assert ops[..i + 1][..i] == ops[..i] && (done + [ok])[..i] == done;
        TracedOneMore(lower, readable, readOnly, ops[..i], done, trace, ops[i], ok, State(upper, marks));
        done := done + [ok];
        trace := trace + [State(upper, marks)];
      }
      assert ops[..|ops|] == ops;
      if !readOnly && forall p :: FileAt(lower, p) ==> p in readable {
        AllSucceed(lower, readable, ops, done, trace);
      }
      SeesWhatItShows();
      if forall i :: 0 <= i < |ops| ==> !Uncovers(lower, ops[i]) {
        RunIsPure(lower, old(Shows()), ops, done);
      }
    }

    /** The overlay branch of `Snapshot` on this mount: the recorded tree is what the mount
        shows, and the layer takes the snapshot tree to it. */
    method Snapshot() returns (l: Layer, tree: seq<TreeEntry>)
      requires Valid()
      ensures IsListing(tree) && TreeMap(tree) == Shows()
      ensures IsDelta(lower, Shows(), l)
    {
      hide IsListing, TreeMap, IsTree, Unreserved, View, IsDelta, UpperIn, WhiteoutsIn, OpaquesIn;
      var parent := ListTree(lower);
      var raw := ListTree(RawUpper(upper, marks));
      var entries, whiteouts := ScanOverlayUpper(raw);
      RawScan(lower, upper, marks);
      MountIsUpper(lower, upper, marks);
      assert marks + {} == marks;
      l, tree := SnapshotUpper(parent, entries, whiteouts, {}, marks);
      NothingLost(lower, upper);
    }

    /** A run, then a snapshot: the recorded tree is the plain run's tree, and its layer is
        the delta a full scan would have recorded. */
    method RunAndSnapshot(ops: seq<Op>) returns (l: Layer, tree: seq<TreeEntry>, done: seq<bool>)
      requires Valid()
      modifies this`upper, this`marks
      ensures Valid() && |done| == |ops|
      ensures TreeMap(tree) == PlainRun(lower, old(Shows()), ops, done)
      ensures (forall i :: 0 <= i < |ops| ==> !Uncovers(lower, ops[i])) ==>
                TreeMap(tree) == PureRun(old(Shows()), ops, done)
      ensures IsDelta(lower, TreeMap(tree), l)
    {
      hide Shown, IsMount, PlainRun, PureRun, Uncovers, TreeMap, IsDelta;
      ghost var v := Shows();
      ghost var trace;
      done, trace := Run(ops);
      l, tree := Snapshot();
      if forall i :: 0 <= i < |ops| ==> !Uncovers(lower, ops[i]) {
        RunIsPure(lower, v, ops, done);
      }
    }
  }
}
