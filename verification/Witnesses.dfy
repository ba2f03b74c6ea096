/** Inputs on which the fast paths do not keep the simple meaning. Each of the exact
    conditions in the other files is met by one of these. */
module Witnesses {
  import opened Paths
  import opened Trees
  import opened Layers
  import opened RestoreProofs
  import opened Reads
  import opened OverlaySnapshot
  import opened Chunks
  import opened Overlay
  import opened OpaqueRestores
  import opened MountViews
  import opened MovedViews
  import opened LazyMount
  import opened Store
  import opened Prune
  import opened RefUpdates
  import opened LocalStores
  import opened Histories
  import opened Workspaces
  import opened Compaction
  import opened RangeReads
  import opened Registry
  import opened RegistryTransfers

  // ----- layers

  lemma OneEntry(p: Path, n: Node)
    ensures IsListing([TreeEntry(p, n)]) && TreeMap([TreeEntry(p, n)]) == map[p := n]
    ensures IsListing([]) && TreeMap([]) == map[]
  {
    assert [TreeEntry(p, n)][..0] == [];
  }

  lemma OneName(p: Path)
    ensures Elems([p]) == {p} && Elems<Path>([]) == {} && StrictlySorted([p]) && StrictlySorted([])
  {
    assert [p][..0] == [];
  }

  lemma RetypedReads(layers: seq<Layer>, trees: seq<Tree>, first: Tree, second: Tree, q: Path)
    requires IsHistory(layers, trees) && trees == [first, second] && q in first && q in second
    requires !SameType(first[q], second[q]) && Canonical(q) && NoBackslash(Base(q))
    ensures NewestSays(layers, q) == Deleted
  {
    hide IsHistory, NewestSays, Canonical, Base, NoBackslash;
    assert trees[..1] == [first];
    ReadHead(layers, trees, q);
  }

  lemma PlainPath(p: Path)
    requires p != "" && p != "." && p != ".." && NoSlash(p)
    ensures Canonical(p) && Parent(p) == "" && Base(p) == p
  {
  }

  lemma OneTop(p: Path)
    ensures Tops({p}) == {p} && Tops({}) == {}
  {
  }

  /** Deleting a name with a backslash. */
  lemma BackslashStopsRestore()
    ensures var before: Tree, after: Tree, l := map["a\\b" := File(0, "")], map[], Layer(["a\\b"], []);
            && IsTree(before) && Unreserved(before) && IsDelta(before, after, l)
            && ApplyAll(before, MakeLayer(l)) == Fail
  {
    hide LastSlash, Canonical, Parent, Base, ApplyAll, MakeLayer, IsListing, TreeMap, Tops, StrictlySorted, Elems;
    var before: Tree, after: Tree, l := map["a\\b" := File(0, "")], map[], Layer(["a\\b"], []);
    OneName("a\\b");
    OneEntry("a\\b", File(0, ""));
    PlainPath("a\\b");
    OneTop("a\\b");
    assert Dropped(before, after) == {"a\\b"};
    assert "a\\b"[1] == '\\';
    assert !Restorable(before, after);
    RestoreDelta(before, after, l);
  }

  lemma TwoStepHistory(trees: seq<Tree>, layers: seq<Layer>, first: Tree, second: Tree)
    requires trees == [first, second] && |layers| == 2 && IsTree(first) && Unreserved(first) && IsTree(second) &&
             Unreserved(second)
    requires IsDelta(map[], first, layers[0]) && IsDelta(first, second, layers[1])
    ensures IsHistory(layers, trees) && HeadTree(trees) == second
    ensures IsHistory(layers[..1], trees[..1]) && trees[..1] == [first] && HeadTree([first]) == first
    ensures AllRestorable(trees) <==> Restorable(map[], first) && Restorable(first, second)
  {
    hide IsTree, Unreserved, IsDelta, Restorable;
    assert trees[..1] == [first] && [first][..0] == [] && layers[..1] == [layers[0]] && [layers[0]][..0] == [];
    assert HeadTree([]) == map[];
    assert IsHistory([layers[0]], [first]);
    assert AllRestorable([first]) <==> Restorable(map[], first);
  }

  /** A directory that becomes a file: a restore writes the file, a read reports it deleted. */
  lemma TypeChangeReadsAsDeleted()
    ensures var trees: seq<Tree> := [map["a" := Dir(0)], map["a" := File(0, "x")]];
            var layers := [Layer([], [TreeEntry("a", Dir(0))]), Layer(["a"], [TreeEntry("a", File(0, "x"))])];
            && IsHistory(layers, trees) && HeadTree(trees) == map["a" := File(0, "x")]
            && Fold(map[], layers) == Ok(HeadTree(trees)) && NewestSays(layers, "a") == Deleted
  {
    hide NewestSays, Fold, ApplyAll, MakeLayer, LastSlash, IsListing, TreeMap, Tops;
    var first: Tree, second: Tree := map["a" := Dir(0)], map["a" := File(0, "x")];
    var trees, layers :=
        [first, second], [Layer([], [TreeEntry("a", Dir(0))]), Layer(["a"], [TreeEntry("a", File(0, "x"))])];
    OneName("a");
    OneEntry("a", Dir(0));
    OneEntry("a", File(0, "x"));
    PlainPath("a");
    OneTop("a");
    assert Changed(map[], first) == first && Dropped(map[], first) == {};
    assert Changed(first, second) == second && Dropped(first, second) == {"a"};
    assert Restorable(map[], first) && Restorable(first, second);
    TwoStepHistory(trees, layers, first, second);
    RestoreChain(layers, trees);
    RetypedReads(layers, trees, first, second, "a");
  }

  lemma DeletedByName(layers: seq<Layer>, trees: seq<Tree>, first: Tree, q: Path)
    requires IsHistory(layers, trees) && trees == [first, map[]] && q in first && q in Tops(Dropped(first, map[]))
    requires NoBackslash(Base(q)) && Canonical(q)
    ensures NewestSays(layers, q) == Deleted && LastWith(trees, q) == 1 && !NewestRetypes(trees[..1], q)
  {
    hide IsHistory, NewestSays, Canonical, Base, NoBackslash, Tops;
    assert trees[..1] == [first] && [first][..0] == [];
    assert HeadTree([first]) == first && HeadTree([]) == map[];
    assert LastWith([first], q) == 1;
    ReadAbsent(layers, trees, q);
  }

  lemma NamedNotFound()
    ensures HasNotFound("not found")
  {
  }

  const WITH_FILE: Tree := map["d" := Dir(0), "d/f" := File(0, "x")]

  lemma WithFilePaths()
    ensures Canonical("d") && Parent("d") == "" && Base("d") == "d"
    ensures Canonical("d/f") && Parent("d/f") == "d" && Base("d/f") == "f"
  {
    PlainPath("d");
    assert Join("d", "f") == "d/f";
    JoinParts("d", "f");
  }

  lemma WithFileIsTree()
    ensures IsTree(WITH_FILE) && Unreserved(WITH_FILE)
  {
    hide LastSlash, Canonical, Parent, Base;
    WithFilePaths();
  }

  lemma OneDirIsTree()
    ensures IsTree(map["d" := Dir(0)]) && Unreserved(map["d" := Dir(0)])
  {
    hide LastSlash, Canonical, Parent, Base;
    WithFilePaths();
  }

  const WITH_FILE_ENTRIES := [TreeEntry("d", Dir(0)), TreeEntry("d/f", File(0, "x"))]

  lemma WithFileListing()
    ensures IsListing(WITH_FILE_ENTRIES) && TreeMap(WITH_FILE_ENTRIES) == WITH_FILE
  {
    assert WITH_FILE_ENTRIES[..1] == [TreeEntry("d", Dir(0))];
    OneEntry("d", Dir(0));
  }

  lemma TopsOfBoth()
    ensures Tops({"d", "d/f"}) == {"d"}
  {
    assert Under("d/f", "d") && !Under("d", "d/f") && !Under("d", "d");
  }

  lemma FirstReads(layers: seq<Layer>, trees: seq<Tree>, q: Path)
    requires |layers| == |trees| == 2 && IsHistory(layers, trees) && IsHistory(layers[..1], trees[..1])
    requires trees[..1] == [trees[0]] && q in trees[0] && Canonical(q)
    ensures NewestSays(layers[..1], q) == BodySays(trees[0][q])
  {
    hide IsHistory, NewestSays, Canonical, NoBackslash;
    assert trees[..1][..0] == [];
    assert HeadTree(trees[..1]) == trees[0];
    assert !NewestRetypes(trees[..1], q);
    ReadHead(layers[..1], trees[..1], q);
  }

  /** The directory is deleted as a whole, and the read of a file in it goes on to the older
      layer. */
  lemma DeletedDirectoryStillReads()
    ensures var trees: seq<Tree> := [WITH_FILE, map[]];
            var layers := [Layer([], WITH_FILE_ENTRIES), Layer(["d"], [])];
            && IsHistory(layers, trees) && "d/f" !in HeadTree(trees) && NewestSays(layers, "d/f") == Found("x")
  {
    hide LastSlash, Canonical, Parent, Base, TreeMap, IsListing, IsTree, Unreserved, NewestSays, Tops;
    var trees: seq<Tree>, layers := [WITH_FILE, map[]], [Layer([], WITH_FILE_ENTRIES), Layer(["d"], [])];
    WithFileIsTree();
    WithFileListing();
    WithFilePaths();
    OneName("d");
    OneEntry("d", Dir(0));
    EmptyHead();
    NoMarkers(map[]);
    OneTop("d");
    TopsOfBoth();
    assert Changed(map[], WITH_FILE) == WITH_FILE && Dropped(map[], WITH_FILE) == {};
    assert Changed(WITH_FILE, map[]) == map[] && Dropped(WITH_FILE, map[]) == {"d", "d/f"};
    TwoStepHistory(trees, layers, WITH_FILE, map[]);
    FirstReads(layers, trees, "d/f");
    ReadAfterDelete(layers, trees, "d/f");
  }

  // ----- mounts

  /** An unchanged file in an opaque directory is shown and not recorded. */
  lemma OpaqueLosesFile()
    ensures IsUpper(WITH_FILE, {}, {"d"}) && Lost(WITH_FILE, WITH_FILE, {"d"}, "d/f")
    ensures "d/f" in View(WITH_FILE, WITH_FILE, {}, {"d"})
    ensures "d/f" !in Merged(WITH_FILE, Tops(Removed(WITH_FILE, WITH_FILE, {"d"})), Changed(WITH_FILE, WITH_FILE))
  {
    hide LastSlash, Canonical, Parent, Base, IsTree, Unreserved, Merged, Removed, Tops;
    WithFileIsTree();
    assert Changed(WITH_FILE, WITH_FILE) == map[];
    assert Covers("d", "d/f");
    MergedAt(WITH_FILE, WITH_FILE, {}, {"d"}, "d/f");
    assert {} + {"d"} == {"d"};
  }

  lemma OpaqueParts(parent: Tree)
    requires parent == map["d" := Dir(0)]
    ensures Changed(parent, WITH_FILE) == map["d/f" := File(0, "x")] && Removed(parent, WITH_FILE, {"d"}) == {"d"}
    ensures Merged(parent, {"d"}, Changed(parent, WITH_FILE)) == WITH_FILE
    ensures Remade(parent, WITH_FILE, {"d"}) == {"d"}
  {
    var changed := Changed(parent, WITH_FILE);
    assert changed == map["d/f" := File(0, "x")];
    assert Retyped(parent, WITH_FILE) == {};
    assert Removed(parent, WITH_FILE, {"d"}) == {"d"};
    assert Under("d/f", "d") && Covers("d", "d");
    assert AboveChange(changed, "d") && Hides({"d"}, "d");
  }

  /** A new file in an opaque directory that is itself unchanged: the layer whites the
      directory out and names only the file, so unpacking makes it with another mode. */
  lemma OpaqueLosesMode()
    ensures var parent: Tree, l := map["d" := Dir(0)], Layer(["d"], [TreeEntry("d/f", File(0, "x"))]);
            && IsUpper(WITH_FILE, {}, {"d"}) && IsUpperLayer(parent, WITH_FILE, {"d"}, l)
            && Merged(parent, {"d"}, Changed(parent, WITH_FILE)) == WITH_FILE
            && ApplyAll(parent, MakeLayer(l)) == Ok(WITH_FILE["d" := Dir(0x1ED)])
  {
    hide LastSlash, Canonical, Parent, Base, IsTree, Unreserved, IsListing, TreeMap, Tops, ApplyAll, MakeLayer,
         StrictlySorted, Elems;
    var parent: Tree, l := map["d" := Dir(0)], Layer(["d"], [TreeEntry("d/f", File(0, "x"))]);
    WithFileIsTree();
    WithFilePaths();
    OneDirIsTree();
    OneEntry("d/f", File(0, "x"));
    OneName("d");
    OneTop("d");
    OpaqueParts(parent);
    assert {} + {"d"} == {"d"};
    RestoreUpper(parent, WITH_FILE, {}, {"d"}, l);
    assert FirstMode(l.entries, "d") == 0x1ED by { assert Under("d/f", "d"); }
    assert WithModes(WITH_FILE, {"d"}, l.entries) == WITH_FILE["d" := Dir(0x1ED)];
    assert NoBackslash("d");
  }

  /** Deleting a snapshot directory and making it again brings its file back. */
  method MkdirBringsBack() returns (between: Option<Node>, after: Option<Node>)
    ensures between == None && after == Some(File(0, "x"))
  {
    hide LastSlash, Canonical, Parent, Base, IsTree, Unreserved, IsMount, Shown;
    WithFileIsTree();
    WithFilePaths();
    var m := new Mount(WITH_FILE, {}, false);
    var err := m.Unlink("d", true);
    assert Covers("d", "d/f") && !IsMarker("d");
    between := Look(m.Shows(), "d/f");
    err := m.Mkdir("d", 0);
    assert Under("d/f", "d");
    after := Look(m.Shows(), "d/f");
  }

  /** Writing through a handle opened before the file was deleted. */
  method WriteBringsBack() returns (between: Option<Node>, after: Option<Node>)
    ensures between == None && after == Some(File(0, "y"))
  {
    hide LastSlash, Canonical, Parent, Base, IsTree, Unreserved, IsMount, Shown;
    WithFileIsTree();
    WithFilePaths();
    var m := new Mount(WITH_FILE, {"d/f"}, false);
    var err := m.Unlink("d/f", false);
    assert !Covers("d/f", "d");
    between := Look(m.Shows(), "d/f");
    err := m.Write("d/f", 0, "y");
    assert Splice("x", 0, "y") == "y";
    after := Look(m.Shows(), "d/f");
  }

  /** Renaming a snapshot directory that nobody has written to loses the file in it. */
  method RenameLosesFile() returns (atOld: Option<Node>, atNew: Option<Node>, directory: Option<Node>)
    ensures atOld == atNew == None && directory == Some(Dir(0))
  {
    hide LastSlash, Canonical, Parent, Base, IsTree, Unreserved, IsMount, Shown, Renamed;
    WithFileIsTree();
    WithFilePaths();
    PlainPath("e");
    var m := new Mount(WITH_FILE, {"d/f"}, false);
    assert !Covers("d", "e") && !Covers("e", "d");
    ghost var upper, marks := m.upper, m.marks;
    ghost var v := m.Shows();
    var err := m.RenameDir("d", "e");
    RenamedLook(WITH_FILE, upper, marks, v, "d", "e", "d/f");
    RenamedLook(WITH_FILE, upper, marks, v, "d", "e", "e/f");
    RenamedLook(WITH_FILE, upper, marks, v, "d", "e", "e");
    assert Back("e/f", "d", "e") == "d/f";
    atOld, atNew, directory := Look(m.Shows(), "d/f"), Look(m.Shows(), "e/f"), Look(m.Shows(), "e");
  }

  // ----- ranges

  method LargestLengthPanics() returns (r: Outcome<Bytes>)
    ensures r == Fail
  {
    r := SliceRange("xy", 1, MAX_INT64);
  }

  /** A deleted file whose name contains "not found": a read says deleted, and a range of it
      is its old bytes. */
  lemma NotFoundStillReads()
    ensures var trees: seq<Tree> := [map["not found" := File(0, "x")], map[]];
            var layers := [Layer([], [TreeEntry("not found", File(0, "x"))]), Layer(["not found"], [])];
            && IsHistory(layers, trees) && NewestSays(layers, "not found") == Deleted
            && PlainRange(layers, "not found", 0, 1) == Content("x")
  {
    hide LastSlash, Canonical, Parent, Base, TreeMap, IsListing, NewestSays, Tops, PlainRange, HasNotFound, LayerSays,
         MakeLayer;
    var q, first: Tree := "not found", map["not found" := File(0, "x")];
    var trees: seq<Tree>, layers := [first, map[]], [Layer([], [TreeEntry(q, File(0, "x"))]), Layer([q], [])];
    OneName(q);
    OneEntry(q, File(0, "x"));
    PlainPath(q);
    OneTop(q);
    EmptyHead();
    NoMarkers(map[]);
    assert Changed(map[], first) == first && Dropped(map[], first) == {};
    assert Changed(first, map[]) == map[] && Dropped(first, map[]) == {q};
    assert Unreserved(first) by { assert q[0] == 'n'; }
    TwoStepHistory(trees, layers, first, map[]);
    DeletedByName(layers, trees, first, q);
    DeletedRange(layers, trees, q, 0, 1);
    assert HasNotFound(q) by { NamedNotFound(); }
  }

  // ----- refs, chains and pushes

  /** A config, its manifest, and the manifest's digest. */
  function SnapshotBlobs(h: Blob -> Digest, cfg: Config): map<Digest, Blob>
  {
    var m := ManifestBlob(Manifest(h(ConfigBlob(cfg)), []));
    map[h(ConfigBlob(cfg)) := ConfigBlob(cfg), h(m) := m]
  }

  function ItemOf(h: Blob -> Digest, cfg: Config): Item
  {
    var m := Manifest(h(ConfigBlob(cfg)), []);
    Item(h(ManifestBlob(m)), m, cfg)
  }

  lemma BlobsLoad(h: Blob -> Digest, disk: Disk, cfg: Config)
    requires Ideal(h)
    requires forall d :: d in SnapshotBlobs(h, cfg) ==> d in disk.blobs && disk.blobs[d] == SnapshotBlobs(h, cfg)[d]
    ensures LoadDigest(h, disk, ItemOf(h, cfg).digest) == Ok(ItemOf(h, cfg)) && IsDigest(ItemOf(h, cfg).digest)
    ensures ItemOf(h, cfg).digest != ""
  {
    hide TrimSpace;
    var m := ManifestBlob(ItemOf(h, cfg).manifest);
    assert h(m) in SnapshotBlobs(h, cfg) && h(ConfigBlob(cfg)) in SnapshotBlobs(h, cfg);
  }

  const ROOT := Config("one", "", 1, None, [], "")
  const NAMELESS := Config("", "", 1, None, [], "")

  lemma MainIsPlain()
    ensures SafeRefName("main") == "main" && !IsDigest("main")
  {
    assert TrimLeft("main") == "main" && TrimRight("main") == "main";
    assert !(":" <= "main");
    PlainEscape("main");
  }

  lemma MainIsNotBlank()
    ensures TrimSpace("main") == "main"
  {
    assert TrimLeft("main") == "main" && TrimRight("main") == "main";
  }

  /** The blobs of two different snapshots do not get into each other's way. */
  lemma TwoSnapshots(h: Blob -> Digest, a: Config, b: Config)
    requires Ideal(h)
    ensures var blobs := SnapshotBlobs(h, a) + SnapshotBlobs(h, b);
            && (forall d :: d in SnapshotBlobs(h, a) ==> d in blobs && blobs[d] == SnapshotBlobs(h, a)[d])
            && (forall d :: d in SnapshotBlobs(h, b) ==> d in blobs && blobs[d] == SnapshotBlobs(h, b)[d])
            && Intact(h, blobs)
  {
    hide IsDigest, TrimSpace;
  }

  /** A chain whose link is the name of a ref, and that ref is deleted. */
  lemma RefNameLinkBreaks(h: Blob -> Digest)
    requires Ideal(h)
    ensures var child := Config("two", "", 2, Some("main"), [], "");
            var c := [ItemOf(h, ROOT), ItemOf(h, child)];
            var blobs := SnapshotBlobs(h, ROOT) + SnapshotBlobs(h, child);
            var before := Disk(blobs, map["main" := c[0].digest, "other" := c[1].digest]);
            var after := Disk(blobs, map["other" := c[1].digest]);
            && IsChain(h, before, c[1].digest, c) && !IsChain(h, after, c[1].digest, c) && Shrinks(before, after, {})
  {
    hide IsDigest, TrimSpace, LoadDigest;
    var child := Config("two", "", 2, Some("main"), [], "");
    var c := [ItemOf(h, ROOT), ItemOf(h, child)];
    var blobs := SnapshotBlobs(h, ROOT) + SnapshotBlobs(h, child);
    var before := Disk(blobs, map["main" := c[0].digest, "other" := c[1].digest]);
    var after := Disk(blobs, map["other" := c[1].digest]);
    TwoSnapshots(h, ROOT, child);
    BlobsLoad(h, before, ROOT);
    BlobsLoad(h, before, child);
    MainIsPlain();
    assert c[..1] == [c[0]] && c[..1][..0] == [];
    assert Load(h, before, "main") == Ok(c[0]);
    assert IsChain(h, before, "main", [c[0]]);
    assert !("main" in after.refs);
    assert Load(h, after, "main").Fail?;
    assert !IsChain(h, after, "main", c[..1]);
  }

  lemma DifferentDigests(h: Blob -> Digest, a: Config, b: Config)
    requires Ideal(h) && a != b
    ensures ItemOf(h, a).digest != ItemOf(h, b).digest
  {
    hide IsDigest, TrimSpace;
    assert ItemOf(h, a).manifest != ItemOf(h, b).manifest;
  }

  /** The root has no id, so the push writes no manifest for it, and the head's manifest has
      no parent in the repository. */
  lemma NamelessParentIsMissing(h: Blob -> Digest)
    requires Ideal(h)
    ensures var child := Config("two", "", 2, Some(ItemOf(h, NAMELESS).digest), [], "");
            var c := [ItemOf(h, NAMELESS), ItemOf(h, child)];
            var disk := Disk(SnapshotBlobs(h, NAMELESS) + SnapshotBlobs(h, child), map[]);
            var empty := Remote(map[], map[], map[]);
            && Linked(h, disk, c) && Closed(h, empty) && AllIntact(h, disk, PushPuts(c, 2, ["two"]))
            && !AlwaysClosed(h, disk, empty, PushPuts(c, 2, ["two"]))
  {
    hide IsDigest, TrimSpace, LoadDigest, AlwaysClosed;
    var child := Config("two", "", 2, Some(ItemOf(h, NAMELESS).digest), [], "");
    var c := [ItemOf(h, NAMELESS), ItemOf(h, child)];
    var disk := Disk(SnapshotBlobs(h, NAMELESS) + SnapshotBlobs(h, child), map[]);
    var empty := Remote(map[], map[], map[]);
    TwoSnapshots(h, NAMELESS, child);
    BlobsLoad(h, disk, NAMELESS);
    BlobsLoad(h, disk, child);
    DifferentDigests(h, NAMELESS, child);
    assert Linked(h, disk, c);
    assert Written(c, 2, ["two"], 1) && !Written(c, 2, ["two"], 0);
    PushClosedIff(h, disk, empty, c, 2, ["two"]);
  }

  /** The tag ": x" is kept in a file with a space in front, and pruning what it names takes
      away the ref "x" instead. */
  lemma SpaceDeletesAnother(d: Digest, e: Digest)
    requires d != e
    ensures SafeRefName(": x") == " x"
    ensures var refs := map[" x" := d, "x" := e]; refs - DeletedFiles(refs, {d}) == map[" x" := d]
  {
    assert TrimLeft(": x") == ": x" && TrimRight(": x") == ": x";
    assert ":" <= ": x" && ": x"[1..] == " x";
    PlainEscape(" x");
    ListedIsTrimmed(" x");
    assert TrimLeft(" x") == TrimLeft("x") == "x";
    var refs := map[" x" := d, "x" := e];
    assert DeletedFiles(refs, {d}) == {"x"};
  }

  /** The tag ": .." is kept in a file with a space in front, which is listed as the directory
      above the refs. */
  lemma DirectoryStopsPruning(d: Digest)
    ensures SafeRefName(": ..") == " .." && IsRefFile(" ..") && !NamesFit(map[" .." := d], {d})
  {
    assert TrimLeft(": ..") == ": .." && TrimRight(": ..") == ": ..";
    assert ":" <= ": .." && ": .."[1..] == " ..";
    PlainEscape(" ..");
    ListedIsTrimmed(" ..");
    assert TrimLeft(" ..") == TrimLeft("..") == "..";
  }

  // ----- snapshots without a layer, and ids that occur twice

  lemma NoLayerNotWhole(h: Blob -> Digest, disk: Disk, base: Digest, cfg: Config)
    requires LoadDigest(h, disk, ItemOf(h, cfg).digest) == Ok(ItemOf(h, cfg))
    ensures !Whole(h, disk, base, ItemOf(h, cfg).digest)
  {
    hide LoadDigest, IsChain;
    var d := ItemOf(h, cfg).digest;
    forall c | WholeBy(h, disk, base, d, c) ensures false {
      LoadsTop(h, disk, base, d, c);
      GoodPrefix(h, disk, base, c, |c|);
    }
  }

  /** A store that holds a manifest and a config, and no layer. */
  method StoreWithoutLayers(h: Blob -> Digest, base: Digest) returns (ws: Workspace, d: Digest)
    requires Ideal(h)
    ensures fresh(ws) && fresh(ws.store) && ws.store.h == h && ws.base == base && ws.Valid()
    ensures ws.store.blobs == SnapshotBlobs(h, ROOT) && ws.store.refs == map[]
    ensures d == ItemOf(h, ROOT).digest && LoadDigest(h, ws.store.Contents(), d) == Ok(ItemOf(h, ROOT))
    ensures IsDigest(d) && d != ""
  {
    hide IsDigest, TrimSpace;
    var store := new LocalStore(h);
    ws := new Workspace(store, base, n => "");
    var configDigest := store.WriteBlob(ConfigBlob(ROOT));
    d := store.WriteBlob(ManifestBlob(Manifest(configDigest, [])));
    assert store.blobs == SnapshotBlobs(h, ROOT);
    BlobsLoad(h, store.Contents(), ROOT);
  }

  /** A fork of a digest without layers succeeds and leaves a ref that cannot be restored. */
  method ForkWithoutLayers(h: Blob -> Digest, base: Digest) returns (ws: Workspace, ok: bool)
    requires Ideal(h)
    ensures fresh(ws) && ok && !ws.Valid()
  {
    hide IsDigest, TrimSpace, LoadDigest, Sound, Whole, SafeRefName;
    var d;
    ws, d := StoreWithoutLayers(h, base);
    ghost var disk := ws.store.Contents();
    DigestResolves(disk, d);
    NoLayerNotWhole(h, disk, base, ROOT);
    MainIsPlain();
    assert TagFile("main") == {"main"} by { MainIsNotBlank(); }
    var c := [ItemOf(h, ROOT)];
    assert IsChain(h, disk, d, c) && ValidLinks(c);
    ok := ws.Fork(d, "main", [true]);
  }

  const CHECKPOINT := SnapshotOptions("cp", "latest", true, "", "")
  const UNCHANGED := SnapshotOptions("two", "", false, "", "")
  const REPEATED := Policy(1, [], false, true, true, false, "cp", [], Some([]), "")
  const KEEPING := REPEATED.(pruneSource := false)

  lemma OneMoreTag(tags: seq<string>, tag: string)
    requires TrimSpace(tag) == tag && tag != ""
    ensures UniqueTags(tags + [tag]) ==
            if tag in UniqueTags(tags) then UniqueTags(tags) else UniqueTags(tags) + [tag]
  {
    hide TrimSpace;
    assert (tags + [tag])[..|tags|] == tags;
  }

  lemma NoTags()
    ensures UniqueTags([]) == []
  {
  }

  lemma BlankTag(tags: seq<string>, tag: string)
    requires tag == ""
    ensures UniqueTags(tags + [tag]) == UniqueTags(tags)
  {
    assert (tags + [tag])[..|tags|] == tags;
  }

  lemma TwoIsPlain()
    ensures SafeRefName("two") == "two" && TrimSpace("two") == "two"
  {
    assert TrimLeft("two") == "two" && TrimRight("two") == "two";
    assert !(":" <= "two");
    PlainEscape("two");
  }

  lemma TagTwice(tags: seq<string>, tag: string)
    requires TrimSpace(tag) == tag && tag != "" && tag !in UniqueTags(tags)
    ensures UniqueTags(tags + [tag, tag]) == UniqueTags(tags) + [tag]
  {
    hide TrimSpace, UniqueTags;
    OneMoreTag(tags, tag);
    OneMoreTag(tags + [tag], tag);
    assert tags + [tag] + [tag] == tags + [tag, tag];
  }

  lemma TwoTagList()
    ensures UniqueTags(["two", "two", "", "latest"]) == ["two", "latest"]
  {
    hide TrimSpace, SafeRefName, UniqueTags;
    TwoIsPlain();
    LatestIsPlain();
    NoTags();
    TagTwice([], "two");
    assert [] + ["two", "two"] == ["two", "two"];
    BlankTag(["two", "two"], "");
    OneMoreTag(["two", "two", ""], "latest");
    assert ["two", "two"] + [""] == ["two", "two", ""];
    assert ["two", "two", ""] + ["latest"] == ["two", "two", "", "latest"];
  }

  lemma TwoTags(ws: Workspace, disk: Disk, mount: Option<MountInfo>, d: Digest)
    ensures ws.Updates(disk, mount, UNCHANGED, d) == [RefUpdate("two", d, ""), RefUpdate("latest", d, "")]
  {
    hide UniqueTags, NextSequence;
    TwoTagList();
  }

  lemma TwoFiles(refs: map<string, string>, d: Digest, a: string, b: string)
    requires IsDigest(d) && a != b && SafeRefName(a) == a && SafeRefName(b) == b && IsRefFile(a) && IsRefFile(b)
    requires TrimSpace(a) != "" && TrimSpace(b) != "" && TrimSpace("") == ""
    ensures var us := [RefUpdate(a, d, ""), RefUpdate(b, d, "")]; Files(us) == {a, b} && AllAcceptable(refs, us)
  {
    hide IsDigest, SafeRefName, TrimSpace, IsRefFile;
    var us := [RefUpdate(a, d, ""), RefUpdate(b, d, "")];
    assert us[..1] == [us[0]] && us[..1][..0] == [] && us[..0] == [];
    assert Files([]) == {} && Files([us[0]]) == {a};
    assert Acceptable(refs, [], us[0]) && Acceptable(refs, [us[0]], us[1]);
  }

  lemma BlankIsBlank()
    ensures TrimSpace("") == ""
  {
  }

  lemma TwoIsFile(refs: map<string, string>)
    ensures var us := [RefUpdate("two", SOME_DIGEST, ""), RefUpdate("latest", SOME_DIGEST, "")];
            Files(us) == {"two", "latest"} && AllAcceptable(refs, us)
  {
    hide TrimSpace, SafeRefName, Files, AllAcceptable;
    TwoIsPlain();
    LatestIsPlain();
    BlankIsBlank();
    TwoFiles(refs, SOME_DIGEST, "two", "latest");
  }

  /** A snapshot is accepted on a mount whose layers are gone, and cannot be restored. */
  method MountWithoutLayers(h: Blob -> Digest, base: Digest) returns (ws: Workspace, ok: bool)
    requires Ideal(h)
    ensures fresh(ws) && ok && !ws.Valid()
  {
    hide IsDigest, TrimSpace, LoadDigest, Sound, WholeBy, SafeRefName, UniqueTags, Files, AllAcceptable, Prepared;
    var d;
    ws, d := StoreWithoutLayers(h, base);
    ghost var disk := ws.store.Contents();
    EmptyHead();
    NoMarkers(map[]);
    TwoTags(ws, disk, Some(MountInfo(d, None)), SOME_DIGEST);
    TwoIsFile(disk.refs);
    ok, d := ws.Snapshot([], Some(MountInfo(d, None)), UNCHANGED, [true, true, true, true]);
    LoadGrows(h, disk, ws.store.Contents(), ItemOf(h, ROOT).digest);
    NoLayerNotWhole(h, ws.store.Contents(), base, ROOT);
  }

  // ----- compactions that lose their checkpoint

  lemma CpIsPlain()
    ensures SafeRefName("cp") == "cp" && TrimSpace("cp") == "cp" && !IsDigest("cp")
  {
    assert TrimLeft("cp") == "cp" && TrimRight("cp") == "cp";
    assert !(":" <= "cp");
    PlainEscape("cp");
  }

  lemma FourTags(a: string, b: string)
    requires TrimSpace(a) == a && TrimSpace(b) == b && a != "" && b != "" && a != b
    ensures UniqueTags([a, a, b, b]) == [a, b] && UniqueTags([a]) == [a]
  {
    hide TrimSpace, UniqueTags;
    NoTags();
    TagTwice([], a);
    OneMoreTag([], a);
    assert [] + [a, a] == [a, a] && [] + [a] == [a];
    TagTwice([a, a], b);
    assert [a, a] + [b, b] == [a, a, b, b];
  }

  lemma CheckpointTags(ws: Workspace, disk: Disk, d: Digest)
    ensures ws.Updates(disk, None, CHECKPOINT, d) == [RefUpdate("cp", d, ""), RefUpdate("latest", d, "")]
    ensures UniqueTags(["cp"] + UniqueTags([])) == ["cp"]
  {
    hide TrimSpace, SafeRefName, UniqueTags, NextSequence;
    CpIsPlain();
    LatestIsPlain();
    NoTags();
    FourTags("cp", "latest");
    assert ["cp"] + [] == ["cp"];
  }

  lemma CheckpointFiles(refs: map<string, string>)
    ensures var us := [RefUpdate("cp", SOME_DIGEST, ""), RefUpdate("latest", SOME_DIGEST, "")];
            Files(us) == {"cp", "latest"} && AllAcceptable(refs, us)
  {
    hide TrimSpace, SafeRefName, Files, AllAcceptable;
    CpIsPlain();
    LatestIsPlain();
    BlankIsBlank();
    TwoFiles(refs, SOME_DIGEST, "cp", "latest");
  }

  lemma CheckpointAllowed(ws: Workspace, disk: Disk)
    ensures ws.SnapAllowed(disk, None, CHECKPOINT, map[], [true, true, true, true])
    ensures ws.SnapFiles(disk, None, CHECKPOINT) == {"cp", "latest"}
  {
    hide Files, AllAcceptable, Prepared, UniqueTags;
    CheckpointTags(ws, disk, SOME_DIGEST);
    CheckpointFiles(disk.refs);
    NoMarkers(map[]);
  }

  lemma OneTagWorks()
    ensures Working(["cp"], [true], 0) == 1
  {
    CpIsPlain();
    assert Working(["cp"], [true], 1) == 1;
  }

  lemma MovedAre(ws: Workspace, from: Disk, policy: Policy, plan: Plan)
    requires plan.tag == "cp" && plan.tags == ["cp"] && policy.meta == ""
    ensures MovedFiles(ws, from, policy, plan, [true]) == {"cp", "latest"}
  {
    CheckpointAllowed(ws, from);
    OneTagWorks();
    CpIsPlain();
    hide TrimSpace, SafeRefName;
    assert plan.tags[..1] == ["cp"] && ["cp"][..0] == [];
    assert TagFiles([]) == {} && TagFiles(["cp"]) == {"cp"};
  }

  lemma ListedPlain()
    ensures Listed("cp") == "cp" && Listed("latest") == "latest"
  {
    hide TrimSpace, Listed, SafeRefName;
    CpIsPlain();
    LatestIsPlain();
    ListedIsTrimmed("cp");
    ListedIsTrimmed("latest");
  }

  /** Only the root is deleted: it is the head too, or the head is kept. */
  lemma RootIsDeleted(disk: Disk, policy: Policy, c: seq<Item>, plan: Plan)
    requires (policy == REPEATED && |c| == 1) || (policy == KEEPING && |c| == 2)
    requires PlanFits(disk, policy, {}, n => "", c, plan)
    ensures !Kept(KeepSet(disk, policy.keep), policy, {}, c, 0) && Elems(plan.candidates) == {c[0].digest}
  {
    hide UniqueTags;
    assert KeepSet(disk, policy.keep) == {};
  }

  lemma MarkedPlainly(refs: map<string, string>, deleted: set<string>)
    requires forall f :: f in refs && refs[f] in deleted ==> f in {"cp", "latest"}
    ensures var marked := Marked(refs, {"cp", "latest"}, deleted, true);
            marked == {"cp", "latest"} && AllListed(marked) == marked && Removable(marked)
  {
    hide Listed;
    ListedPlain();
    var marked := Marked(refs, {"cp", "latest"}, deleted, true);
    assert marked == {"cp", "latest"};
  }

  /** The checkpoint of an empty directory that a workspace starts with. */
  predicate IsCheckpoint(ws: Workspace, disk: Disk, d: Digest)
  {
    && IsDigest(d) && LoadDigest(ws.store.h, disk, d).Ok?
    && LoadDigest(ws.store.h, disk, d).value.config == ws.ConfigOf(Disk(map[], map[]), None, CHECKPOINT, [])
  }

  method FirstCheckpoint(ws: Workspace) returns (first: Digest)
    requires ws.Valid() && ws.store.blobs == map[] && ws.store.refs == map[]
    modifies ws.store
    ensures ws.Valid() && ws.store.refs == map["cp" := first, "latest" := first]
    ensures IsCheckpoint(ws, ws.store.Contents(), first)
  {
    hide Whole, LoadDigest, UniqueTags, Files, AllAcceptable, Prepared, TrimSpace, SafeRefName, IsDigest, TreeAt,
         Meaning, Sound, Resolve;
    EmptyHead();
    CheckpointAllowed(ws, ws.store.Contents());
    var ok;
    ok, first := ws.Snapshot([], None, CHECKPOINT, [true, true, true, true]);
  }

  /** The compaction of a chain that starts with the checkpoint it is about to make. */
  lemma LostInside(ws: Workspace, from: Disk, to: Disk, ref: string, head: Digest, first: Digest, policy: Policy,
                   r: Compacted, plan: Plan, digest: Digest, c: seq<Item>)
    requires (policy == REPEATED && |c| == 1) || (policy == KEEPING && |c| == 2)
    requires Resolve(from, ref) == Ok(head) && c[0].digest == first
    requires forall f :: f in from.refs && f !in {"cp", "latest"} ==> from.refs[f] != first
    requires LoadDigest(ws.store.h, from, head).Ok? && LoadDigest(ws.store.h, from, head).value.config.tree == []
    requires IsCheckpoint(ws, from, first)
    requires Compacts(ws, from, to, ref, policy, {}, n => "", [true, true, true, true], [true], r, plan, digest, c)
    ensures r == Done && digest == first && to.refs == from.refs - {"cp", "latest"}
  {
    hide WholeBy, LoadDigest, UniqueTags, Files, AllAcceptable, Prepared, TrimSpace, SafeRefName, IsDigest, Kept,
         KeepSet, Meaning, Pruned, Stands, Resolve, Working, MovedFiles, Marked, AllListed, Removable;
    CpIsPlain();
    CheckpointAllowed(ws, from);
    LoadsTop(ws.store.h, from, ws.base, head, c);
    PrefixIsWhole(ws.store.h, from, ws.base, head, c, 0);
    CheckpointTags(ws, from, digest);
    assert CheckpointOptions(plan, policy) == CHECKPOINT;
    OneTagWorks();
    EmptyHead();
    RootIsDeleted(from, policy, c, plan);
    assert Loses(ws, from, policy, {}, plan, c);
    MovedAre(ws, from, policy, plan);
    MarkedPlainly(from.refs, Elems(plan.candidates));
  }

  lemma CpResolves(disk: Disk, d: Digest)
    requires "cp" in disk.refs && disk.refs["cp"] == d && IsDigest(d)
    ensures Resolve(disk, "cp") == Ok(d)
  {
    hide IsDigest, SafeRefName;
    CpIsPlain();
  }

  lemma LatestResolves(disk: Disk, d: Digest)
    requires "latest" in disk.refs && disk.refs["latest"] == d && IsDigest(d)
    ensures Resolve(disk, "latest") == Ok(d) && !IsDigest("latest")
  {
    LatestIsPlain();
    hide SafeRefName;
  }

  lemma HeadWithoutParent(h: Blob -> Digest, disk: Disk, base: Digest, d: Digest, c: seq<Item>)
    requires WholeBy(h, disk, base, d, c) && LoadDigest(h, disk, d).value.config.sequence == 1
    ensures |c| == 1 && c[0].digest == d
  {
    hide WholeBy, LoadDigest;
    LoadsTop(h, disk, base, d, c);
  }

  /** A checkpoint of a checkpoint, made with the same message in the same second: it is the
      same snapshot, the plan deletes the old head, and no ref is left. */
  method CheckpointLost(h: Blob -> Digest, base: Digest) returns (store: LocalStore, digest: Digest, r: Compacted)
    requires Ideal(h)
    ensures fresh(store) && r == Done && store.refs == map[]
  {
    hide Whole, WholeBy, LoadDigest, UniqueTags, Files, AllAcceptable, Prepared, TrimSpace, SafeRefName, IsDigest,
         TreeAt, Meaning, Sound, Resolve, Checkpointed, PlanFits, Ending;
    store := new LocalStore(h);
    var ws := new Workspace(store, base, n => "");
    assert ws.store.h == h && ws.store == store;
    var first := FirstCheckpoint(ws);
    ghost var from := store.Contents();
    CpIsPlain();
    var plan;
    ghost var c;
    CpResolves(from, first);
    r, plan, digest, c := Compact(ws, "cp", REPEATED, {}, n => "", [true, true, true, true], [true]);
    HeadWithoutParent(h, from, base, first, c);
    LostInside(ws, from, store.Contents(), "cp", first, first, REPEATED, r, plan, digest, c);
  }

  lemma HeadOverRoot(h: Blob -> Digest, disk: Disk, base: Digest, d: Digest, first: Digest, c: seq<Item>)
    requires WholeBy(h, disk, base, d, c) && LoadDigest(h, disk, d).Ok?
    requires LoadDigest(h, disk, d).value.config.sequence == 2
    requires LoadDigest(h, disk, d).value.config.parent == Some(first)
    ensures |c| == 2 && c[0].digest == first
  {
    hide GoodChain, IsChain, LoadDigest;
    LoadsTop(h, disk, base, d, c);
    GoodTop(h, disk, base, c);
  }

  lemma DifferentConfigs(h: Blob -> Digest, disk: Disk, d: Digest, e: Digest)
    requires LoadDigest(h, disk, d).Ok? && LoadDigest(h, disk, e).Ok?
    requires LoadDigest(h, disk, d).value.config != LoadDigest(h, disk, e).value.config
    ensures d != e
  {
  }

  /** A snapshot of the unchanged directory on the checkpoint. */
  method SnapUnchanged(ws: Workspace, first: Digest) returns (second: Digest)
    requires ws.Valid() && ws.store.refs == map["cp" := first, "latest" := first]
    requires IsCheckpoint(ws, ws.store.Contents(), first)
    modifies ws.store
    ensures ws.Valid() && ws.store.refs == map["cp" := first, "latest" := second, "two" := second]
    ensures IsCheckpoint(ws, ws.store.Contents(), first) && IsDigest(second) && first != second
    ensures LoadDigest(ws.store.h, ws.store.Contents(), second).Ok?
    ensures var cfg := LoadDigest(ws.store.h, ws.store.Contents(), second).value.config;
            cfg.parent == Some(first) && cfg.sequence == 2 && cfg.tree == []
  {
    hide Whole, LoadDigest, UniqueTags, Files, AllAcceptable, Prepared, TrimSpace, SafeRefName, IsDigest, TreeAt,
         Meaning, Sound, Resolve, TreeMap, IsListing, IsTree, Unreserved;
    EmptyHead();
    NoMarkers(map[]);
    ghost var middle := ws.store.Contents();
    LatestResolves(middle, first);
    TwoTags(ws, middle, None, SOME_DIGEST);
    TwoIsFile(middle.refs);
    var ok;
    ok, second := ws.Snapshot([], None, UNCHANGED, [true, true, true, true]);
    LoadGrows(ws.store.h, middle, ws.store.Contents(), first);
    DifferentConfigs(ws.store.h, ws.store.Contents(), first, second);
  }

  /** The checkpoint again, in the same second. The head is kept and has a parent, and still
      the new checkpoint is the root of its own chain, which the plan deletes: `latest` and
      the tag are gone. */
  method CheckpointBelowLost(h: Blob -> Digest, base: Digest)
    returns (store: LocalStore, second: Digest, digest: Digest, r: Compacted)
    requires Ideal(h)
    ensures fresh(store) && r == Done && store.refs == map["two" := second] && digest != second
  {
    hide Whole, WholeBy, LoadDigest, TrimSpace, SafeRefName, IsDigest, TreeAt, Meaning, Sound, Resolve,
         Checkpointed, PlanFits, Ending;
    store := new LocalStore(h);
    var ws := new Workspace(store, base, n => "");
    assert ws.store.h == h && ws.store == store;
    var first := FirstCheckpoint(ws);
    second := SnapUnchanged(ws, first);
    ghost var from := store.Contents();
    LatestResolves(from, second);
    var plan;
    ghost var c;
    r, plan, digest, c := Compact(ws, "latest", KEEPING, {}, n => "", [true, true, true, true], [true]);
    HeadOverRoot(h, from, base, second, first, c);
    LostInside(ws, from, store.Contents(), "latest", second, first, KEEPING, r, plan, digest, c);
  }

  lemma BlobsFetched(h: Blob -> Digest, remote: Remote, cfg: Config)
    requires Ideal(h)
    requires forall d :: d in SnapshotBlobs(h, cfg) ==>
               d in remote.blobs && remote.blobs[d] == SnapshotBlobs(h, cfg)[d]
    requires remote.manifests == remote.blobs
    ensures FetchItem(h, remote, ItemOf(h, cfg).digest) == Ok(ItemOf(h, cfg))
  {
    hide TrimSpace;
    var m := ManifestBlob(ItemOf(h, cfg).manifest);
    assert h(m) in SnapshotBlobs(h, cfg) && h(ConfigBlob(cfg)) in SnapshotBlobs(h, cfg);
  }

  lemma OneIsPlain()
    ensures SafeRefName("one") == "one" && TrimSpace("one") == "one"
  {
    assert TrimLeft("one") == "one" && TrimRight("one") == "one";
    assert !(":" <= "one");
    PlainEscape("one");
  }

  lemma OnlyOne(c: seq<Item>, refs: map<string, string>)
    requires |c| == 2 && c[0].config.id == c[1].config.id == "one" && RefsPulled(map[], refs, c)
    ensures refs == map["one" := c[0].digest]
  {
    hide TrimSpace, SafeRefName;
    OneIsPlain();
    assert Names(c[0], "one") && Unnamed(c, 0, "one");
    forall f | f != "one" ensures f !in refs {
      assert Unnamed(c, |c|, f);
      assert Get(refs, f) == Get(map[], f);
    }
    assert Get(refs, "one") == Some(c[0].digest);
  }

  /** Two snapshots of one chain carry the same id: after the pull it names the older one. */
  method PulledIdNamesTheOldest(h: Blob -> Digest) returns (store: LocalStore, digest: Digest, r: PullResult)
    requires Ideal(h)
    ensures fresh(store) && r == Pulled
    ensures store.refs == map["one" := ItemOf(h, ROOT).digest] && digest != ItemOf(h, ROOT).digest
  {
    hide IsDigest, TrimSpace, SafeRefName, RefsPulled, FetchItem, PulledDown;
    var child := Config("one", "", 2, Some(ItemOf(h, ROOT).digest), [], "");
    ghost var c := [ItemOf(h, ROOT), ItemOf(h, child)];
    var blobs := SnapshotBlobs(h, ROOT) + SnapshotBlobs(h, child);
    var via := new Repository();
    via.remote := Remote(blobs, blobs, map[]);
    store := new LocalStore(h);
    TwoSnapshots(h, ROOT, child);
    BlobsFetched(h, via.remote, ROOT);
    BlobsFetched(h, via.remote, child);
    DifferentDigests(h, ROOT, child);
    assert c[..1] == [c[0]] && c[..1][..0] == [];
    assert RemoteChain(h, via.remote, c[0].digest, c[..1]);
    assert RemoteChain(h, via.remote, c[1].digest, c);
    OneIsPlain();
    assert AllPullable(h, via.remote, c);
    ghost var got;
    r, digest, got := via.Pull(store, ItemOf(h, child).digest, 1);
    assert Ends(h, via.remote, c[0].digest, 0);
    RemoteChainUnique(h, via.remote, c[1].digest, c, got);
    OnlyOne(c, store.refs);
  }
}
