/** Snapshot, fork and compact on one workspace. Whatever is run, the refs stand for a plain
    map from ref files to trees. */
module Workspaces {
  import opened Paths
  import opened Trees
  import opened Layers
  import opened RestoreProofs
  import opened Diff
  import opened Store
  import opened RefUpdates
  import opened LocalStores
  import opened Histories
  import opened Overlay
  import opened OverlaySnapshot

  /** `meta` is what else goes into the config and the annotations: the kind, the time, the
      message, the user. */
  datatype SnapshotOptions = SnapshotOptions(
    tag: string, alsoTag: string, checkpoint: bool, expectedParent: string, meta: string)

  /** The snapshot that was mounted, recorded at mount time, and for an overlay mount what
      `scanTree` finds in its upper directory. */
  datatype MountInfo = MountInfo(source: Digest, upper: Option<seq<TreeEntry>>)

  // ----- tags and updates

  /** `uniqueTags`. */
  function UniqueTags(tags: seq<string>): seq<string>
  {
    if tags == [] then []
    else
      var n := |tags| - 1;
      var before := UniqueTags(tags[..n]);
      var tag := TrimSpace(tags[n]);
      if tag == "" || tag in before then before else before + [tag]
  }

  /** The directory is known as a mount, and the record says of what. */
  predicate Mounted(mount: Option<MountInfo>, opts: SnapshotOptions)
  {
    !opts.checkpoint && mount.Some? && mount.value.source != ""
  }

  /** The snapshot a new one builds on: the mounted one, else `latest`, else none. */
  function ParentOf(disk: Disk, mount: Option<MountInfo>, opts: SnapshotOptions): Option<Digest>
  {
    if opts.checkpoint then None
    else if Mounted(mount, opts) then Some(mount.value.source)
    else
      match Resolve(disk, "latest")
      case Ok(d) => Some(d)
      case Fail => None
  }

  function NextSequence(h: Blob -> Digest, disk: Disk, parent: Option<Digest>): int
  {
    if parent.None? then 1
    else
      match LoadDigest(h, disk, parent.value)
      case Ok(item) => item.config.sequence + 1
      case Fail => 1
  }

  /** The tree a new snapshot is compared with. */
  function ParentTree(h: Blob -> Digest, disk: Disk, parent: Option<Digest>): Tree
  {
    if parent.None? then map[] else TreeAt(h, disk, parent.value)
  }

  predicate HoldsTree(cfg: Config)
  {
    IsListing(cfg.tree) && IsTree(TreeMap(cfg.tree))
  }

  predicate OverlayShows(h: Blob -> Digest, disk: Disk, scanned: seq<TreeEntry>, mount: MountInfo)
  {
    mount.upper.Some? ==>
      var raw := TreeMap(mount.upper.value);
      && IsListing(mount.upper.value) && IsTree(raw) && OpaquesIn(raw) == {}
      && (forall q :: q in raw && IsMarker(q) ==> raw[q].File?)
      && TreeMap(scanned) == View(TreeAt(h, disk, mount.source), UpperIn(raw), WhiteoutsIn(raw), {})
  }

  /** The record of a mount holds a digest. If its manifest and config load, the config holds
      the listing of a tree, and an overlay, which has no opaque directories, shows its upper
      over that tree. Nothing is said of the chain below. A checkpoint ignores the mount. */
  predicate MountIsGood(h: Blob -> Digest, disk: Disk, scanned: seq<TreeEntry>, mount: Option<MountInfo>,
                        opts: SnapshotOptions)
  {
    Mounted(mount, opts) ==>
      var loaded := LoadDigest(h, disk, mount.value.source);
      && IsDigest(mount.value.source)
      && (loaded.Ok? ==> HoldsTree(loaded.value.config) && OverlayShows(h, disk, scanned, mount.value))
  }

  /** Any digest; the checks on an update do not look at it further. */
  const SOME_DIGEST := "sha256:"

  function TagUpdates(tags: seq<string>, id: string, expected: string, d: Digest): (r: seq<RefUpdate>)
    ensures |r| == |tags|
    ensures forall i :: 0 <= i < |r| ==> r[i].digest == d && r[i].name == tags[i]
  {
    seq(|tags|, i requires 0 <= i < |tags| => RefUpdate(tags[i], d, if tags[i] != id then expected else ""))
  }

  /** The ref files a list of updates writes. */
  function Files(updates: seq<RefUpdate>): set<string>
  {
    if updates == [] then {}
    else
      var n := |updates| - 1;
      Files(updates[..n]) + if Blank(updates[n]) then {} else {SafeRefName(updates[n].name)}
  }

  /** `t` with a set of ref files pointed at one value. */
  function Overlaid<T>(t: map<string, T>, files: set<string>, value: T): map<string, T>
  {
    map f | f in t.Keys + files :: if f in files then value else t[f]
  }

  lemma {:induction false} InstalledSame(refs: map<string, string>, us: seq<RefUpdate>, d: Digest)
    requires forall i :: 0 <= i < |us| ==> us[i].digest == d
    ensures Installed(refs, us) == Overlaid(refs, Files(us), d)
  {
    hide Blank, SafeRefName;
    if us != [] {
      InstalledSame(refs, us[..|us| - 1], d);
    }
  }

  lemma OverlaidTwice<T>(t: map<string, T>, a: set<string>, b: set<string>, value: T)
    ensures Overlaid(Overlaid(t, a, value), b, value) == Overlaid(t, a + b, value)
    ensures Overlaid(t, {}, value) == t
  {
  }

  // ----- one more snapshot

  ghost predicate Grows(from: Disk, to: Disk)
  {
    forall d :: d in from.blobs ==> d in to.blobs && to.blobs[d] == from.blobs[d]
  }

  lemma WriteGrows(h: Blob -> Digest, blobs: map<Digest, Blob>, b: Blob, refs: map<string, string>)
    requires Ideal(h) && Intact(h, blobs)
    ensures var after := if h(b) in blobs then blobs else blobs[h(b) := b];
            Intact(h, after) && Grows(Disk(blobs, refs), Disk(after, refs)) &&
                ReadBlob(h, Disk(after, refs), h(b)) == Ok(b)
  {
    hide IsDigest;
  }

  lemma ReadAfterGrowth(h: Blob -> Digest, from: Disk, to: Disk, d: Digest)
    requires Grows(from, to) && ReadBlob(h, from, d).Ok?
    ensures ReadBlob(h, to, d) == ReadBlob(h, from, d)
  {
  }

  lemma SoundGrows(h: Blob -> Digest, from: Disk, to: Disk, base: Digest)
    requires Sound(h, from, base) && Grows(from, to) && Intact(h, to.blobs) && to.refs == from.refs
    ensures Sound(h, to, base) && Meaning(h, to) == Meaning(h, from)
  {
    hide WholeBy, TreeAt, Ideal, Intact;
    forall r | r in from.refs
      ensures Whole(h, to, base, from.refs[r]) && TreeAt(h, to, from.refs[r]) == TreeAt(h, from, from.refs[r])
    {
      var c :| WholeBy(h, from, base, from.refs[r], c);
      WholeKept(h, from, to, base, from.refs[r], c);
    }
  }

  /** The three blobs of a snapshot are in the store. */
  predicate HasBlobs(h: Blob -> Digest, disk: Disk, cfg: Config, l: Layer, m: Digest)
  {
    && IsDigest(m)
    && ReadBlob(h, disk, m) == Ok(ManifestBlob(Manifest(h(ConfigBlob(cfg)), [h(LayerBlob(l))])))
    && ReadBlob(h, disk, h(ConfigBlob(cfg))) == Ok(ConfigBlob(cfg))
    && ReadBlob(h, disk, h(LayerBlob(l))) == Ok(LayerBlob(l))
  }

  lemma NewLoads(h: Blob -> Digest, disk: Disk, cfg: Config, l: Layer, m: Digest)
    requires HasBlobs(h, disk, cfg, l, m)
    ensures LoadDigest(h, disk, m) == Ok(Item(m, Manifest(h(ConfigBlob(cfg)), [h(LayerBlob(l))]), cfg))
    ensures TreeAt(h, disk, m) == TreeMap(cfg.tree)
  {
    hide ReadBlob, TreeMap;
  }

  lemma NewIsWhole(h: Blob -> Digest, disk: Disk, base: Digest, c: seq<Item>, cfg: Config, l: Layer, m: Digest)
    requires c == [] || WholeBy(h, disk, base, c[|c| - 1].digest, c)
    requires cfg.parent == (if c == [] then None else Some(c[|c| - 1].digest))
    requires cfg.sequence == |c| + 1 && cfg.base == base
    requires HoldsTree(cfg) && Unreserved(TreeMap(cfg.tree))
    requires IsDelta(HeadOf(c), TreeMap(cfg.tree), l)
    requires HasBlobs(h, disk, cfg, l, m)
    ensures Whole(h, disk, base, m)
  {
    hide IsDelta, IsListing, IsTree, Unreserved, ReadBlob, TreeMap;
    var item := Item(m, Manifest(h(ConfigBlob(cfg)), [h(LayerBlob(l))]), cfg);
    var longer := c + [item];
    assert longer[..|c|] == c;
    assert HasLayer(h, disk, item) && LayerOf(h, disk, item) == l;
    assert GoodConfig(base, c, item);
    assert ConfigTree(item) == TreeMap(cfg.tree);
    assert GoodChain(h, disk, base, longer);
    NewLoads(h, disk, cfg, l, m);
    assert IsChain(h, disk, m, longer);
    assert WholeBy(h, disk, base, m, longer);
  }

  lemma LoadsTop(h: Blob -> Digest, disk: Disk, base: Digest, d: Digest, c: seq<Item>)
    requires WholeBy(h, disk, base, d, c)
    ensures LoadDigest(h, disk, d) == Ok(c[|c| - 1]) && c[|c| - 1].digest == d
    ensures c[|c| - 1].config.sequence == |c| && TreeAt(h, disk, d) == HeadOf(c)
    ensures IsListing(c[|c| - 1].config.tree) && IsTree(HeadOf(c)) && Unreserved(HeadOf(c))
  {
    hide HasLayer, LayerOf, IsDelta, IsListing, IsTree, Unreserved, ReadBlob;
    GoodTop(h, disk, base, c);
    assert GoodConfig(base, c[..|c| - 1], c[|c| - 1]);
  }

  lemma GrowsKeeps(from: Disk, to: Disk, needed: set<Digest>)
    requires Grows(from, to)
    ensures Keeps(from, to, needed)
  {
  }

  lemma DigestOfBlob(h: Blob -> Digest, b: Blob)
    requires Ideal(h)
    ensures IsDigest(h(b))
  {
  }

  lemma EmptyHead()
    ensures TreeMap([]) == map[] && IsListing([]) && IsTree(map[])
  {
  }

  lemma ReservedPath(t: Tree, q: Path)
    requires q in t && IsMarker(q)
    ensures !Unreserved(t)
  {
  }

  /** `validateNoReservedWhiteoutPaths`. */
  method CheckUnreserved(es: seq<TreeEntry>) returns (ok: bool)
    ensures ok <==> Unreserved(TreeMap(es))
  {
    hide TreeMap, IsMarker, Base;
    for i := 0 to |es|
      invariant forall k :: 0 <= k < i ==> !IsMarker(es[k].path)
    {
      if IsMarker(es[i].path) {
        TreeMapHas(es, i);
        ReservedPath(TreeMap(es), es[i].path);
        return false;
      }
    }
    forall q | q in TreeMap(es) ensures !IsMarker(q) {
      var i := TreeMapIndex(es, q);
    }
    NoMarkers(TreeMap(es));
    return true;
  }

  /** The parent of a snapshot that is not taken on a mount can be restored. */
  lemma ParentIsWhole(h: Blob -> Digest, disk: Disk, base: Digest, mount: Option<MountInfo>, opts: SnapshotOptions)
    requires Sound(h, disk, base) && !Mounted(mount, opts)
    ensures var parent := ParentOf(disk, mount, opts); parent.Some? ==> Whole(h, disk, base, parent.value)
  {
    hide Whole, SafeRefName, Ideal, Intact;
    assert !IsDigest("latest");
  }

  lemma ChainOfWhole(h: Blob -> Digest, disk: Disk, base: Digest, d: Digest) returns (c: seq<Item>)
    requires Whole(h, disk, base, d)
    ensures WholeBy(h, disk, base, d, c)
  {
    c :| WholeBy(h, disk, base, d, c);
  }

  lemma {:induction false} UniqueTagsShorter(tags: seq<string>)
    ensures |UniqueTags(tags)| <= |tags|
  {
    hide TrimSpace;
    if tags != [] {
      UniqueTagsShorter(tags[..|tags| - 1]);
    }
  }

  lemma AtMostFourTags(tags: seq<string>)
    requires |tags| == 4
    ensures |UniqueTags(tags)| <= 4
  {
    hide UniqueTags;
    UniqueTagsShorter(tags);
  }

  /** Which snapshots are whole, and which trees they stand for, is not up to the refs. */
  lemma OnlyRefs(h: Blob -> Digest, disk: Disk, refs: map<string, string>, base: Digest)
    ensures forall d :: Whole(h, Disk(disk.blobs, refs), base, d) <==> Whole(h, disk, base, d)
    ensures forall d :: LoadDigest(h, Disk(disk.blobs, refs), d) == LoadDigest(h, disk, d)
    ensures forall d :: TreeAt(h, Disk(disk.blobs, refs), d) == TreeAt(h, disk, d)
  {
    hide WholeBy;
    var to := Disk(disk.blobs, refs);
    forall d | Whole(h, disk, base, d) ensures Whole(h, to, base, d) {
      var c :| WholeBy(h, disk, base, d, c);
      WholeKept(h, disk, to, base, d, c);
    }
    forall d | Whole(h, to, base, d) ensures Whole(h, disk, base, d) {
      var c :| WholeBy(h, to, base, d, c);
      WholeKept(h, to, disk, base, d, c);
    }
  }

  lemma SameCheck(refs: map<string, string>, us: seq<RefUpdate>, u: RefUpdate, vs: seq<RefUpdate>, v: RefUpdate)
    requires |us| == |vs| && forall i :: 0 <= i < |us| ==> us[i].name == vs[i].name
    requires u.name == v.name && u.expected == v.expected && IsDigest(u.digest) && IsDigest(v.digest)
    ensures Acceptable(refs, us, u) <==> Acceptable(refs, vs, v)
  {
    hide SafeRefName, TrimSpace, IsDigest, IsRefFile;
    forall e | e in us ensures exists k :: 0 <= k < |vs| && vs[k].name == e.name {
      var k :| 0 <= k < |us| && us[k] == e;
      assert vs[k].name == e.name;
    }
    forall e | e in vs ensures exists k :: 0 <= k < |us| && us[k].name == e.name {
      var k :| 0 <= k < |vs| && vs[k] == e;
      assert us[k].name == e.name;
    }
  }

  /** Neither the checks nor the files of a list of updates depend on the digest. */
  lemma {:induction false} SameNames(refs: map<string, string>, us: seq<RefUpdate>, vs: seq<RefUpdate>)
    requires |us| == |vs| && forall i :: 0 <= i < |us| ==>
               us[i].name == vs[i].name && us[i].expected == vs[i].expected && IsDigest(us[i].digest) &&
                   IsDigest(vs[i].digest)
    ensures AllAcceptable(refs, us) <==> AllAcceptable(refs, vs)
    ensures Files(us) == Files(vs) && |Prepared(refs, us)| == |Prepared(refs, vs)|
    decreases |us|
  {
    hide SafeRefName, TrimSpace, IsDigest, Acceptable;
    if us != [] {
      var n := |us| - 1;
      SameNames(refs, us[..n], vs[..n]);
    }
    forall i | 0 <= i < |us| ensures Acceptable(refs, us[..i], us[i]) <==> Acceptable(refs, vs[..i], vs[i]) {
      SameCheck(refs, us[..i], us[i], vs[..i], vs[i]);
    }
  }

  // ----- chains that are walked

  lemma NotLoaded(h: Blob -> Digest, disk: Disk, base: Digest, ref: string)
    requires Load(h, disk, ref).Fail?
    ensures Resolve(disk, ref).Ok? ==> forall c :: !WholeBy(h, disk, base, Resolve(disk, ref).value, c)
  {
    hide LoadDigest;
    forall c | Resolve(disk, ref).Ok? && WholeBy(h, disk, base, Resolve(disk, ref).value, c) ensures false {
      LoadsTop(h, disk, base, Resolve(disk, ref).value, c);
    }
  }

  lemma LoadedDigest(h: Blob -> Digest, disk: Disk, ref: string)
    requires Load(h, disk, ref).Ok?
    ensures Resolve(disk, ref).Ok? && Load(h, disk, ref).value.digest == Resolve(disk, ref).value
    ensures ConfigTree(Load(h, disk, ref).value) == TreeAt(h, disk, Resolve(disk, ref).value)
  {
  }

  lemma WholeIsGood(h: Blob -> Digest, disk: Disk, base: Digest, d: Digest, c: seq<Item>)
    requires WholeBy(h, disk, base, d, c)
    ensures GoodChain(h, disk, base, c)
  {
  }

  lemma NoWholeChain(h: Blob -> Digest, disk: Disk, base: Digest, d: Digest)
    requires forall c :: !IsChain(h, disk, d, c)
    ensures forall c :: !WholeBy(h, disk, base, d, c)
  {
  }

  lemma {:induction false} GoodPrefix(h: Blob -> Digest, disk: Disk, base: Digest, c: seq<Item>, k: int)
    requires GoodChain(h, disk, base, c) && 0 <= k <= |c|
    ensures GoodChain(h, disk, base, c[..k])
    ensures k > 0 ==> HasLayer(h, disk, c[k - 1])
    decreases |c|
  {
    hide HasLayer, LayerOf, GoodConfig, IsDelta;
    if k == |c| {
      assert c[..k] == c;
    } else {
      GoodPrefix(h, disk, base, c[..|c| - 1], k);
      assert c[..|c| - 1][..k] == c[..k];
    }
  }

  lemma FoldOneMore(h: Blob -> Digest, disk: Disk, base: Digest, c: seq<Item>)
    requires GoodChain(h, disk, base, c) && c != []
    ensures GoodChain(h, disk, base, c[..|c| - 1])
    ensures Fold(map[], LayersOf(h, disk, base, c)) ==
            (var before := Fold(map[], LayersOf(h, disk, base, c[..|c| - 1]));
             if before.Fail? then Fail else ApplyAll(before.value, MakeLayer(LayerOf(h, disk, c[|c| - 1]))))
  {
    hide HasLayer, LayerOf, GoodConfig, IsDelta, ApplyAll, MakeLayer;
    var ls := LayersOf(h, disk, base, c);
    assert ls[..|ls| - 1] == LayersOf(h, disk, base, c[..|c| - 1]);
  }

  lemma {:induction false} FoldFails(h: Blob -> Digest, disk: Disk, base: Digest, c: seq<Item>, k: int)
    requires GoodChain(h, disk, base, c) && 0 <= k <= |c|
    requires GoodChain(h, disk, base, c[..k]) && Fold(map[], LayersOf(h, disk, base, c[..k])).Fail?
    ensures Fold(map[], LayersOf(h, disk, base, c)).Fail?
    decreases |c|
  {
    hide HasLayer, LayerOf, GoodConfig, IsDelta, ApplyAll, MakeLayer, Fold, GoodChain;
    if k == |c| {
      assert c[..k] == c;
    } else {
      FoldOneMore(h, disk, base, c);
      assert c[..|c| - 1][..k] == c[..k];
      FoldFails(h, disk, base, c[..|c| - 1], k);
    }
  }

  /** One base for the whole chain, no parent at its root, every parent link the item before
      it, and sequence numbers that increase. */
  predicate ValidLink(c: seq<Item>, i: int)
    requires 0 <= i < |c|
  {
    && c[i].config.base == c[0].config.base
    && (if i == 0 then c[0].config.parent.None?
        else c[i].config.parent == Some(c[i - 1].digest) && c[i].config.sequence > c[i - 1].config.sequence)
  }

  predicate ValidLinks(c: seq<Item>)
  {
    forall i :: 0 <= i < |c| ==> ValidLink(c, i)
  }

  ghost predicate ValidChain(h: Blob -> Digest, disk: Disk, d: Digest)
  {
    exists c :: c != [] && IsChain(h, disk, d, c) && ValidLinks(c)
  }

  lemma EmptyChainOnly(h: Blob -> Digest, disk: Disk, d: Digest, chain: Outcome<seq<Item>>)
    requires chain.Ok? ==> IsChain(h, disk, d, chain.value) && chain.value == []
    requires chain.Fail? ==> forall c :: !IsChain(h, disk, d, c)
    ensures forall c :: IsChain(h, disk, d, c) ==> c == []
  {
    hide IsChain;
    forall c | IsChain(h, disk, d, c) ensures c == [] {
      ChainUnique(h, disk, d, c, chain.value);
    }
  }

  lemma OneChain(h: Blob -> Digest, disk: Disk, d: Digest, chain: seq<Item>)
    requires IsChain(h, disk, d, chain)
    ensures forall c :: IsChain(h, disk, d, c) ==> c == chain
  {
    hide IsChain;
    forall c | IsChain(h, disk, d, c) ensures c == chain {
      ChainUnique(h, disk, d, c, chain);
    }
  }

  lemma DigestResolves(disk: Disk, d: Digest)
    ensures IsDigest(d) ==> Resolve(disk, d) == Ok(d)
  {
  }

  lemma ResolvedIsDigest(disk: Disk, ref: string)
    ensures Resolve(disk, ref).Ok? ==> IsDigest(Resolve(disk, ref).value)
  {
  }

  /** The file of a tag; a blank tag has none. */
  function TagFile(tag: string): set<string>
  {
    if TrimSpace(tag) == "" then {} else {SafeRefName(tag)}
  }

  /** Writing one tag works unless its name is no file or the rename fails. */
  predicate TagWorks(tag: string, renameOk: bool)
  {
    TrimSpace(tag) == "" || (IsRefFile(SafeRefName(tag)) && renameOk)
  }

  lemma OneUpdate(refs: map<string, string>, target: string, d: Digest)
    requires IsDigest(d)
    ensures var us := [RefUpdate(target, d, "")];
            && (forall ok :: AllAcceptable(refs, us) && AllTrue(ok, |Prepared(refs, us)|) && |ok| >= 1 ==>
                  TagWorks(target, ok[0]))
            && (forall ok :: |ok| >= 1 && TagWorks(target, ok[0]) ==>
                  AllAcceptable(refs, us) && AllTrue(ok, |Prepared(refs, us)|))
            && Files(us) == TagFile(target)
  {
    hide SafeRefName, IsDigest, IsRefFile;
    assert TrimSpace("") == "";
    var us := [RefUpdate(target, d, "")];
    assert us[..0] == [];
    assert |Prepared(refs, us)| == (if TrimSpace(target) == "" then 0 else 1);
    assert AllAcceptable(refs, us) <==> Acceptable(refs, [], us[0]);
  }

  lemma ParentHoldsTree(h: Blob -> Digest, disk: Disk, base: Digest, scanned: seq<TreeEntry>,
                        mount: Option<MountInfo>, opts: SnapshotOptions)
    requires Sound(h, disk, base) && MountIsGood(h, disk, scanned, mount, opts)
    ensures var parent := ParentOf(disk, mount, opts);
            parent.Some? && LoadDigest(h, disk, parent.value).Ok? ==>
              HoldsTree(LoadDigest(h, disk, parent.value).value.config)
  {
    hide Sound, LoadDigest, WholeBy, IsTree, IsListing, TreeMap, OverlayShows, Resolve, Unreserved;
    var parent := ParentOf(disk, mount, opts);
    if parent.Some? && !Mounted(mount, opts) {
      ParentIsWhole(h, disk, base, mount, opts);
      var c := ChainOfWhole(h, disk, base, parent.value);
      LoadsTop(h, disk, base, parent.value, c);
    }
  }

  lemma RootHasNoParent(h: Blob -> Digest, disk: Disk, base: Digest, d: Digest, c: seq<Item>)
    requires WholeBy(h, disk, base, d, c) && |c| <= 1
    ensures |c| == 1 && c[0].config.parent == None
  {
    hide IsChain, LoadDigest;
    GoodTop(h, disk, base, c);
  }

  /** A snapshot taken on a mount whose chain is no longer complete cannot be restored. */
  lemma WholeOnlyOnWhole(h: Blob -> Digest, disk: Disk, base: Digest, d: Digest)
    requires Whole(h, disk, base, d)
    ensures LoadDigest(h, disk, d).Ok?
    ensures var parent := LoadDigest(h, disk, d).value.config.parent;
            parent.Some? ==> Whole(h, disk, base, parent.value)
  {
    hide WholeBy, LoadDigest;
    var c := ChainOfWhole(h, disk, base, d);
    LoadsTop(h, disk, base, d, c);
    if |c| > 1 {
      WholeBelow(h, disk, base, d, c);
    } else {
      RootHasNoParent(h, disk, base, d, c);
    }
  }

  /** A new snapshot can be restored if and only if the one it was taken on can, on the disk
      that holds its blobs. */
  lemma NewWholeIff(h: Blob -> Digest, disk: Disk, base: Digest, cfg: Config, l: Layer, m: Digest)
    requires HasBlobs(h, disk, cfg, l, m)
    requires cfg.sequence == NextSequence(h, disk, cfg.parent) && cfg.base == base
    requires HoldsTree(cfg) && Unreserved(TreeMap(cfg.tree))
    requires IsDelta(ParentTree(h, disk, cfg.parent), TreeMap(cfg.tree), l)
    ensures Whole(h, disk, base, m) <==> cfg.parent.None? || Whole(h, disk, base, cfg.parent.value)
  {
    hide HasBlobs, LoadDigest, WholeBy, IsDelta, HoldsTree, Unreserved, TreeMap, IsListing, IsTree;
    NewLoads(h, disk, cfg, l, m);
    if Whole(h, disk, base, m) {
      WholeOnlyOnWhole(h, disk, base, m);
    }
    if cfg.parent.None? {
      NewIsWhole(h, disk, base, [], cfg, l, m);
    } else if Whole(h, disk, base, cfg.parent.value) {
      var c := ChainOfWhole(h, disk, base, cfg.parent.value);
      LoadsTop(h, disk, base, cfg.parent.value, c);
      NewIsWhole(h, disk, base, c, cfg, l, m);
    }
  }

  lemma LoadGrows(h: Blob -> Digest, from: Disk, to: Disk, d: Digest)
    requires Grows(from, to) && LoadDigest(h, from, d).Ok?
    ensures LoadDigest(h, to, d) == LoadDigest(h, from, d) && TreeAt(h, to, d) == TreeAt(h, from, d)
  {
  }

  lemma WholeGrows(h: Blob -> Digest, from: Disk, to: Disk, base: Digest, d: Digest)
    requires Grows(from, to) && Whole(h, from, base, d)
    ensures Whole(h, to, base, d) && TreeAt(h, to, d) == TreeAt(h, from, d)
  {
    hide WholeBy, TreeAt;
    var c := ChainOfWhole(h, from, base, d);
    WholeKept(h, from, to, base, d, c);
  }

  lemma {:induction false} PlainEscape(s: string)
    requires IsEscaped(s)
    ensures Escape(s) == s
  {
    if s != "" {
      PlainEscape(s[1..]);
      assert s == [s[0]] + s[1..];
    }
  }

  lemma LatestIsPlain()
    ensures TrimSpace("latest") == "latest" && SafeRefName("latest") == "latest"
  {
    assert TrimLeft("latest") == "latest";
    assert TrimRight("latest") == "latest";
    assert !(":" <= "latest");
    PlainEscape("latest");
  }

  lemma {:induction false} FilesHas(us: seq<RefUpdate>, i: int)
    requires 0 <= i < |us| && !Blank(us[i])
    ensures SafeRefName(us[i].name) in Files(us)
    decreases |us|
  {
    hide Blank, SafeRefName;
    if i < |us| - 1 {
      FilesHas(us[..|us| - 1], i);
    }
  }

  // ----- the workspace

  class Workspace {
    const store: LocalStore
    const base: Digest
    /** `snap-%06d`. */
    const autoId: int -> string

    ghost predicate Valid()
      reads store
    {
      Sound(store.h, store.Contents(), base)
    }

    /** The tree every ref stands for. */
    function Refs(): map<string, Tree>
      reads store
    {
      Meaning(store.h, store.Contents())
    }

    constructor (store: LocalStore, base: Digest, autoId: int -> string)
      requires Ideal(store.h) && store.blobs == map[] && store.refs == map[]
      ensures this.store == store && this.base == base && this.autoId == autoId
      ensures Valid() && Refs() == map[]
    {
      this.store := store;
      this.base := base;
      this.autoId := autoId;
    }

    function IdOf(opts: SnapshotOptions, sequence: int): string
    {
      if opts.tag != "" then opts.tag else autoId(sequence)
    }

    /** The ref updates of a snapshot with manifest `d`. */
    function Updates(disk: Disk, mount: Option<MountInfo>, opts: SnapshotOptions, d: Digest): seq<RefUpdate>
    {
      var id := IdOf(opts, NextSequence(store.h, disk, ParentOf(disk, mount, opts)));
      TagUpdates(UniqueTags([id, opts.tag, opts.alsoTag, "latest"]), id, opts.expectedParent, d)
    }

    /** The ref files of a snapshot: its id, the two tags asked for, and `latest`. */
    function SnapFiles(disk: Disk, mount: Option<MountInfo>, opts: SnapshotOptions): set<string>
    {
      Files(Updates(disk, mount, opts, SOME_DIGEST))
    }

    /** `latest` is among the files of every snapshot. */
    lemma LatestMoved(disk: Disk, mount: Option<MountInfo>, opts: SnapshotOptions)
      ensures "latest" in SnapFiles(disk, mount, opts)
    {
      hide NextSequence;
      var updates := Updates(disk, mount, opts, SOME_DIGEST);
      var id := IdOf(opts, NextSequence(store.h, disk, ParentOf(disk, mount, opts)));
      var tags := [id, opts.tag, opts.alsoTag, "latest"];
      LatestIsPlain();
      assert tags[3] == "latest";
      assert "latest" in UniqueTags(tags) by { hide TrimSpace; }
      var i :| 0 <= i < |UniqueTags(tags)| && UniqueTags(tags)[i] == "latest";
      FilesHas(updates, i);
    }

    /** When a snapshot succeeds: the manifest and the config of its parent load, there are no
        reserved names, every ref update is acceptable, and every rename works. */
    predicate SnapAllowed(disk: Disk, mount: Option<MountInfo>, opts: SnapshotOptions, tree: Tree, renameOk: seq<bool>)
    {
      var updates := Updates(disk, mount, opts, SOME_DIGEST);
      var parent := ParentOf(disk, mount, opts);
      && (parent.Some? ==> LoadDigest(store.h, disk, parent.value).Ok?)
      && Unreserved(tree) && AllAcceptable(disk.refs, updates) && AllTrue(renameOk, |Prepared(disk.refs, updates)|)
    }

    function ConfigOf(disk: Disk, mount: Option<MountInfo>, opts: SnapshotOptions, tree: seq<TreeEntry>): Config
    {
      var parent := ParentOf(disk, mount, opts);
      var sequence := NextSequence(store.h, disk, parent);
      Config(IdOf(opts, sequence), base, sequence, parent, tree, opts.meta)
    }

    /** The overlay branch. */
    method PlanFromUpper(parentTree: seq<TreeEntry>, mount: MountInfo, ghost scanned: seq<TreeEntry>)
      returns (l: Layer, tree: seq<TreeEntry>)
      requires IsListing(parentTree) && IsTree(TreeMap(parentTree)) && IsListing(scanned) && mount.upper.Some?
      requires OverlayShows(store.h, store.Contents(), scanned, mount)
      requires TreeMap(parentTree) == TreeAt(store.h, store.Contents(), mount.source)
      ensures tree == scanned && IsDelta(TreeMap(parentTree), TreeMap(scanned), l)
    {
      hide IsTree, IsListing, TreeMap, TreeAt, IsDelta, View, UpperIn, WhiteoutsIn, OpaquesIn, Unreserved, IsMarker;
      ghost var raw := TreeMap(mount.upper.value);
      var entries, whiteouts := ScanOverlayUpper(mount.upper.value);
      ScannedUpper(raw);
      assert WhiteoutsIn(raw) + {} == WhiteoutsIn(raw);
      l, tree := SnapshotUpper(parentTree, entries, whiteouts, {}, WhiteoutsIn(raw));
      NothingLost(TreeMap(parentTree), UpperIn(raw));
      ListingUnique(tree, scanned);
    }

    /** The config and the layer of a snapshot on the current disk. For an overlay mount the
        layer and the tree come from the upper directory. */
    method PlanSnapshot(scanned: seq<TreeEntry>, mount: Option<MountInfo>, opts: SnapshotOptions)
      returns (cfg: Config, l: Layer)
      requires Valid() && IsListing(scanned) && IsTree(TreeMap(scanned)) && Unreserved(TreeMap(scanned))
      requires MountIsGood(store.h, store.Contents(), scanned, mount, opts)
      requires var parent := ParentOf(store.Contents(), mount, opts);
               parent.Some? ==> LoadDigest(store.h, store.Contents(), parent.value).Ok?
      ensures cfg == ConfigOf(store.Contents(), mount, opts, scanned)
      ensures IsDelta(ParentTree(store.h, store.Contents(), cfg.parent), TreeMap(scanned), l)
    {
      hide IsTree, IsListing, Unreserved, TreeMap, LoadDigest, Resolve, IsDelta, Sound, OverlayShows;
      var parent := ParentOf(store.Contents(), mount, opts);
      ParentHoldsTree(store.h, store.Contents(), base, scanned, mount, opts);
      var parentTree: seq<TreeEntry> := [];
      var sequence := 1;
      EmptyHead();
      if parent.Some? {
        var loaded := LoadDigest(store.h, store.Contents(), parent.value).value;
        parentTree := loaded.config.tree;
        sequence := loaded.config.sequence + 1;
      }
      assert TreeMap(parentTree) == ParentTree(store.h, store.Contents(), parent);
      l := DiffLayerEntries(parentTree, scanned);
      var tree := scanned;
      if Mounted(mount, opts) && mount.value.upper.Some? {
        l, tree := PlanFromUpper(parentTree, mount.value, scanned);
      }
      cfg := Config(IdOf(opts, sequence), base, sequence, parent, tree, opts.meta);
    }

    /** The ref updates at the end of a snapshot or a fork. The workspace stays sound if and
        only if the new target is a complete snapshot. */
    method Publish(updates: seq<RefUpdate>, digest: Digest, renameOk: seq<bool>) returns (ok: bool)
      requires Valid() && |updates| <= |renameOk| && forall i :: 0 <= i < |updates| ==> updates[i].digest == digest
      modifies store`refs
      ensures ok <==> AllAcceptable(old(store.refs), updates) && AllTrue(renameOk, |Prepared(old(store.refs), updates)|)
      ensures store.refs == if ok then Overlaid(old(store.refs), Files(updates), digest) else old(store.refs)
      ensures Whole(store.h, store.Contents(), base, digest) <==> Whole(store.h, old(store.Contents()), base, digest)
      ensures Valid() <==> !ok || Files(updates) == {} || Whole(store.h, store.Contents(), base, digest)
      ensures TreeAt(store.h, store.Contents(), digest) == TreeAt(store.h, old(store.Contents()), digest)
      ensures LoadDigest(store.h, store.Contents(), digest) == LoadDigest(store.h, old(store.Contents()), digest)
      ensures Refs() == if ok then Overlaid(old(Refs()), Files(updates), TreeAt(store.h, old(store.Contents()), digest))
                        else old(Refs())
    {
      hide AllAcceptable, AllTrue, Prepared, Files, Installed, Whole, TreeAt, Ideal, Intact;
      ghost var disk := store.Contents();
      ok := store.WriteRefsIfExpected(updates, renameOk);
      if ok {
        InstalledSame(disk.refs, updates, digest);
      }
      OnlyRefs(store.h, disk, store.refs, base);
      if ok && Files(updates) != {} {
        var f :| f in Files(updates);
        assert f in store.refs && store.refs[f] == digest;
      }
    }

    /** The three blobs of a snapshot: layer, config, manifest. It can be restored if and only
        if the one it was taken on can. */
    method WriteSnapshot(cfg: Config, l: Layer) returns (m: Digest)
      requires Valid() && HoldsTree(cfg) && Unreserved(TreeMap(cfg.tree))
      requires cfg.parent.Some? ==> LoadDigest(store.h, store.Contents(), cfg.parent.value).Ok?
      requires cfg.sequence == NextSequence(store.h, store.Contents(), cfg.parent) && cfg.base == base
      requires IsDelta(ParentTree(store.h, store.Contents(), cfg.parent), TreeMap(cfg.tree), l)
      modifies store`blobs
      ensures Valid() && Grows(old(store.Contents()), store.Contents())
      ensures Refs() == old(Refs())
      ensures IsDigest(m) && TreeAt(store.h, store.Contents(), m) == TreeMap(cfg.tree)
      ensures LoadDigest(store.h, store.Contents(), m).Ok? &&
              LoadDigest(store.h, store.Contents(), m).value.config == cfg
      ensures Whole(store.h, store.Contents(), base, m) <==>
              cfg.parent.None? || Whole(store.h, store.Contents(), base, cfg.parent.value)
    {
      hide HoldsTree, Unreserved, Whole, TreeMap, IsDelta, ReadBlob, LoadDigest, TreeAt, Ideal, Intact, Meaning;
      ghost var disk0 := store.Contents();
      WriteGrows(store.h, store.blobs, LayerBlob(l), store.refs);
      var layerDigest := store.WriteBlob(LayerBlob(l));
      ghost var disk1 := store.Contents();
      WriteGrows(store.h, store.blobs, ConfigBlob(cfg), store.refs);
      var configDigest := store.WriteBlob(ConfigBlob(cfg));
      ghost var disk2 := store.Contents();
      var manifest := ManifestBlob(Manifest(configDigest, [layerDigest]));
      WriteGrows(store.h, store.blobs, manifest, store.refs);
      m := store.WriteBlob(manifest);
      ReadAfterGrowth(store.h, disk1, disk2, layerDigest);
      ReadAfterGrowth(store.h, disk2, store.Contents(), layerDigest);
      ReadAfterGrowth(store.h, disk2, store.Contents(), configDigest);
      SoundGrows(store.h, disk0, store.Contents(), base);
      DigestOfBlob(store.h, manifest);
      NewLoads(store.h, store.Contents(), cfg, l, m);
      if cfg.parent.Some? {
        LoadGrows(store.h, disk0, store.Contents(), cfg.parent.value);
      }
      NewWholeIff(store.h, store.Contents(), base, cfg, l, m);
    }

    /** `Snapshot` of a scanned directory, unencrypted and unsigned. Blobs first, refs last:
        a failure leaves every ref as it was; success makes the tags, and no other ref,
        stand for the scanned tree. Of a mount only the manifest and the config have to load.
        The workspace stays sound if and only if the new snapshot can be restored, which on a
        mount is to say that the mounted one can. */
    method Snapshot(scanned: seq<TreeEntry>, mount: Option<MountInfo>, opts: SnapshotOptions, renameOk: seq<bool>)
      returns (ok: bool, digest: Digest)
      requires Valid() && IsListing(scanned) && IsTree(TreeMap(scanned)) && |renameOk| >= 4
      requires MountIsGood(store.h, store.Contents(), scanned, mount, opts)
      modifies store
      ensures Grows(old(store.Contents()), store.Contents())
      ensures ok <==> SnapAllowed(old(store.Contents()), mount, opts, TreeMap(scanned), renameOk)
      ensures !ok ==> store.refs == old(store.refs) && Refs() == old(Refs())
      ensures ok ==> (Whole(store.h, store.Contents(), base, digest) <==>
                      !Mounted(mount, opts) || Whole(store.h, store.Contents(), base, mount.value.source))
      ensures Valid() <==> !ok || Whole(store.h, store.Contents(), base, digest)
      ensures ok ==> IsDigest(digest) && LoadDigest(store.h, store.Contents(), digest).Ok? &&
                     LoadDigest(store.h, store.Contents(), digest).value.config ==
                     ConfigOf(old(store.Contents()), mount, opts, scanned)
      ensures ok ==> TreeAt(store.h, store.Contents(), digest) == TreeMap(scanned)
      ensures ok ==> var files := SnapFiles(old(store.Contents()), mount, opts);
                     store.refs == Overlaid(old(store.refs), files, digest) &&
                     Refs() == Overlaid(old(Refs()), files, TreeMap(scanned))
    {
      hide IsTree, IsListing, Unreserved, Whole, TreeMap, LoadDigest, Resolve, Sound, Meaning, TreeAt,
           AllAcceptable, AllTrue, Prepared, Files, UniqueTags, MountIsGood;
      var disk := store.Contents();
      var parent := ParentOf(disk, mount, opts);
      if parent.Some? && LoadDigest(store.h, disk, parent.value).Fail? {
        return false, "";
      }
      var unreserved := CheckUnreserved(scanned);
      if !unreserved {
        return false, "";
      }
      var cfg, l := PlanSnapshot(scanned, mount, opts);
      digest := WriteSnapshot(cfg, l);
      ghost var middle := store.Contents();
      var id := IdOf(opts, NextSequence(store.h, disk, parent));
      AtMostFourTags([id, opts.tag, opts.alsoTag, "latest"]);
      SameNames(disk.refs, Updates(disk, mount, opts, digest), Updates(disk, mount, opts, SOME_DIGEST));
      LatestMoved(disk, mount, opts);
      ok := Publish(Updates(disk, mount, opts, digest), digest, renameOk);
      OnlyRefs(store.h, middle, store.refs, base);
      if parent.Some? && !Mounted(mount, opts) {
        ParentIsWhole(store.h, disk, base, mount, opts);
        WholeGrows(store.h, disk, store.Contents(), base, parent.value);
      }
    }

    method ExtractChain(chain: seq<Item>) returns (r: Outcome<Tree>)
      ensures GoodChain(store.h, store.Contents(), base, chain) ==>
                r == Fold(map[], LayersOf(store.h, store.Contents(), base, chain))
    {
      hide ApplyAll, MakeLayer, ReadBlob, GoodConfig, IsDelta;
      var target := new Target();
      for i := 0 to |chain|
        invariant fresh(target)
        invariant GoodChain(store.h, store.Contents(), base, chain) ==>
                    GoodChain(store.h, store.Contents(), base, chain[..i]) &&
                    Fold(map[], LayersOf(store.h, store.Contents(), base, chain[..i])) == Ok(target.files)
      {
        ghost var good := GoodChain(store.h, store.Contents(), base, chain);
        if good {
          GoodPrefix(store.h, store.Contents(), base, chain, i + 1);
          assert chain[..i + 1][..i] == chain[..i];
        }
        if !HasLayer(store.h, store.Contents(), chain[i]) {
          return Fail;
        }
        var ok := target.ExtractLayer(MakeLayer(LayerOf(store.h, store.Contents(), chain[i])));
        if good {
          FoldOneMore(store.h, store.Contents(), base, chain[..i + 1]);
        }
        if !ok {
          if good {
            GoodPrefix(store.h, store.Contents(), base, chain, |chain|);
            FoldFails(store.h, store.Contents(), base, chain, i + 1);
          }
          return Fail;
        }
      }
      assert chain[..|chain|] == chain;
      return Ok(target.files);
    }

    /** `Restore`: unpack every layer of the chain, root first, into an empty directory, and
        check the result against the config. */
    method Restore(ref: string) returns (r: Outcome<Tree>)
      requires Valid()
      ensures r.Ok? ==> Resolve(store.Contents(), ref).Ok? &&
                        r.value == TreeAt(store.h, store.Contents(), Resolve(store.Contents(), ref).value)
      ensures forall c :: Resolve(store.Contents(), ref).Ok? &&
                          WholeBy(store.h, store.Contents(), base, Resolve(store.Contents(), ref).value, c) ==>
                            (r.Ok? <==> AllRestorable(TreesOf(c)))
    {
      hide Resolve, LoadDigest, TreeAt, WholeBy, AllRestorable, Sound, ReadBlob, ApplyAll, MakeLayer, IsTree, Fold;
      var loaded := Load(store.h, store.Contents(), ref);
      if loaded.Fail? {
        NotLoaded(store.h, store.Contents(), base, ref);
        return Fail;
      }
      ghost var d := Resolve(store.Contents(), ref).value;
      LoadedDigest(store.h, store.Contents(), ref);
      var chain := SnapshotChain(store.h, store.Contents(), loaded.value.digest);
      if chain.Fail? {
        NoWholeChain(store.h, store.Contents(), base, d);
        return Fail;
      }
      var tree := ExtractChain(chain.value);
      r := if tree.Ok? && tree.value == ConfigTree(loaded.value) then tree else Fail;
      forall c | WholeBy(store.h, store.Contents(), base, d, c)
        ensures r == if AllRestorable(TreesOf(c)) then Ok(TreeAt(store.h, store.Contents(), d)) else Fail
      {
        WholeIsUnique(store.h, store.Contents(), base, d, c, chain.value);
        WholeIsGood(store.h, store.Contents(), base, d, c);
        WholeRestores(store.h, store.Contents(), base, d, c);
      }
    }

    /** `ValidateChain`. */
    method ValidateChain(ref: string) returns (ok: bool)
      ensures ok <==> Resolve(store.Contents(), ref).Ok? &&
                      ValidChain(store.h, store.Contents(), Resolve(store.Contents(), ref).value)
    {
      hide IsChain, Resolve;
      var digest := Resolve(store.Contents(), ref);
      if digest.Fail? {
        return false;
      }
      var chain := SnapshotChain(store.h, store.Contents(), digest.value);
      if chain.Fail? || chain.value == [] {
        EmptyChainOnly(store.h, store.Contents(), digest.value, chain);
        return false;
      }
      var items := chain.value;
      OneChain(store.h, store.Contents(), digest.value, items);
      ok := true;
      for i := 0 to |items|
        invariant forall k :: 0 <= k < i ==> ValidLink(items, k)
      {
        if !ValidLink(items, i) {
          return false;
        }
      }
    }

    ghost predicate ForkAllowed(disk: Disk, source: string, target: string, renameOk: seq<bool>)
      requires |renameOk| >= 1
    {
      && Resolve(disk, source).Ok? && ValidChain(store.h, disk, Resolve(disk, source).value)
      && target != "" && !IsDigest(target) && TagWorks(target, renameOk[0])
    }

    /** `Fork`. A chain that does not load or is not linked is refused. What is let through is
        a chain whose layers are missing; then, and only then, the new tag is not sound. */
    method Fork(source: string, target: string, renameOk: seq<bool>) returns (ok: bool)
      requires Valid() && |renameOk| >= 1
      modifies store`refs
      ensures ok <==> ForkAllowed(old(store.Contents()), source, target, renameOk)
      ensures !ok ==> store.refs == old(store.refs)
      ensures ok ==> var d := Resolve(old(store.Contents()), source).value;
                     store.refs == Overlaid(old(store.refs), TagFile(target), d) &&
                     Refs() == Overlaid(old(Refs()), TagFile(target), TreeAt(store.h, old(store.Contents()), d))
      ensures Valid() <==> !ok || TagFile(target) == {} ||
                           Whole(store.h, old(store.Contents()), base, Resolve(old(store.Contents()), source).value)
    {
      hide Resolve, Sound, Whole, TreeAt, SafeRefName, TrimSpace, IsDigest, Meaning, IsRefFile, LoadDigest,
           AllAcceptable, Prepared;
      ghost var disk := store.Contents();
      var digest := Resolve(store.Contents(), source);
      if digest.Fail? {
        return false;
      }
      ResolvedIsDigest(disk, source);
      var valid := ValidateChain(digest.value);
      DigestResolves(store.Contents(), digest.value);
      if !valid {
        return false;
      }
      if target == "" || IsDigest(target) {
        return false;
      }
      OneUpdate(store.refs, target, digest.value);
      ok := Publish([RefUpdate(target, digest.value, "")], digest.value, renameOk);
    }

    /** Is this the digest of a snapshot that can be restored? */
    method IsWhole(d: Digest) returns (whole: bool)
      ensures whole <==> Whole(store.h, store.Contents(), base, d)
    {
      hide IsChain, GoodChain;
      if !IsDigest(d) {
        return false;
      }
      var chain := SnapshotChain(store.h, store.Contents(), d);
      if chain.Fail? || chain.value == [] {
        EmptyChainOnly(store.h, store.Contents(), d, chain);
        return false;
      }
      OneChain(store.h, store.Contents(), d, chain.value);
      whole := GoodChain(store.h, store.Contents(), base, chain.value);
      if whole {
        assert WholeBy(store.h, store.Contents(), base, d, chain.value);
      }
    }
  }

  // ----- what a snapshot's own config says about it

  lemma SameBelow(h: Blob -> Digest, disk: Disk, base: Digest, d: Digest, a: seq<Item>, e: Digest, b: seq<Item>)
    requires WholeBy(h, disk, base, d, a) && WholeBy(h, disk, base, e, b)
    requires a[|a| - 1].config == b[|b| - 1].config
    ensures a[..|a| - 1] == b[..|b| - 1]
  {
    hide GoodChain, LoadDigest, IsChain;
    var m, n := |a| - 1, |b| - 1;
    ChainBelow(h, disk, d, a, m);
    ChainBelow(h, disk, e, b, n);
    if a[m].config.parent.Some? {
      ChainUnique(h, disk, a[m].config.parent.value, a[..m], b[..n]);
    }
  }

  lemma SameManifest(h: Blob -> Digest, disk: Disk, x: Item, y: Item)
    requires LoadDigest(h, disk, x.digest) == Ok(x) && LoadDigest(h, disk, y.digest) == Ok(y) && x.config == y.config
    requires HasLayer(h, disk, x) && HasLayer(h, disk, y) && LayerOf(h, disk, x) == LayerOf(h, disk, y)
    ensures x.digest == y.digest
  {
    hide IsDigest;
    assert x.manifest.layers == [h(LayerBlob(LayerOf(h, disk, x)))];
    assert y.manifest.layers == [h(LayerBlob(LayerOf(h, disk, y)))];
  }

  lemma SameTop(h: Blob -> Digest, disk: Disk, base: Digest, d: Digest, a: seq<Item>, e: Digest, b: seq<Item>)
    requires WholeBy(h, disk, base, d, a) && WholeBy(h, disk, base, e, b)
    requires a[|a| - 1].config == b[|b| - 1].config && a[..|a| - 1] == b[..|b| - 1]
    ensures d == e
  {
    hide IsDelta, IsListing, IsTree, Unreserved, IsDigest, TreeMap;
    var x, y := a[|a| - 1], b[|b| - 1];
    LoadsTop(h, disk, base, d, a);
    LoadsTop(h, disk, base, e, b);
    DeltaUnique(HeadOf(a[..|a| - 1]), ConfigTree(x), LayerOf(h, disk, x), LayerOf(h, disk, y));
    SameManifest(h, disk, x, y);
  }

  /** The config decides the layer, and with it the digest: the same tree recorded again in
      the same second with the same message is the same snapshot. */
  lemma SameConfigSameDigest(h: Blob -> Digest, disk: Disk, base: Digest, d: Digest, e: Digest)
    requires Whole(h, disk, base, d) && Whole(h, disk, base, e)
    requires LoadDigest(h, disk, d).Ok? && LoadDigest(h, disk, e).Ok?
    requires LoadDigest(h, disk, d).value.config == LoadDigest(h, disk, e).value.config
    ensures d == e
  {
    hide WholeBy, LoadDigest;
    var a := ChainOfWhole(h, disk, base, d);
    var b := ChainOfWhole(h, disk, base, e);
    LoadsTop(h, disk, base, d, a);
    LoadsTop(h, disk, base, e, b);
    SameBelow(h, disk, base, d, a, e, b);
    SameTop(h, disk, base, d, a, e, b);
  }

  /** Every snapshot of a whole chain is whole. */
  lemma PrefixIsWhole(h: Blob -> Digest, disk: Disk, base: Digest, d: Digest, c: seq<Item>, i: int)
    requires WholeBy(h, disk, base, d, c) && 0 <= i < |c|
    ensures Whole(h, disk, base, c[i].digest) && LoadDigest(h, disk, c[i].digest) == Ok(c[i])
    ensures c[i].config.parent.None? <==> i == 0
  {
    hide GoodChain, LoadDigest;
    ChainBelow(h, disk, d, c, i);
    GoodPrefix(h, disk, base, c, i + 1);
    GoodTop(h, disk, base, c[..i + 1]);
    DigestResolves(disk, c[i].digest);
    assert c[..i + 1][..i] == c[..i];
    assert WholeBy(h, disk, base, c[i].digest, c[..i + 1]);
  }

  // ----- snapshots of a sound workspace

  lemma {:induction false} GoodLinks(h: Blob -> Digest, disk: Disk, base: Digest, c: seq<Item>)
    requires GoodChain(h, disk, base, c)
    ensures ValidLinks(c) && forall i :: 0 <= i < |c| ==> c[i].config.base == base && c[i].config.sequence == i + 1
    decreases |c|
  {
    hide GoodChain;
    if c != [] {
      var n := |c| - 1;
      GoodTop(h, disk, base, c);
      GoodLinks(h, disk, base, c[..n]);
      forall i | 0 <= i < n ensures ValidLink(c, i) {
        assert ValidLink(c[..n], i);
      }
      if n > 0 {
        assert c[..n][n - 1] == c[n - 1] && c[..n][0] == c[0];
      }
    }
  }

  /** `ValidateChain` accepts every whole snapshot. */
  lemma WholeValidates(h: Blob -> Digest, disk: Disk, base: Digest, d: Digest)
    requires Whole(h, disk, base, d)
    ensures ValidChain(h, disk, d)
  {
    hide GoodChain, IsChain;
    var c :| WholeBy(h, disk, base, d, c);
    GoodLinks(h, disk, base, c);
  }

  lemma ResolvesWhole(h: Blob -> Digest, disk: Disk, base: Digest, ref: string)
    requires Sound(h, disk, base) && Resolve(disk, ref).Ok?
    requires IsDigest(ref) ==> Whole(h, disk, base, ref)
    ensures Whole(h, disk, base, Resolve(disk, ref).value) && IsDigest(Resolve(disk, ref).value)
  {
    hide Whole, Ideal, Intact;
  }
}
