/** What it means that a ref can be restored, and what keeps it so. */
module Histories {
  import opened Trees
  import opened Layers
  import opened RestoreProofs
  import opened Store
  import opened Prune

  /** No two blobs share a digest, and digests look like digests. */
  ghost predicate Ideal(h: Blob -> Digest)
  {
    && (forall b :: IsDigest(h(b)) && TrimSpace(h(b)) == h(b))
    && (forall a, b :: h(a) == h(b) ==> a == b)
  }

  /** Every file under `blobs` has the content its name says. */
  ghost predicate Intact(h: Blob -> Digest, blobs: map<Digest, Blob>)
  {
    forall d :: d in blobs ==> h(blobs[d]) == d
  }

  function ConfigTree(item: Item): Tree
  {
    TreeMap(item.config.tree)
  }

  function HeadOf(c: seq<Item>): Tree
  {
    if c == [] then map[] else ConfigTree(c[|c| - 1])
  }

  predicate HasLayer(h: Blob -> Digest, disk: Disk, item: Item)
  {
    && |item.manifest.layers| == 1
    && ReadBlob(h, disk, item.manifest.layers[0]).Ok?
    && ReadBlob(h, disk, item.manifest.layers[0]).value.LayerBlob?
  }

  function LayerOf(h: Blob -> Digest, disk: Disk, item: Item): Layer
    requires HasLayer(h, disk, item)
  {
    ReadBlob(h, disk, item.manifest.layers[0]).value.layer
  }

  /** The config holds a proper tree, linked to the item before it. */
  predicate GoodConfig(base: Digest, before: seq<Item>, item: Item)
  {
    && IsListing(item.config.tree) && IsTree(ConfigTree(item)) && Unreserved(ConfigTree(item))
    && item.config.parent == (if before == [] then None else Some(before[|before| - 1].digest))
    && item.config.sequence == |before| + 1
    && item.config.base == base
    && IsDigest(item.digest)
  }

  /** Every item has its one layer in the store, and that layer is the delta from the tree
      of the item before it. */
  predicate GoodChain(h: Blob -> Digest, disk: Disk, base: Digest, c: seq<Item>)
  {
    c == [] ||
    (var n := |c| - 1;
     && GoodChain(h, disk, base, c[..n])
     && GoodConfig(base, c[..n], c[n])
     && HasLayer(h, disk, c[n])
     && IsDelta(HeadOf(c[..n]), ConfigTree(c[n]), LayerOf(h, disk, c[n])))
  }

  /** `d` is a snapshot with a complete chain of such items. */
  ghost predicate WholeBy(h: Blob -> Digest, disk: Disk, base: Digest, d: Digest, c: seq<Item>)
  {
    c != [] && IsDigest(d) && IsChain(h, disk, d, c) && GoodChain(h, disk, base, c)
  }

  ghost predicate Whole(h: Blob -> Digest, disk: Disk, base: Digest, d: Digest)
  {
    exists c :: WholeBy(h, disk, base, d, c)
  }

  /** The tree in the config of a snapshot. */
  function TreeAt(h: Blob -> Digest, disk: Disk, d: Digest): Tree
  {
    match LoadDigest(h, disk, d)
    case Ok(item) => ConfigTree(item)
    case Fail => map[]
  }

  /** What the refs mean: the tree each of them stands for. */
  function Meaning(h: Blob -> Digest, disk: Disk): map<string, Tree>
  {
    map r | r in disk.refs :: TreeAt(h, disk, disk.refs[r])
  }

  /** Every ref names a snapshot that can be restored. */
  ghost predicate Sound(h: Blob -> Digest, disk: Disk, base: Digest)
  {
    && Ideal(h) && Intact(h, disk.blobs)
    && forall r :: r in disk.refs ==> Whole(h, disk, base, disk.refs[r])
  }

  // ----- a whole snapshot restores to its tree

  function LayersOf(h: Blob -> Digest, disk: Disk, base: Digest, c: seq<Item>): (r: seq<Layer>)
    requires GoodChain(h, disk, base, c)
    ensures |r| == |c|
  {
    if c == [] then []
    else LayersOf(h, disk, base, c[..|c| - 1]) + [LayerOf(h, disk, c[|c| - 1])]
  }

  function TreesOf(c: seq<Item>): (r: seq<Tree>)
    ensures |r| == |c|
  {
    if c == [] then [] else TreesOf(c[..|c| - 1]) + [ConfigTree(c[|c| - 1])]
  }

  lemma {:induction false} GoodIsHistory(h: Blob -> Digest, disk: Disk, base: Digest, c: seq<Item>)
    requires GoodChain(h, disk, base, c)
    ensures IsHistory(LayersOf(h, disk, base, c), TreesOf(c)) && HeadTree(TreesOf(c)) == HeadOf(c)
    decreases |c|
  {
    hide IsTree, Unreserved, IsDelta, IsListing, ReadBlob;
    if c != [] {
      var n := |c| - 1;
      GoodIsHistory(h, disk, base, c[..n]);
      assert LayersOf(h, disk, base, c)[..n] == LayersOf(h, disk, base, c[..n]);
      assert TreesOf(c)[..n] == TreesOf(c[..n]);
    }
  }

  /** The layers of a whole snapshot, unpacked root first, give the tree in its config. */
  lemma WholeRestores(h: Blob -> Digest, disk: Disk, base: Digest, d: Digest, c: seq<Item>)
    requires WholeBy(h, disk, base, d, c)
    ensures Fold(map[], LayersOf(h, disk, base, c)) ==
            if AllRestorable(TreesOf(c)) then Ok(TreeAt(h, disk, d)) else Fail
  {
    hide GoodChain, IsHistory, AllRestorable, Fold, LoadDigest;
    GoodIsHistory(h, disk, base, c);
    RestoreChain(LayersOf(h, disk, base, c), TreesOf(c));
    ChainBelow(h, disk, d, c, |c| - 1);
  }

  // ----- what keeps a snapshot whole

  /** Other disks on which the blobs of a chain are the same. */
  ghost predicate Keeps(from: Disk, to: Disk, needed: set<Digest>)
  {
    forall d :: d in needed && d in from.blobs ==> d in to.blobs && to.blobs[d] == from.blobs[d]
  }

  lemma LoadKept(h: Blob -> Digest, from: Disk, to: Disk, d: Digest, needed: set<Digest>)
    requires Keeps(from, to, needed) && LoadDigest(h, from, d).Ok? && BlobsOf(LoadDigest(h, from, d).value) <= needed
    ensures LoadDigest(h, to, d) == LoadDigest(h, from, d)
  {
    hide IsDigest;
  }

  lemma LayerKept(h: Blob -> Digest, from: Disk, to: Disk, item: Item, needed: set<Digest>)
    requires Keeps(from, to, needed) && HasLayer(h, from, item) && BlobsOf(item) <= needed
    ensures HasLayer(h, to, item) && LayerOf(h, to, item) == LayerOf(h, from, item)
  {
    hide IsDigest;
    assert item.manifest.layers[0] in item.manifest.layers;
  }

  lemma {:induction false} GoodKept(h: Blob -> Digest, from: Disk, to: Disk, base: Digest, c: seq<Item>,
                                    needed: set<Digest>)
    requires GoodChain(h, from, base, c) && Keeps(from, to, needed)
    requires forall k :: 0 <= k < |c| ==> BlobsOf(c[k]) <= needed
    ensures GoodChain(h, to, base, c)
    decreases |c|
  {
    hide BlobsOf, Keeps, HasLayer, LayerOf, IsDelta, GoodConfig;
    if c != [] {
      var n := |c| - 1;
      GoodKept(h, from, to, base, c[..n], needed);
      LayerKept(h, from, to, c[n], needed);
    }
  }

  lemma WholeIsDigest(h: Blob -> Digest, disk: Disk, base: Digest, d: Digest)
    requires Whole(h, disk, base, d)
    ensures IsDigest(d)
  {
    hide IsChain, GoodChain;
  }

  lemma GoodTop(h: Blob -> Digest, disk: Disk, base: Digest, c: seq<Item>)
    requires GoodChain(h, disk, base, c) && c != []
    ensures GoodChain(h, disk, base, c[..|c| - 1])
    ensures IsDigest(c[|c| - 1].digest) && c[|c| - 1].config.sequence == |c| && c[|c| - 1].config.base == base
    ensures c[|c| - 1].config.parent == if |c| == 1 then None else Some(c[|c| - 2].digest)
  {
    hide HasLayer, LayerOf, IsDelta, IsListing, IsTree, Unreserved;
    var n := |c| - 1;
    assert GoodConfig(base, c[..n], c[n]);
    if n > 0 {
      assert c[..n][n - 1] == c[n - 1];
    }
  }

  lemma WholeBelow(h: Blob -> Digest, disk: Disk, base: Digest, d: Digest, c: seq<Item>)
    requires WholeBy(h, disk, base, d, c) && |c| > 1
    ensures WholeBy(h, disk, base, c[|c| - 2].digest, c[..|c| - 1])
    ensures Load(h, disk, d) == Ok(c[|c| - 1]) == LoadDigest(h, disk, d)
    ensures c[|c| - 1].config.parent == Some(c[|c| - 2].digest)
  {
    hide GoodChain, LoadDigest, SafeRefName;
    var n := |c| - 1;
    GoodTop(h, disk, base, c);
    GoodTop(h, disk, base, c[..n]);
    assert d != "";
    assert IsChain(h, disk, c[n - 1].digest, c[..n]);
  }

  lemma {:induction false} WalkKept(h: Blob -> Digest, from: Disk, to: Disk, base: Digest, d: Digest, c: seq<Item>,
                                    needed: set<Digest>)
    requires WholeBy(h, from, base, d, c) && Keeps(from, to, needed)
    requires forall k :: 0 <= k < |c| ==> BlobsOf(c[k]) <= needed
    ensures IsChain(h, to, d, c)
    decreases |c|
  {
    hide BlobsOf, Keeps, LoadDigest, GoodChain;
    var n := |c| - 1;
    LoadKept(h, from, to, d, needed);
    GoodTop(h, from, base, c);
    if n > 0 {
      WholeBelow(h, from, base, d, c);
      WalkKept(h, from, to, base, c[n - 1].digest, c[..n], needed);
    }
  }

  lemma WholeKept(h: Blob -> Digest, from: Disk, to: Disk, base: Digest, d: Digest, c: seq<Item>)
    requires WholeBy(h, from, base, d, c) && Keeps(from, to, BlobsOfAll(c))
    ensures WholeBy(h, to, base, d, c) && TreeAt(h, to, d) == TreeAt(h, from, d)
  {
    hide BlobsOf, Keeps, GoodChain, LoadDigest, BlobsOfAll;
    AllParts(c);
    GoodKept(h, from, to, base, c, BlobsOfAll(c));
    WalkKept(h, from, to, base, d, c, BlobsOfAll(c));
    ChainBelow(h, from, d, c, |c| - 1);
    ChainBelow(h, to, d, c, |c| - 1);
  }

  /** Links of a good chain are digests, so no ref can break them. */
  lemma {:induction false} GoodLinksAlive(h: Blob -> Digest, disk: Disk, base: Digest, d: Digest, c: seq<Item>,
                                          refs: map<string, string>)
    requires WholeBy(h, disk, base, d, c)
    ensures LinksAlive(refs, d, c)
    decreases |c|
  {
    hide GoodChain, LoadDigest, SafeRefName;
    var n := |c| - 1;
    GoodTop(h, disk, base, c);
    if n > 0 {
      WholeBelow(h, disk, base, d, c);
      GoodLinksAlive(h, disk, base, c[n - 1].digest, c[..n], refs);
      assert forall k :: 0 <= k < n ==> c[..n][k] == c[k];
    }
  }

  lemma WholeIsUnique(h: Blob -> Digest, disk: Disk, base: Digest, d: Digest, c: seq<Item>, e: seq<Item>)
    requires WholeBy(h, disk, base, d, c) && IsChain(h, disk, d, e)
    ensures c == e
  {
    hide IsChain, GoodChain;
    ChainUnique(h, disk, d, c, e);
  }
}
