/** Removing local snapshots: refs first, then every candidate blob that no remaining ref
    reaches. */
module Prune {
  import opened Layers
  import opened Store

  /** The config and the layers of a snapshot. */
  function PartsOf(item: Item): set<Digest>
  {
    {item.manifest.config} + set d | d in item.manifest.layers
  }

  /** The blobs one snapshot consists of. */
  function BlobsOf(item: Item): set<Digest>
  {
    {item.digest} + PartsOf(item)
  }

  function BlobsOfAll(chain: seq<Item>): set<Digest>
  {
    set i, d | 0 <= i < |chain| && d in BlobsOf(chain[i]) :: d
  }

  /** Reached from one ref: its digest and, if its chain is complete, all of the chain. */
  ghost predicate ReachedFrom(h: Blob -> Digest, disk: Disk, target: string, d: Digest)
  {
    d == target || exists c :: IsChain(h, disk, target, c) && d in BlobsOfAll(c)
  }

  ghost predicate Reached(h: Blob -> Digest, disk: Disk, d: Digest)
  {
    exists r :: r in disk.refs && ReachedFrom(h, disk, disk.refs[r], d)
  }

  /** What pruning a set of snapshots may remove. */
  ghost predicate Candidate(h: Blob -> Digest, disk: Disk, deleteSet: set<string>, d: Digest)
  {
    exists s :: s in deleteSet &&
      (d == s || (Load(h, disk, s).Ok? && d in PartsOf(Load(h, disk, s).value)))
  }

  function Named(candidates: seq<string>): set<string>
  {
    set s | s in candidates && TrimSpace(s) != "" :: TrimSpace(s)
  }

  /** The files pruning removes: those found under the listed names of refs to deleted
      snapshots. */
  function DeletedFiles(refs: map<string, string>, deleteSet: set<string>): set<string>
  {
    set f | f in refs && refs[f] in deleteSet :: Listed(f)
  }

  /** No such name stands for the refs directory itself or the one above it, which cannot be
      removed. */
  predicate NamesFit(refs: map<string, string>, deleteSet: set<string>)
  {
    forall f :: f in refs && refs[f] in deleteSet ==> IsRefFile(Listed(f))
  }

  /** Pruning removes exactly the refs that name deleted snapshots if and only if none of
      their files has space around its name. */
  lemma DeletesExactlyIff(refs: map<string, string>, deleteSet: set<string>)
    requires forall f :: f in refs ==> IsEscaped(f)
    ensures refs - DeletedFiles(refs, deleteSet) == (map f | f in refs && refs[f] !in deleteSet :: refs[f]) <==>
            forall f :: f in refs && refs[f] in deleteSet ==> TrimSpace(f) == f
  {
    hide TrimSpace, Listed, IsEscaped;
    forall f | f in refs ensures Listed(f) == TrimSpace(f) && TrimSpace(TrimSpace(f)) == TrimSpace(f) {
      ListedIsTrimmed(f);
      TrimTwice(f);
    }
    var exact := map f | f in refs && refs[f] !in deleteSet :: refs[f];
    if refs - DeletedFiles(refs, deleteSet) == exact {
      forall f | f in refs && refs[f] in deleteSet ensures TrimSpace(f) == f {
        assert f !in exact;
        assert f in DeletedFiles(refs, deleteSet);
        var e :| e in refs && refs[e] in deleteSet && Listed(e) == f;
      }
    }
    if forall f :: f in refs && refs[f] in deleteSet ==> TrimSpace(f) == f {
      assert refs - DeletedFiles(refs, deleteSet) == exact;
    }
  }

  lemma FromOneRef(h: Blob -> Digest, disk: Disk, target: string, chain: Outcome<seq<Item>>)
    requires chain.Ok? ==> IsChain(h, disk, target, chain.value)
    requires chain.Fail? ==> forall c :: !IsChain(h, disk, target, c)
    ensures forall d :: ReachedFrom(h, disk, target, d) <==>
                          d == target || (chain.Ok? && d in BlobsOfAll(chain.value))
  {
    hide IsChain, BlobsOfAll;
    forall d | ReachedFrom(h, disk, target, d) && d != target ensures chain.Ok? && d in BlobsOfAll(chain.value) {
      var c :| IsChain(h, disk, target, c) && d in BlobsOfAll(c);
      ChainUnique(h, disk, target, c, chain.value);
    }
  }

  // ----- surviving refs keep their chains

  /** A parent link that does not go through a deleted ref. */
  predicate LinkAlive(refs: map<string, string>, link: string)
  {
    link == "" || IsDigest(link) || SafeRefName(link) in refs
  }

  predicate LinksAlive(refs: map<string, string>, target: string, chain: seq<Item>)
  {
    && LinkAlive(refs, target)
    && forall k :: 0 <= k < |chain| && chain[k].config.parent.Some? ==> LinkAlive(refs, chain[k].config.parent.value)
  }

  /** `to` has less than `from`, and still all that the chain needs. */
  ghost predicate Shrinks(from: Disk, to: Disk, needed: set<Digest>)
  {
    && (forall r :: r in to.refs ==> r in from.refs && to.refs[r] == from.refs[r])
    && (forall d :: d in to.blobs ==> d in from.blobs && to.blobs[d] == from.blobs[d])
    && (forall d :: d in needed && d in from.blobs ==> d in to.blobs)
  }

  lemma LoadSame(h: Blob -> Digest, from: Disk, to: Disk, ref: string, needed: set<Digest>)
    requires Shrinks(from, to, needed) && LinkAlive(to.refs, ref) && ref != ""
    requires Load(h, from, ref).Ok? && BlobsOf(Load(h, from, ref).value) <= needed
    ensures Load(h, to, ref) == Load(h, from, ref)
  {
    hide SafeRefName, IsDigest;
  }

  lemma {:induction false} ChainSame(h: Blob -> Digest, from: Disk, to: Disk, ref: string, c: seq<Item>,
                                     needed: set<Digest>)
    requires IsChain(h, from, ref, c) && Shrinks(from, to, needed)
    requires forall k :: 0 <= k < |c| ==> BlobsOf(c[k]) <= needed
    requires LinksAlive(to.refs, ref, c)
    ensures IsChain(h, to, ref, c)
    decreases |c|
  {
    hide Load, Shrinks, BlobsOf, LinkAlive;
    if ref != "" {
      var n := |c| - 1;
      LoadSame(h, from, to, ref, needed);
      if c[n].config.parent.Some? {
        ChainSame(h, from, to, c[n].config.parent.value, c[..n], needed);
      }
    }
  }

  lemma {:induction false} ChainAlive(h: Blob -> Digest, disk: Disk, ref: string, c: seq<Item>)
    requires IsChain(h, disk, ref, c)
    ensures LinksAlive(disk.refs, ref, c)
    decreases |c|
  {
    hide SafeRefName, IsDigest, LoadDigest;
    if ref != "" {
      var n := |c| - 1;
      if c[n].config.parent.Some? {
        ChainAlive(h, disk, c[n].config.parent.value, c[..n]);
        assert forall k :: 0 <= k < n ==> c[..n][k] == c[k];
      }
    }
  }

  lemma AllParts(c: seq<Item>)
    ensures forall k :: 0 <= k < |c| ==> BlobsOf(c[k]) <= BlobsOfAll(c)
  {
    hide BlobsOf;
  }

  /** Pruning is safe: a ref that is still there and whose chain was complete before still
      has that very chain, with every blob of it, if and only if none of its links went
      through a deleted ref. */
  lemma PruneKeepsChain(h: Blob -> Digest, before: Disk, after: Disk, r: string, c: seq<Item>)
    requires Shrinks(before, after, {}) && r in after.refs
    requires forall d :: d in before.blobs && d !in after.blobs ==> !Reached(h, Disk(before.blobs, after.refs), d)
    requires IsChain(h, before, after.refs[r], c)
    ensures IsChain(h, after, after.refs[r], c) <==> LinksAlive(after.refs, after.refs[r], c)
    ensures LinksAlive(after.refs, after.refs[r], c) ==>
              forall d :: d in BlobsOfAll(c) && d in before.blobs ==>
                            d in after.blobs && after.blobs[d] == before.blobs[d]
  {
    hide IsChain, LinksAlive, BlobsOf;
    var target := after.refs[r];
    var mid := Disk(before.blobs, after.refs);
    if LinksAlive(after.refs, target, c) {
      AllParts(c);
      ChainSame(h, before, mid, target, c, BlobsOfAll(c));
      forall d | d in BlobsOfAll(c) && d in before.blobs ensures d in after.blobs {
        assert ReachedFrom(h, mid, target, d);
        assert Reached(h, mid, d);
      }
      ChainSame(h, mid, after, target, c, BlobsOfAll(c));
    }
    if IsChain(h, after, target, c) {
      ChainAlive(h, after, target, c);
    }
  }
}
