/** Pushing a chain to a registry, write by write, and pulling it back. */
module Registry {
  import opened Trees
  import opened Layers
  import opened Store
  import opened Histories
  import opened Workspaces

  /** A repository: blobs, manifests under their digests, and tags. */
  datatype Remote = Remote(blobs: map<Digest, Blob>, manifests: map<Digest, Blob>, tags: map<string, Digest>)

  datatype Put = PutBlob(digest: Digest) | PutManifest(tag: string, digest: Digest)

  // ----- the writes of a push

  function LayerPuts(layers: seq<Digest>): seq<Put>
  {
    seq(|layers|, i requires 0 <= i < |layers| => PutBlob(layers[i]))
  }

  function TagPuts(tags: seq<string>, d: Digest): seq<Put>
  {
    seq(|tags|, i requires 0 <= i < |tags| => PutManifest(tags[i], d))
  }

  /** The manifest writes for an item: its own id, and for the head all its tags. */
  function ManifestPuts(item: Item, headTags: seq<string>): seq<Put>
  {
    (if item.config.id != "" then [PutManifest(item.config.id, item.digest)] else []) + TagPuts(headTags, item.digest)
  }

  function ItemPuts(item: Item, headTags: seq<string>): seq<Put>
  {
    [PutBlob(item.manifest.config)] + LayerPuts(item.manifest.layers) + ManifestPuts(item, headTags)
  }

  /** Item by item, root first; only the head (`last`) gets the extra tags. */
  function PushPuts(c: seq<Item>, last: nat, tags: seq<string>): seq<Put>
  {
    if c == [] then []
    else PushPuts(c[..|c| - 1], last, tags) + ItemPuts(c[|c| - 1], if |c| == last then tags else [])
  }

  function HeadTags(c: seq<Item>, extraTags: seq<string>): seq<string>
    requires c != []
  {
    UniqueTags(extraTags + [c[|c| - 1].config.id])
  }

  function PutOne(disk: Disk, remote: Remote, put: Put): Remote
    requires put.digest in disk.blobs
  {
    match put
    case PutBlob(d) => remote.(blobs := remote.blobs[d := disk.blobs[d]])
    case PutManifest(tag, d) =>
      remote.(manifests := remote.manifests[d := disk.blobs[d]], tags := remote.tags[tag := d])
  }

  function PutAll(disk: Disk, remote: Remote, puts: seq<Put>): Remote
    requires forall p :: p in puts ==> p.digest in disk.blobs
  {
    if puts == [] then remote
    else PutOne(disk, PutAll(disk, remote, puts[..|puts| - 1]), puts[|puts| - 1])
  }

  // ----- a closed repository

  /** The manifest has its config, its layers and its parent manifest in the repository. */
  predicate Supported(h: Blob -> Digest, remote: Remote, b: Blob)
  {
    && b.ManifestBlob?
    && b.manifest.config in remote.blobs && remote.blobs[b.manifest.config].ConfigBlob?
    && (forall l :: l in b.manifest.layers ==> l in remote.blobs)
    && (var parent := remote.blobs[b.manifest.config].config.parent;
        parent.Some? && parent.value != "" ==> parent.value in remote.manifests)
  }

  predicate Closed(h: Blob -> Digest, remote: Remote)
  {
    && (forall d :: d in remote.blobs ==> h(remote.blobs[d]) == d)
    && (forall d :: d in remote.manifests ==> h(remote.manifests[d]) == d)
    && forall d :: d in remote.manifests ==> Supported(h, remote, remote.manifests[d])
  }

  predicate AllIntact(h: Blob -> Digest, disk: Disk, puts: seq<Put>)
  {
    forall p :: p in puts ==> p.digest in disk.blobs && h(disk.blobs[p.digest]) == p.digest
  }

  /** Closed after every single write. */
  ghost predicate AlwaysClosed(h: Blob -> Digest, disk: Disk, remote: Remote, puts: seq<Put>)
    requires AllIntact(h, disk, puts)
  {
    forall k :: 0 <= k <= |puts| ==> Closed(h, PutAll(disk, remote, puts[..k]))
  }

  lemma {:induction false} PutAppend(disk: Disk, remote: Remote, a: seq<Put>, b: seq<Put>)
    requires forall p :: p in a + b ==> p.digest in disk.blobs
    ensures (forall p :: p in a ==> p.digest in disk.blobs) && (forall p :: p in b ==> p.digest in disk.blobs)
    ensures PutAll(disk, remote, a + b) == PutAll(disk, PutAll(disk, remote, a), b)
    decreases |b|
  {
    assert forall p :: p in a ==> p in a + b;
    assert forall p :: p in b ==> p in a + b;
    if b == [] {
      assert a + b == a;
    } else {
      var c := b[..|b| - 1];
      assert (a + b)[..|a + b| - 1] == a + c;
      assert forall p :: p in a + c ==> p in a + b;
      PutAppend(disk, remote, a, c);
    }
  }

  lemma ClosedThroughout(h: Blob -> Digest, disk: Disk, remote: Remote, a: seq<Put>, b: seq<Put>)
    requires AllIntact(h, disk, a) && AllIntact(h, disk, b)
    requires AlwaysClosed(h, disk, remote, a) && AlwaysClosed(h, disk, PutAll(disk, remote, a), b)
    ensures AllIntact(h, disk, a + b) && AlwaysClosed(h, disk, remote, a + b)
  {
    hide Closed, PutAll;
    forall k | 0 <= k <= |a + b| ensures Closed(h, PutAll(disk, remote, (a + b)[..k])) {
      if k <= |a| {
        assert (a + b)[..k] == a[..k];
      } else {
        assert (a + b)[..k] == a + b[..k - |a|];
        PutAppend(disk, remote, a, b[..k - |a|]);
      }
    }
  }

  /** Writing intact content only adds keys. */
  lemma PutOneAdds(h: Blob -> Digest, disk: Disk, remote: Remote, put: Put)
    requires Ideal(h) && Closed(h, remote) && put.digest in disk.blobs && h(disk.blobs[put.digest]) == put.digest
    ensures var r := PutOne(disk, remote, put);
            && (forall d :: d in remote.blobs ==> d in r.blobs && r.blobs[d] == remote.blobs[d])
            && (forall d :: d in remote.manifests ==> d in r.manifests && r.manifests[d] == remote.manifests[d])
  {
    hide IsDigest, TrimSpace, Supported;
  }

  lemma SupportedStays(h: Blob -> Digest, from: Remote, to: Remote, b: Blob)
    requires forall d :: d in from.blobs ==> d in to.blobs && to.blobs[d] == from.blobs[d]
    requires forall d :: d in from.manifests ==> d in to.manifests && to.manifests[d] == from.manifests[d]
    ensures Supported(h, from, b) ==> Supported(h, to, b)
  {
  }

  lemma PutOneKeepsClosed(h: Blob -> Digest, disk: Disk, remote: Remote, put: Put)
    requires Ideal(h) && Closed(h, remote) && put.digest in disk.blobs && h(disk.blobs[put.digest]) == put.digest
    requires put.PutManifest? ==> Supported(h, remote, disk.blobs[put.digest])
    ensures Closed(h, PutOne(disk, remote, put))
    ensures forall b :: Supported(h, remote, b) ==> Supported(h, PutOne(disk, remote, put), b)
  {
    hide Ideal, Supported;
    PutOneAdds(h, disk, remote, put);
    forall b ensures Supported(h, remote, b) ==> Supported(h, PutOne(disk, remote, put), b) {
      SupportedStays(h, remote, PutOne(disk, remote, put), b);
    }
  }

  lemma NothingPut(disk: Disk, remote: Remote, puts: seq<Put>)
    requires puts == []
    ensures PutAll(disk, remote, puts) == remote && puts[..0] == puts
  {
  }

  lemma {:induction false} BlobsAlwaysClosed(h: Blob -> Digest, disk: Disk, remote: Remote, puts: seq<Put>)
    requires Ideal(h) && Closed(h, remote) && AllIntact(h, disk, puts) && forall p :: p in puts ==> p.PutBlob?
    ensures AlwaysClosed(h, disk, remote, puts)
    decreases |puts|
  {
    hide Closed, Supported, Ideal;
    if puts == [] {
      NothingPut(disk, remote, puts);
    } else {
      var n := |puts| - 1;
      BlobsAlwaysClosed(h, disk, remote, puts[..n]);
      assert puts[n] in puts;
      assert puts[..n][..n] == puts[..n] && puts[..n + 1] == puts;
      PutOneKeepsClosed(h, disk, PutAll(disk, remote, puts[..n]), puts[n]);
      forall k | 0 <= k <= n ensures Closed(h, PutAll(disk, remote, puts[..k])) {
        assert puts[..n][..k] == puts[..k];
      }
    }
  }

  lemma {:induction false} ManifestsAlwaysClosed(h: Blob -> Digest, disk: Disk, remote: Remote, puts: seq<Put>,
                                                 d: Digest)
    requires Ideal(h) && Closed(h, remote) && AllIntact(h, disk, puts)
    requires forall p :: p in puts ==> p.PutManifest? && p.digest == d
    requires d in disk.blobs && Supported(h, remote, disk.blobs[d])
    ensures AlwaysClosed(h, disk, remote, puts)
    ensures Supported(h, PutAll(disk, remote, puts), disk.blobs[d])
    decreases |puts|
  {
    hide Closed, Supported, Ideal;
    if puts == [] {
      NothingPut(disk, remote, puts);
    } else {
      var n := |puts| - 1;
      ManifestsAlwaysClosed(h, disk, remote, puts[..n], d);
      assert puts[..n][..n] == puts[..n] && puts[..n + 1] == puts;
      PutOneKeepsClosed(h, disk, PutAll(disk, remote, puts[..n]), puts[n]);
      forall k | 0 <= k <= n ensures Closed(h, PutAll(disk, remote, puts[..k])) {
        assert puts[..n][..k] == puts[..k];
      }
    }
  }

  // ----- the local chain that is pushed

  predicate IsLinked(h: Blob -> Digest, disk: Disk, c: seq<Item>, i: int)
    requires 0 <= i < |c|
  {
    && LoadDigest(h, disk, c[i].digest) == Ok(c[i])
    && (forall l :: l in c[i].manifest.layers ==> ReadBlob(h, disk, l).Ok?)
    && c[i].config.parent == (if i == 0 then None else Some(c[i - 1].digest))
  }

  /** Everything of the chain is in the local store, linked root first, without repeats. */
  ghost predicate Linked(h: Blob -> Digest, disk: Disk, c: seq<Item>)
  {
    && (forall i :: 0 <= i < |c| ==> IsLinked(h, disk, c, i))
    && forall i, j :: 0 <= i < j < |c| ==> c[i].digest != c[j].digest
  }

  lemma WholeIsLinked(h: Blob -> Digest, disk: Disk, base: Digest, d: Digest, c: seq<Item>)
    requires WholeBy(h, disk, base, d, c)
    ensures Linked(h, disk, c)
  {
    hide LoadDigest, IsChain, GoodChain, ReadBlob;
    forall i | 0 <= i < |c| ensures IsLinked(h, disk, c, i) {
      ChainBelow(h, disk, d, c, i);
      GoodPrefix(h, disk, base, c, i + 1);
      GoodTop(h, disk, base, c[..i + 1]);
    }
    forall i, j | 0 <= i < j < |c| ensures c[i].digest != c[j].digest {
      ChainHasNoRepeats(h, disk, d, c, i, j);
    }
  }

  lemma LinkedPrefix(h: Blob -> Digest, disk: Disk, c: seq<Item>, n: int)
    requires Linked(h, disk, c) && 0 <= n <= |c|
    ensures Linked(h, disk, c[..n])
  {
    hide LoadDigest, ReadBlob;
    forall i | 0 <= i < n ensures IsLinked(h, disk, c[..n], i) {
      assert IsLinked(h, disk, c, i);
    }
  }

  lemma ItemIntact(h: Blob -> Digest, disk: Disk, c: seq<Item>, i: int, tags: seq<string>)
    requires Linked(h, disk, c) && 0 <= i < |c|
    ensures AllIntact(h, disk, [PutBlob(c[i].manifest.config)] + LayerPuts(c[i].manifest.layers))
    ensures AllIntact(h, disk, ManifestPuts(c[i], tags)) && AllIntact(h, disk, ItemPuts(c[i], tags))
    ensures c[i].digest in disk.blobs && disk.blobs[c[i].digest] == ManifestBlob(c[i].manifest)
    ensures c[i].manifest.config in disk.blobs && disk.blobs[c[i].manifest.config] == ConfigBlob(c[i].config)
  {
    hide IsDigest;
    assert IsLinked(h, disk, c, i);
    var blobs := [PutBlob(c[i].manifest.config)] + LayerPuts(c[i].manifest.layers);
    forall p | p in blobs ensures p.digest in disk.blobs && h(disk.blobs[p.digest]) == p.digest {
      if p != blobs[0] {
        var k :| 0 <= k < |c[i].manifest.layers| && p == LayerPuts(c[i].manifest.layers)[k];
        assert c[i].manifest.layers[k] in c[i].manifest.layers;
      }
    }
    forall p | p in ManifestPuts(c[i], tags) ensures p.digest == c[i].digest {
    }
    assert ItemPuts(c[i], tags) == blobs + ManifestPuts(c[i], tags);
  }

  lemma {:induction false} PushIntact(h: Blob -> Digest, disk: Disk, c: seq<Item>, last: nat, tags: seq<string>)
    requires Linked(h, disk, c)
    ensures AllIntact(h, disk, PushPuts(c, last, tags))
    decreases |c|
  {
    hide Linked, ItemPuts;
    if c != [] {
      var n := |c| - 1;
      LinkedPrefix(h, disk, c, n);
      PushIntact(h, disk, c[..n], last, tags);
      ItemIntact(h, disk, c, n, if |c| == last then tags else []);
    }
  }

  /** Item `i` gets its manifest written. */
  predicate Written(c: seq<Item>, last: nat, tags: seq<string>, i: int)
    requires 0 <= i < |c|
  {
    c[i].config.id != "" || (i + 1 == last && tags != [])
  }

  /** Nobody's manifest is written before its parent's manifest is there. */
  predicate ParentsCovered(remote: Remote, c: seq<Item>, last: nat, tags: seq<string>)
  {
    forall i :: 0 < i < |c| && Written(c, last, tags, i) ==>
      Written(c, last, tags, i - 1) || c[i - 1].digest in remote.manifests
  }

  function ManifestKeys(puts: seq<Put>): set<Digest>
  {
    set p | p in puts && p.PutManifest? :: p.digest
  }

  function BlobKeys(puts: seq<Put>): set<Digest>
  {
    set p | p in puts && p.PutBlob? :: p.digest
  }

  lemma {:induction false} PutKeys(disk: Disk, remote: Remote, puts: seq<Put>)
    requires forall p :: p in puts ==> p.digest in disk.blobs
    ensures PutAll(disk, remote, puts).manifests.Keys == remote.manifests.Keys + ManifestKeys(puts)
    ensures PutAll(disk, remote, puts).blobs.Keys == remote.blobs.Keys + BlobKeys(puts)
    decreases |puts|
  {
    if puts != [] {
      var n := |puts| - 1;
      assert puts == puts[..n] + [puts[n]];
      PutKeys(disk, remote, puts[..n]);
    }
  }

  /** The manifests a push writes. */
  function WrittenSet(c: seq<Item>, last: nat, tags: seq<string>): set<Digest>
  {
    if c == [] then {}
    else
      WrittenSet(c[..|c| - 1], last, tags) + if Written(c, last, tags, |c| - 1) then {c[|c| - 1].digest} else {}
  }

  lemma ItemKeys(item: Item, headTags: seq<string>)
    ensures ManifestKeys(ItemPuts(item, headTags)) ==
            if item.config.id != "" || headTags != [] then {item.digest} else {}
    ensures ManifestKeys([PutBlob(item.manifest.config)] + LayerPuts(item.manifest.layers)) == {}
    ensures item.manifest.config in BlobKeys([PutBlob(item.manifest.config)] + LayerPuts(item.manifest.layers))
    ensures forall l :: l in item.manifest.layers ==>
                          l in BlobKeys([PutBlob(item.manifest.config)] + LayerPuts(item.manifest.layers))
  {
    var blobs := [PutBlob(item.manifest.config)] + LayerPuts(item.manifest.layers);
    assert ItemPuts(item, headTags) == blobs + ManifestPuts(item, headTags);
    assert blobs[0] in blobs;
    forall l | l in item.manifest.layers ensures PutBlob(l) in blobs {
      var i :| 0 <= i < |item.manifest.layers| && item.manifest.layers[i] == l;
      assert blobs[i + 1] == PutBlob(l);
    }
    if item.config.id != "" {
      assert ManifestPuts(item, headTags)[0].digest == item.digest;
    } else if headTags != [] {
      assert ManifestPuts(item, headTags)[0].digest == item.digest;
    }
  }

  lemma {:induction false} PushKeys(c: seq<Item>, last: nat, tags: seq<string>)
    ensures ManifestKeys(PushPuts(c, last, tags)) == WrittenSet(c, last, tags)
    decreases |c|
  {
    hide ItemPuts;
    if c != [] {
      var n := |c| - 1;
      PushKeys(c[..n], last, tags);
      ItemKeys(c[n], if |c| == last then tags else []);
      var mine := ItemPuts(c[n], if |c| == last then tags else []);
      assert forall p :: p in PushPuts(c, last, tags) <==> p in PushPuts(c[..n], last, tags) || p in mine;
    }
  }

  lemma {:induction false} WrittenSetAt(c: seq<Item>, last: nat, tags: seq<string>)
    ensures forall i :: 0 <= i < |c| && Written(c, last, tags, i) ==> c[i].digest in WrittenSet(c, last, tags)
    ensures forall d :: d in WrittenSet(c, last, tags) ==>
                          exists i :: 0 <= i < |c| && Written(c, last, tags, i) && c[i].digest == d
    decreases |c|
  {
    if c != [] {
      var n := |c| - 1;
      WrittenSetAt(c[..n], last, tags);
      forall i | 0 <= i < |c| && Written(c, last, tags, i) ensures c[i].digest in WrittenSet(c, last, tags) {
        if i < n {
          assert Written(c[..n], last, tags, i);
        }
      }
      forall d | d in WrittenSet(c[..n], last, tags)
        ensures exists i :: 0 <= i < |c| && Written(c, last, tags, i) && c[i].digest == d
      {
        var i :| 0 <= i < n && Written(c[..n], last, tags, i) && c[..n][i].digest == d;
        assert Written(c, last, tags, i);
      }
    }
  }

  lemma LastIsClosed(h: Blob -> Digest, disk: Disk, remote: Remote, puts: seq<Put>)
    requires AllIntact(h, disk, puts) && AlwaysClosed(h, disk, remote, puts)
    ensures Closed(h, PutAll(disk, remote, puts))
  {
    hide Closed, PutAll;
    assert puts[..|puts|] == puts;
  }

  lemma NothingClosed(h: Blob -> Digest, disk: Disk, remote: Remote, puts: seq<Put>)
    requires Closed(h, remote) && puts == []
    ensures AlwaysClosed(h, disk, remote, puts)
  {
    hide Closed;
  }

  /** Under its digest, a closed repository has the very config the store has. */
  lemma ConfigIsThere(h: Blob -> Digest, disk: Disk, remote: Remote, item: Item)
    requires Ideal(h) && Closed(h, remote) && item.manifest.config in remote.blobs
    requires item.manifest.config in disk.blobs && disk.blobs[item.manifest.config] == ConfigBlob(item.config)
    requires h(disk.blobs[item.manifest.config]) == item.manifest.config
    ensures remote.blobs[item.manifest.config] == ConfigBlob(item.config)
  {
    hide IsDigest, TrimSpace, Supported;
  }

  /** One item, its parent's manifest being there if its own gets written. */
  lemma ItemAlwaysClosed(h: Blob -> Digest, disk: Disk, remote: Remote, c: seq<Item>, n: int, headTags: seq<string>)
    requires Ideal(h) && Closed(h, remote) && Linked(h, disk, c) && 0 <= n < |c|
    requires (c[n].config.id != "" || headTags != []) && n > 0 ==> c[n - 1].digest in remote.manifests
    ensures AllIntact(h, disk, ItemPuts(c[n], headTags)) && AlwaysClosed(h, disk, remote, ItemPuts(c[n], headTags))
  {
    hide Closed, Ideal, PutAll, LoadDigest, ReadBlob, AlwaysClosed, ManifestKeys, BlobKeys;
    var item := c[n];
    ItemIntact(h, disk, c, n, headTags);
    ItemKeys(item, headTags);
    var blobs := [PutBlob(item.manifest.config)] + LayerPuts(item.manifest.layers);
    var manifests := ManifestPuts(item, headTags);
    BlobsAlwaysClosed(h, disk, remote, blobs);
    PutKeys(disk, remote, blobs);
    assert blobs[..|blobs|] == blobs;
    var mid := PutAll(disk, remote, blobs);
    LastIsClosed(h, disk, remote, blobs);
    if manifests == [] {
      NothingPut(disk, mid, manifests);
      NothingClosed(h, disk, mid, manifests);
    } else {
      ConfigIsThere(h, disk, mid, item);
      assert IsLinked(h, disk, c, n);
      ManifestsAlwaysClosed(h, disk, mid, manifests, item.digest);
    }
    ClosedThroughout(h, disk, remote, blobs, manifests);
    assert ItemPuts(item, headTags) == blobs + manifests;
  }

  lemma ParentArrived(h: Blob -> Digest, disk: Disk, remote: Remote, c: seq<Item>, last: nat, tags: seq<string>)
    requires |c| > 1 && Written(c, last, tags, |c| - 1) && ParentsCovered(remote, c, last, tags)
    requires AllIntact(h, disk, PushPuts(c[..|c| - 1], last, tags))
    ensures c[|c| - 2].digest in PutAll(disk, remote, PushPuts(c[..|c| - 1], last, tags)).manifests
  {
    hide PutAll, ManifestKeys, BlobKeys, PushPuts, WrittenSet;
    var n := |c| - 1;
    PutKeys(disk, remote, PushPuts(c[..n], last, tags));
    PushKeys(c[..n], last, tags);
    WrittenSetAt(c[..n], last, tags);
    if Written(c, last, tags, n - 1) {
      assert Written(c[..n], last, tags, n - 1);
    }
  }

  lemma {:induction false} PushAlwaysClosed(h: Blob -> Digest, disk: Disk, remote: Remote, c: seq<Item>, last: nat,
                                            tags: seq<string>)
    requires Ideal(h) && Closed(h, remote) && Linked(h, disk, c) && ParentsCovered(remote, c, last, tags)
    ensures AllIntact(h, disk, PushPuts(c, last, tags)) && AlwaysClosed(h, disk, remote, PushPuts(c, last, tags))
    decreases |c|
  {
    hide Closed, Ideal, PutAll, LoadDigest, ReadBlob, AlwaysClosed, ManifestKeys, ItemPuts, Linked, WrittenSet,
         BlobKeys;
    if c == [] {
      NothingClosed(h, disk, remote, []);
    } else {
      var n := |c| - 1;
      var headTags := if |c| == last then tags else [];
      LinkedPrefix(h, disk, c, n);
      forall i | 0 < i < n && Written(c[..n], last, tags, i)
        ensures Written(c[..n], last, tags, i - 1) || c[..n][i - 1].digest in remote.manifests
      {
        assert Written(c, last, tags, i);
      }
      PushAlwaysClosed(h, disk, remote, c[..n], last, tags);
      var before := PushPuts(c[..n], last, tags);
      LastIsClosed(h, disk, remote, before);
      if (c[n].config.id != "" || headTags != []) && n > 0 {
        ParentArrived(h, disk, remote, c, last, tags);
      }
      ItemAlwaysClosed(h, disk, PutAll(disk, remote, before), c, n, headTags);
      ClosedThroughout(h, disk, remote, before, ItemPuts(c[n], headTags));
    }
  }

  lemma NotWritten(h: Blob -> Digest, disk: Disk, c: seq<Item>, last: nat, tags: seq<string>, i: int)
    requires Linked(h, disk, c) && 0 <= i < |c| && !Written(c, last, tags, i)
    ensures c[i].digest !in WrittenSet(c, last, tags)
  {
    hide Written, LoadDigest, ReadBlob;
    WrittenSetAt(c, last, tags);
  }

  lemma LoadedIsNamed(h: Blob -> Digest, disk: Disk, d: Digest)
    requires LoadDigest(h, disk, d).Ok?
    ensures d != ""
  {
  }

  /** In a closed repository the parent of a manifest of the chain is there. */
  lemma OrphanWritten(h: Blob -> Digest, disk: Disk, remote: Remote, c: seq<Item>, i: int)
    requires Ideal(h) && Closed(h, remote) && Linked(h, disk, c) && 0 < i < |c|
    requires c[i].digest in remote.manifests
    ensures c[i - 1].digest in remote.manifests
  {
    hide IsDigest, TrimSpace;
    ItemIntact(h, disk, c, i, []);
    assert IsLinked(h, disk, c, i) && IsLinked(h, disk, c, i - 1);
    LoadedIsNamed(h, disk, c[i - 1].digest);
    assert remote.manifests[c[i].digest] == ManifestBlob(c[i].manifest);
    ConfigIsThere(h, disk, remote, c[i]);
  }

  /** A closed end means that the parent of a written manifest came from somewhere. */
  lemma ParentCovered(h: Blob -> Digest, disk: Disk, remote: Remote, c: seq<Item>, last: nat, tags: seq<string>, i: int)
    requires Ideal(h) && Linked(h, disk, c) && 0 < i < |c| && Written(c, last, tags, i)
    requires AllIntact(h, disk, PushPuts(c, last, tags)) && Closed(h, PutAll(disk, remote, PushPuts(c, last, tags)))
    ensures Written(c, last, tags, i - 1) || c[i - 1].digest in remote.manifests
  {
    hide Ideal, PutAll, Written, Linked, PushPuts, WrittenSet, Closed, ManifestKeys, BlobKeys;
    PutKeys(disk, remote, PushPuts(c, last, tags));
    PushKeys(c, last, tags);
    WrittenSetAt(c, last, tags);
    OrphanWritten(h, disk, PutAll(disk, remote, PushPuts(c, last, tags)), c, i);
    if !Written(c, last, tags, i - 1) {
      NotWritten(h, disk, c, last, tags, i - 1);
    }
  }

  /** After every single write of a push the repository is closed, if and only if no manifest
      is written whose parent has neither an id to be written under nor been there before. */
  lemma PushClosedIff(h: Blob -> Digest, disk: Disk, remote: Remote, c: seq<Item>, last: nat, tags: seq<string>)
    requires Ideal(h) && Closed(h, remote) && Linked(h, disk, c)
    ensures AllIntact(h, disk, PushPuts(c, last, tags))
    ensures AlwaysClosed(h, disk, remote, PushPuts(c, last, tags)) <==> ParentsCovered(remote, c, last, tags)
  {
    hide Ideal, PutAll, AlwaysClosed, Written, Linked, PushPuts, Closed, AllIntact;
    PushIntact(h, disk, c, last, tags);
    if ParentsCovered(remote, c, last, tags) {
      PushAlwaysClosed(h, disk, remote, c, last, tags);
    } else if AlwaysClosed(h, disk, remote, PushPuts(c, last, tags)) {
      LastIsClosed(h, disk, remote, PushPuts(c, last, tags));
      forall i | 0 < i < |c| && Written(c, last, tags, i)
        ensures Written(c, last, tags, i - 1) || c[i - 1].digest in remote.manifests
      {
        ParentCovered(h, disk, remote, c, last, tags, i);
      }
    }
  }
}
