/** A repository changed in place by a push, and read back by a pull into a local store. */
module RegistryTransfers {
  import opened Trees
  import opened Layers
  import opened Store
  import opened Prune
  import opened RefUpdates
  import opened LocalStores
  import opened Histories
  import opened Workspaces
  import opened Registry

  datatype PushResult = Pushed | Unloadable | Conflict | Broken

  /** `Running` is a pull that has not come to an end yet. */
  datatype PullResult = Pulled | NotPulled | Running

  // ----- what the repository answers

  /** `getManifest`; the digest it reports is that of the content. */
  function GetManifest(remote: Remote, ref: string): Outcome<Blob>
  {
    if IsDigest(ref) then
      if ref in remote.manifests then Ok(remote.manifests[ref]) else Fail
    else if ref in remote.tags && remote.tags[ref] in remote.manifests then Ok(remote.manifests[remote.tags[ref]])
    else Fail
  }

  /** `getBlob`: content with another digest is an error. */
  function GetBlob(h: Blob -> Digest, remote: Remote, d: Digest): Outcome<Blob>
  {
    if d in remote.blobs && h(remote.blobs[d]) == d then Ok(remote.blobs[d]) else Fail
  }

  function FetchItem(h: Blob -> Digest, remote: Remote, ref: string): Outcome<Item>
  {
    match GetManifest(remote, ref)
    case Ok(ManifestBlob(m)) =>
      (match GetBlob(h, remote, m.config)
       case Ok(ConfigBlob(cfg)) => Ok(Item(h(ManifestBlob(m)), m, cfg))
       case _ => Fail)
    case _ => Fail
  }

  /** The complete chain of a reference as the repository has it. */
  ghost predicate RemoteChain(h: Blob -> Digest, remote: Remote, ref: string, c: seq<Item>)
    decreases |c|
  {
    && c != []
    && var n := |c| - 1;
       && FetchItem(h, remote, ref) == Ok(c[n])
       && (match c[n].config.parent
           case None => n == 0
           case Some(parent) => RemoteChain(h, remote, parent, c[..n]))
  }

  predicate LayersThere(h: Blob -> Digest, remote: Remote, item: Item)
  {
    forall l :: l in item.manifest.layers ==> GetBlob(h, remote, l).Ok?
  }

  /** The id of the snapshot is empty, blank, or the name of a ref file. */
  predicate CanName(item: Item)
  {
    item.config.id == "" || TagWorks(item.config.id, true)
  }

  predicate Pullable(h: Blob -> Digest, remote: Remote, item: Item)
  {
    LayersThere(h, remote, item) && CanName(item)
  }

  /** Following parent links comes to an end after that many links, be it a root or an error.
      With a digest function that nobody can close a loop under, it does after some number. */
  ghost predicate Ends(h: Blob -> Digest, remote: Remote, ref: string, steps: nat)
    decreases steps
  {
    var item := FetchItem(h, remote, ref);
    item.Fail? || item.value.config.parent.None? ||
    (steps > 0 && Ends(h, remote, item.value.config.parent.value, steps - 1))
  }

  // ----- the check before a push

  predicate TagFits(h: Blob -> Digest, remote: Remote, tag: string, id: string, digest: Digest, expected: string)
  {
    tag == "" || tag == id || IsDigest(tag) ||
    (var current := GetManifest(remote, tag);
     current.Ok? && (h(current.value) == digest || h(current.value) == expected))
  }

  /** Every branch tag is at the expected parent, or at the new head already. */
  predicate MayPush(h: Blob -> Digest, remote: Remote, tags: seq<string>, id: string, digest: Digest,
                    expectedParent: string)
  {
    TrimSpace(expectedParent) == "" ||
    forall tag :: tag in tags ==> TagFits(h, remote, tag, id, digest, TrimSpace(expectedParent))
  }

  // ----- a push under way

  /** The first `n` of the writes have arrived. */
  predicate Sent(disk: Disk, before: Remote, after: Remote, puts: seq<Put>, n: int)
  {
    && 0 <= n <= |puts|
    && (forall p :: p in puts[..n] ==> p.digest in disk.blobs)
    && after == PutAll(disk, before, puts[..n])
  }

  lemma NothingSent(disk: Disk, remote: Remote, puts: seq<Put>)
    ensures Sent(disk, remote, remote, puts, 0)
  {
  }

  lemma SentOneMore(disk: Disk, before: Remote, now: Remote, puts: seq<Put>, n: int)
    requires Sent(disk, before, now, puts, n) && n < |puts| && puts[n].digest in disk.blobs
    ensures Sent(disk, before, PutOne(disk, now, puts[n]), puts, n + 1)
  {
    hide PutOne;
    assert puts[..n + 1][..n] == puts[..n];
  }

  lemma SentJoin(disk: Disk, before: Remote, mid: Remote, after: Remote, a: seq<Put>, b: seq<Put>, n: int)
    requires Sent(disk, before, mid, a, |a|) && Sent(disk, mid, after, b, n)
    ensures Sent(disk, before, after, a + b, |a| + n)
  {
    hide PutAll;
    assert a[..|a|] == a;
    assert (a + b)[..|a| + n] == a + b[..n];
    PutAppend(disk, before, a, b[..n]);
  }

  /** What was sent of the first items was sent of the whole push. */
  lemma {:induction false} SentOfAll(disk: Disk, before: Remote, after: Remote, c: seq<Item>, i: int, last: nat,
                                     tags: seq<string>, n: int)
    requires 0 <= i <= |c| && Sent(disk, before, after, PushPuts(c[..i], last, tags), n)
    ensures Sent(disk, before, after, PushPuts(c, last, tags), n)
    decreases |c|
  {
    hide PutAll, ItemPuts;
    if i == |c| {
      assert c[..i] == c;
    } else {
      var m := |c| - 1;
      assert c[..m][..i] == c[..i];
      SentOfAll(disk, before, after, c[..m], i, last, tags, n);
      assert PushPuts(c, last, tags)[..n] == PushPuts(c[..m], last, tags)[..n];
    }
  }

  /** The writes for one item: config, layers, its own id, the head's tags. */
  lemma ItemPutsAt(item: Item, headTags: seq<string>)
    ensures var puts, layers := ItemPuts(item, headTags), item.manifest.layers;
            var own := if item.config.id != "" then 1 else 0;
            && |puts| == 1 + |layers| + own + |headTags|
            && puts[0] == PutBlob(item.manifest.config)
            && (forall i :: 0 <= i < |layers| ==> puts[1 + i] == PutBlob(layers[i]))
            && (own == 1 ==> puts[1 + |layers|] == PutManifest(item.config.id, item.digest))
            && (forall i :: 0 <= i < |headTags| ==>
                  puts[1 + |layers| + own + i] == PutManifest(headTags[i], item.digest))
  {
  }

  lemma Unloaded(h: Blob -> Digest, disk: Disk, ref: string)
    requires Resolve(disk, ref).Ok? && LoadDigest(h, disk, Resolve(disk, ref).value).Fail?
    ensures forall e :: !IsChain(h, disk, Resolve(disk, ref).value, e)
  {
    hide SafeRefName, LoadDigest;
  }

  lemma ChainTop(h: Blob -> Digest, disk: Disk, ref: string, c: seq<Item>)
    requires Resolve(disk, ref).Ok? && IsChain(h, disk, Resolve(disk, ref).value, c)
    ensures c != [] && c[|c| - 1].digest == Resolve(disk, ref).value
  {
    hide SafeRefName;
  }

  /** The item with the head's digest is the last one. */
  lemma HeadOnlyLast(h: Blob -> Digest, disk: Disk, d: Digest, c: seq<Item>, i: int)
    requires IsChain(h, disk, d, c) && 0 <= i < |c| && c[|c| - 1].digest == d
    ensures c[i].digest == d <==> i + 1 == |c|
  {
    hide IsChain;
    if i + 1 < |c| {
      ChainHasNoRepeats(h, disk, d, c, i, |c| - 1);
    }
  }

  lemma NoItems(last: nat, tags: seq<string>)
    ensures PushPuts([], last, tags) == []
  {
  }

  lemma OneItemMore(c: seq<Item>, i: int, last: nat, tags: seq<string>)
    requires 0 <= i < |c|
    ensures PushPuts(c[..i + 1], last, tags) ==
            PushPuts(c[..i], last, tags) + ItemPuts(c[i], if i + 1 == last then tags else [])
  {
    hide ItemPuts;
    assert c[..i + 1][..i] == c[..i];
  }

  lemma StaysClosed(h: Blob -> Digest, disk: Disk, before: Remote, after: Remote, c: seq<Item>, last: nat,
                    tags: seq<string>, n: int)
    requires Ideal(h) && Sent(disk, before, after, PushPuts(c, last, tags), n)
    ensures Closed(h, before) && Linked(h, disk, c) && ParentsCovered(before, c, last, tags) ==> Closed(h, after)
  {
    hide Ideal, Closed, Linked, ParentsCovered, PushPuts, PutAll;
    if Closed(h, before) && Linked(h, disk, c) && ParentsCovered(before, c, last, tags) {
      PushAlwaysClosed(h, disk, before, c, last, tags);
    }
  }

  // ----- a pull under way

  predicate AllPullable(h: Blob -> Digest, remote: Remote, c: seq<Item>)
  {
    forall i :: 0 <= i < |c| ==> Pullable(h, remote, c[i])
  }

  lemma IntactAfterWrite(h: Blob -> Digest, blobs: map<Digest, Blob>, b: Blob)
    ensures Intact(h, blobs) ==> Intact(h, if h(b) in blobs then blobs else blobs[h(b) := b])
  {
  }

  lemma TopMissing(h: Blob -> Digest, remote: Remote, ref: string)
    requires FetchItem(h, remote, ref).Fail? || !Pullable(h, remote, FetchItem(h, remote, ref).value)
    ensures forall e :: RemoteChain(h, remote, ref, e) ==> !AllPullable(h, remote, e)
  {
    hide FetchItem, Pullable;
  }

  lemma ChainOneMore(h: Blob -> Digest, remote: Remote, ref: string, below: seq<Item>, item: Item)
    requires FetchItem(h, remote, ref) == Ok(item)
    requires match item.config.parent
             case None => below == []
             case Some(parent) => RemoteChain(h, remote, parent, below)
    ensures RemoteChain(h, remote, ref, below + [item])
  {
    hide FetchItem;
    assert (below + [item])[..|below|] == below;
  }

  lemma FetchedIsDigest(h: Blob -> Digest, remote: Remote, ref: string)
    requires Ideal(h) && FetchItem(h, remote, ref).Ok?
    ensures IsDigest(FetchItem(h, remote, ref).value.digest)
  {
  }

  lemma BelowMissing(h: Blob -> Digest, remote: Remote, ref: string, item: Item)
    requires FetchItem(h, remote, ref) == Ok(item) && item.config.parent.Some?
    requires forall e :: RemoteChain(h, remote, item.config.parent.value, e) ==> !AllPullable(h, remote, e)
    ensures forall e :: RemoteChain(h, remote, ref, e) ==> !AllPullable(h, remote, e)
  {
    hide FetchItem, Pullable;
    forall e | RemoteChain(h, remote, ref, e) ensures !AllPullable(h, remote, e) {
      var below := e[..|e| - 1];
      assert RemoteChain(h, remote, item.config.parent.value, below);
      var i :| 0 <= i < |below| && !Pullable(h, remote, below[i]);
      assert e[i] == below[i];
    }
  }

  function RefWritten(refs: map<string, string>, item: Item): map<string, string>
  {
    if TrimSpace(item.config.id) == "" then refs else refs[SafeRefName(item.config.id) := item.digest]
  }

  /** The ref that a snapshot id becomes. */
  predicate Names(item: Item, file: string)
  {
    TrimSpace(item.config.id) != "" && SafeRefName(item.config.id) == file
  }

  predicate Unnamed(c: seq<Item>, n: int, file: string)
    requires 0 <= n <= |c|
  {
    forall j :: 0 <= j < n ==> !Names(c[j], file)
  }

  /** A ref named by an id of the chain is the oldest snapshot with that id; the others are
      as they were. */
  ghost predicate RefsPulled(before: map<string, string>, after: map<string, string>, c: seq<Item>)
  {
    && (forall f :: Unnamed(c, |c|, f) ==> Get(after, f) == Get(before, f))
    && forall f, k :: 0 <= k < |c| && Names(c[k], f) && Unnamed(c, k, f) ==> Get(after, f) == Some(c[k].digest)
  }

  lemma OneRefWritten(refs: map<string, string>, item: Item)
    requires IsDigest(item.digest)
    ensures var updates := [RefUpdate(item.config.id, item.digest, "")];
            && (AllAcceptable(refs, updates) <==> TagWorks(item.config.id, true)) &&
               AllTrue([true], |Prepared(refs, updates)|)
            && Installed(refs, updates) == RefWritten(refs, item)
    ensures item.config.id == "" ==> RefWritten(refs, item) == refs
  {
    var updates := [RefUpdate(item.config.id, item.digest, "")];
    assert updates[..0] == [];
    assert TrimSpace("") == "";
    assert Acceptable(refs, updates[..0], updates[0]) <==> TagWorks(item.config.id, true) by { hide SafeRefName; }
  }

  /** `c` is what has been pulled of `ref`, oldest first: the items from the top of its chain
      down to where the pull has come. */
  ghost predicate PulledDown(h: Blob -> Digest, remote: Remote, ref: string, c: seq<Item>)
    decreases |c|
  {
    c == [] ||
    (var n := |c| - 1;
     && FetchItem(h, remote, ref) == Ok(c[n]) && CanName(c[n])
     && (n > 0 ==> c[n].config.parent.Some? && PulledDown(h, remote, c[n].config.parent.value, c[..n])))
  }

  /** The link below what has been pulled. */
  function NextLink(ref: string, c: seq<Item>): Option<string>
  {
    if c == [] then Some(ref) else c[0].config.parent
  }

  lemma NothingDown(h: Blob -> Digest, remote: Remote, ref: string)
    ensures PulledDown(h, remote, ref, []) && NextLink(ref, []) == Some(ref) && BlobsOfAll([]) == {}
  {
  }

  lemma NothingPulled(refs: map<string, string>)
    ensures RefsPulled(refs, refs, [])
  {
  }

  lemma WrittenElsewhere(refs: map<string, string>, item: Item, f: string)
    ensures Get(RefWritten(refs, item), f) == if Names(item, f) then Some(item.digest) else Get(refs, f)
  {
  }

  lemma PulledOneMore(before: map<string, string>, mid: map<string, string>, after: map<string, string>,
                      below: seq<Item>, item: Item)
    requires mid == RefWritten(before, item) && RefsPulled(mid, after, below)
    ensures RefsPulled(before, after, below + [item])
  {
    hide Names, RefWritten, Get;
    var c := below + [item];
    forall f, n | 0 <= n <= |below| ensures Unnamed(c, n, f) <==> Unnamed(below, n, f) {
      assert forall j :: 0 <= j < n ==> c[j] == below[j];
    }
    forall f | Unnamed(c, |c|, f) ensures Get(after, f) == Get(before, f) {
      assert c[|below|] == item && Unnamed(below, |below|, f);
      WrittenElsewhere(before, item, f);
    }
    forall f, k | 0 <= k < |c| && Names(c[k], f) && Unnamed(c, k, f) ensures Get(after, f) == Some(c[k].digest) {
      assert Unnamed(below, k, f);
      if k < |below| {
        assert c[k] == below[k];
      } else {
        WrittenElsewhere(before, item, f);
      }
    }
  }

  lemma BlobsOfOneMore(below: seq<Item>, item: Item)
    ensures BlobsOfAll(below + [item]) == BlobsOfAll(below) + BlobsOf(item)
    ensures BlobsOfAll([]) == {}
  {
    hide BlobsOf;
    var c := below + [item];
    forall d | d in BlobsOfAll(below) + BlobsOf(item) ensures d in BlobsOfAll(c) {
      if d in BlobsOf(item) {
        assert c[|below|] == item;
      } else {
        var i :| 0 <= i < |below| && d in BlobsOf(below[i]);
        assert c[i] == below[i];
      }
    }
  }

  /** A pull may stop at this link: there is no item, or a layer of it is missing, or its id
      cannot be a ref. */
  predicate StopsAt(h: Blob -> Digest, remote: Remote, link: Option<string>)
  {
    link.Some? &&
    (FetchItem(h, remote, link.value).Fail? || !Pullable(h, remote, FetchItem(h, remote, link.value).value))
  }

  lemma DownOneMore(h: Blob -> Digest, remote: Remote, ref: string, below: seq<Item>, item: Item)
    requires FetchItem(h, remote, ref) == Ok(item) && CanName(item)
    requires match item.config.parent
             case None => below == []
             case Some(parent) => PulledDown(h, remote, parent, below)
    ensures PulledDown(h, remote, ref, below + [item])
    ensures item.config.parent.Some? ==> NextLink(ref, below + [item]) == NextLink(item.config.parent.value, below)
  {
    hide FetchItem, CanName;
    assert (below + [item])[..|below|] == below;
  }

  // ----- the repository

  class Repository {
    var remote: Remote
    /** How many more writes the connection will carry. */
    var allowed: nat

    constructor ()
      ensures remote == Remote(map[], map[], map[])
    {
      remote := Remote(map[], map[], map[]);
      allowed := 0;
    }

    /** One `putBlob` or `putManifest` of local content. */
    method Send(store: LocalStore, put: Put) returns (ok: bool)
      modifies this
      ensures ok ==> ReadBlob(store.h, store.Contents(), put.digest).Ok? && put.digest in store.blobs
      ensures remote == if ok then PutOne(store.Contents(), old(remote), put) else old(remote)
    {
      var data := ReadBlob(store.h, store.Contents(), put.digest);
      if data.Fail? || allowed == 0 {
        return false;
      }
      allowed := allowed - 1;
      match put {
        case PutBlob(d) => remote := remote.(blobs := remote.blobs[d := data.value]);
        case PutManifest(tag, d) =>
          remote := remote.(manifests := remote.manifests[d := data.value], tags := remote.tags[tag := d]);
      }
      return true;
    }

    /** The body of the loop over the chain. */
    method PushItem(store: LocalStore, item: Item, isHead: bool, tags: seq<string>) returns (ok: bool, ghost n: nat)
      modifies this
      ensures Sent(store.Contents(), old(remote), remote, ItemPuts(item, if isHead then tags else []), n)
      ensures ok ==> n == |ItemPuts(item, if isHead then tags else [])|
    {
      hide PutOne, Sent, ReadBlob, ItemPuts;
      ghost var disk := store.Contents();
      ghost var puts := ItemPuts(item, if isHead then tags else []);
      ItemPutsAt(item, if isHead then tags else []);
      NothingSent(disk, remote, puts);
      n := 0;
      ok := Send(store, PutBlob(item.manifest.config));
      if !ok { return; }
      SentOneMore(disk, old(remote), old(remote), puts, n);
      n := 1;
      for i := 0 to |item.manifest.layers|
        invariant n == 1 + i && Sent(disk, old(remote), remote, puts, n) && store.Contents() == disk && ok
      {
        ghost var now := remote;
        assert puts[n] == PutBlob(item.manifest.layers[i]);
        ok := Send(store, PutBlob(item.manifest.layers[i]));
        if !ok { return; }
        SentOneMore(disk, old(remote), now, puts, n);
        n := n + 1;
      }
      if item.config.id != "" {
        ghost var now := remote;
        assert puts[n] == PutManifest(item.config.id, item.digest);
        ok := Send(store, PutManifest(item.config.id, item.digest));
        if !ok { return; }
        SentOneMore(disk, old(remote), now, puts, n);
        n := n + 1;
      }
      ghost var start := n;
      if isHead {
        for i := 0 to |tags|
          invariant n == start + i && Sent(disk, old(remote), remote, puts, n) && store.Contents() == disk && ok
        {
          ghost var now := remote;
          assert puts[n] == PutManifest(tags[i], item.digest);
          ok := Send(store, PutManifest(tags[i], item.digest));
          if !ok { return; }
          SentOneMore(disk, old(remote), now, puts, n);
          n := n + 1;
        }
      }
    }

    /** `checkRemoteTagPreconditions`. */
    method CheckTags(h: Blob -> Digest, tags: seq<string>, id: string, digest: Digest, expectedParent: string)
      returns (ok: bool)
      ensures ok <==> MayPush(h, remote, tags, id, digest, expectedParent)
    {
      hide GetManifest, TrimSpace, IsDigest;
      var expected := TrimSpace(expectedParent);
      if expected == "" {
        return true;
      }
      for i := 0 to |tags|
        invariant forall j :: 0 <= j < i ==> TagFits(h, remote, tags[j], id, digest, expected)
      {
        var tag := tags[i];
        if tag == "" || tag == id || IsDigest(tag) {
          continue;
        }
        var current := GetManifest(remote, tag);
        if current.Fail? {
          assert tag in tags && !TagFits(h, remote, tag, id, digest, expected);
          return false;
        }
        if h(current.value) == digest {
          continue;
        }
        if h(current.value) != expected {
          assert tag in tags && !TagFits(h, remote, tag, id, digest, expected);
          return false;
        }
      }
      return true;
    }

    /** `PushSnapshotWithOptions`. Wherever it stops, the repository has a prefix of the
        writes; a failed precondition writes nothing; and a closed repository stays closed. */
    method Push(store: LocalStore, ref: string, extraTags: seq<string>, expectedParent: string)
      returns (result: PushResult, ghost c: seq<Item>, ghost n: nat)
      requires Ideal(store.h)
      modifies this
      ensures result != Unloadable ==>
                && c != [] && Resolve(store.Contents(), ref).Ok?
                && IsChain(store.h, store.Contents(), Resolve(store.Contents(), ref).value, c)
                && (result == Conflict <==>
                    !MayPush(store.h, old(remote), HeadTags(c, extraTags), c[|c| - 1].config.id, c[|c| - 1].digest,
                             expectedParent))
                && Sent(store.Contents(), old(remote), remote, PushPuts(c, |c|, HeadTags(c, extraTags)), n)
                && (result == Pushed ==> n == |PushPuts(c, |c|, HeadTags(c, extraTags))|)
                && (Closed(store.h, old(remote)) && Linked(store.h, store.Contents(), c)
                    && ParentsCovered(old(remote), c, |c|, HeadTags(c, extraTags))
                    ==> Closed(store.h, remote))
      ensures result == Conflict || result == Unloadable ==> remote == old(remote)
      ensures result == Unloadable ==>
                Resolve(store.Contents(), ref).Fail? ||
                forall e :: !IsChain(store.h, store.Contents(), Resolve(store.Contents(), ref).value, e)
    {
      hide Load, LoadDigest, Sent, Closed, PushPuts, ItemPuts, IsChain, ParentsCovered, Linked, MayPush, UniqueTags,
           Ideal, Resolve;
      ghost var disk := store.Contents();
      n := 0;
      c := [];
      var resolved := Resolve(store.Contents(), ref);
      if resolved.Fail? {
        return Unloadable, c, n;
      }
      var digest := resolved.value;
      var loaded := LoadDigest(store.h, store.Contents(), digest);
      if loaded.Fail? {
        Unloaded(store.h, disk, ref);
        return Unloadable, c, n;
      }
      var chain := SnapshotChain(store.h, store.Contents(), digest);
      if chain.Fail? {
        return Unloadable, c, n;
      }
      var items := chain.value;
      c := items;
      ChainTop(store.h, disk, ref, c);
      var head := items[|items| - 1];
      var tags := UniqueTags(extraTags + [head.config.id]);
      NothingSent(disk, remote, PushPuts(c, |c|, tags));
      var fits := CheckTags(store.h, tags, head.config.id, digest, expectedParent);
      if !fits {
        return Conflict, c, n;
      }
      NothingSent(disk, remote, PushPuts(c[..0], |c|, tags));
      assert PushPuts(c[..0], |c|, tags) == [] by { NoItems(|c|, tags); }
      for i := 0 to |items|
        invariant n == |PushPuts(c[..i], |c|, tags)|
        invariant Sent(disk, old(remote), remote, PushPuts(c[..i], |c|, tags), n) && store.Contents() == disk
      {
        HeadOnlyLast(store.h, disk, digest, c, i);
        var ok;
        ghost var m;
        ghost var mid := remote;
        ok, m := PushItem(store, items[i], items[i].digest == digest, tags);
        OneItemMore(c, i, |c|, tags);
        SentJoin(disk, old(remote), mid, remote, PushPuts(c[..i], |c|, tags),
                 ItemPuts(c[i], if i + 1 == |c| then tags else []), m);
        n := n + m;
        if !ok {
          SentOfAll(disk, old(remote), remote, c, i + 1, |c|, tags, n);
          StaysClosed(store.h, disk, old(remote), remote, c, |c|, tags, n);
          return Broken, c, n;
        }
      }
      assert c[..|c|] == c;
      StaysClosed(store.h, disk, old(remote), remote, c, |c|, tags, n);
      return Pushed, c, n;
    }

    /** `fetchRemoteBlob`. */
    method FetchBlob(store: LocalStore, d: Digest) returns (ok: bool)
      modifies store`blobs
      ensures Grows(old(store.Contents()), store.Contents())
      ensures Intact(store.h, old(store.blobs)) ==> Intact(store.h, store.blobs)
      ensures ok ==> d in store.blobs
      ensures GetBlob(store.h, remote, d).Ok? ==> ok
    {
      if IsDigest(d) && d in store.blobs {
        return true;
      }
      var data := GetBlob(store.h, remote, d);
      if data.Fail? {
        return false;
      }
      var written := store.WriteBlob(data.value);
      return true;
    }

    /** The layers of one manifest. */
    method FetchLayers(store: LocalStore, layers: seq<Digest>) returns (ok: bool)
      modifies store`blobs
      ensures Grows(old(store.Contents()), store.Contents())
      ensures Intact(store.h, old(store.blobs)) ==> Intact(store.h, store.blobs)
      ensures ok ==> forall l :: l in layers ==> l in store.blobs
      ensures !ok ==> exists l :: l in layers && GetBlob(store.h, remote, l).Fail?
    {
      hide Intact, GetBlob;
      for i := 0 to |layers|
        invariant Grows(old(store.Contents()), store.Contents())
        invariant Intact(store.h, old(store.blobs)) ==> Intact(store.h, store.blobs)
        invariant forall j :: 0 <= j < i ==> layers[j] in store.blobs
      {
        ok := FetchBlob(store, layers[i]);
        if !ok {
          assert layers[i] in layers;
          return;
        }
      }
      return true;
    }

    /** The first half of `pullManifestRecursive`: one manifest with its config and layers. */
    method PullItem(store: LocalStore, ref: string) returns (item: Outcome<Item>)
      modifies store`blobs
      ensures Grows(old(store.Contents()), store.Contents())
      ensures Intact(store.h, old(store.blobs)) ==> Intact(store.h, store.blobs)
      ensures item.Ok? ==> item == FetchItem(store.h, remote, ref) && BlobsOf(item.value) <= store.blobs.Keys
      ensures item.Fail? ==> FetchItem(store.h, remote, ref).Fail?
                             || !LayersThere(store.h, remote, FetchItem(store.h, remote, ref).value)
    {
      hide Intact, GetManifest;
      var manifest := GetManifest(remote, ref);
      if manifest.Fail? {
        return Fail;
      }
      IntactAfterWrite(store.h, store.blobs, manifest.value);
      var digest := store.WriteBlob(manifest.value);
      if !manifest.value.ManifestBlob? {
        return Fail;
      }
      var m := manifest.value.manifest;
      var config := GetBlob(store.h, remote, m.config);
      if config.Fail? {
        return Fail;
      }
      IntactAfterWrite(store.h, store.blobs, config.value);
      var written := store.WriteBlob(config.value);
      var ok := FetchLayers(store, m.layers);
      if !ok || !config.value.ConfigBlob? {
        return Fail;
      }
      return Ok(Item(digest, m, config.value.config));
    }

    /** `pullManifestRecursive`, not lazily, for up to `steps` parent links. It succeeds exactly
        when the repository has the complete chain with all its layers and every snapshot id
        can be a ref; then the store has all of it, and each id names the oldest snapshot of
        the chain that carries it. It is still running only while the links have not ended. A
        pull that fails has stopped at the first link, from the top, that cannot be pulled, and
        leaves the refs and the blobs of everything above that link. */
    method Pull(store: LocalStore, ref: string, steps: nat) returns (r: PullResult, digest: Digest, ghost c: seq<Item>)
      requires Ideal(store.h)
      modifies store
      ensures Grows(old(store.Contents()), store.Contents())
      ensures Intact(store.h, old(store.blobs)) ==> Intact(store.h, store.blobs)
      ensures PulledDown(store.h, remote, ref, c) && RefsPulled(old(store.refs), store.refs, c)
      ensures BlobsOfAll(c) <= store.blobs.Keys
      ensures r == Pulled ==> RemoteChain(store.h, remote, ref, c) && digest == c[|c| - 1].digest
      ensures r == NotPulled ==> StopsAt(store.h, remote, NextLink(ref, c))
      ensures r == NotPulled ==> forall e :: RemoteChain(store.h, remote, ref, e) ==> !AllPullable(store.h, remote, e)
      ensures r == Running ==> !Ends(store.h, remote, ref, steps)
      decreases steps
    {
      hide Intact, FetchItem, BlobsOf, BlobsOfAll, SafeRefName, TrimSpace, RefsPulled, LayersThere, AllPullable,
           RemoteChain, RefWritten, AllAcceptable, Prepared, Installed, AllTrue, Ideal, TagWorks, PulledDown, NextLink;
      digest := "";
      c := [];
      NothingPulled(store.refs);
      NothingDown(store.h, remote, ref);
      var item := PullItem(store, ref);
      if item.Ok? {
        FetchedIsDigest(store.h, remote, ref);
      } else {
        TopMissing(store.h, remote, ref);
        return NotPulled, digest, c;
      }
      digest := item.value.digest;
      OneRefWritten(old(store.refs), item.value);
      if item.value.config.id != "" {
        var ok := store.WriteRefsIfExpected([RefUpdate(item.value.config.id, digest, "")], [true]);
        if !ok {
          TopMissing(store.h, remote, ref);
          return NotPulled, digest, c;
        }
      }
      ghost var mid := store.refs;
      assert mid == RefWritten(old(store.refs), item.value);
      NothingPulled(mid);
      ghost var below: seq<Item> := [];
      r := Pulled;
      if item.value.config.parent.Some? {
        NothingDown(store.h, remote, item.value.config.parent.value);
        if steps == 0 {
          r := Running;
        } else {
          var parent;
          r, parent, below := Pull(store, item.value.config.parent.value, steps - 1);
          if r == NotPulled {
            BelowMissing(store.h, remote, ref, item.value);
          }
        }
      }
      c := below + [item.value];
      DownOneMore(store.h, remote, ref, below, item.value);
      PulledOneMore(old(store.refs), mid, store.refs, below, item.value);
      BlobsOfOneMore(below, item.value);
      if r == Pulled {
        ChainOneMore(store.h, remote, ref, below, item.value);
      }
    }
  }

  predicate AllLayersThere(h: Blob -> Digest, remote: Remote, c: seq<Item>)
  {
    forall i :: 0 <= i < |c| ==> LayersThere(h, remote, c[i])
  }

  // ----- pulling what was pushed

  lemma {:induction false} TagsOfHead(disk: Disk, remote: Remote, puts: seq<Put>, tag: string, d: Digest)
    requires forall p :: p in puts ==> p.digest in disk.blobs && (p.PutManifest? ==> p.digest == d)
    requires PutManifest(tag, d) in puts
    ensures tag in PutAll(disk, remote, puts).tags && PutAll(disk, remote, puts).tags[tag] == d
    decreases |puts|
  {
    var n := |puts| - 1;
    if puts[n] != PutManifest(tag, d) {
      assert PutManifest(tag, d) in puts[..n];
      TagsOfHead(disk, remote, puts[..n], tag, d);
    }
  }

  lemma HasTag(item: Item, headTags: seq<string>, tag: string)
    requires tag in headTags
    ensures PutManifest(tag, item.digest) in ItemPuts(item, headTags)
  {
    hide ItemPuts;
    ItemPutsAt(item, headTags);
    var i :| 0 <= i < |headTags| && headTags[i] == tag;
    var own := if item.config.id != "" then 1 else 0;
    assert ItemPuts(item, headTags)[1 + |item.manifest.layers| + own + i] == PutManifest(tag, item.digest);
  }

  lemma ItemManifests(item: Item, headTags: seq<string>)
    ensures forall p :: p in ItemPuts(item, headTags) && p.PutManifest? ==> p.digest == item.digest
  {
    var blobs := [PutBlob(item.manifest.config)] + LayerPuts(item.manifest.layers);
    assert forall p :: p in blobs ==> p.PutBlob?;
    assert forall p :: p in ManifestPuts(item, headTags) ==> p.digest == item.digest;
    assert ItemPuts(item, headTags) == blobs + ManifestPuts(item, headTags);
  }

  lemma HeadTagged(disk: Disk, before: Remote, c: seq<Item>, tags: seq<string>, tag: string)
    requires c != [] && tag in tags && forall p :: p in PushPuts(c, |c|, tags) ==> p.digest in disk.blobs
    ensures var after := PutAll(disk, before, PushPuts(c, |c|, tags));
            tag in after.tags && after.tags[tag] == c[|c| - 1].digest
  {
    hide PutAll, ItemPuts;
    var head := c[|c| - 1];
    var below, mine := PushPuts(c[..|c| - 1], |c|, tags), ItemPuts(head, tags);
    assert PushPuts(c, |c|, tags) == below + mine;
    PutAppend(disk, before, below, mine);
    ItemManifests(head, tags);
    HasTag(head, tags, tag);
    assert forall p :: p in mine ==> p in below + mine;
    TagsOfHead(disk, PutAll(disk, before, below), mine, tag, head.digest);
  }

  lemma HeadArrived(h: Blob -> Digest, disk: Disk, before: Remote, after: Remote, c: seq<Item>, tags: seq<string>)
    requires c != [] && Sent(disk, before, after, PushPuts(c, |c|, tags), |PushPuts(c, |c|, tags)|) && tags != []
    ensures c[|c| - 1].digest in after.manifests
    ensures forall tag :: tag in tags ==> tag in after.tags && after.tags[tag] == c[|c| - 1].digest
  {
    hide PutAll, WrittenSet, ManifestKeys, BlobKeys, PushPuts, ItemPuts;
    var puts := PushPuts(c, |c|, tags);
    assert puts[..|puts|] == puts;
    PutKeys(disk, before, puts);
    PushKeys(c, |c|, tags);
    WrittenSetAt(c, |c|, tags);
    assert Written(c, |c|, tags, |c| - 1);
    forall tag | tag in tags ensures tag in after.tags && after.tags[tag] == c[|c| - 1].digest {
      HeadTagged(disk, before, c, tags, tag);
    }
  }

  lemma LinkedAt(h: Blob -> Digest, disk: Disk, c: seq<Item>, i: int)
    requires Linked(h, disk, c) && 0 <= i < |c|
    ensures IsLinked(h, disk, c, i)
  {
    hide IsLinked;
  }

  /** A closed repository gives back the very item the local store has. */
  lemma FetchesTheSame(h: Blob -> Digest, disk: Disk, remote: Remote, c: seq<Item>, i: int)
    requires Ideal(h) && Closed(h, remote) && Linked(h, disk, c) && 0 <= i < |c|
    requires c[i].digest in remote.manifests
    ensures FetchItem(h, remote, c[i].digest) == Ok(c[i]) && LayersThere(h, remote, c[i])
  {
    hide TrimSpace, Linked;
    ItemIntact(h, disk, c, i, []);
    assert IsLinked(h, disk, c, i) by { LinkedAt(h, disk, c, i); }
    assert remote.manifests[c[i].digest] == ManifestBlob(c[i].manifest);
    assert Supported(h, remote, remote.manifests[c[i].digest]);
    ConfigIsThere(h, disk, remote, c[i]);
  }

  /** With the head's manifest, a closed repository has the whole chain of the local store. */
  lemma {:induction false} ClosedHasChain(h: Blob -> Digest, disk: Disk, remote: Remote, c: seq<Item>)
    requires Ideal(h) && Closed(h, remote) && Linked(h, disk, c)
    requires c != [] && c[|c| - 1].digest in remote.manifests
    ensures RemoteChain(h, remote, c[|c| - 1].digest, c) && AllLayersThere(h, remote, c)
    ensures Ends(h, remote, c[|c| - 1].digest, |c|)
    decreases |c|
  {
    hide Ideal, Closed, Linked, FetchItem, LayersThere, LoadDigest, ReadBlob;
    var n := |c| - 1;
    FetchesTheSame(h, disk, remote, c, n);
    LinkedAt(h, disk, c, n);
    if n > 0 {
      OrphanWritten(h, disk, remote, c, n);
      LinkedPrefix(h, disk, c, n);
      assert c[..n][n - 1] == c[n - 1];
      ClosedHasChain(h, disk, remote, c[..n]);
      forall i | 0 <= i < |c| ensures LayersThere(h, remote, c[i]) {
        if i < n {
          assert c[..n][i] == c[i];
        }
      }
    }
  }

  lemma {:induction false} RemoteChainUnique(h: Blob -> Digest, remote: Remote, ref: string, a: seq<Item>, b: seq<Item>)
    requires RemoteChain(h, remote, ref, a) && RemoteChain(h, remote, ref, b)
    ensures a == b
    decreases |a|
  {
    hide FetchItem;
    var m, n := |a| - 1, |b| - 1;
    assert a == a[..m] + [a[m]] && b == b[..n] + [b[n]];
    if a[m].config.parent.Some? {
      RemoteChainUnique(h, remote, a[m].config.parent.value, a[..m], b[..n]);
    }
  }

  /** A tag on a manifest is as good as its digest. */
  lemma ByTag(h: Blob -> Digest, remote: Remote, name: string, d: Digest, c: seq<Item>, steps: nat)
    requires name == d || (!IsDigest(name) && IsDigest(d) && name in remote.tags && remote.tags[name] == d)
    requires RemoteChain(h, remote, d, c) && Ends(h, remote, d, steps)
    ensures RemoteChain(h, remote, name, c) && Ends(h, remote, name, steps)
  {
    hide GetBlob, IsDigest;
    assert GetManifest(remote, name) == GetManifest(remote, d) by {
      if name != d {
      }
    }
  }

  /** All the blobs of a whole snapshot make it whole wherever they are. */
  lemma CopiedIsWhole(h: Blob -> Digest, from: Disk, to: Disk, base: Digest, d: Digest, c: seq<Item>)
    requires Ideal(h) && WholeBy(h, from, base, d, c) && Intact(h, to.blobs) && BlobsOfAll(c) <= to.blobs.Keys
    requires Intact(h, from.blobs)
    ensures WholeBy(h, to, base, d, c) && TreeAt(h, to, d) == TreeAt(h, from, d)
  {
    hide WholeBy, BlobsOfAll, TreeAt, IsDigest, TrimSpace;
    forall b | b in BlobsOfAll(c) && b in from.blobs ensures b in to.blobs && to.blobs[b] == from.blobs[b] {
      assert h(to.blobs[b]) == b && h(from.blobs[b]) == b;
    }
    WholeKept(h, from, to, base, d, c);
  }

  lemma {:induction false} FirstNamed(c: seq<Item>, n: int, f: string) returns (k: int)
    requires 0 <= n <= |c| && !Unnamed(c, n, f)
    ensures 0 <= k < n && Names(c[k], f) && Unnamed(c, k, f)
    decreases n
  {
    hide Names;
    if Unnamed(c, n - 1, f) {
      k := n - 1;
    } else {
      k := FirstNamed(c, n - 1, f);
    }
  }

  /** Pulling a snapshot with its whole chain keeps a workspace sound, and the refs that its
      ids do not name keep their trees. */
  lemma PulledIsSound(h: Blob -> Digest, before: Disk, after: Disk, base: Digest, d: Digest, c: seq<Item>)
    requires Sound(h, before, base) && Grows(before, after) && Intact(h, after.blobs)
    requires WholeBy(h, after, base, d, c) && RefsPulled(before.refs, after.refs, c)
    ensures Sound(h, after, base)
    ensures forall f :: f in before.refs && Unnamed(c, |c|, f) ==>
                          f in after.refs && TreeAt(h, after, after.refs[f]) == TreeAt(h, before, before.refs[f])
  {
    hide Ideal, Intact, Whole, WholeBy, TreeAt, Unnamed, LoadDigest, Names, Grows;
    forall f | f in after.refs ensures Whole(h, after, base, after.refs[f]) {
      if Unnamed(c, |c|, f) {
        WholeGrows(h, before, after, base, before.refs[f]);
      } else {
        var k := FirstNamed(c, |c|, f);
        PrefixIsWhole(h, after, base, d, c, k);
      }
    }
    forall f | f in before.refs && Unnamed(c, |c|, f)
      ensures f in after.refs && TreeAt(h, after, after.refs[f]) == TreeAt(h, before, before.refs[f])
    {
      assert Get(after.refs, f) == Get(before.refs, f);
      WholeGrows(h, before, after, base, before.refs[f]);
    }
  }

  lemma {:induction false} EndsLater(h: Blob -> Digest, remote: Remote, ref: string, k: nat, steps: nat)
    requires Ends(h, remote, ref, k)
    ensures k <= steps ==> Ends(h, remote, ref, steps)
    decreases k
  {
    hide FetchItem;
    var item := FetchItem(h, remote, ref);
    if item.Ok? && item.value.config.parent.Some? && k <= steps {
      EndsLater(h, remote, item.value.config.parent.value, k - 1, steps - 1);
    }
  }

  lemma AllThere(h: Blob -> Digest, remote: Remote, c: seq<Item>)
    requires AllLayersThere(h, remote, c)
    ensures (forall i :: 0 <= i < |c| ==> CanName(c[i])) ==> AllPullable(h, remote, c)
  {
    hide LayersThere, CanName;
  }

  /** Push a whole snapshot to a closed repository, then pull it into another store by its
      digest or by one of its tags: the other store gets the identical chain, and with it the
      identical tree. */
  method PushAndPull(from: LocalStore, via: Repository, to: LocalStore, ref: string, extraTags: seq<string>,
                     name: string, steps: nat, ghost base: Digest, ghost c: seq<Item>)
    returns (result: PushResult, pulled: PullResult)
    requires from != to && from.h == to.h && Ideal(to.h) && Intact(from.h, from.blobs) && Intact(to.h, to.blobs)
    requires Resolve(from.Contents(), ref).Ok?
    requires WholeBy(from.h, from.Contents(), base, Resolve(from.Contents(), ref).value, c)
    requires HeadTags(c, extraTags) != []
    requires Closed(to.h, via.remote) && ParentsCovered(via.remote, c, |c|, HeadTags(c, extraTags))
    requires name == Resolve(from.Contents(), ref).value || (name in HeadTags(c, extraTags) && !IsDigest(name))
    modifies via, to
    ensures result == Pushed && |c| <= steps && (forall i :: 0 <= i < |c| ==> CanName(c[i])) ==> pulled == Pulled
    ensures pulled == Pulled ==>
              var d := Resolve(from.Contents(), ref).value;
              WholeBy(to.h, to.Contents(), base, d, c) &&
                  TreeAt(to.h, to.Contents(), d) == TreeAt(from.h, from.Contents(), d)
    ensures pulled == Pulled && old(Sound(to.h, to.Contents(), base)) ==> Sound(to.h, to.Contents(), base)
    ensures result != Pushed ==> to.Contents() == old(to.Contents())
  {
    hide WholeBy, IsChain, GoodChain, RemoteChain, Ends, Closed, Linked, Sent, ParentsCovered, PushPuts, HeadTags,
         Resolve, Ideal, BlobsOfAll, Intact, TreeAt, IsDigest, RefsPulled, AllLayersThere, AllPullable, MayPush, Sound,
         Grows;
    ghost var d := Resolve(from.Contents(), ref).value;
    ghost var disk := from.Contents();
    pulled := NotPulled;
    ghost var chain;
    ghost var n;
    WholeIsLinked(from.h, disk, base, d, c);
    result, chain, n := via.Push(from, ref, extraTags, "");
    if result != Pushed {
      return;
    }
    ChainTop(from.h, disk, ref, chain);
    assert chain == c by { WholeIsUnique(from.h, disk, base, d, c, chain); }
    HeadArrived(from.h, disk, old(via.remote), via.remote, c, HeadTags(c, extraTags));
    ClosedHasChain(from.h, disk, via.remote, c);
    WholeIsDigest(from.h, disk, base, d);
    ByTag(from.h, via.remote, name, d, c, |c|);
    var digest;
    ghost var got;
    pulled, digest, got := via.Pull(to, name, steps);
    if pulled == Pulled {
      RemoteChainUnique(from.h, via.remote, name, c, got);
      CopiedIsWhole(from.h, disk, to.Contents(), base, d, c);
      if old(Sound(to.h, to.Contents(), base)) {
        PulledIsSound(to.h, old(to.Contents()), to.Contents(), base, d, c);
      }
    } else {
      AllThere(from.h, via.remote, c);
      EndsLater(from.h, via.remote, name, |c|, steps);
    }
  }
}
