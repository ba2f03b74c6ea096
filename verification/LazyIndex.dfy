/** The per-file index of an encrypted snapshot, used to read and to restore without the
    layers. */
module LazyIndex {
  import opened Paths
  import opened Trees
  import opened Layers
  import opened RestoreProofs
  import opened Diff
  import opened Reads

  /** A record of `encryptedLazyIndexRecord.Files`; its type is "whiteout" or "file". */
  datatype IndexFile = IndexFile(path: Path, deleted: bool, data: Bytes)

  /** Sorted by path, then "file" before "whiteout". */
  predicate RecordBefore(a: IndexFile, b: IndexFile)
  {
    if a.path == b.path then !a.deleted || b.deleted else Leq(a.path, b.path)
  }

  predicate IsSortedIndex(files: seq<IndexFile>)
  {
    forall i, j :: 0 <= i < j < |files| ==> RecordBefore(files[i], files[j])
  }

  function InsertRecord(x: IndexFile, s: seq<IndexFile>): seq<IndexFile>
  {
    if s == [] then [x]
    else if RecordBefore(x, s[0]) then [x] + s
    else [s[0]] + InsertRecord(x, s[1..])
  }

  /** `sort.Slice` on the records. */
  function SortRecords(s: seq<IndexFile>): seq<IndexFile>
  {
    if s == [] then [] else InsertRecord(s[0], SortRecords(s[1..]))
  }

  lemma RecordOrder(a: IndexFile, b: IndexFile, c: IndexFile)
    ensures RecordBefore(a, b) || RecordBefore(b, a)
    ensures RecordBefore(a, b) && RecordBefore(b, c) ==> RecordBefore(a, c)
  {
    hide Leq;
    LeqTotal(a.path, b.path);
    LeqTotal(b.path, c.path);
    if Leq(a.path, b.path) && Leq(b.path, c.path) {
      LeqTransitive(a.path, b.path, c.path);
    }
  }

  lemma {:induction false} InsertRecordSorted(x: IndexFile, s: seq<IndexFile>)
    ensures Elems(InsertRecord(x, s)) == Elems(s) + {x}
    ensures IsSortedIndex(s) ==> IsSortedIndex(InsertRecord(x, s))
  {
    hide RecordBefore;
    if s != [] {
      assert s == [s[0]] + s[1..];
      RecordOrder(x, s[0], s[0]);
      if RecordBefore(x, s[0]) {
        forall i | 0 <= i < |s| && IsSortedIndex(s) ensures RecordBefore(x, s[i]) {
          if i > 0 {
            RecordOrder(x, s[0], s[i]);
          }
        }
      } else {
        var rest := InsertRecord(x, s[1..]);
        InsertRecordSorted(x, s[1..]);
        forall y | y in rest && IsSortedIndex(s) ensures RecordBefore(s[0], y) {
          assert y in Elems(s[1..]) + {x};
        }
        assert forall y :: y in rest <==> y in Elems(rest);
      }
    }
  }

  lemma {:induction false} SortRecordsSorted(s: seq<IndexFile>)
    ensures Elems(SortRecords(s)) == Elems(s) && IsSortedIndex(SortRecords(s))
  {
    hide RecordBefore;
    if s != [] {
      assert s == [s[0]] + s[1..];
      SortRecordsSorted(s[1..]);
      InsertRecordSorted(s[0], SortRecords(s[1..]));
    }
  }

  /** The records a layer gives. */
  predicate IsRecord(l: Layer, f: IndexFile)
  {
    if f.deleted then f.path in l.whiteouts && f.data == ""
    else f.path in TreeMap(l.entries) && TreeMap(l.entries)[f.path].File? && TreeMap(l.entries)[f.path].data == f.data
  }

  /** `createEncryptedLazyIndex`: a record for every whiteout and every file; links and
      directories have none. */
  method CreateIndex(l: Layer) returns (files: seq<IndexFile>)
    requires IsListing(l.entries)
    ensures IsSortedIndex(files)
    ensures forall f :: f in files <==> IsRecord(l, f)
  {
    hide TreeMap, IsListing, RecordBefore;
    files := [];
    var i := 0;
    while i < |l.whiteouts|
      invariant 0 <= i <= |l.whiteouts|
      invariant forall f :: f in files <==> f.deleted && f.path in l.whiteouts[..i] && f.data == ""
    {
      assert l.whiteouts[..i + 1] == l.whiteouts[..i] + [l.whiteouts[i]];
      files := files + [IndexFile(l.whiteouts[i], true, "")];
      i := i + 1;
    }
    assert l.whiteouts[..i] == l.whiteouts;
    i := 0;
    EmptyMap(l.entries[..0]);
    while i < |l.entries|
      invariant 0 <= i <= |l.entries|
      invariant forall f :: f in files <==> IsRecord(Layer(l.whiteouts, l.entries[..i]), f)
    {
      ListingGrows(l.entries, i);
      var e := l.entries[i];
      if e.node.File? {
        files := files + [IndexFile(e.path, false, e.node.data)];
      }
      i := i + 1;
    }
    assert l.entries[..i] == l.entries;
    SortRecordsSorted(files);
    assert forall f :: f in SortRecords(files) <==> f in Elems(SortRecords(files));
    files := SortRecords(files);
  }

  /** The loop of `readEncryptedLazyFile`: the first record of that path decides. */
  method ReadIndex(files: seq<IndexFile>, name: Path) returns (r: ReadResult)
    requires IsSortedIndex(files)
    ensures r == Absent <==> forall f :: f in files ==> f.path != name
    ensures r != Broken
    ensures r == Deleted <==> (exists f :: f in files && f.path == name) &&
                              forall f :: f in files && f.path == name ==> f.deleted
    ensures r.Found? ==> IndexFile(name, false, r.data) in files
  {
    for i := 0 to |files|
      invariant forall k :: 0 <= k < i ==> files[k].path != name
    {
      if files[i].path == name {
        if files[i].deleted {
          forall f | f in files && f.path == name ensures f.deleted {
            var k :| 0 <= k < |files| && files[k] == f;
            assert k == i || RecordBefore(files[i], files[k]);
          }
          return Deleted;
        }
        return Found(files[i].data);
      }
    }
    return Absent;
  }

  /** What the index of a layer answers. */
  function IndexSays(l: Layer, name: Path): ReadResult
  {
    if name in TreeMap(l.entries) && TreeMap(l.entries)[name].File? then Found(TreeMap(l.entries)[name].data)
    else if name in l.whiteouts then Deleted
    else Absent
  }

  /** The lookup in the index that was written for a layer. */
  method ReadLayerIndex(l: Layer, name: Path) returns (r: ReadResult)
    requires IsListing(l.entries)
    ensures r == IndexSays(l, name)
  {
    hide TreeMap, IsListing, IsSortedIndex;
    var files := CreateIndex(l);
    r := ReadIndex(files, name);
    assert IsRecord(l, IndexFile(name, true, "")) <==> name in l.whiteouts;
    if name in TreeMap(l.entries) && TreeMap(l.entries)[name].File? {
      assert IsRecord(l, IndexFile(name, false, TreeMap(l.entries)[name].data));
    }
  }

  /** One round of `ReadSnapshotFile` on an encrypted layer: the index first, then, if it is
      silent, the decrypted layer. */
  function EncryptedSays(l: Layer, name: Path): ReadResult
  {
    if IndexSays(l, name) != Absent then IndexSays(l, name) else LayerSays(MakeLayer(l), name)
  }

  function NewestEncrypted(layers: seq<Layer>, name: Path): ReadResult
  {
    if layers == [] then Absent
    else
      var n := |layers| - 1;
      if EncryptedSays(layers[n], name) != Absent then EncryptedSays(layers[n], name)
      else NewestEncrypted(layers[..n], name)
  }

  method ReadEncryptedFile(layers: seq<Layer>, name: Path) returns (r: ReadResult)
    requires forall i :: 0 <= i < |layers| ==> IsListing(layers[i].entries)
    ensures r == NewestEncrypted(layers, name)
  {
    hide IndexSays, LayerSays, MakeLayer, IsListing;
    var i := |layers|;
    assert layers[..i] == layers;
    while i > 0
      invariant 0 <= i <= |layers|
      invariant NewestEncrypted(layers, name) == NewestEncrypted(layers[..i], name)
    {
      assert layers[..i][..i - 1] == layers[..i - 1];
      r := ReadLayerIndex(layers[i - 1], name);
      if r == Absent {
        r := ReadFileFromLayer(MakeLayer(layers[i - 1]), name);
      }
      if r != Absent {
        return;
      }
      i := i - 1;
    }
    return Absent;
  }

  lemma PathIsCanonical(t: Tree, q: Path)
    requires IsTree(t) && q in t
    ensures Canonical(q)
  {
  }

  /** With the index there is no exception: every regular file of the head reads as its
      bytes, type changes included. */
  lemma {:induction false} ReadEncryptedHead(layers: seq<Layer>, trees: seq<Tree>, q: Path)
    requires IsHistory(layers, trees) && q in HeadTree(trees) && HeadTree(trees)[q].File?
    ensures NewestEncrypted(layers, q) == Found(HeadTree(trees)[q].data)
    decreases |trees|
  {
    hide Canonical, Base, NoBackslash, IsTree, Unreserved, Tops, Dropped, LayerSays, MakeLayer, TreeMap, IsListing;
    var n := |trees| - 1;
    var p, c := HeadTree(trees[..n]), trees[n];
    HeadIsTree(layers[..n], trees[..n]);
    HeadIsTree(layers, trees);
    PathIsCanonical(c, q);
    DeltaSays(p, c, layers[n], q);
    TopsWithin(p, c);
    assert q in layers[n].whiteouts <==> q in Elems(layers[n].whiteouts);
    if q !in Changed(p, c) {
      CommonPathOnTop(p, c, q);
      ReadEncryptedHead(layers[..n], trees[..n], q);
    }
  }

  // ----- restoring from the indexes

  predicate HasEntry(t: Tree, e: TreeEntry)
  {
    e.path in t && t[e.path] == e.node
  }

  /** Snapshot `k` is where this exact entry came into the tree. */
  predicate Introduces(trees: seq<Tree>, e: TreeEntry, k: int)
  {
    0 <= k < |trees| && HasEntry(trees[k], e) && (k == 0 || !HasEntry(trees[k - 1], e))
  }

  /** `restoreSourceDigestForEntry`: the newest position that has this very entry while the
      position before it has not. */
  method RestoreSource(trees: seq<Tree>, entry: TreeEntry) returns (r: Option<nat>)
    ensures r.Some? ==> Introduces(trees, entry, r.value)
    ensures HasEntry(HeadTree(trees), entry) ==> r.Some?
    ensures r.None? ==> forall k :: 0 <= k < |trees| ==> !Introduces(trees, entry, k)
    ensures r.Some? ==> forall k :: r.value < k < |trees| ==> !Introduces(trees, entry, k)
  {
    var i := |trees|;
    while i > 0
      invariant 0 <= i <= |trees|
      invariant forall k :: i <= k < |trees| ==> !Introduces(trees, entry, k)
      invariant HasEntry(HeadTree(trees), entry) ==> i > 0 && HasEntry(trees[i - 1], entry)
    {
      i := i - 1;
      if HasEntry(trees[i], entry) {
        if i == 0 {
          return Some(0);
        }
        if !HasEntry(trees[i - 1], entry) {
          return Some(i);
        }
      }
    }
    return None;
  }

  lemma {:induction false} HistoryPrefix(layers: seq<Layer>, trees: seq<Tree>, k: int)
    requires IsHistory(layers, trees) && 0 <= k <= |trees|
    ensures IsHistory(layers[..k], trees[..k])
    decreases |trees|
  {
    hide IsTree, Unreserved, IsDelta;
    var n := |trees| - 1;
    if k <= n {
      HistoryPrefix(layers[..n], trees[..n], k);
      assert layers[..n][..k] == layers[..k] && trees[..n][..k] == trees[..k];
    } else {
      assert layers[..k] == layers && trees[..k] == trees;
    }
  }

  /** The layer of the snapshot that introduced an entry carries it. */
  lemma {:induction false} IntroducedByLayer(layers: seq<Layer>, trees: seq<Tree>, e: TreeEntry, k: int)
    requires IsHistory(layers, trees) && Introduces(trees, e, k)
    ensures e.path in TreeMap(layers[k].entries) && TreeMap(layers[k].entries)[e.path] == e.node
  {
    hide IsTree, Unreserved, TreeMap, IsListing;
    HistoryPrefix(layers, trees, k + 1);
    assert trees[..k + 1][..k] == trees[..k];
  }
}
