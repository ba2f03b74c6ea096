/** Reading a file, or a range of it, from a chain of encrypted snapshots, newest first, with
    blobs that may be missing or damaged. */
module RangeReads {
  import opened Paths
  import opened Trees
  import opened Layers
  import opened RestoreProofs
  import opened Reads
  import opened Merkle
  import opened Chunks
  import opened LazyIndex
  import LazyRestore

  /** What is stored of one file: its index entry, its whole blob and its chunks. */
  datatype Stored = Stored(entry: FileEntry, whole: Outcome<Bytes>, fetch: Fetch)

  /** By the position of the snapshot in the chain, and the path. */
  type Vault = (nat, Path) -> Stored

  datatype Reading = Content(bytes: Bytes) | WasDeleted | NotFound | Error | Panic

  predicate FileIn(l: Layer, name: Path)
  {
    name in TreeMap(l.entries) && TreeMap(l.entries)[name].File?
  }

  /** Every file of every layer has the index entry that was written for it. */
  ghost predicate Indexed(h: Hash, layers: seq<Layer>, vault: Vault)
  {
    forall i, q :: 0 <= i < |layers| && FileIn(layers[i], q) ==>
      IsEntryOf(h, vault(i, q).entry, TreeMap(layers[i].entries)[q].data)
  }

  predicate AllListings(layers: seq<Layer>)
  {
    forall i :: 0 <= i < |layers| ==> IsListing(layers[i].entries)
  }

  /** The blobs that a read of the whole file needs are there and undamaged. */
  predicate WholeReadable(h: Hash, s: Stored)
  {
    if |s.entry.chunks| > 1 then forall i :: 0 <= i < |s.entry.chunks| ==> Accepts(h, s.entry.chunks[i], s.fetch(i))
    else s.whole.Ok? && h(s.whole.value) == s.entry.digest && (s.entry.size > 0 ==> |s.whole.value| == s.entry.size)
  }

  /** The chunks that a read of the range needs are there and undamaged. */
  predicate RangeReadable(h: Hash, s: Stored, data: Bytes, offset: nat, length: nat)
  {
    offset >= |data| || length == 0 || NeededAccepted(h, s.entry.chunks, offset, length, s.fetch, |s.entry.chunks|)
  }

  /** The newest snapshot whose layer says anything about the name. */
  function Carrier(layers: seq<Layer>, name: Path): (r: Option<nat>)
    ensures r.Some? ==> r.value < |layers|
  {
    if layers == [] then None
    else if EncryptedSays(layers[|layers| - 1], name) != Absent then Some(|layers| - 1)
    else Carrier(layers[..|layers| - 1], name)
  }

  /** What a read in the layer that decides comes to. */
  ghost predicate AnswerIs(h: Hash, l: Layer, s: Stored, name: Path, r: Reading)
  {
    match IndexSays(l, name)
    case Found(data) =>
      if WholeReadable(h, s) then r.Content? && (CollisionFree(h) ==> r.bytes == data) else r == Error
    case Deleted => r == WasDeleted
    case _ =>
      match LayerSays(MakeLayer(l), name)
      case Found(data) => r == Content(data)
      case Deleted => r == WasDeleted
      case _ => r == Error
  }

  /** What a read of the whole file comes to, its carrier being known. */
  ghost predicate WholeIs(h: Hash, layers: seq<Layer>, vault: Vault, name: Path, r: Reading)
  {
    match Carrier(layers, name)
    case None => r == NotFound
    case Some(k) => AnswerIs(h, layers[k], vault(k, name), name, r)
  }

  /** `sliceRange` of what was read. */
  function Cut(whole: Reading, offset: nat, length: nat): Reading
  {
    if !whole.Content? then whole
    else if offset < |whole.bytes| && length > 0 && offset + length > MAX_INT64 then Panic
    else Content(Clamped(whole.bytes, offset, length))
  }

  predicate HasNotFound(text: string)
  {
    "not found" <= text || (text != "" && HasNotFound(text[1..]))
  }

  /** The loop over the chain goes on after a failed read if the text of the error contains
      "not found". That of a deletion quotes the name, and a digest; what else fails has a
      text of its own. */
  predicate GoesOn(whole: Reading, name: Path, text: bool)
  {
    || whole == NotFound
    || (whole == WasDeleted && HasNotFound(name))
    || (whole == Error && text)
  }

  /** What a read of a range comes to: if the newest layer has the file, from its chunks, and
      otherwise cut out of a read of the whole. `texts(i)` tells whether a read of the whole
      that fails in snapshot `i` says "not found". */
  ghost predicate RangeIs(h: Hash, layers: seq<Layer>, vault: Vault, name: Path, offset: nat, length: nat,
                          texts: nat -> bool, r: Reading)
    decreases |layers|
  {
    if layers == [] then r == NotFound
    else
      var n := |layers| - 1;
      match IndexSays(layers[n], name)
      case Found(data) =>
        if RangeReadable(h, vault(n, name), data, offset, length) then
          r.Content? && (CollisionFree(h) ==> r.bytes == Clamped(data, offset, length))
        else r == Error
      case Deleted => r == WasDeleted
      case _ =>
        exists whole :: WholeIs(h, layers, vault, name, whole) &&
          if GoesOn(whole, name, texts(n)) then RangeIs(h, layers[..n], vault, name, offset, length, texts, r)
          else r == Cut(whole, offset, length)
  }

  // ----- the loops

  lemma {:induction false} CarrierPrefix(layers: seq<Layer>, name: Path, i: int)
    requires 0 <= i <= |layers| && forall k :: i <= k < |layers| ==> EncryptedSays(layers[k], name) == Absent
    ensures Carrier(layers, name) == Carrier(layers[..i], name)
    decreases |layers|
  {
    hide EncryptedSays;
    if i == |layers| {
      assert layers[..i] == layers;
    } else {
      var below := layers[..|layers| - 1];
      CarrierPrefix(below, name, i);
      assert below[..i] == layers[..i];
    }
  }

  /** One round of the loop: the index, then the layer; nothing if neither mentions the name. */
  method ReadLayer(h: Hash, l: Layer, s: Stored, name: Path) returns (r: Option<Reading>)
    requires IsListing(l.entries)
    requires IndexSays(l, name).Found? ==> IsEntryOf(h, s.entry, IndexSays(l, name).data)
    ensures r.None? <==> EncryptedSays(l, name) == Absent
    ensures r.Some? ==> AnswerIs(h, l, s, name, r.value) && r.value != Panic && r.value != NotFound
  {
    hide LayerSays, MakeLayer, IsListing, TreeMap, IsEntryOf, Accepts, CollisionFree;
    var said := ReadLayerIndex(l, name);
    if said.Found? {
      var got := ReadFile(h, s.entry, said.data, s.whole, s.fetch);
      return Some(if got.Ok? then Content(got.value) else Error);
    }
    if said != Absent {
      return Some(WasDeleted);
    }
    said := ReadFileFromLayer(MakeLayer(l), name);
    if said == Absent {
      return None;
    }
    return Some(if said.Found? then Content(said.data) else if said.Deleted? then WasDeleted else Error);
  }

  lemma IndexedAt(h: Hash, layers: seq<Layer>, vault: Vault, name: Path, i: int)
    requires 0 <= i < |layers| && Indexed(h, layers, vault) && AllListings(layers)
    ensures IsListing(layers[i].entries)
    ensures IndexSays(layers[i], name).Found? ==> IsEntryOf(h, vault(i, name).entry, IndexSays(layers[i], name).data)
  {
    hide IsListing, TreeMap, IsEntryOf;
    assert FileIn(layers[i], name) ==> IndexSays(layers[i], name).Found?;
  }

  /** `ReadSnapshotFile` on encrypted layers. */
  method ReadWhole(h: Hash, layers: seq<Layer>, vault: Vault, name: Path) returns (r: Reading)
    requires AllListings(layers) && Indexed(h, layers, vault)
    ensures WholeIs(h, layers, vault, name, r)
    ensures r != Panic && (r == NotFound <==> Carrier(layers, name) == None)
  {
    hide EncryptedSays, AnswerIs, Indexed, AllListings, IndexSays, IsEntryOf;
    var i := |layers|;
    while i > 0
      invariant 0 <= i <= |layers|
      invariant forall k :: i <= k < |layers| ==> EncryptedSays(layers[k], name) == Absent
    {
      i := i - 1;
      IndexedAt(h, layers, vault, name, i);
      var one := ReadLayer(h, layers[i], vault(i, name), name);
      if one.Some? {
        CarrierPrefix(layers, name, i + 1);
        assert layers[..i + 1][i] == layers[i];
        return one.value;
      }
    }
    CarrierPrefix(layers, name, 0);
    return NotFound;
  }

  lemma IndexedPrefix(h: Hash, layers: seq<Layer>, vault: Vault, i: int)
    requires 0 <= i <= |layers| && Indexed(h, layers, vault) && AllListings(layers)
    ensures Indexed(h, layers[..i], vault) && AllListings(layers[..i])
  {
    hide IsListing, TreeMap, IsEntryOf;
    forall k, q | 0 <= k < i && FileIn(layers[..i][k], q)
      ensures IsEntryOf(h, vault(k, q).entry, TreeMap(layers[..i][k].entries)[q].data)
    {
      assert FileIn(layers[k], q);
    }
  }

  /** What a range read of the first `i` snapshots comes to is what it comes to for all. */
  ghost predicate Reduces(h: Hash, layers: seq<Layer>, vault: Vault, name: Path, offset: nat, length: nat,
                          texts: nat -> bool, i: int)
    requires 0 <= i <= |layers|
  {
    forall r :: RangeIs(h, layers[..i], vault, name, offset, length, texts, r) ==>
                  RangeIs(h, layers, vault, name, offset, length, texts, r)
  }

  lemma ReducesAll(h: Hash, layers: seq<Layer>, vault: Vault, name: Path, offset: nat, length: nat,
                   texts: nat -> bool)
    ensures Reduces(h, layers, vault, name, offset, length, texts, |layers|)
  {
    hide RangeIs;
    assert layers[..|layers|] == layers;
  }

  lemma ReducesOneMore(h: Hash, layers: seq<Layer>, vault: Vault, name: Path, offset: nat, length: nat,
                       texts: nat -> bool, i: int, whole: Reading)
    requires 0 <= i < |layers| && Reduces(h, layers, vault, name, offset, length, texts, i + 1)
    requires IndexSays(layers[i], name) == Absent && WholeIs(h, layers[..i + 1], vault, name, whole)
    requires GoesOn(whole, name, texts(i))
    ensures Reduces(h, layers, vault, name, offset, length, texts, i)
  {
    hide WholeIs, IndexSays, GoesOn, RangeReadable, Cut;
    assert layers[..i + 1][..i] == layers[..i] && layers[..i + 1][i] == layers[i];
  }

  /** `ReadSnapshotFileRange` on encrypted layers. If a snapshot does not have the file in its
      index, the whole is read from there and cut; an error that says "not found" makes the
      loop go on. */
  method ReadSnapshotFileRange(h: Hash, layers: seq<Layer>, vault: Vault, name: Path, offset: int, length: int,
                               texts: nat -> bool)
    returns (r: Reading)
    requires AllListings(layers) && Indexed(h, layers, vault) && IsInt64(offset) && IsInt64(length)
    ensures offset < 0 || length < 0 ==> r == Error
    ensures offset >= 0 && length >= 0 ==> RangeIs(h, layers, vault, name, offset, length, texts, r)
  {
    hide LayerSays, MakeLayer, IsListing, TreeMap, IsEntryOf, Accepts, CollisionFree, WholeReadable, NeededAccepted,
         Indexed, AllListings, WholeIs, GoesOn;
    if offset < 0 || length < 0 {
      return Error;
    }
    ReducesAll(h, layers, vault, name, offset, length, texts);
    var i := |layers|;
    while i > 0
      invariant 0 <= i <= |layers|
      invariant Reduces(h, layers, vault, name, offset, length, texts, i)
    {
      i := i - 1;
      IndexedAt(h, layers, vault, name, i);
      assert layers[..i + 1][i] == layers[i];
      var said := ReadLayerIndex(layers[i], name);
      if said.Found? {
        var s := vault(i, name);
        var got := ReadRange(h, s.entry, said.data, offset, length, s.fetch);
        return if got.Ok? then Content(got.value) else Error;
      }
      if said != Absent {
        return WasDeleted;
      }
      IndexedPrefix(h, layers, vault, i + 1);
      var whole := ReadWhole(h, layers[..i + 1], vault, name);
      if GoesOn(whole, name, texts(i)) {
        ReducesOneMore(h, layers, vault, name, offset, length, texts, i, whole);
        continue;
      }
      if !whole.Content? {
        return whole;
      }
      var part := SliceRange(whole.bytes, offset, length);
      return if part.Ok? then Content(part.value) else Panic;
    }
    return NotFound;
  }

  // ----- what a range of a file of the head tree comes to

  /** The newest layer that mentions a regular file of the head has its bytes in its index. */
  lemma {:induction false} HeadCarrier(layers: seq<Layer>, trees: seq<Tree>, q: Path)
    requires IsHistory(layers, trees) && q in HeadTree(trees) && HeadTree(trees)[q].File?
    ensures Carrier(layers, q).Some?
    ensures IndexSays(layers[Carrier(layers, q).value], q) == Found(HeadTree(trees)[q].data)
    decreases |trees|
  {
    hide Canonical, Base, NoBackslash, IsTree, Unreserved, Tops, Dropped, LayerSays, MakeLayer, TreeMap, IsListing;
    var n := |trees| - 1;
    var p, c := HeadTree(trees[..n]), trees[n];
    HeadIsTree(layers[..n], trees[..n]);
    HeadIsTree(layers, trees);
    PathIsCanonical(c, q);
    DeltaSays(p, c, layers[n], q);
    TopsWithin(p, c);
    assert q in layers[n].whiteouts <==> q in Elems(layers[n].whiteouts);
    if q !in Changed(p, c) {
      CommonPathOnTop(p, c, q);
      HeadCarrier(layers[..n], trees[..n], q);
      assert layers[..n][Carrier(layers[..n], q).value] == layers[Carrier(layers[..n], q).value];
    }
  }

  lemma AbsentIndex(l: Layer, name: Path)
    requires EncryptedSays(l, name) == Absent
    ensures IndexSays(l, name) == Absent
  {
    hide LayerSays, MakeLayer;
  }

  lemma WholeOf(h: Hash, layers: seq<Layer>, vault: Vault, name: Path, data: Bytes, r: Reading)
    requires Carrier(layers, name).Some? && IndexSays(layers[Carrier(layers, name).value], name) == Found(data)
    requires WholeIs(h, layers, vault, name, r)
    ensures if WholeReadable(h, vault(Carrier(layers, name).value, name)) then r.Content? else r == Error
    ensures r.Content? && CollisionFree(h) ==> r.bytes == data
  {
    hide WholeReadable, CollisionFree, IndexSays, Carrier, LayerSays, MakeLayer;
  }

  /** When a range of a file of the head is read. If the newest layer has the file, or the
      whole cannot be read, the chunks count, to which the loop comes only over errors that
      say "not found"; else the end of the range counts. */
  predicate RangeWorks(h: Hash, layers: seq<Layer>, vault: Vault, name: Path, k: nat, data: Bytes, offset: nat,
                       length: nat, texts: nat -> bool)
  {
    if k + 1 < |layers| && WholeReadable(h, vault(k, name)) then
      offset >= |data| || length == 0 || offset + length <= MAX_INT64
    else
      && RangeReadable(h, vault(k, name), data, offset, length)
      && forall i :: k < i < |layers| ==> texts(i)
  }

  lemma {:induction false} RangeOf(h: Hash, layers: seq<Layer>, vault: Vault, name: Path, data: Bytes, offset: nat,
                                   length: nat, texts: nat -> bool, r: Reading)
    requires Carrier(layers, name).Some? && IndexSays(layers[Carrier(layers, name).value], name) == Found(data)
    requires RangeIs(h, layers, vault, name, offset, length, texts, r) && CollisionFree(h)
    ensures r.Content? ==> r.bytes == Clamped(data, offset, length)
    ensures r.Content? <==> RangeWorks(h, layers, vault, name, Carrier(layers, name).value, data, offset, length, texts)
    decreases |layers|
  {
    hide WholeReadable, RangeReadable, CollisionFree, IndexSays, WholeIs, Clamped, LayerSays, MakeLayer, HasNotFound;
    var k, n := Carrier(layers, name).value, |layers| - 1;
    if k < n {
      AbsentIndex(layers[n], name);
      var whole :| WholeIs(h, layers, vault, name, whole) &&
        if GoesOn(whole, name, texts(n)) then RangeIs(h, layers[..n], vault, name, offset, length, texts, r)
        else r == Cut(whole, offset, length);
      WholeOf(h, layers, vault, name, data, whole);
      if GoesOn(whole, name, texts(n)) {
        RangeOf(h, layers[..n], vault, name, data, offset, length, texts, r);
      }
    }
  }

  /** A range of any regular file of the head is the slice of the whole file, cut off at its
      end. It fails exactly when: the newest layer has the file and a chunk under the range is
      missing or damaged; or an older layer has it, and the end of the range leaves 64 bits;
      or the whole cannot be read either, unless errors that say "not found" take the loop
      down to chunks that can be. */
  method ReadHeadRange(h: Hash, layers: seq<Layer>, ghost trees: seq<Tree>, vault: Vault, q: Path, offset: nat,
                       length: nat, texts: nat -> bool)
    returns (whole: Reading, range: Reading)
    requires IsHistory(layers, trees) && q in HeadTree(trees) && HeadTree(trees)[q].File?
    requires Indexed(h, layers, vault) && offset <= MAX_INT64 && length <= MAX_INT64
    ensures Carrier(layers, q).Some? && (whole.Content? <==> WholeReadable(h, vault(Carrier(layers, q).value, q)))
    ensures whole.Content? && CollisionFree(h) ==> whole.bytes == HeadTree(trees)[q].data
    ensures range.Content? && CollisionFree(h) ==> range.bytes == Clamped(HeadTree(trees)[q].data, offset, length)
    ensures CollisionFree(h) ==>
              (range.Content? <==>
               RangeWorks(h, layers, vault, q, Carrier(layers, q).value, HeadTree(trees)[q].data, offset, length,
                          texts))
  {
    hide IsHistory, IndexSays, CollisionFree, WholeReadable, RangeReadable, Indexed, HeadTree, Carrier, WholeIs,
         RangeIs, RangeWorks;
    LazyRestore.ListingsOf(layers, trees);
    HeadCarrier(layers, trees, q);
    whole := ReadWhole(h, layers, vault, q);
    range := ReadSnapshotFileRange(h, layers, vault, q, offset, length, texts);
    WholeOf(h, layers, vault, q, HeadTree(trees)[q].data, whole);
    if CollisionFree(h) {
      RangeOf(h, layers, vault, q, HeadTree(trees)[q].data, offset, length, texts, range);
    }
  }

  // ----- chains that are not encrypted

  function ReadingOf(r: ReadResult): Reading
  {
    match r
    case Found(data) => Content(data)
    case Deleted => WasDeleted
    case Absent => NotFound
    case Broken => Error
  }

  /** What the loop comes to. In a chain that snapshots wrote, the only other error is that
      the name is a directory, and its text quotes the name. */
  function PlainRange(layers: seq<Layer>, name: Path, offset: nat, length: nat): Reading
  {
    if layers == [] then NotFound
    else
      var whole := ReadingOf(NewestSays(layers, name));
      if GoesOn(whole, name, HasNotFound(name)) then PlainRange(layers[..|layers| - 1], name, offset, length)
      else Cut(whole, offset, length)
  }

  /** `ReadSnapshotFileRange` on unencrypted layers. */
  method ReadPlainRange(layers: seq<Layer>, ghost trees: seq<Tree>, name: Path, offset: int, length: int)
    returns (r: Reading)
    requires IsHistory(layers, trees) && Canonical(name) && IsInt64(offset) && IsInt64(length)
    ensures if offset < 0 || length < 0 then r == Error else r == PlainRange(layers, name, offset, length)
  {
    hide IsHistory, NewestSays, HasNotFound, Canonical;
    if offset < 0 || length < 0 {
      return Error;
    }
    var i := |layers|;
    assert layers[..i] == layers;
    while i > 0
      invariant 0 <= i <= |layers|
      invariant PlainRange(layers, name, offset, length) == PlainRange(layers[..i], name, offset, length)
    {
      assert layers[..i][..i - 1] == layers[..i - 1];
      var got := ReadSnapshotFile(layers[..i], name);
      var whole := ReadingOf(got);
      i := i - 1;
      if GoesOn(whole, name, HasNotFound(name)) {
        continue;
      }
      if !whole.Content? {
        return whole;
      }
      var part := SliceRange(whole.bytes, offset, length);
      return if part.Ok? then Content(part.value) else Panic;
    }
    return NotFound;
  }

  /** The answer of the newest snapshot from which the name can be read at all. */
  function NewestFound(layers: seq<Layer>, name: Path): ReadResult
  {
    if layers == [] then Absent
    else if NewestSays(layers, name).Found? then NewestSays(layers, name)
    else NewestFound(layers[..|layers| - 1], name)
  }

  lemma {:induction false} AbsentBelow(layers: seq<Layer>, name: Path)
    requires NewestSays(layers, name) == Absent
    ensures NewestFound(layers, name) == Absent
  {
    hide LayerSays, MakeLayer;
    if layers != [] {
      AbsentBelow(layers[..|layers| - 1], name);
    }
  }

  /** A range comes from the read of the whole, unless the name contains "not found": then it
      comes from the newest snapshot that can be read at all, whatever happened since. */
  lemma {:induction false} PlainRangeIs(layers: seq<Layer>, name: Path, offset: nat, length: nat)
    ensures PlainRange(layers, name, offset, length) ==
            Cut(ReadingOf(if HasNotFound(name) then NewestFound(layers, name) else NewestSays(layers, name)),
                offset, length)
    decreases |layers|
  {
    hide LayerSays, MakeLayer, HasNotFound;
    if layers != [] {
      PlainRangeIs(layers[..|layers| - 1], name, offset, length);
    }
  }

  lemma {:induction false} NewestFoundAbsent(layers: seq<Layer>, trees: seq<Tree>, q: Path)
    requires IsHistory(layers, trees) && Canonical(q) && LastWith(trees, q) > 0
    requires var m := LastWith(trees, q); !NewestRetypes(trees[..m], q) && !trees[m - 1][q].Dir?
    ensures var m := LastWith(trees, q); NewestFound(layers, q) == BodySays(trees[m - 1][q])
    decreases |trees|
  {
    hide Canonical, Base, NoBackslash, IsTree, Unreserved, IsDelta, Tops, Dropped, LayerSays, MakeLayer, NewestSays;
    var n, m := |trees| - 1, LastWith(trees, q);
    if m == |trees| {
      assert trees[..m] == trees;
      ReadHead(layers, trees, q);
    } else {
      ReadAbsent(layers, trees, q);
      assert trees[..n][..m] == trees[..m];
      if !NewestSays(layers, q).Found? {
        NewestFoundAbsent(layers[..n], trees[..n], q);
      }
    }
  }

  /** A file or link that was deleted by its own name reads as deleted; a range of it is its
      old bytes if and only if its name contains "not found". */
  lemma DeletedRange(layers: seq<Layer>, trees: seq<Tree>, q: Path, offset: nat, length: nat)
    requires IsHistory(layers, trees) && q !in HeadTree(trees) && Canonical(q) && LastWith(trees, q) > 0
    requires var m := LastWith(trees, q); !NewestRetypes(trees[..m], q) && !trees[m - 1][q].Dir?
    requires NewestSays(layers, q) == Deleted
    ensures PlainRange(layers, q, offset, length) ==
            if HasNotFound(q) then Cut(ReadingOf(BodySays(trees[LastWith(trees, q) - 1][q])), offset, length)
            else WasDeleted
  {
    hide IsHistory, NewestSays, HasNotFound, Canonical, PlainRange, NewestFound, NewestRetypes;
    PlainRangeIs(layers, q, offset, length);
    NewestFoundAbsent(layers, trees, q);
  }

  // ----- a chunk that is missing

  lemma OneFile(l: Layer, e: TreeEntry)
    requires l == Layer([], [e]) && e.node.File?
    ensures IsListing(l.entries) && TreeMap(l.entries) == map[e.path := e.node]
    ensures IndexSays(l, e.path) == Found(e.node.data)
  {
    assert l.entries[..0] == [];
    assert PathsOf(l.entries) == [e.path];
  }

  /** A file of one chunk may read as a whole and fail for a range: the whole comes from its
      own blob, the range from the chunk. */
  method OneChunkMissing(h: Hash) returns (whole: Reading, range: Reading)
    ensures whole.Content? && range == Error
  {
    hide Root;
    var chunks, root := CreateChunks(h, "x");
    var entry := FileEntry(1, h("x"), root, chunks);
    var layers := [Layer([], [TreeEntry("f", File(0x1A4, "x"))])];
    var vault := (i, p) => Stored(entry, Ok("x"), k => Fail);
    OneFile(layers[0], TreeEntry("f", File(0x1A4, "x")));
    assert IsEntryOf(h, entry, "x");
    assert EncryptedSays(layers[0], "f") == Found("x");
    assert Carrier(layers, "f") == Some(0);
    ChunkBounds(h, entry, "x", 0);
    whole := ReadWhole(h, layers, vault, "f");
    range := ReadSnapshotFileRange(h, layers, vault, "f", 0, 1, i => false);
    assert Overlaps(chunks[0], 0, 1);
    assert !NeededAccepted(h, chunks, 0, 1, vault(0, "f").fetch, |chunks|);
  }
}
