/** `restoreFromSnapshotTree`: restoring an encrypted snapshot from the tree in its config
    and the per-file indexes of its chain. */
module LazyRestore {
  import opened Paths
  import opened Trees
  import opened Layers
  import opened RestoreProofs
  import opened Diff
  import opened Reads
  import opened LazyIndex

  /** The directories of a listing, or the other entries. */
  function Pick(es: seq<TreeEntry>, dirs: bool): seq<TreeEntry>
  {
    if es == [] then []
    else
      var n := |es| - 1;
      if es[n].node.Dir? == dirs then Pick(es[..n], dirs) + [es[n]] else Pick(es[..n], dirs)
  }

  function Part(t: Tree, dirs: bool): Tree
  {
    map p | p in t && t[p].Dir? == dirs :: t[p]
  }

  lemma {:induction false} PickListing(es: seq<TreeEntry>, dirs: bool)
    requires IsListing(es)
    ensures IsListing(Pick(es, dirs)) && TreeMap(Pick(es, dirs)) == Part(TreeMap(es), dirs)
    ensures forall e :: e in Pick(es, dirs) ==> e in es
  {
    hide TreeMap, Before;
    if es == [] {
      EmptyMap(es);
      EmptyMap(Pick(es, dirs));
    } else {
      var n := |es| - 1;
      PickListing(es[..n], dirs);
      ListingGrows(es, n);
      assert es[..n + 1] == es;
      if es[n].node.Dir? == dirs {
        assert IsListing(Pick(es[..n], dirs) + [es[n]]) &&
               TreeMap(Pick(es[..n], dirs) + [es[n]]) == TreeMap(Pick(es[..n], dirs))[es[n].path := es[n].node] by {
          AppendListing(Pick(es[..n], dirs), es, n);
        }
      }
    }
  }

  lemma DirsFormTree(c: Tree)
    requires IsTree(c)
    ensures IsTree(Part(c, true)) && IsTree(map[])
    ensures Part(c, true) + Part(c, false) == c
  {
    hide Canonical, Parent, LastSlash;
  }

  lemma OnePass(t: Tree, es: seq<TreeEntry>, c: Tree)
    requires IsTree(t) && IsTree(c) && Unreserved(c) && Completes(t, es, c)
    ensures ApplyAll(t, EntryHeaders(es)) == Ok(t + TreeMap(es))
  {
    hide TreeMap, IsTree, ApplyAll, Completes, Unreserved;
    ApplyEntries(t, es, c, |es|);
    assert es[..|es|] == es && EntryHeaders(es)[..|es|] == EntryHeaders(es);
  }

  /** Directories first, then the rest, restores the tree. */
  lemma RestoreInTwoPasses(c: Tree, es: seq<TreeEntry>)
    requires IsTree(c) && Unreserved(c) && IsListing(es) && TreeMap(es) == c
    ensures ApplyAll(map[], EntryHeaders(Pick(es, true))) == Ok(Part(c, true))
    ensures ApplyAll(Part(c, true), EntryHeaders(Pick(es, false))) == Ok(c)
  {
    hide TreeMap, IsListing, IsTree, ApplyAll;
    DirsFormTree(c);
    PickListing(es, true);
    PickListing(es, false);
    assert Unreserved(Part(c, true));
    assert map[] + Part(c, true) == Part(c, true);
    OnePass(map[], Pick(es, true), Part(c, true));
    OnePass(Part(c, true), Pick(es, false), c);
  }

  lemma {:induction false} ListingsOf(layers: seq<Layer>, trees: seq<Tree>)
    requires IsHistory(layers, trees)
    ensures forall i :: 0 <= i < |layers| ==> IsListing(layers[i].entries)
    decreases |trees|
  {
    hide IsListing, IsTree, Unreserved;
    if trees != [] {
      var n := |trees| - 1;
      ListingsOf(layers[..n], trees[..n]);
      assert forall i :: 0 <= i < n ==> layers[i] == layers[..n][i];
    }
  }

  /** Reading a file of the head in the snapshot that introduced it. */
  method ReadFromSource(layers: seq<Layer>, trees: seq<Tree>, e: TreeEntry) returns (r: ReadResult)
    requires IsHistory(layers, trees) && HasEntry(HeadTree(trees), e) && e.node.File?
    ensures r == Found(e.node.data)
  {
    hide IsTree, IsListing, IsDelta, NewestEncrypted;
    var source := RestoreSource(trees, e);
    var k := source.value + 1;
    HistoryPrefix(layers, trees, k);
    ListingsOf(layers[..k], trees[..k]);
    r := ReadEncryptedFile(layers[..k], e.path);
    ReadEncryptedHead(layers[..k], trees[..k], e.path);
  }

  lemma NoHeaders(t: Tree)
    ensures ApplyAll(t, EntryHeaders(Pick([], true))) == Ok(t)
    ensures ApplyAll(t, EntryHeaders(Pick([], false))) == Ok(t)
  {
  }

  lemma PickGrows(es: seq<TreeEntry>, i: int, dirs: bool)
    requires 0 <= i < |es|
    ensures Pick(es[..i + 1], dirs) ==
            if es[i].node.Dir? == dirs then Pick(es[..i], dirs) + [es[i]] else Pick(es[..i], dirs)
  {
    assert es[..i + 1][..i] == es[..i];
  }

  lemma ApplyNext(t: Tree, es: seq<TreeEntry>, e: TreeEntry)
    requires ApplyAll(t, EntryHeaders(es)).Ok?
    ensures ApplyAll(t, EntryHeaders(es + [e])) ==
            ApplyHeader(ApplyAll(t, EntryHeaders(es)).value, Header(e.path, e.node))
  {
    hide ApplyHeader;
    assert EntryHeaders(es + [e])[..|es|] == EntryHeaders(es);
  }

  /** A prefix of a list that applies, applies. */
  lemma {:induction false} NoEarlyFailure(t: Tree, es: seq<TreeEntry>, i: int, dirs: bool)
    requires 0 <= i <= |es| && ApplyAll(t, EntryHeaders(Pick(es, dirs))).Ok?
    ensures ApplyAll(t, EntryHeaders(Pick(es[..i], dirs))).Ok?
    decreases |es|
  {
    hide ApplyAll;
    if i == |es| {
      assert es[..i] == es;
    } else {
      var n := |es| - 1;
      PickGrows(es, n, dirs);
      assert es[..n + 1] == es;
      if es[n].node.Dir? == dirs && ApplyAll(t, EntryHeaders(Pick(es[..n], dirs))).Fail? {
        assert EntryHeaders(Pick(es, dirs))[..|Pick(es[..n], dirs)|] == EntryHeaders(Pick(es[..n], dirs));
        FailSticks(t, EntryHeaders(Pick(es, dirs)), |Pick(es[..n], dirs)|);
      }
      NoEarlyFailure(t, es[..n], i, dirs);
      assert es[..n][..i] == es[..i];
    }
  }

  /** The tree restored from the indexes is the head tree, for every history. */
  method RestoreFromSnapshotTree(layers: seq<Layer>, trees: seq<Tree>, tree: seq<TreeEntry>)
    returns (target: Outcome<Tree>)
    requires IsHistory(layers, trees) && IsListing(tree) && TreeMap(tree) == HeadTree(trees)
    ensures target == Ok(HeadTree(trees))
  {
    hide IsTree, IsListing, TreeMap, IsHistory, ApplyAll, ApplyHeader;
    HeadIsTree(layers, trees);
    RestoreInTwoPasses(HeadTree(trees), tree);
    ghost var dirs, rest := EntryHeaders(Pick(tree, true)), EntryHeaders(Pick(tree, false));
    target := Ok(map[]);
    NoHeaders(map[]);
    for i := 0 to |tree|
      invariant target.Ok? && ApplyAll(map[], EntryHeaders(Pick(tree[..i], true))) == target
    {
      PickGrows(tree, i, true);
      if tree[i].node.Dir? {
        ApplyNext(map[], Pick(tree[..i], true), tree[i]);
        NoEarlyFailure(map[], tree, i + 1, true);
        target := ApplyHeader(target.value, Header(tree[i].path, tree[i].node));
      }
    }
    assert tree[..|tree|] == tree;
    ghost var made := target.value;
    NoHeaders(made);
    for i := 0 to |tree|
      invariant target.Ok? && ApplyAll(made, EntryHeaders(Pick(tree[..i], false))) == target
    {
      PickGrows(tree, i, false);
      if !tree[i].node.Dir? {
        ApplyNext(made, Pick(tree[..i], false), tree[i]);
        NoEarlyFailure(made, tree, i + 1, false);
        if tree[i].node.File? {
          TreeMapAt(tree, i);
          var data := ReadFromSource(layers, trees, tree[i]);
          target := ApplyHeader(target.value, Header(tree[i].path, File(tree[i].node.mode, data.data)));
        } else {
          target := ApplyHeader(target.value, Header(tree[i].path, tree[i].node));
        }
      }
    }
    assert tree[..|tree|] == tree;
  }
}
