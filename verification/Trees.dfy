/** File trees as `scanTree` records them: a sorted slice of entries, read back as a
    map from path to node. */
module Trees {
  import opened Paths

  type Bytes = string

  datatype Option<T> = None | Some(value: T)

  datatype Node = File(mode: int, data: Bytes) | Dir(mode: int) | Symlink(link: string)

  datatype TreeEntry = TreeEntry(path: Path, node: Node)

  type Tree = map<Path, Node>

  predicate SameType(a: Node, b: Node)
  {
    a.File? == b.File? && a.Dir? == b.Dir?
  }

  /** The root, or a directory of `t`. */
  predicate HasDir(t: Tree, p: Path)
  {
    p == "" || (p in t && t[p].Dir?)
  }

  /** Every path is canonical and lies in a directory of the tree. */
  predicate IsTree(t: Tree)
  {
    forall p :: p in t ==> Canonical(p) && HasDir(t, Parent(p))
  }

  /** `validateNoReservedWhiteoutPaths`. */
  predicate Unreserved(t: Tree)
  {
    forall p :: p in t ==> !(".wh." <= Base(p))
  }

  lemma {:induction false} AncestorIsDir(t: Tree, p: Path, a: Path)
    requires IsTree(t) && p in t && Under(p, a)
    ensures a in t && t[a].Dir?
    decreases |p|
  {
    UnderParent(p, a);
    CanonicalParts(p);
    if a != Parent(p) {
      AncestorIsDir(t, Parent(p), a);
    }
  }

  /** `treeMap`: later entries win. */
  function TreeMap(es: seq<TreeEntry>): Tree
  {
    if es == [] then map[]
    else TreeMap(es[..|es| - 1])[es[|es| - 1].path := es[|es| - 1].node]
  }

  lemma {:induction false} TreeMapIndex(es: seq<TreeEntry>, q: Path) returns (i: int)
    requires q in TreeMap(es)
    ensures 0 <= i < |es| && es[i].path == q && TreeMap(es)[q] == es[i].node
  {
    i := |es| - 1;
    if es[i].path != q {
      i := TreeMapIndex(es[..i], q);
    }
  }

  lemma {:induction false} TreeMapHas(es: seq<TreeEntry>, i: int)
    requires 0 <= i < |es|
    ensures es[i].path in TreeMap(es)
  {
    if i < |es| - 1 {
      TreeMapHas(es[..|es| - 1], i);
    }
  }

  function PathsOf(es: seq<TreeEntry>): (r: seq<Path>)
    ensures |r| == |es|
    ensures forall i :: 0 <= i < |es| ==> r[i] == es[i].path
  {
    seq(|es|, i requires 0 <= i < |es| => es[i].path)
  }

  /** A slice sorted by path, without repeats. */
  predicate IsListing(es: seq<TreeEntry>)
  {
    forall i, j :: 0 <= i < j < |es| ==> Before(es[i].path, es[j].path)
  }

  lemma TreeMapAt(es: seq<TreeEntry>, i: int)
    requires IsListing(es) && 0 <= i < |es|
    ensures es[i].path in TreeMap(es) && TreeMap(es)[es[i].path] == es[i].node
  {
    hide TreeMap, Leq;
    TreeMapHas(es, i);
    var j := TreeMapIndex(es, es[i].path);
    assert Before(es[i].path, es[i].path) || i == j;
  }

  function Elems<T>(s: seq<T>): set<T>
  {
    set x | x in s
  }

  lemma ElemsAppend<T>(s: seq<T>, x: T)
    ensures Elems(s + [x]) == Elems(s) + {x}
  {
  }

  lemma ElemsHas<T>(s: seq<T>, i: int)
    requires 0 <= i < |s|
    ensures s[i] in Elems(s)
  {
  }

  lemma DropLast(a: seq<string>)
    requires StrictlySorted(a) && a != []
    ensures StrictlySorted(a[..|a| - 1])
    ensures Elems(a[..|a| - 1]) == Elems(a) - {a[|a| - 1]}
  {
    var m := |a| - 1;
    assert a == a[..m] + [a[m]];
  }

  /** Sorted lists without repeats are determined by their elements. */
  lemma {:induction false} SortedUnique(a: seq<string>, b: seq<string>)
    requires StrictlySorted(a) && StrictlySorted(b)
    requires Elems(a) == Elems(b)
    ensures a == b
    decreases |a|
  {
    assert a == [] <==> b == [] by {
      assert a != [] ==> a[0] in Elems(b);
      assert b != [] ==> b[0] in Elems(a);
    }
    if a != [] {
      hide Leq;
      var m, n := |a| - 1, |b| - 1;
      assert a[m] in Elems(b) && b[n] in Elems(a);
      LeqTotal(a[m], b[n]);
      DropLast(a);
      DropLast(b);
      SortedUnique(a[..m], b[..n]);
      assert a == a[..m] + [a[m]] && b == b[..n] + [b[n]];
    }
  }

  lemma ListingPaths(a: seq<TreeEntry>)
    requires IsListing(a)
    ensures StrictlySorted(PathsOf(a)) && Elems(PathsOf(a)) == TreeMap(a).Keys
  {
    hide TreeMap, Before;
    forall q | q in TreeMap(a) ensures q in Elems(PathsOf(a)) {
      var i := TreeMapIndex(a, q);
      assert PathsOf(a)[i] == q;
    }
    forall q | q in Elems(PathsOf(a)) ensures q in TreeMap(a) {
      var i :| 0 <= i < |a| && PathsOf(a)[i] == q;
      TreeMapHas(a, i);
    }
  }

  /** A tree has one listing. */
  lemma ListingUnique(a: seq<TreeEntry>, b: seq<TreeEntry>)
    requires IsListing(a) && IsListing(b) && TreeMap(a) == TreeMap(b)
    ensures a == b
  {
    ListingPaths(a);
    ListingPaths(b);
    SortedUnique(PathsOf(a), PathsOf(b));
    forall i | 0 <= i < |a| ensures a[i] == b[i] {
      TreeMapAt(a, i);
      TreeMapAt(b, i);
      assert PathsOf(a)[i] == PathsOf(b)[i];
    }
  }
}
