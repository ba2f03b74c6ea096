/** Layers: what a snapshot stores for one step of history, and how a layer is
    unpacked onto a directory. Whiteouts come first, then the changed entries. */
module Layers {
  import opened Paths
  import opened Trees

  datatype Outcome<T> = Ok(value: T) | Fail

  datatype Layer = Layer(whiteouts: seq<Path>, entries: seq<TreeEntry>)

  /** One tar header with its body. */
  datatype Header = Header(name: string, body: Node)

  // ----- the names of whiteout markers

  /** `whiteoutName`. */
  function WhiteoutName(target: Path): string
  {
    Join(Parent(target), ".wh." + Base(target))
  }

  predicate IsMarker(name: string)
  {
    ".wh." <= Base(name)
  }

  lemma NoMarkers(t: Tree)
    requires forall q :: q in t ==> !IsMarker(q)
    ensures Unreserved(t)
  {
  }

  predicate NoBackslash(s: string)
  {
    forall i :: 0 <= i < |s| ==> s[i] != '\\'
  }

  /** The name after `.wh.` that a layer may delete. */
  predicate Deletable(name: string)
  {
    name != "" && name != "." && name != ".." && NoSlash(name) && NoBackslash(name)
  }

  lemma WhiteoutNameParts(p: Path)
    requires Canonical(p)
    ensures Canonical(WhiteoutName(p)) && IsMarker(WhiteoutName(p))
    ensures Parent(WhiteoutName(p)) == Parent(p)
    ensures Base(WhiteoutName(p)) == ".wh." + Base(p)
    ensures Base(WhiteoutName(p))[4..] == Base(p)
    ensures Join(Parent(p), Base(p)) == p
  {
    hide LastSlash, Join;
    CanonicalParts(p);
    JoinParts(Parent(p), ".wh." + Base(p));
  }

  function WhiteoutHeaders(ws: seq<Path>): (hs: seq<Header>)
    ensures |hs| == |ws|
    ensures forall i :: 0 <= i < |ws| ==> hs[i] == Header(WhiteoutName(ws[i]), File(0, ""))
  {
    seq(|ws|, i requires 0 <= i < |ws| => Header(WhiteoutName(ws[i]), File(0, "")))
  }

  function EntryHeaders(es: seq<TreeEntry>): (hs: seq<Header>)
    ensures |hs| == |es|
    ensures forall i :: 0 <= i < |es| ==> hs[i] == Header(es[i].path, es[i].node)
  {
    seq(|es|, i requires 0 <= i < |es| => Header(es[i].path, es[i].node))
  }

  function MakeLayer(l: Layer): (hs: seq<Header>)
    ensures |hs| == |l.whiteouts| + |l.entries|
    ensures forall i :: 0 <= i < |l.whiteouts| ==> hs[i] == Header(WhiteoutName(l.whiteouts[i]), File(0, ""))
    ensures forall i :: 0 <= i < |l.entries| ==>
                          hs[|l.whiteouts| + i] == Header(l.entries[i].path, l.entries[i].node)
  {
    WhiteoutHeaders(l.whiteouts) + EntryHeaders(l.entries)
  }

  // ----- unpacking a layer onto a directory

  datatype Probe = Missing | Directory | Blocked

  /** `ensureNoSymlinkInPath`: walk down to `p`, stop at the first missing name, refuse
      anything that is not a directory. */
  function Inspect(t: Tree, p: Path): Probe
    decreases |p|
  {
    if p == "" then Directory
    else
      var above := if LastSlash(p) < 0 then Directory else Inspect(t, Parent(p));
      if above != Directory then above
      else if p !in t then Missing
      else if t[p].Dir? then Directory
      else Blocked
  }

  /** `os.MkdirAll`. */
  function MkdirAll(t: Tree, p: Path, mode: int): Outcome<Tree>
    decreases |p|
  {
    if p == "" then Ok(t)
    else
      var above := if LastSlash(p) < 0 then Ok(t) else MkdirAll(t, Parent(p), mode);
      if above.Fail? then Fail
      else if p !in above.value then Ok(above.value[p := Dir(mode)])
      else if above.value[p].Dir? then above
      else Fail
  }

  /** `os.RemoveAll`. */
  function RemoveAll(t: Tree, p: Path): Tree
  {
    map q | q in t && !Covers(p, q) :: t[q]
  }

  function ApplyWhiteout(t: Tree, name: string): Outcome<Tree>
    requires IsMarker(name)
  {
    var target := Base(name)[4..];
    if target == ".wh..opq" || !Deletable(target) then Fail
    else if Inspect(t, Parent(name)) == Blocked then Fail
    else Ok(RemoveAll(t, Join(Parent(name), target)))
  }

  /** One round of the loop in `extractLayer`. */
  function ApplyHeader(t: Tree, h: Header): Outcome<Tree>
  {
    if !Canonical(h.name) then Fail
    else if IsMarker(h.name) then
      if h.body.File? && h.body.data == "" then ApplyWhiteout(t, h.name) else Fail
    else
      match h.body
      case Dir(mode) =>
        if Inspect(t, h.name) == Blocked then Fail
        else
          var made := MkdirAll(t, h.name, mode);
          if made.Fail? then Fail else Ok(made.value[h.name := Dir(mode)])
      case File(_, _) =>
        if Inspect(t, Parent(h.name)) == Blocked then Fail
        else
          var made := MkdirAll(t, Parent(h.name), 0x1ED);
          if made.Fail? then Fail
          else if h.name in made.value && !made.value[h.name].File? then Fail
          else Ok(made.value[h.name := h.body])
      case Symlink(_) =>
        if Inspect(t, Parent(h.name)) == Blocked then Fail
        else
          var made := MkdirAll(t, Parent(h.name), 0x1ED);
          if made.Fail? then Fail else Ok(RemoveAll(made.value, h.name)[h.name := h.body])
  }

  function ApplyAll(t: Tree, hs: seq<Header>): Outcome<Tree>
  {
    if hs == [] then Ok(t)
    else
      var before := ApplyAll(t, hs[..|hs| - 1]);
      if before.Fail? then Fail else ApplyHeader(before.value, hs[|hs| - 1])
  }

  lemma {:induction false} ApplyAppend(t: Tree, a: seq<Header>, b: seq<Header>)
    ensures ApplyAll(t, a + b) ==
            if ApplyAll(t, a).Fail? then Fail else ApplyAll(ApplyAll(t, a).value, b)
    decreases |b|
  {
    if b == [] {
      assert a + b == a;
    } else {
      ApplyAppend(t, a, b[..|b| - 1]);
      assert (a + b)[..|a + b| - 1] == a + b[..|b| - 1];
    }
  }

  lemma {:induction false} FailSticks(t: Tree, hs: seq<Header>, k: int)
    requires 0 <= k <= |hs| && ApplyAll(t, hs[..k]).Fail?
    ensures ApplyAll(t, hs).Fail?
  {
    hide ApplyAll;
    ApplyAppend(t, hs[..k], hs[k..]);
    assert hs == hs[..k] + hs[k..];
  }

  /** `extractLayer`: the directory being restored, changed header by header. */
  class Target {
    var files: Tree

    constructor ()
      ensures files == map[]
    {
      files := map[];
    }

    /** A failure leaves what the headers before it did. */
    method ExtractLayer(layer: seq<Header>) returns (ok: bool)
      modifies this
      ensures ok <==> ApplyAll(old(files), layer).Ok?
      ensures ok ==> ApplyAll(old(files), layer) == Ok(files)
      ensures !ok ==> exists k :: 0 <= k < |layer| && ApplyAll(old(files), layer[..k]) == Ok(files)
    {
      var i := 0;
      while i < |layer|
        invariant 0 <= i <= |layer|
        invariant ApplyAll(old(files), layer[..i]) == Ok(files)
      {
        assert layer[..i + 1][..i] == layer[..i];
        var next := ApplyHeader(files, layer[i]);
        if next.Fail? {
          FailSticks(old(files), layer, i + 1);
          return false;
        }
        files := next.value;
        i := i + 1;
      }
      assert layer[..i] == layer;
      return true;
    }
  }

  // ----- which paths a layer must delete and which entries it must carry

  /** Entries of `c` that `p` does not already have. */
  function Changed(p: Tree, c: Tree): Tree
  {
    map q | q in c && !(q in p && p[q] == c[q]) :: c[q]
  }

  /** Paths of `p` that are gone from `c`, or changed between file, directory and link. */
  function Dropped(p: Tree, c: Tree): set<Path>
  {
    set q | q in p && !(q in c && SameType(p[q], c[q]))
  }

  /** The members with nothing above them. */
  function Tops(s: set<Path>): set<Path>
  {
    set p | p in s && forall q :: q in s ==> !Under(p, q)
  }

  predicate Hides(s: set<Path>, p: Path)
  {
    exists w :: w in s && Covers(w, p)
  }

  lemma {:induction false} TopAbove(s: set<Path>, p: Path, w: Path)
    requires w in s && Covers(w, p)
    ensures Hides(Tops(s), p)
    decreases |w|
  {
    if w !in Tops(s) {
      var q :| q in s && Under(w, q);
      if p != w {
        UnderTransitive(q, w, p);
      }
      TopAbove(s, p, q);
    }
  }

  /** Dropping what lies below another whiteout loses no coverage. */
  lemma {:induction false} TopsHideTheSame(s: set<Path>, p: Path)
    ensures Hides(Tops(s), p) <==> Hides(s, p)
  {
    if Hides(s, p) {
      var w :| w in s && Covers(w, p);
      TopAbove(s, p, w);
    }
  }

  /** The layer that takes tree `p` to tree `c`: both lists sorted, nothing spare. */
  predicate IsDelta(p: Tree, c: Tree, l: Layer)
  {
    && IsListing(l.entries) && TreeMap(l.entries) == Changed(p, c)
    && StrictlySorted(l.whiteouts) && Elems(l.whiteouts) == Tops(Dropped(p, c))
  }

  lemma DeltaUnique(p: Tree, c: Tree, l: Layer, m: Layer)
    requires IsDelta(p, c, l) && IsDelta(p, c, m)
    ensures l == m
  {
    ListingUnique(l.entries, m.entries);
    SortedUnique(l.whiteouts, m.whiteouts);
  }
}
