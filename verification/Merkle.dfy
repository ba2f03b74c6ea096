/** The Merkle root over the chunk digests of a file. */
module Merkle {
  import opened Trees

  /** `digestBytes`: any function; nothing is assumed about collisions. */
  type Hash = Bytes -> string

  function PairText(ds: seq<string>, i: int): Bytes
    requires 0 <= 2 * i < |ds|
  {
    ds[2 * i] + "\n" + if 2 * i + 1 < |ds| then ds[2 * i + 1] else ds[2 * i]
  }

  /** One level up: pairs are hashed, an odd last node is paired with itself. */
  function Level(h: Hash, ds: seq<string>): (r: seq<string>)
    ensures |r| == (|ds| + 1) / 2
    ensures forall i :: 0 <= i < |r| ==> r[i] == h(PairText(ds, i))
  {
    seq((|ds| + 1) / 2, i requires 0 <= i < (|ds| + 1) / 2 => h(PairText(ds, i)))
  }

  function Root(h: Hash, ds: seq<string>): string
    decreases |ds|
  {
    if ds == [] then h("")
    else if |ds| == 1 then ds[0]
    else Root(h, Level(h, ds))
  }

  /** `encryptedLazyMerkleRoot`: the outer loop ends because every level is at most half as
      long as the one below, rounded up. */
  method MerkleRoot(h: Hash, chunkDigests: seq<string>) returns (root: string)
    ensures root == Root(h, chunkDigests)
  {
    if |chunkDigests| == 0 {
      return h("");
    }
    var level := chunkDigests;
    while |level| > 1
      invariant |level| >= 1 && Root(h, level) == Root(h, chunkDigests)
      decreases |level|
    {
      var next: seq<string> := [];
      var i := 0;
      while i < |level|
        invariant 0 <= i <= |level| + 1 && i == 2 * |next|
        invariant |next| <= (|level| + 1) / 2
        invariant forall k :: 0 <= k < |next| ==> next[k] == Level(h, level)[k]
      {
        var left := level[i];
        var right := left;
        if i + 1 < |level| {
          right := level[i + 1];
        }
        assert PairText(level, |next|) == left + "\n" + right;
        next := next + [h(left + "\n" + right)];
        i := i + 2;
      }
      assert next == Level(h, level);
      level := next;
    }
    root := level[0];
  }

  // ----- the root determines the list

  predicate OneLine(s: string)
  {
    forall i :: 0 <= i < |s| ==> s[i] != '\n'
  }

  ghost predicate DigestsOneLine(h: Hash)
  {
    forall x :: OneLine(h(x))
  }

  lemma SplitAtNewline(a: string, b: string, c: string, d: string)
    requires OneLine(a) && OneLine(c) && a + "\n" + b == c + "\n" + d
    ensures a == c && b == d
  {
    var s := a + "\n" + b;
    assert s[|a|] == '\n' && s[|c|] == '\n';
    assert forall i :: 0 <= i < |a| ==> s[i] == a[i];
    assert forall i :: 0 <= i < |c| ==> s[i] == c[i];
    assert |a| == |c|;
    assert a == s[..|a|] && c == s[..|c|];
    assert b == s[|a| + 1..] && d == s[|c| + 1..];
  }

  lemma DifferentPairs(a: seq<string>, b: seq<string>, i: int)
    requires |a| == |b| && 0 <= i < |a| && a[i] != b[i]
    requires forall k :: 0 <= k < |a| ==> OneLine(a[k]) && OneLine(b[k])
    ensures PairText(a, i / 2) != PairText(b, i / 2)
  {
    hide OneLine;
    var j := i / 2;
    assert i == 2 * j || i == 2 * j + 1;
    if PairText(a, j) == PairText(b, j) {
      SplitAtNewline(a[2 * j], if 2 * j + 1 < |a| then a[2 * j + 1] else a[2 * j],
                     b[2 * j], if 2 * j + 1 < |b| then b[2 * j + 1] else b[2 * j]);
    }
  }

  /** Two different digest lists of one length with the same root hand over a collision of
      the digest function. */
  lemma {:induction false} SameRootCollides(h: Hash, a: seq<string>, b: seq<string>) returns (x: Bytes, y: Bytes)
    requires |a| == |b| && a != b && Root(h, a) == Root(h, b)
    requires DigestsOneLine(h) && forall k :: 0 <= k < |a| ==> OneLine(a[k]) && OneLine(b[k])
    ensures x != y && h(x) == h(y)
    decreases |a|
  {
    hide OneLine;
    var la, lb := Level(h, a), Level(h, b);
    if la == lb {
      var i :| 0 <= i < |a| && a[i] != b[i];
      DifferentPairs(a, b, i);
      x, y := PairText(a, i / 2), PairText(b, i / 2);
      assert la[i / 2] == lb[i / 2];
    } else {
      x, y := SameRootCollides(h, la, lb);
    }
  }

  lemma LevelDuplicates(h: Hash, ds: seq<string>)
    requires |ds| % 2 == 1
    ensures Level(h, ds) == Level(h, ds + [ds[|ds| - 1]])
  {
    var es := ds + [ds[|ds| - 1]];
    var n := |Level(h, ds)|;
    assert 2 * n == |es|;
    forall i | 0 <= i < n ensures PairText(ds, i) == PairText(es, i) {
      assert es[2 * i] == ds[2 * i];
      if 2 * i + 1 < |ds| {
        assert es[2 * i + 1] == ds[2 * i + 1];
      } else {
        assert 2 * i == |ds| - 1;
        assert es[2 * i + 1] == ds[2 * i];
      }
    }
  }

  /** Equal length matters: an odd list has the root of the list with its last digest
      written twice. */
  lemma {:induction false} OddListDuplicates(h: Hash, ds: seq<string>)
    requires |ds| % 2 == 1 && |ds| > 1
    ensures Root(h, ds) == Root(h, ds + [ds[|ds| - 1]])
  {
    LevelDuplicates(h, ds);
  }
}
