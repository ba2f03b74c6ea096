/** The content-addressed store: blobs under their digests, refs naming digests, and the
    walk along parent links. */
module Store {
  import opened Trees
  import opened Layers

  type Digest = string

  /** `meta` is all the rest, of the manifest's annotations too: the kind, the time in whole
      seconds, the message, the user. */
  datatype Config = Config(
    id: string, base: Digest, sequence: int, parent: Option<string>, tree: seq<TreeEntry>, meta: string)

  datatype Manifest = Manifest(config: Digest, layers: seq<Digest>)

  datatype Blob = ManifestBlob(manifest: Manifest) | ConfigBlob(config: Config) | LayerBlob(layer: Layer)

  /** `snapshotChainItem`. */
  datatype Item = Item(digest: Digest, manifest: Manifest, config: Config)

  /** The files under `blobs` and `refs`; the digest function is a parameter everywhere. */
  datatype Disk = Disk(blobs: map<Digest, Blob>, refs: map<string, string>)

  // ----- ref names

  predicate IsSpace(c: char)
  {
    c == ' ' || c == '\t' || c == '\n' || c == '\r'
  }

  function TrimLeft(s: string): string
  {
    if s != "" && IsSpace(s[0]) then TrimLeft(s[1..]) else s
  }

  function TrimRight(s: string): string
  {
    if s != "" && IsSpace(s[|s| - 1]) then TrimRight(s[..|s| - 1]) else s
  }

  function TrimSpace(s: string): string
  {
    TrimRight(TrimLeft(s))
  }

  function Escape(s: string): string
  {
    if s == "" then ""
    else (if s[0] == '/' || s[0] == ':' then "__" else [s[0]]) + Escape(s[1..])
  }

  /** `safeRefName`: the file that holds a ref. */
  function SafeRefName(name: string): string
  {
    var trimmed := TrimSpace(name);
    Escape(if ":" <= trimmed then trimmed[1..] else trimmed)
  }

  /** The other names stand for the refs directory itself and the one above it. */
  predicate IsRefFile(file: string)
  {
    file != "" && file != "." && file != ".."
  }

  /** `unsafeRefName`: the name a listing shows for a file. */
  function Unescape(file: string): string
  {
    if file == "" then ""
    else if "__" <= file then "/" + Unescape(file[2..])
    else [file[0]] + Unescape(file[1..])
  }

  /** The file a listed ref is deleted by. */
  function Listed(file: string): string
  {
    SafeRefName(Unescape(file))
  }

  /** What `safeRefName` leaves in the name of a file. */
  predicate IsEscaped(file: string)
  {
    forall i :: 0 <= i < |file| ==> file[i] != '/' && file[i] != ':'
  }

  lemma {:induction false} EscapeUnescape(file: string)
    requires IsEscaped(file)
    ensures Escape(Unescape(file)) == file && forall i :: 0 <= i < |Unescape(file)| ==> Unescape(file)[i] != ':'
    decreases |file|
  {
    if file == "" {
    } else if "__" <= file {
      EscapeUnescape(file[2..]);
      assert Unescape(file)[1..] == Unescape(file[2..]);
      assert file == "__" + file[2..];
    } else {
      EscapeUnescape(file[1..]);
      assert Unescape(file)[1..] == Unescape(file[1..]);
    }
  }

  lemma {:induction false} UnescapeAppend(file: string, c: char)
    requires c != '_'
    ensures Unescape(file + [c]) == Unescape(file) + [c]
    decreases |file|
  {
    if file == "" {
      assert Unescape([c]) == [c] + Unescape([c][1..]);
    } else if "__" <= file {
      UnescapeAppend(file[2..], c);
      assert (file + [c])[2..] == file[2..] + [c];
      assert "__" <= file + [c];
    } else {
      UnescapeAppend(file[1..], c);
      assert (file + [c])[1..] == file[1..] + [c];
      assert !("__" <= file + [c]);
    }
  }

  lemma {:induction false} UnescapeEnds(file: string)
    requires file != "" && !IsSpace(file[|file| - 1])
    ensures Unescape(file) != "" && !IsSpace(Unescape(file)[|Unescape(file)| - 1])
    decreases |file|
  {
    if "__" <= file {
      if |file| > 2 {
        UnescapeEnds(file[2..]);
      }
    } else if |file| > 1 {
      UnescapeEnds(file[1..]);
    }
  }

  lemma {:induction false} TrimRightUnescape(file: string)
    ensures TrimRight(Unescape(file)) == Unescape(TrimRight(file))
    decreases |file|
  {
    if file != "" {
      var n := |file| - 1;
      if IsSpace(file[n]) {
        UnescapeAppend(file[..n], file[n]);
        assert file == file[..n] + [file[n]];
        TrimRightUnescape(file[..n]);
        assert Unescape(file)[..|Unescape(file)| - 1] == Unescape(file[..n]);
      } else {
        UnescapeEnds(file);
      }
    }
  }

  lemma {:induction false} TrimLeftUnescape(file: string)
    ensures TrimLeft(Unescape(file)) == Unescape(TrimLeft(file))
    decreases |file|
  {
    if file != "" && IsSpace(file[0]) {
      TrimLeftUnescape(file[1..]);
      assert Unescape(file)[1..] == Unescape(file[1..]);
    }
  }

  lemma {:induction false} TrimmedEscaped(file: string)
    requires IsEscaped(file)
    ensures IsEscaped(TrimLeft(file)) && IsEscaped(TrimRight(file))
    decreases |file|
  {
    if file != "" {
      TrimmedEscaped(file[1..]);
      TrimmedEscaped(file[..|file| - 1]);
    }
  }

  /** Deleting by the listed name misses exactly the files with space around them. */
  lemma ListedIsTrimmed(file: string)
    requires IsEscaped(file)
    ensures Listed(file) == TrimSpace(file)
  {
    hide TrimLeft, TrimRight, Escape, Unescape;
    TrimLeftUnescape(file);
    TrimRightUnescape(TrimLeft(file));
    TrimmedEscaped(file);
    TrimmedEscaped(TrimLeft(file));
    EscapeUnescape(TrimSpace(file));
    var shown := Unescape(TrimSpace(file));
    assert shown != "" ==> shown[0] != ':';
    assert TrimSpace(Unescape(file)) == shown;
  }

  lemma {:induction false} TrimLeftDone(s: string)
    ensures TrimLeft(s) == "" || !IsSpace(TrimLeft(s)[0])
  {
    if s != "" && IsSpace(s[0]) {
      TrimLeftDone(s[1..]);
    }
  }

  lemma {:induction false} TrimRightDone(s: string)
    ensures TrimRight(s) == "" || !IsSpace(TrimRight(s)[|TrimRight(s)| - 1])
    ensures TrimRight(s) <= s
  {
    if s != "" && IsSpace(s[|s| - 1]) {
      TrimRightDone(s[..|s| - 1]);
    }
  }

  lemma TrimTwice(s: string)
    ensures TrimSpace(TrimSpace(s)) == TrimSpace(s)
  {
    TrimLeftDone(s);
    TrimRightDone(TrimLeft(s));
    var t := TrimSpace(s);
    assert t != "" ==> t[0] == TrimLeft(s)[0];
    assert TrimLeft(t) == t && TrimRight(t) == t;
  }

  /** `digestHex` accepts it; the 64 hexadecimal digits are not modelled. */
  predicate IsDigest(s: string)
  {
    "sha256:" <= s
  }

  // ----- loading

  /** `resolveRef`. */
  function Resolve(disk: Disk, ref: string): Outcome<Digest>
  {
    if IsDigest(ref) then Ok(ref)
    else if SafeRefName(ref) in disk.refs && IsDigest(disk.refs[SafeRefName(ref)]) then Ok(disk.refs[SafeRefName(ref)])
    else Fail
  }

  /** `readBlob`: the content must have the digest it is stored under. */
  function ReadBlob(h: Blob -> Digest, disk: Disk, d: Digest): Outcome<Blob>
  {
    if IsDigest(d) && d in disk.blobs && h(disk.blobs[d]) == d then Ok(disk.blobs[d]) else Fail
  }

  /** `loadManifest` of a digest. */
  function LoadDigest(h: Blob -> Digest, disk: Disk, d: Digest): Outcome<Item>
  {
    match ReadBlob(h, disk, d)
    case Ok(ManifestBlob(m)) =>
      (match ReadBlob(h, disk, m.config)
       case Ok(ConfigBlob(cfg)) => Ok(Item(d, m, cfg))
       case _ => Fail)
    case _ => Fail
  }

  /** `loadManifest`. */
  function Load(h: Blob -> Digest, disk: Disk, ref: string): Outcome<Item>
  {
    var d := Resolve(disk, ref);
    if d.Fail? then Fail else LoadDigest(h, disk, d.value)
  }

  /** A complete root-first chain of `ref`: the last item is what `ref` loads, every item
      before it is what the parent link of the next one loads, and the first has no parent
      or an empty parent digest. */
  ghost predicate IsChain(h: Blob -> Digest, disk: Disk, ref: string, chain: seq<Item>)
    decreases |chain|
  {
    if ref == "" then chain == []
    else
      && chain != []
      && var n := |chain| - 1;
         && Load(h, disk, ref) == Ok(chain[n])
         && (match chain[n].config.parent
             case None => n == 0
             case Some(parent) => IsChain(h, disk, parent, chain[..n]))
  }

  lemma {:induction false} ChainUnique(h: Blob -> Digest, disk: Disk, ref: string, a: seq<Item>, b: seq<Item>)
    requires IsChain(h, disk, ref, a) && IsChain(h, disk, ref, b)
    ensures a == b
    decreases |a|
  {
    hide Load;
    if ref != "" {
      var m, n := |a| - 1, |b| - 1;
      assert a == a[..m] + [a[m]] && b == b[..n] + [b[n]];
      if a[m].config.parent.Some? {
        ChainUnique(h, disk, a[m].config.parent.value, a[..m], b[..n]);
      }
    }
  }

  /** The chain below position `k`, by the digest of the item there. */
  lemma {:induction false} ChainBelow(h: Blob -> Digest, disk: Disk, ref: string, c: seq<Item>, k: int)
    requires IsChain(h, disk, ref, c) && 0 <= k < |c|
    ensures LoadDigest(h, disk, c[k].digest) == Ok(c[k])
    ensures match c[k].config.parent
            case None => k == 0
            case Some(parent) => IsChain(h, disk, parent, c[..k])
    decreases |c|
  {
    hide Resolve, ReadBlob;
    var n := |c| - 1;
    if k < n {
      ChainBelow(h, disk, c[n].config.parent.value, c[..n], k);
      assert c[..n][..k] == c[..k];
    }
  }

  /** A complete chain has no snapshot twice, whatever the links say. */
  lemma ChainHasNoRepeats(h: Blob -> Digest, disk: Disk, ref: string, c: seq<Item>, i: int, j: int)
    requires IsChain(h, disk, ref, c) && 0 <= i < j < |c|
    ensures c[i].digest != c[j].digest
  {
    hide LoadDigest, IsChain;
    ChainBelow(h, disk, ref, c, i);
    ChainBelow(h, disk, ref, c, j);
    if c[i].digest == c[j].digest {
      ChainUnique(h, disk, c[j].config.parent.value, c[..i], c[..j]);
    }
  }

  // ----- the walk

  /** Every string the walk can come to. */
  ghost function Links(disk: Disk, ref: string): set<string>
  {
    {ref} + set d | d in disk.blobs && disk.blobs[d].ConfigBlob? && disk.blobs[d].config.parent.Some? ::
      disk.blobs[d].config.parent.value
  }

  lemma LoadedParent(h: Blob -> Digest, disk: Disk, ref: string, s: string)
    requires Load(h, disk, s).Ok? && Load(h, disk, s).value.config.parent.Some?
    ensures Load(h, disk, s).value.config.parent.value in Links(disk, ref)
  {
    var item := Load(h, disk, s).value;
    assert item.manifest.config in disk.blobs && disk.blobs[item.manifest.config] == ConfigBlob(item.config);
  }

  /** Below `suffix` every chain of `at` makes a chain of `ref`. */
  ghost predicate Completes(h: Blob -> Digest, disk: Disk, ref: string, at: string, suffix: seq<Item>)
  {
    forall c :: IsChain(h, disk, at, c) ==> IsChain(h, disk, ref, c + suffix)
  }

  predicate EndsWith(c: seq<Item>, suffix: seq<Item>): (r: bool)
    ensures r ==> |suffix| <= |c|
  {
    |suffix| <= |c| && c[|c| - |suffix|..] == suffix
  }

  /** Every chain of `ref` is a chain of `at` and then `suffix`. */
  ghost predicate EndsIn(h: Blob -> Digest, disk: Disk, ref: string, at: string, suffix: seq<Item>)
  {
    forall c :: IsChain(h, disk, ref, c) ==> EndsWith(c, suffix) && IsChain(h, disk, at, c[..|c| - |suffix|])
  }

  /** `suffix` is how every complete chain of `ref` ends, and `at` is the link below it. */
  ghost predicate Walked(h: Blob -> Digest, disk: Disk, ref: string, at: string, suffix: seq<Item>)
  {
    Completes(h, disk, ref, at, suffix) && EndsIn(h, disk, ref, at, suffix)
  }

  /** Links seen on the way load chains strictly longer than what is still below. */
  ghost predicate SeenAbove(h: Blob -> Digest, disk: Disk, ref: string, seen: set<string>, left: int)
  {
    forall c, s :: IsChain(h, disk, ref, c) && s in seen ==>
      exists k :: 0 <= k <= |c| && |c| - left < k && IsChain(h, disk, s, c[..k])
  }

  ghost predicate IsReversal<T>(a: seq<T>, b: seq<T>)
  {
    |a| == |b| && forall k :: 0 <= k < |a| ==> a[k] == b[|b| - 1 - k]
  }

  /** The in-place reversal at the end of the walk. */
  method Reverse<T>(items: seq<T>) returns (r: seq<T>)
    ensures IsReversal(r, items)
  {
    r := items;
    var i, j := 0, |r| - 1;
    while i < j
      invariant |r| == |items| && 0 <= i && j == |r| - 1 - i
      invariant forall k :: i <= k <= j ==> r[k] == items[k]
      invariant forall k :: 0 <= k < |r| && (k < i || j < k) ==> r[k] == items[|r| - 1 - k]
    {
      r := r[i := r[j]][j := r[i]];
      i, j := i + 1, j - 1;
    }
  }

  lemma ChainPlus(h: Blob -> Digest, disk: Disk, at: string, c: seq<Item>, item: Item)
    requires at != "" && Load(h, disk, at) == Ok(item)
    requires item.config.parent.Some? && IsChain(h, disk, item.config.parent.value, c)
    ensures IsChain(h, disk, at, c + [item])
  {
    hide Load;
    assert (c + [item])[..|c|] == c;
  }

  lemma ChainMinus(h: Blob -> Digest, disk: Disk, at: string, c: seq<Item>)
    requires at != "" && IsChain(h, disk, at, c)
    ensures c != [] && Load(h, disk, at) == Ok(c[|c| - 1])
    ensures match c[|c| - 1].config.parent
            case Some(parent) => IsChain(h, disk, parent, c[..|c| - 1])
            case None => |c| == 1
  {
    hide Load;
  }

  lemma CompletesBelow(h: Blob -> Digest, disk: Disk, ref: string, at: string, suffix: seq<Item>, item: Item)
    requires Completes(h, disk, ref, at, suffix) && at != "" && Load(h, disk, at) == Ok(item)
    requires item.config.parent.Some?
    ensures Completes(h, disk, ref, item.config.parent.value, [item] + suffix)
  {
    hide IsChain, Load;
    forall c | IsChain(h, disk, item.config.parent.value, c) ensures IsChain(h, disk, ref, c + ([item] + suffix)) {
      ChainPlus(h, disk, at, c, item);
      assert c + ([item] + suffix) == c + [item] + suffix;
    }
  }

  lemma EndsOneMore(c: seq<Item>, suffix: seq<Item>, item: Item)
    requires EndsWith(c, suffix) && |suffix| < |c| && c[|c| - |suffix| - 1] == item
    ensures EndsWith(c, [item] + suffix)
    ensures c[..|c| - |suffix|][..|c| - |suffix| - 1] == c[..|c| - |suffix| - 1]
  {
    var n := |c| - |suffix|;
    assert c[n - 1..] == [c[n - 1]] + c[n..];
  }

  lemma EndsLonger(h: Blob -> Digest, disk: Disk, ref: string, at: string, suffix: seq<Item>, item: Item)
    requires EndsIn(h, disk, ref, at, suffix) && at != "" && Load(h, disk, at) == Ok(item)
    requires item.config.parent.Some?
    ensures EndsIn(h, disk, ref, item.config.parent.value, [item] + suffix)
  {
    hide IsChain, Load, EndsWith;
    forall c | IsChain(h, disk, ref, c)
      ensures EndsWith(c, [item] + suffix) &&
              IsChain(h, disk, item.config.parent.value, c[..|c| - |[item] + suffix|])
    {
      ChainMinus(h, disk, at, c[..|c| - |suffix|]);
      EndsOneMore(c, suffix, item);
    }
  }

  lemma CompletesAtRoot(h: Blob -> Digest, disk: Disk, ref: string, at: string, suffix: seq<Item>, item: Item)
    requires Completes(h, disk, ref, at, suffix) && at != "" && Load(h, disk, at) == Ok(item)
    requires item.config.parent.None?
    ensures IsChain(h, disk, ref, [item] + suffix)
  {
    hide Load;
    assert IsChain(h, disk, at, [item]);
  }

  lemma WalkOneMore(h: Blob -> Digest, disk: Disk, ref: string, at: string, suffix: seq<Item>)
    requires Walked(h, disk, ref, at, suffix) && at != "" && Load(h, disk, at).Ok?
    ensures var item := Load(h, disk, at).value;
            match item.config.parent
            case Some(parent) => Walked(h, disk, ref, parent, [item] + suffix)
            case None => IsChain(h, disk, ref, [item] + suffix)
  {
    hide IsChain, Load, Completes, EndsIn;
    var item := Load(h, disk, at).value;
    if item.config.parent.Some? {
      CompletesBelow(h, disk, ref, at, suffix, item);
      EndsLonger(h, disk, ref, at, suffix, item);
    } else {
      CompletesAtRoot(h, disk, ref, at, suffix, item);
    }
  }

  lemma SeenOneMore(h: Blob -> Digest, disk: Disk, ref: string, at: string, suffix: seq<Item>, seen: set<string>)
    requires Walked(h, disk, ref, at, suffix) && SeenAbove(h, disk, ref, seen, |suffix|)
    ensures SeenAbove(h, disk, ref, seen + {at}, |suffix| + 1)
  {
    hide IsChain;
    forall c, s | IsChain(h, disk, ref, c) && s in seen + {at}
      ensures exists k :: 0 <= k <= |c| && |c| - (|suffix| + 1) < k && IsChain(h, disk, s, c[..k])
    {
      if s in seen {
        var k :| 0 <= k <= |c| && |c| - |suffix| < k && IsChain(h, disk, s, c[..k]);
      } else {
        assert IsChain(h, disk, s, c[..|c| - |suffix|]);
      }
    }
  }

  lemma CycleHasNoChain(h: Blob -> Digest, disk: Disk, ref: string, at: string, suffix: seq<Item>, seen: set<string>)
    requires Walked(h, disk, ref, at, suffix) && SeenAbove(h, disk, ref, seen, |suffix|) && at in seen
    ensures forall c :: !IsChain(h, disk, ref, c)
  {
    hide IsChain;
    forall c | IsChain(h, disk, ref, c) ensures false {
      var k :| 0 <= k <= |c| && |c| - |suffix| < k && IsChain(h, disk, at, c[..k]);
      ChainUnique(h, disk, at, c[..k], c[..|c| - |suffix|]);
    }
  }

  lemma WalkStart(h: Blob -> Digest, disk: Disk, ref: string)
    ensures Walked(h, disk, ref, ref, []) && SeenAbove(h, disk, ref, {}, 0)
  {
    hide IsChain;
    forall c: seq<Item> ensures c + [] == c && c[..|c|] == c && c[|c|..] == [] {
    }
  }

  /** Adding the reversal of a longer newest-first list. */
  lemma ReversalGrows(a: seq<Item>, b: seq<Item>, x: Item)
    requires IsReversal(a, b)
    ensures IsReversal([x] + a, b + [x])
  {
  }

  lemma ReversalUnique(a: seq<Item>, b: seq<Item>, c: seq<Item>)
    requires IsReversal(a, c) && IsReversal(b, c)
    ensures a == b
  {
  }

  lemma NothingReversed()
    ensures IsReversal<Item>([], [])
  {
  }

  lemma DeadEnd(h: Blob -> Digest, disk: Disk, ref: string, at: string, suffix: seq<Item>)
    requires Walked(h, disk, ref, at, suffix) && at != "" && Load(h, disk, at).Fail?
    ensures forall c :: !IsChain(h, disk, ref, c)
  {
    hide Load;
  }

  lemma WalkedOut(h: Blob -> Digest, disk: Disk, ref: string, suffix: seq<Item>)
    requires Walked(h, disk, ref, "", suffix)
    ensures IsChain(h, disk, ref, suffix)
  {
    assert IsChain(h, disk, "", []);
    assert [] + suffix == suffix;
  }

  /** `snapshotChainWithDigests`, on any store contents: it stops, with the one complete
      chain of `ref` if there is one and with an error if there is none. */
  method SnapshotChain(h: Blob -> Digest, disk: Disk, ref: string) returns (r: Outcome<seq<Item>>)
    ensures r.Ok? ==> IsChain(h, disk, ref, r.value)
    ensures r.Fail? ==> forall c :: !IsChain(h, disk, ref, c)
  {
    hide Load, IsChain, Walked, SeenAbove, IsReversal;
    var chain: seq<Item> := [];
    var seen: set<string> := {};
    var digest := ref;
    ghost var suffix: seq<Item> := [];
    WalkStart(h, disk, ref);
    assert IsReversal(suffix, chain) by { NothingReversed(); }
    while digest != ""
      invariant IsReversal(suffix, chain)
      invariant Walked(h, disk, ref, digest, suffix)
      invariant SeenAbove(h, disk, ref, seen, |suffix|)
      invariant seen <= Links(disk, ref) && digest in Links(disk, ref)
      decreases Links(disk, ref) - seen
    {
      if digest in seen {
        CycleHasNoChain(h, disk, ref, digest, suffix, seen);
        return Fail;
      }
      SeenOneMore(h, disk, ref, digest, suffix, seen);
      seen := seen + {digest};
      var loaded := Load(h, disk, digest);
      if loaded.Fail? {
        DeadEnd(h, disk, ref, digest, suffix);
        return Fail;
      }
      WalkOneMore(h, disk, ref, digest, suffix);
      ReversalGrows(suffix, chain, loaded.value);
      chain := chain + [loaded.value];
      suffix := [loaded.value] + suffix;
      if loaded.value.config.parent.None? {
        var items := Reverse(chain);
        ReversalUnique(items, suffix, chain);
        return Ok(items);
      }
      LoadedParent(h, disk, ref, digest);
      digest := loaded.value.config.parent.value;
    }
    var items := Reverse(chain);
    ReversalUnique(items, suffix, chain);
    WalkedOut(h, disk, ref, suffix);
    return Ok(items);
  }
}
