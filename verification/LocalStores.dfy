/** The store on disk, changed in place: blobs written, refs updated, snapshots pruned. */
module LocalStores {
  import opened Store
  import opened Prune
  import opened RefUpdates

  /** The names seen so far, by file. */
  ghost predicate PathsOfNames(paths: map<string, string>, updates: seq<RefUpdate>)
  {
    && (forall u :: u in updates && !Blank(u) ==> SafeRefName(u.name) in paths && paths[SafeRefName(u.name)] == u.name)
    && (forall f :: f in paths ==> exists u :: u in updates && !Blank(u) && SafeRefName(u.name) == f)
  }

  predicate AllTrue(outcomes: seq<bool>, n: nat)
  {
    forall i :: 0 <= i < n && i < |outcomes| ==> outcomes[i]
  }

  lemma NoPathsYet()
    ensures PathsOfNames(map[], [])
  {
  }

  lemma BlankIsAcceptable(refs: map<string, string>, earlier: seq<RefUpdate>, u: RefUpdate, paths: map<string, string>)
    requires Blank(u) && PathsOfNames(paths, earlier)
    ensures Acceptable(refs, earlier, u) && PathsOfNames(paths, earlier + [u])
  {
    hide SafeRefName, Blank;
  }

  lemma CheckedIsAcceptable(refs: map<string, string>, earlier: seq<RefUpdate>, u: RefUpdate,
                            paths: map<string, string>)
    requires !Blank(u) && PathsOfNames(paths, earlier)
    ensures var path := SafeRefName(u.name);
            Acceptable(refs, earlier, u) <==>
            && IsDigest(u.digest) && IsRefFile(path) && (path in paths ==> paths[path] == u.name)
            && (TrimSpace(u.expected) != "" && path in refs ==> refs[path] == u.expected)
    ensures Acceptable(refs, earlier, u) ==>
              PathsOfNames(paths[SafeRefName(u.name) := u.name], earlier + [u])
  {
    hide SafeRefName, Blank, TrimSpace, IsDigest, IsRefFile;
  }

  class LocalStore {
    const h: Blob -> Digest
    var blobs: map<Digest, Blob>
    var refs: map<string, string>

    constructor (h: Blob -> Digest)
      ensures this.h == h && blobs == map[] && refs == map[]
    {
      this.h := h;
      blobs := map[];
      refs := map[];
    }

    function Contents(): Disk
      reads this
    {
      Disk(blobs, refs)
    }

    /** `reachableBlobDigests`; a ref with a broken chain keeps only its own digest. */
    method ReachableBlobDigests() returns (reachable: set<Digest>)
      ensures forall d :: d in reachable <==> Reached(h, Contents(), d)
    {
      hide IsChain, ReachedFrom, BlobsOf;
      reachable := {};
      var todo := refs.Keys;
      while todo != {}
        invariant todo <= refs.Keys
        invariant forall d :: d in reachable <==>
                                exists r :: r in refs.Keys - todo && ReachedFrom(h, Contents(), refs[r], d)
      {
        var r :| r in todo;
        var chain := SnapshotChain(h, Contents(), refs[r]);
        ghost var before := reachable;
        reachable := reachable + {refs[r]};
        if chain.Ok? {
          reachable := reachable + BlobsOfAll(chain.value);
        }
        FromOneRef(h, Contents(), refs[r], chain);
        todo := todo - {r};
      }
    }

    /** The refs are listed first; each is deleted by the name the listing shows for it. */
    method DeleteRefs(deleteSet: set<string>) returns (ok: bool, ghost deleted: set<string>)
      modifies this`refs
      ensures ok <==> NamesFit(old(refs), deleteSet)
      ensures refs == old(refs) - deleted && deleted <= DeletedFiles(old(refs), deleteSet)
      ensures ok ==> deleted == DeletedFiles(old(refs), deleteSet)
    {
      hide Listed, IsRefFile;
      var listing := refs;
      var todo := listing.Keys;
      deleted := {};
      while todo != {}
        invariant todo <= listing.Keys
        invariant forall f :: f in listing.Keys - todo && listing[f] in deleteSet ==> IsRefFile(Listed(f))
        invariant deleted == set f | f in listing.Keys - todo && listing[f] in deleteSet :: Listed(f)
        invariant refs == listing - deleted
      {
        var f :| f in todo;
        if listing[f] in deleteSet {
          if !IsRefFile(Listed(f)) {
            return false, deleted;
          }
          refs := refs - {Listed(f)};
          deleted := deleted + {Listed(f)};
        }
        todo := todo - {f};
      }
      return true, deleted;
    }

    /** `pruneLocalSnapshots`. Candidates are listed with their own digest, and the config
        and layers they load. A listed name that is a directory stops it among the refs, before
        any blob is touched; a digest that is not well formed stops it among the blobs. */
    method PruneLocalSnapshots(candidates: seq<string>) returns (ok: bool, ghost gone: set<string>)
      modifies this`refs, this`blobs
      ensures refs == old(refs) - gone && gone <= DeletedFiles(old(refs), Named(candidates))
      ensures if NamesFit(old(refs), Named(candidates)) then gone == DeletedFiles(old(refs), Named(candidates))
              else blobs == old(blobs)
      ensures var deleteSet := Named(candidates);
              && blobs.Keys <= old(blobs.Keys) && (forall d :: d in blobs ==> blobs[d] == old(blobs[d]))
              && (forall d :: d in old(blobs) && d !in blobs ==>
                    Candidate(h, old(Contents()), deleteSet, d) && !Reached(h, Disk(old(blobs), refs), d))
              && (ok ==> forall d :: Candidate(h, old(Contents()), deleteSet, d) ==>
                                       d !in blobs || Reached(h, Disk(old(blobs), refs), d))
      ensures ok <==>
              && NamesFit(old(refs), Named(candidates))
              && forall d :: Candidate(h, old(Contents()), Named(candidates), d) ==>
                               Reached(h, Disk(old(blobs), refs), d) || IsDigest(d)
    {
      hide Reached, Load, PartsOf, TrimSpace, Listed, IsRefFile, IsDigest;
      var deleteSet: set<string> := {};
      var candidateBlobs: set<string> := {};
      for i := 0 to |candidates|
        invariant deleteSet == Named(candidates[..i])
        invariant forall d :: d in candidateBlobs <==> Candidate(h, Contents(), deleteSet, d)
        invariant refs == old(refs) && blobs == old(blobs)
      {
        assert candidates[..i + 1] == candidates[..i] + [candidates[i]];
        var digest := TrimSpace(candidates[i]);
        if digest != "" {
          deleteSet := deleteSet + {digest};
          candidateBlobs := candidateBlobs + {digest};
          var loaded := Load(h, Contents(), digest);
          if loaded.Ok? {
            candidateBlobs := candidateBlobs + PartsOf(loaded.value);
          }
        }
      }
      assert candidates[..|candidates|] == candidates;
      if deleteSet == {} {
        assert DeletedFiles(refs, deleteSet) == {};
        return true, {};
      }
      ok, gone := DeleteRefs(deleteSet);
      if !ok {
        return;
      }
      var reachable := ReachableBlobDigests();
      ok := true;
      var todo := candidateBlobs;
      while todo != {}
        invariant todo <= candidateBlobs
        invariant refs == old(refs) - gone
        invariant blobs.Keys <= old(blobs.Keys) && (forall d :: d in blobs ==> blobs[d] == old(blobs[d]))
        invariant forall d :: d in old(blobs) && d !in blobs ==> d in candidateBlobs && d !in reachable
        invariant forall d :: d in candidateBlobs - todo && d !in reachable ==> d !in blobs && IsDigest(d)
      {
        var d :| d in todo;
        if d !in reachable {
          if !IsDigest(d) {
            return false, gone;
          }
          blobs := blobs - {d};
        }
        todo := todo - {d};
      }
    }

    /** `writeBlob`: an existing file is left alone. */
    method WriteBlob(b: Blob) returns (d: Digest)
      modifies this`blobs
      ensures d == h(b)
      ensures blobs == if d in old(blobs) then old(blobs) else old(blobs)[d := b]
    {
      d := h(b);
      if d !in blobs {
        blobs := blobs[d := b];
      }
    }

    /** The first loop: every check, with the old values remembered. */
    method PrepareUpdates(updates: seq<RefUpdate>) returns (ok: bool, prepared: seq<Saved>)
      ensures ok <==> AllAcceptable(refs, updates)
      ensures ok ==> prepared == Prepared(refs, updates)
    {
      hide Blank, IsDigest, IsRefFile, SafeRefName, Acceptable, TrimSpace, PathsOfNames;
      prepared := [];
      var paths: map<string, string> := map[];
      NoPathsYet();
      for i := 0 to |updates|
        invariant prepared == Prepared(refs, updates[..i])
        invariant forall k :: 0 <= k < i ==> Acceptable(refs, updates[..k], updates[k])
        invariant PathsOfNames(paths, updates[..i])
      {
        var u := updates[i];
        assert updates[..i + 1][..i] == updates[..i];
        assert updates[..i + 1] == updates[..i] + [u];
        if Blank(u) {
          BlankIsAcceptable(refs, updates[..i], u, paths);
          continue;
        }
        var path := SafeRefName(u.name);
        CheckedIsAcceptable(refs, updates[..i], u, paths);
        if !IsDigest(u.digest) || !IsRefFile(path)
           || (path in paths && paths[path] != u.name)
           || (TrimSpace(u.expected) != "" && path in refs && refs[path] != u.expected) {
          return false, prepared;
        }
        paths := paths[path := u.name];
        prepared := prepared + [Saved(path, Get(refs, path), u.digest)];
      }
      assert updates[..|updates|] == updates;
      return true, prepared;
    }

    /** The loop that undoes the renames before the one that failed. */
    method Rollback(ghost original: map<string, string>, prepared: seq<Saved>, i: nat)
      requires i <= |prepared| && refs == Committed(original, prepared[..i])
      requires forall p :: p in prepared ==> p.before == Get(original, p.file)
      modifies this`refs
      ensures refs == original
    {
      hide Committed, Put;
      var j := i;
      while j > 0
        invariant 0 <= j <= i
        invariant Undone(original, prepared, i, j, refs)
      {
        UndoOne(original, prepared, i, j, refs);
        j := j - 1;
        refs := Put(refs, prepared[j].file, prepared[j].before);
      }
      AllUndone(original, prepared, i, refs);
    }

    /** The second loop: the renames, undone if one fails. */
    method CommitUpdates(prepared: seq<Saved>, renameOk: seq<bool>) returns (ok: bool)
      requires |prepared| <= |renameOk|
      requires forall p :: p in prepared ==> p.before == Get(refs, p.file)
      modifies this`refs
      ensures ok <==> AllTrue(renameOk, |prepared|)
      ensures refs == if ok then Committed(old(refs), prepared) else old(refs)
    {
      for i := 0 to |prepared|
        invariant refs == Committed(old(refs), prepared[..i])
        invariant forall k :: 0 <= k < i ==> renameOk[k]
      {
        if !renameOk[i] {
          Rollback(old(refs), prepared, i);
          return false;
        }
        assert prepared[..i + 1][..i] == prepared[..i];
        refs := refs[prepared[i].file := prepared[i].digest];
      }
      assert prepared[..|prepared|] == prepared;
      return true;
    }

    /** `writeRefsIfExpected`. `renameOk[i]` is how the `i`-th rename turns out; undoing is
        assumed to work. All updates are installed, or nothing changes. */
    method WriteRefsIfExpected(updates: seq<RefUpdate>, renameOk: seq<bool>) returns (ok: bool)
      requires |updates| <= |renameOk|
      modifies this`refs
      ensures ok <==> AllAcceptable(old(refs), updates) && AllTrue(renameOk, |Prepared(old(refs), updates)|)
      ensures ok ==> refs == Installed(old(refs), updates)
      ensures !ok ==> refs == old(refs)
    {
      hide Installed, Prepared, AllAcceptable, AllTrue;
      var prepared;
      ok, prepared := PrepareUpdates(updates);
      if ok {
        CommittedInstalls(refs, updates);
        ok := CommitUpdates(prepared, renameOk);
      }
    }
  }
}
