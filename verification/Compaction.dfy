/** Replacing a long chain by one checkpoint, with or without pruning, and runs of all the
    operations that move refs. */
module Compaction {
  import opened Trees
  import opened Layers
  import opened RestoreProofs
  import opened Store
  import opened Prune
  import opened RefUpdates
  import opened LocalStores
  import opened Histories
  import opened Workspaces
  import opened OverlaySnapshot

  datatype Policy = Policy(
    squashEvery: int, keep: seq<string>, preserveSigned: bool, pruneSource: bool, pruneLocal: bool, dryRun: bool,
    checkpointTag: string, checkpointTags: seq<string>, source: Option<seq<TreeEntry>>, meta: string)

  /** The checkpoint tag, all tags to write, and the snapshots to delete. */
  datatype Plan = Plan(tag: string, tags: seq<string>, candidates: seq<Digest>)

  datatype Compacted = NotNeeded | Failed | Done

  // ----- the plan

  function KeepSet(disk: Disk, keep: seq<string>): set<string>
  {
    (set k | k in keep && k != "") +
    (set k | k in keep && k != "" && Resolve(disk, k).Ok? :: Resolve(disk, k).value)
  }

  /** Kept: named explicitly, signed, or the branch head. */
  predicate Kept(keepSet: set<string>, policy: Policy, signed: set<Digest>, chain: seq<Item>, i: int)
    requires 0 <= i < |chain|
  {
    || chain[i].digest in keepSet || chain[i].config.id in keepSet
    || (policy.preserveSigned && chain[i].digest in signed)
    || (i == |chain| - 1 && !policy.pruneSource)
  }

  method DeleteCandidates(disk: Disk, policy: Policy, signed: set<Digest>, chain: seq<Item>) returns (r: seq<Digest>)
    ensures forall d :: d in r <==>
              exists i :: 0 <= i < |chain| && chain[i].digest == d &&
                          !Kept(KeepSet(disk, policy.keep), policy, signed, chain, i)
  {
    hide KeepSet;
    r := [];
    for i := 0 to |chain|
      invariant forall d :: d in r <==>
                  exists k :: 0 <= k < i && chain[k].digest == d &&
                              !Kept(KeepSet(disk, policy.keep), policy, signed, chain, k)
    {
      if !Kept(KeepSet(disk, policy.keep), policy, signed, chain, i) {
        r := r + [chain[i].digest];
      }
    }
  }

  // ----- pruning keeps the remaining refs

  lemma WholeIsChain(h: Blob -> Digest, disk: Disk, base: Digest, d: Digest, c: seq<Item>)
    requires WholeBy(h, disk, base, d, c)
    ensures IsChain(h, disk, d, c)
  {
  }

  lemma PruneKeepsSound(h: Blob -> Digest, before: Disk, after: Disk, base: Digest)
    requires Sound(h, before, base) && Shrinks(before, after, {})
    requires forall d :: d in before.blobs && d !in after.blobs ==> !Reached(h, Disk(before.blobs, after.refs), d)
    ensures Sound(h, after, base)
    ensures forall r :: r in after.refs ==> TreeAt(h, after, after.refs[r]) == TreeAt(h, before, after.refs[r])
  {
    hide WholeBy, TreeAt, Ideal, Reached;
    forall r | r in after.refs
      ensures Whole(h, after, base, after.refs[r])
      ensures TreeAt(h, after, after.refs[r]) == TreeAt(h, before, after.refs[r])
    {
      var d := after.refs[r];
      var c := ChainOfWhole(h, before, base, d);
      WholeIsChain(h, before, base, d, c);
      PruneKeepsChain(h, before, after, r, c);
      GoodLinksAlive(h, before, base, d, c, after.refs);
      WholeKept(h, before, after, base, d, c);
    }
  }

  lemma DigestIsPlain(h: Blob -> Digest, disk: Disk, d: Digest)
    requires Ideal(h) && LoadDigest(h, disk, d).Ok?
    ensures IsDigest(d) && TrimSpace(d) == d && d != ""
  {
  }

  lemma PartsAreDigests(h: Blob -> Digest, disk: Disk, item: Item)
    requires LoadDigest(h, disk, item.digest) == Ok(item) && HasLayer(h, disk, item)
    ensures forall d :: d in PartsOf(item) ==> IsDigest(d)
  {
  }

  /** Everything pruning may delete is well formed when the snapshots named belong to a whole
      chain, so pruning does not stop midway. */
  lemma CandidatesAreDigests(h: Blob -> Digest, disk: Disk, base: Digest, head: Digest, c: seq<Item>,
                             names: seq<Digest>)
    requires Ideal(h) && WholeBy(h, disk, base, head, c)
    requires forall s :: s in names ==> exists i :: 0 <= i < |c| && c[i].digest == s
    ensures Named(names) == set s | s in names
    ensures forall d :: Candidate(h, disk, Named(names), d) ==> IsDigest(d)
  {
    hide GoodChain, LoadDigest, HasLayer, PartsOf, IsChain, TrimSpace, Ideal, IsDigest;
    forall s | s in names ensures IsDigest(s) && TrimSpace(s) == s && s != "" {
      var i :| 0 <= i < |c| && c[i].digest == s;
      ChainBelow(h, disk, head, c, i);
      DigestIsPlain(h, disk, s);
    }
    assert Named(names) == set s | s in names;
    forall d | Candidate(h, disk, Named(names), d) ensures IsDigest(d) {
      var s :| s in Named(names) &&
        (d == s || (Load(h, disk, s).Ok? && d in PartsOf(Load(h, disk, s).value)));
      var i :| 0 <= i < |c| && c[i].digest == s;
      ChainBelow(h, disk, head, c, i);
      GoodPrefix(h, disk, base, c, i + 1);
      DigestResolves(disk, s);
      PartsAreDigests(h, disk, c[i]);
    }
  }

  // ----- what is decided before anything is written

  function Threshold(policy: Policy): int
  {
    if policy.squashEvery <= 0 then 50 else policy.squashEvery
  }

  /** The plan a policy makes of a chain. */
  predicate PlanFits(disk: Disk, policy: Policy, signed: set<Digest>, checkpointId: int -> string, chain: seq<Item>,
                     plan: Plan)
    requires chain != []
  {
    && plan.tag == (if policy.checkpointTag != "" then policy.checkpointTag
                    else checkpointId(chain[|chain| - 1].config.sequence))
    && plan.tags == UniqueTags([plan.tag] + UniqueTags(policy.checkpointTags))
    && (forall d :: d in plan.candidates ==>
          exists i :: 0 <= i < |chain| && chain[i].digest == d &&
                      !Kept(KeepSet(disk, policy.keep), policy, signed, chain, i))
    && (forall i :: 0 <= i < |chain| && !Kept(KeepSet(disk, policy.keep), policy, signed, chain, i) ==>
          chain[i].digest in plan.candidates)
  }

  /** Where the files of the checkpoint come from: a live directory that still matches the
      head, or else a restore of the head that works. */
  ghost predicate CanSource(ws: Workspace, disk: Disk, policy: Policy, head: Digest)
  {
    match policy.source
    case Some(es) => TreeMap(es) == TreeAt(ws.store.h, disk, head)
    case None => exists c :: WholeBy(ws.store.h, disk, ws.base, head, c) && AllRestorable(TreesOf(c))
  }

  function CheckpointOptions(plan: Plan, policy: Policy): SnapshotOptions
  {
    SnapshotOptions(plan.tag, "latest", true, "", policy.meta)
  }

  /** The checkpoint can be made: its files are there, and its snapshot is not refused. */
  ghost predicate CanCheckpoint(ws: Workspace, disk: Disk, policy: Policy, plan: Plan, head: Digest,
                                renameOk: seq<bool>)
  {
    && CanSource(ws, disk, policy, head)
    && ws.SnapAllowed(disk, None, CheckpointOptions(plan, policy), TreeAt(ws.store.h, disk, head), renameOk)
  }

  /** The first tag from `i` on that cannot be written, or the end. */
  function Working(tags: seq<string>, tagOk: seq<bool>, i: nat): (r: nat)
    ensures i <= |tags| ==> i <= r <= |tags|
    decreases |tags| - i
  {
    if i >= |tags| || i >= |tagOk| || !TagWorks(tags[i], tagOk[i]) then i else Working(tags, tagOk, i + 1)
  }

  function TagFiles(tags: seq<string>): set<string>
  {
    if tags == [] then {} else TagFiles(tags[..|tags| - 1]) + TagFile(tags[|tags| - 1])
  }

  /** The ref files a compaction points at its checkpoint: those of the snapshot, and those of
      the plan's tags up to the first that cannot be written. */
  function MovedFiles(ws: Workspace, disk: Disk, policy: Policy, plan: Plan, tagOk: seq<bool>): set<string>
  {
    ws.SnapFiles(disk, None, CheckpointOptions(plan, policy)) + TagFiles(plan.tags[..Working(plan.tags, tagOk, 0)])
  }

  function CheckpointConfig(ws: Workspace, from: Disk, policy: Policy, plan: Plan, head: Item): Config
  {
    ws.ConfigOf(from, None, CheckpointOptions(plan, policy), head.config.tree)
  }

  /** The plan deletes the checkpoint too: the root of the chain is not kept, and its config is
      already the checkpoint's, the same second and the same message included. */
  predicate Loses(ws: Workspace, from: Disk, policy: Policy, signed: set<Digest>, plan: Plan, c: seq<Item>)
    requires c != []
  {
    && !Kept(KeepSet(from, policy.keep), policy, signed, c, 0)
    && c[0].config == CheckpointConfig(ws, from, policy, plan, c[|c| - 1])
  }

  /** The ref files that name a deleted snapshot when pruning starts. Those that were moved to
      the checkpoint do if it is lost. */
  function Marked(refs: map<string, string>, files: set<string>, deleted: set<string>, lost: bool): set<string>
  {
    set f | f in refs.Keys + files && if f in files then lost else refs[f] in deleted
  }

  function MarkedFiles(ws: Workspace, from: Disk, policy: Policy, signed: set<Digest>, plan: Plan, c: seq<Item>,
                       tagOk: seq<bool>): set<string>
    requires c != []
  {
    Marked(from.refs, MovedFiles(ws, from, policy, plan, tagOk), Elems(plan.candidates),
           Loses(ws, from, policy, signed, plan, c))
  }

  function AllListed(files: set<string>): set<string>
  {
    set f | f in files :: Listed(f)
  }

  /** None of the files has a listed name that stands for a directory. */
  predicate Removable(files: set<string>)
  {
    forall f :: f in files ==> IsRefFile(Listed(f))
  }

  /** None of the files has space around its name. */
  predicate Tidy(files: set<string>)
  {
    forall f :: f in files ==> Listed(f) == f
  }

  /** How a compaction ends. */
  ghost function Ending(ws: Workspace, disk: Disk, policy: Policy, signed: set<Digest>, plan: Plan, c: seq<Item>,
                        renameOk: seq<bool>, tagOk: seq<bool>): Compacted
    requires c != []
  {
    if policy.dryRun || |c| < Threshold(policy) then NotNeeded
    else if !CanCheckpoint(ws, disk, policy, plan, c[|c| - 1].digest, renameOk) then Failed
    else if Working(plan.tags, tagOk, 0) < |plan.tags| then Failed
    else if policy.pruneLocal && !Removable(MarkedFiles(ws, disk, policy, signed, plan, c, tagOk)) then Failed
    else Done
  }

  // ----- what a compaction does

  /** The checkpoint is a complete snapshot without a parent, with the tree of the old head. */
  ghost predicate Stands(ws: Workspace, from: Disk, to: Disk, policy: Policy, plan: Plan, digest: Digest, head: Item)
  {
    && Whole(ws.store.h, to, ws.base, digest) && LoadDigest(ws.store.h, to, digest).Ok?
    && LoadDigest(ws.store.h, to, digest).value.config == CheckpointConfig(ws, from, policy, plan, head)
    && LoadDigest(ws.store.h, to, digest).value.config.parent == None
    && TreeAt(ws.store.h, to, digest) == ConfigTree(head)
  }

  /** After pruning. If the checkpoint is not lost, `latest` names it, so it stands; if it is
      lost, no ref names it. (Both need file names without space around them.) What no ref
      reaches is gone. */
  ghost predicate Pruned(ws: Workspace, to: Disk, plan: Plan, digest: Digest, c: seq<Item>, marked: set<string>,
                         lost: bool)
  {
    && (!lost && Tidy(marked) ==> "latest" in to.refs && to.refs["latest"] == digest)
    && (lost && Tidy(marked) ==> forall f :: f in to.refs ==> to.refs[f] != digest)
    && (forall i, b :: 0 <= i < |c| && c[i].digest in Elems(plan.candidates) && b in BlobsOf(c[i]) ==>
          b !in to.blobs || Reached(ws.store.h, to, b))
  }

  /** The checkpoint is a snapshot of the old chain if and only if that one's config is
      already the checkpoint's. */
  ghost predicate Repeats(ws: Workspace, from: Disk, policy: Policy, plan: Plan, digest: Digest, c: seq<Item>)
    requires c != []
  {
    forall i :: 0 <= i < |c| ==>
      (digest == c[i].digest <==> c[i].config == CheckpointConfig(ws, from, policy, plan, c[|c| - 1]))
  }

  /** From the point where the checkpoint is made. A pruning that is stopped has removed some
      of the refs it should, and no blob. */
  ghost predicate Checkpointed(ws: Workspace, from: Disk, to: Disk, policy: Policy, signed: set<Digest>,
                               tagOk: seq<bool>, r: Compacted, plan: Plan, digest: Digest, c: seq<Item>)
    requires c != []
  {
    var files := MovedFiles(ws, from, policy, plan, tagOk);
    var refs := Overlaid(from.refs, files, digest);
    var marked := MarkedFiles(ws, from, policy, signed, plan, c, tagOk);
    var prunes := policy.pruneLocal && Working(plan.tags, tagOk, 0) == |plan.tags|;
    var gone := refs.Keys - to.refs.Keys;
    && to.refs == refs - gone && gone <= (if prunes then AllListed(marked) else {})
    && Meaning(ws.store.h, to) == Overlaid(Meaning(ws.store.h, from), files, ConfigTree(c[|c| - 1])) - gone
    && (r.Failed? ==> Grows(from, to))
    && (!prunes || r.Failed? || (exists f :: f in to.refs && to.refs[f] == digest) ==>
          Stands(ws, from, to, policy, plan, digest, c[|c| - 1]))
    && (prunes && r.Done? ==>
          && to.refs == refs - AllListed(marked)
          && Pruned(ws, to, plan, digest, c, marked, Loses(ws, from, policy, signed, plan, c)))
    && Repeats(ws, from, policy, plan, digest, c)
  }

  /** All that a compaction of a ref does: `c` is the chain of the old head. */
  ghost predicate Compacts(ws: Workspace, from: Disk, to: Disk, ref: string, policy: Policy, signed: set<Digest>,
                           checkpointId: int -> string, renameOk: seq<bool>, tagOk: seq<bool>,
                           r: Compacted, plan: Plan, digest: Digest, c: seq<Item>)
  {
    match Resolve(from, ref)
    case Fail => r == Failed && to == from
    case Ok(head) =>
      && WholeBy(ws.store.h, from, ws.base, head, c) && PlanFits(from, policy, signed, checkpointId, c, plan)
      && r == Ending(ws, from, policy, signed, plan, c, renameOk, tagOk)
      && (if r.NotNeeded? then to == from
          else if !CanCheckpoint(ws, from, policy, plan, head, renameOk) then
            to.refs == from.refs && Meaning(ws.store.h, to) == Meaning(ws.store.h, from)
          else Checkpointed(ws, from, to, policy, signed, tagOk, r, plan, digest, c))
  }

  // ----- the steps

  method PlanCompaction(disk: Disk, policy: Policy, signed: set<Digest>, checkpointId: int -> string, chain: seq<Item>)
    returns (plan: Plan)
    requires chain != []
    ensures PlanFits(disk, policy, signed, checkpointId, chain, plan)
    ensures |plan.tags| <= |policy.checkpointTags| + 1
  {
    hide KeepSet, UniqueTags, Kept;
    var tag := if policy.checkpointTag != "" then policy.checkpointTag
               else checkpointId(chain[|chain| - 1].config.sequence);
    UniqueTagsShorter(policy.checkpointTags);
    UniqueTagsShorter([tag] + UniqueTags(policy.checkpointTags));
    var candidates := DeleteCandidates(disk, policy, signed, chain);
    plan := Plan(tag, UniqueTags([tag] + UniqueTags(policy.checkpointTags)), candidates);
  }

  /** Where the checkpoint takes its files from: the live directory if it still matches the
      head, else a fresh restore of the head. */
  method CheckpointSource(ws: Workspace, head: Item, policy: Policy) returns (r: Outcome<seq<TreeEntry>>)
    requires ws.Valid() && Whole(ws.store.h, ws.store.Contents(), ws.base, head.digest) && IsDigest(head.digest)
    requires LoadDigest(ws.store.h, ws.store.Contents(), head.digest) == Ok(head)
    requires policy.source.Some? ==> IsListing(policy.source.value)
    ensures r.Ok? <==> CanSource(ws, ws.store.Contents(), policy, head.digest)
    ensures r.Ok? ==> IsListing(r.value) && TreeMap(r.value) == ConfigTree(head)
  {
    hide Sound, WholeBy, Resolve, IsListing, TreeMap, AllRestorable, ReadBlob;
    if policy.source.Some? {
      if TreeMap(policy.source.value) != ConfigTree(head) {
        return Fail;
      }
      return Ok(policy.source.value);
    }
    DigestResolves(ws.store.Contents(), head.digest);
    var restored := ws.Restore(head.digest);
    ghost var c := ChainOfWhole(ws.store.h, ws.store.Contents(), ws.base, head.digest);
    if restored.Fail? {
      return Fail;
    }
    var es := ListTree(restored.value);
    return Ok(es);
  }

  /** The `writeRef` calls for the checkpoint tags, one transaction each. */
  method WriteTags(ws: Workspace, tags: seq<string>, digest: Digest, tagOk: seq<bool>) returns (ok: bool)
    requires ws.Valid() && Whole(ws.store.h, ws.store.Contents(), ws.base, digest) && |tagOk| >= |tags|
    requires IsDigest(digest)
    modifies ws.store`refs
    ensures ws.Valid() && Whole(ws.store.h, ws.store.Contents(), ws.base, digest)
    ensures ok <==> Working(tags, tagOk, 0) == |tags|
    ensures var files := TagFiles(tags[..Working(tags, tagOk, 0)]);
            ws.store.refs == Overlaid(old(ws.store.refs), files, digest) &&
            ws.Refs() == Overlaid(old(ws.Refs()), files, TreeAt(ws.store.h, old(ws.store.Contents()), digest))
  {
    hide Sound, Whole, TreeAt, LoadDigest, SafeRefName, TrimSpace, IsDigest, Meaning, AllAcceptable, Prepared, TagWorks;
    ghost var tree := TreeAt(ws.store.h, ws.store.Contents(), digest);
    ghost var before := ws.Refs();
    OverlaidTwice(before, {}, {}, tree);
    OverlaidTwice(ws.store.refs, {}, {}, digest);
    ok := true;
    for i := 0 to |tags|
      invariant ws.Valid() && Whole(ws.store.h, ws.store.Contents(), ws.base, digest)
      invariant TreeAt(ws.store.h, ws.store.Contents(), digest) == tree
      invariant Working(tags, tagOk, 0) == Working(tags, tagOk, i)
      invariant ws.Refs() == Overlaid(before, TagFiles(tags[..i]), tree)
      invariant ws.store.refs == Overlaid(old(ws.store.refs), TagFiles(tags[..i]), digest)
    {
      OneUpdate(ws.store.refs, tags[i], digest);
      assert tags[..i + 1][..i] == tags[..i];
      ok := ws.Publish([RefUpdate(tags[i], digest, "")], digest, [tagOk[i]]);
      if !ok {
        return;
      }
      OverlaidTwice(before, TagFiles(tags[..i]), TagFile(tags[i]), tree);
      OverlaidTwice(old(ws.store.refs), TagFiles(tags[..i]), TagFile(tags[i]), digest);
    }
    assert tags[..|tags|] == tags;
  }

  /** The snapshot of the checkpoint and the moves of its tags. */
  method MoveTags(ws: Workspace, source: seq<TreeEntry>, policy: Policy, plan: Plan, renameOk: seq<bool>,
                  tagOk: seq<bool>)
    returns (ok: bool, digest: Digest)
    requires ws.Valid() && |renameOk| >= 4 && |tagOk| >= |plan.tags|
    requires IsListing(source) && IsTree(TreeMap(source))
    modifies ws.store
    ensures ws.Valid() && Grows(old(ws.store.Contents()), ws.store.Contents())
    ensures var allowed :=
            ws.SnapAllowed(old(ws.store.Contents()), None, CheckpointOptions(plan, policy), TreeMap(source), renameOk);
            && (ok <==> allowed && Working(plan.tags, tagOk, 0) == |plan.tags|)
            && (if !allowed then ws.store.refs == old(ws.store.refs) && ws.Refs() == old(ws.Refs())
                else
                  var files := MovedFiles(ws, old(ws.store.Contents()), policy, plan, tagOk);
                  && ws.store.refs == Overlaid(old(ws.store.refs), files, digest)
                  && ws.Refs() == Overlaid(old(ws.Refs()), files, TreeMap(source))
                  && Whole(ws.store.h, ws.store.Contents(), ws.base, digest)
                  && LoadDigest(ws.store.h, ws.store.Contents(), digest).Ok?
                  && LoadDigest(ws.store.h, ws.store.Contents(), digest).value.config ==
                     ws.ConfigOf(old(ws.store.Contents()), None, CheckpointOptions(plan, policy), source)
                  && TreeAt(ws.store.h, ws.store.Contents(), digest) == TreeMap(source))
  {
    hide Sound, Whole, LoadDigest, Resolve, TreeAt, Meaning, IsListing, TreeMap, IsTree, Unreserved,
         AllAcceptable, AllTrue, Files, TagFiles, UniqueTags, Prepared;
    ghost var disk := ws.store.Contents();
    ok, digest := ws.Snapshot(source, None, CheckpointOptions(plan, policy), renameOk);
    if !ok {
      return;
    }
    ghost var files := ws.SnapFiles(disk, None, CheckpointOptions(plan, policy));
    ghost var middle := ws.store.Contents();
    WholeIsDigest(ws.store.h, middle, ws.base, digest);
    ok := WriteTags(ws, plan.tags, digest, tagOk);
    ghost var more := TagFiles(plan.tags[..Working(plan.tags, tagOk, 0)]);
    OverlaidTwice(Meaning(ws.store.h, disk), files, more, TreeMap(source));
    OverlaidTwice(disk.refs, files, more, digest);
    OnlyRefs(ws.store.h, middle, ws.store.refs, ws.base);
  }

  lemma PartIsCandidate(h: Blob -> Digest, disk: Disk, base: Digest, head: Digest, c: seq<Item>, deleted: set<Digest>,
                        i: int, b: Digest)
    requires Ideal(h) && WholeBy(h, disk, base, head, c) && 0 <= i < |c| && c[i].digest in deleted && b in BlobsOf(c[i])
    ensures Candidate(h, disk, deleted, b)
  {
    hide IsChain, GoodChain, LoadDigest, IsDigest, TrimSpace, PartsOf;
    ChainBelow(h, disk, head, c, i);
    DigestIsPlain(h, disk, c[i].digest);
    DigestResolves(disk, c[i].digest);
  }

  lemma ReachedShrunk(h: Blob -> Digest, before: Disk, after: Disk, base: Digest, b: Digest)
    requires Sound(h, after, base) && Grows(after, before)
    ensures Reached(h, Disk(before.blobs, after.refs), b) ==> Reached(h, after, b)
  {
    hide IsChain, GoodChain, BlobsOfAll, Ideal, Intact;
    var wide := Disk(before.blobs, after.refs);
    if Reached(h, wide, b) {
      var r :| r in after.refs && ReachedFrom(h, wide, after.refs[r], b);
      var c := ChainOfWhole(h, after, base, after.refs[r]);
      GrowsKeeps(after, wide, BlobsOfAll(c));
      WholeKept(h, after, wide, base, after.refs[r], c);
      if b != after.refs[r] {
        var e :| IsChain(h, wide, after.refs[r], e) && b in BlobsOfAll(e);
        ChainUnique(h, wide, after.refs[r], c, e);
      }
      assert ReachedFrom(h, after, after.refs[r], b);
    }
  }

  /** Pruning the snapshots of a plan, all of them from one whole chain. */
  method PrunePlan(ws: Workspace, plan: Plan, ghost head: Digest, ghost c: seq<Item>)
    returns (ok: bool, ghost gone: set<string>)
    requires ws.Valid() && WholeBy(ws.store.h, ws.store.Contents(), ws.base, head, c)
    requires forall s :: s in plan.candidates ==> exists i :: 0 <= i < |c| && c[i].digest == s
    modifies ws.store
    ensures ws.Valid()
    ensures ok <==> NamesFit(old(ws.store.refs), Elems(plan.candidates))
    ensures ws.store.refs == old(ws.store.refs) - gone && ws.Refs() == old(ws.Refs()) - gone
    ensures gone <= DeletedFiles(old(ws.store.refs), Elems(plan.candidates))
    ensures if ok then gone == DeletedFiles(old(ws.store.refs), Elems(plan.candidates))
            else ws.store.blobs == old(ws.store.blobs)
    ensures Grows(ws.store.Contents(), old(ws.store.Contents()))
    ensures ok ==> forall i, b :: 0 <= i < |c| && c[i].digest in Elems(plan.candidates) && b in BlobsOf(c[i]) ==>
                                    b !in ws.store.blobs || Reached(ws.store.h, ws.store.Contents(), b)
  {
    hide WholeBy, TreeAt, Candidate, Reached, Ideal, Intact, Named, DeletedFiles, NamesFit;
    ghost var before := ws.store.Contents();
    CandidatesAreDigests(ws.store.h, before, ws.base, head, c, plan.candidates);
    assert Named(plan.candidates) == Elems(plan.candidates);
    ok, gone := ws.store.PruneLocalSnapshots(plan.candidates);
    ghost var after := ws.store.Contents();
    assert Shrinks(before, after, {});
    PruneKeepsSound(ws.store.h, before, after, ws.base);
    if ok {
      forall i, b | 0 <= i < |c| && c[i].digest in Elems(plan.candidates) && b in BlobsOf(c[i])
        ensures b !in after.blobs || Reached(ws.store.h, after, b)
      {
        PartIsCandidate(ws.store.h, before, ws.base, head, c, Elems(plan.candidates), i, b);
        ReachedShrunk(ws.store.h, before, after, ws.base, b);
      }
    }
  }

  /** `latest` is moved to every checkpoint. */
  lemma LatestIn(ws: Workspace, disk: Disk, policy: Policy, plan: Plan, tagOk: seq<bool>)
    ensures "latest" in MovedFiles(ws, disk, policy, plan, tagOk)
  {
    hide TagFiles;
    ws.LatestMoved(disk, None, CheckpointOptions(plan, policy));
  }

  lemma MarkedAreDeleted(refs: map<string, string>, files: set<string>, deleted: set<string>, d: Digest)
    ensures var moved := Overlaid(refs, files, d);
            var marked := Marked(refs, files, deleted, d in deleted);
            && DeletedFiles(moved, deleted) == AllListed(marked)
            && (NamesFit(moved, deleted) <==> Removable(marked))
            && (forall f :: f in marked <==> f in moved && moved[f] in deleted)
  {
    hide Listed, IsRefFile;
  }

  lemma PrunedAsPlanned(ws: Workspace, refs: map<string, string>, to: Disk, plan: Plan, digest: Digest, c: seq<Item>,
                        marked: set<string>, lost: bool)
    requires to.refs == refs - AllListed(marked) && "latest" in refs && refs["latest"] == digest
    requires lost <==> digest in Elems(plan.candidates)
    requires forall f :: f in marked <==> f in refs && refs[f] in Elems(plan.candidates)
    requires forall i, b :: 0 <= i < |c| && c[i].digest in Elems(plan.candidates) && b in BlobsOf(c[i]) ==>
                              b !in to.blobs || Reached(ws.store.h, to, b)
    ensures Pruned(ws, to, plan, digest, c, marked, lost)
  {
    hide Listed, BlobsOf, Reached;
    if Tidy(marked) {
      assert AllListed(marked) == marked;
    }
  }

  lemma StandsAfterPrune(ws: Workspace, from: Disk, middle: Disk, to: Disk, policy: Policy, plan: Plan, digest: Digest,
                         head: Item)
    requires Stands(ws, from, middle, policy, plan, digest, head)
    requires Sound(ws.store.h, to, ws.base) && Grows(to, middle)
    ensures (exists f :: f in to.refs && to.refs[f] == digest) ==> Stands(ws, from, to, policy, plan, digest, head)
  {
    hide WholeBy, LoadDigest, Ideal, Intact, TreeAt;
    if f :| f in to.refs && to.refs[f] == digest {
      var c := ChainOfWhole(ws.store.h, to, ws.base, digest);
      LoadsTop(ws.store.h, to, ws.base, digest, c);
      LoadGrows(ws.store.h, to, middle, digest);
    }
  }

  lemma ChainRepeats(ws: Workspace, from: Disk, to: Disk, policy: Policy, plan: Plan, digest: Digest, c: seq<Item>)
    requires c != [] && WholeBy(ws.store.h, to, ws.base, c[|c| - 1].digest, c)
    requires Stands(ws, from, to, policy, plan, digest, c[|c| - 1])
    ensures Repeats(ws, from, policy, plan, digest, c)
  {
    hide Whole, WholeBy, LoadDigest, TreeAt, CheckpointConfig;
    forall i | 0 <= i < |c|
      ensures digest == c[i].digest <==> c[i].config == CheckpointConfig(ws, from, policy, plan, c[|c| - 1])
    {
      PrefixIsWhole(ws.store.h, to, ws.base, c[|c| - 1].digest, c, i);
      if c[i].config == CheckpointConfig(ws, from, policy, plan, c[|c| - 1]) {
        SameConfigSameDigest(ws.store.h, to, ws.base, digest, c[i].digest);
      }
    }
  }

  /** The plan deletes the checkpoint exactly if the root of the chain is the checkpoint, a
      checkpoint having no parent, and is not kept. */
  lemma LosesIff(ws: Workspace, from: Disk, policy: Policy, signed: set<Digest>, checkpointId: int -> string,
                 plan: Plan, digest: Digest, c: seq<Item>)
    requires c != [] && PlanFits(from, policy, signed, checkpointId, c, plan)
    requires WholeBy(ws.store.h, from, ws.base, c[|c| - 1].digest, c)
    requires Repeats(ws, from, policy, plan, digest, c)
    ensures digest in Elems(plan.candidates) <==> Loses(ws, from, policy, signed, plan, c)
  {
    hide WholeBy, KeepSet, UniqueTags, LoadDigest;
    if digest in Elems(plan.candidates) {
      var i :| 0 <= i < |c| && c[i].digest == digest && !Kept(KeepSet(from, policy.keep), policy, signed, c, i);
      PrefixIsWhole(ws.store.h, from, ws.base, c[|c| - 1].digest, c, i);
    }
  }

  lemma CandidatesInChain(disk: Disk, policy: Policy, signed: set<Digest>, checkpointId: int -> string, c: seq<Item>,
                          plan: Plan)
    requires c != [] && PlanFits(disk, policy, signed, checkpointId, c, plan)
    ensures forall s :: s in plan.candidates ==> exists i :: 0 <= i < |c| && c[i].digest == s
  {
    hide Kept, KeepSet, UniqueTags;
    forall s | s in plan.candidates ensures exists i :: 0 <= i < |c| && c[i].digest == s {
      var i :| 0 <= i < |c| && c[i].digest == s && !Kept(KeepSet(disk, policy.keep), policy, signed, c, i);
    }
  }

  lemma GoneFromBoth(h: Blob -> Digest, disk: Disk, gone: set<string>)
    ensures var found := disk.refs.Keys - (disk.refs - gone).Keys;
            && disk.refs - gone == disk.refs - found && found <= gone
            && Meaning(h, disk) - gone == Meaning(h, disk) - found
  {
    hide TreeAt;
  }

  /** A compaction that has come to the pruning, and what the pruning did. */
  lemma AfterPrune(ws: Workspace, from: Disk, middle: Disk, to: Disk, policy: Policy, signed: set<Digest>,
                   tagOk: seq<bool>, ok: bool, gone: set<string>, plan: Plan, digest: Digest, c: seq<Item>)
    requires c != [] && policy.pruneLocal && Working(plan.tags, tagOk, 0) == |plan.tags|
    requires middle.refs == Overlaid(from.refs, MovedFiles(ws, from, policy, plan, tagOk), digest)
    requires Meaning(ws.store.h, middle) == Overlaid(
               Meaning(ws.store.h, from), MovedFiles(ws, from, policy, plan, tagOk), ConfigTree(c[|c| - 1]))
    requires Grows(from, middle) && Stands(ws, from, middle, policy, plan, digest, c[|c| - 1])
    requires Repeats(ws, from, policy, plan, digest, c)
    requires digest in Elems(plan.candidates) <==> Loses(ws, from, policy, signed, plan, c)
    requires Sound(ws.store.h, to, ws.base) && Grows(to, middle)
    requires to.refs == middle.refs - gone && Meaning(ws.store.h, to) == Meaning(ws.store.h, middle) - gone
    requires gone <= DeletedFiles(middle.refs, Elems(plan.candidates))
    requires ok <==> NamesFit(middle.refs, Elems(plan.candidates))
    requires if ok then gone == DeletedFiles(middle.refs, Elems(plan.candidates)) else to.blobs == middle.blobs
    requires ok ==> forall i, b :: 0 <= i < |c| && c[i].digest in Elems(plan.candidates) && b in BlobsOf(c[i]) ==>
                                     b !in to.blobs || Reached(ws.store.h, to, b)
    ensures ok <==> Removable(MarkedFiles(ws, from, policy, signed, plan, c, tagOk))
    ensures Checkpointed(ws, from, to, policy, signed, tagOk, if ok then Done else Failed, plan, digest, c)
  {
    hide Sound, Whole, LoadDigest, TreeAt, Meaning, DeletedFiles, Pruned, Working, MovedFiles, Elems, NamesFit,
         Removable, AllListed, Loses, Marked, Repeats, Reached, BlobsOf;
    MarkedAreDeleted(from.refs, MovedFiles(ws, from, policy, plan, tagOk), Elems(plan.candidates), digest);
    StandsAfterPrune(ws, from, middle, to, policy, plan, digest, c[|c| - 1]);
    GoneFromBoth(ws.store.h, middle, gone);
    if ok {
      LatestIn(ws, from, policy, plan, tagOk);
      PrunedAsPlanned(ws, middle.refs, to, plan, digest, c, MarkedFiles(ws, from, policy, signed, plan, c, tagOk),
                      Loses(ws, from, policy, signed, plan, c));
    } else {
      assert to == Disk(middle.blobs, to.refs);
      OnlyRefs(ws.store.h, middle, to.refs, ws.base);
    }
  }

  /** The part of `Compact` that writes: the checkpoint, its tags, and the pruning. */
  method WriteCheckpoint(ws: Workspace, source: seq<TreeEntry>, policy: Policy, ghost signed: set<Digest>,
                         ghost checkpointId: int -> string, plan: Plan, renameOk: seq<bool>, tagOk: seq<bool>,
                         ghost c: seq<Item>)
    returns (r: Compacted, digest: Digest)
    requires ws.Valid() && |renameOk| >= 4 && |tagOk| >= |plan.tags|
    requires c != [] && WholeBy(ws.store.h, ws.store.Contents(), ws.base, c[|c| - 1].digest, c)
    requires source == c[|c| - 1].config.tree && IsListing(source) && IsTree(TreeMap(source))
    requires PlanFits(ws.store.Contents(), policy, signed, checkpointId, c, plan)
    modifies ws.store
    ensures ws.Valid()
    ensures var disk := old(ws.store.Contents());
            var allowed := ws.SnapAllowed(disk, None, CheckpointOptions(plan, policy), TreeMap(source), renameOk);
            var marked := MarkedFiles(ws, disk, policy, signed, plan, c, tagOk);
            && r == (if allowed && Working(plan.tags, tagOk, 0) == |plan.tags| &&
                        (policy.pruneLocal ==> Removable(marked)) then Done else Failed)
            && (if allowed then
                  Checkpointed(ws, disk, ws.store.Contents(), policy, signed, tagOk, r, plan, digest, c)
                else ws.store.refs == old(ws.store.refs) && ws.Refs() == old(ws.Refs()))
  {
    hide Sound, Whole, WholeBy, LoadDigest, TreeAt, Meaning, IsListing, TreeMap, IsTree, Unreserved, AllAcceptable,
         AllTrue, Prepared, Files, TagFiles, UniqueTags, DeletedFiles, Pruned, Working, MovedFiles, Elems, PlanFits,
         NamesFit, Removable, AllListed, Loses, Marked, Repeats, Kept;
    ghost var disk := ws.store.Contents();
    ghost var head := c[|c| - 1];
    ghost var allowed := ws.SnapAllowed(disk, None, CheckpointOptions(plan, policy), TreeMap(source), renameOk);
    var ok;
    ok, digest := MoveTags(ws, source, policy, plan, renameOk, tagOk);
    ghost var middle := ws.store.Contents();
    GrowsKeeps(disk, middle, BlobsOfAll(c));
    WholeKept(ws.store.h, disk, middle, ws.base, head.digest, c);
    if allowed {
      assert Stands(ws, disk, middle, policy, plan, digest, head);
      ChainRepeats(ws, disk, middle, policy, plan, digest, c);
      LosesIff(ws, disk, policy, signed, checkpointId, plan, digest, c);
    }
    if !ok {
      return Failed, digest;
    }
    if policy.pruneLocal {
      CandidatesInChain(disk, policy, signed, checkpointId, c, plan);
      ghost var gone;
      ok, gone := PrunePlan(ws, plan, head.digest, c);
      AfterPrune(ws, disk, middle, ws.store.Contents(), policy, signed, tagOk, ok, gone, plan, digest, c);
      if !ok {
        return Failed, digest;
      }
    }
    return Done, digest;
  }

  /** `Compact`. */
  method Compact(ws: Workspace, ref: string, policy: Policy, signed: set<Digest>, checkpointId: int -> string,
                 renameOk: seq<bool>, tagOk: seq<bool>)
    returns (r: Compacted, plan: Plan, digest: Digest, ghost c: seq<Item>)
    requires ws.Valid() && |renameOk| >= 4 && |tagOk| >= |policy.checkpointTags| + 1
    requires IsDigest(ref) ==> Whole(ws.store.h, ws.store.Contents(), ws.base, ref)
    requires policy.source.Some? ==> IsListing(policy.source.value)
    modifies ws.store
    ensures ws.Valid()
    ensures Compacts(ws, old(ws.store.Contents()), ws.store.Contents(), ref, policy, signed, checkpointId,
                     renameOk, tagOk, r, plan, digest, c)
  {
    hide Sound, Whole, WholeBy, LoadDigest, Resolve, TreeAt, Meaning, IsListing, TreeMap, IsTree, Unreserved,
         AllAcceptable, AllTrue, Prepared, Files, TagFiles, UniqueTags, KeepSet, Kept, PlanFits, CanSource,
         DeletedFiles;
    ghost var disk := ws.store.Contents();
    plan := Plan("", [], []);
    digest := "";
    c := [];
    var resolved := Resolve(ws.store.Contents(), ref);
    if resolved.Fail? {
      return Failed, plan, digest, c;
    }
    ResolvesWhole(ws.store.h, disk, ws.base, ref);
    c := ChainOfWhole(ws.store.h, disk, ws.base, resolved.value);
    WholeIsChain(ws.store.h, disk, ws.base, resolved.value, c);
    LoadsTop(ws.store.h, disk, ws.base, resolved.value, c);
    var walked := SnapshotChain(ws.store.h, ws.store.Contents(), resolved.value);
    WholeIsUnique(ws.store.h, disk, ws.base, resolved.value, c, walked.value);
    var chain := walked.value;
    var head := chain[|chain| - 1];
    plan := PlanCompaction(ws.store.Contents(), policy, signed, checkpointId, chain);
    if policy.dryRun || |chain| < Threshold(policy) {
      return NotNeeded, plan, digest, c;
    }
    var source := CheckpointSource(ws, head, policy);
    if source.Fail? {
      return Failed, plan, digest, c;
    }
    ListingUnique(source.value, head.config.tree);
    r, digest := WriteCheckpoint(ws, source.value, policy, signed, checkpointId, plan, renameOk, tagOk, c);
  }

  // ----- runs

  datatype Command =
    | Snap(scanned: seq<TreeEntry>, mount: Option<MountInfo>, opts: SnapshotOptions, renameOk: seq<bool>)
    | ForkTo(source: string, target: string, renameOk: seq<bool>)
    | Squash(ref: string, policy: Policy, signed: set<Digest>, checkpointId: int -> string,
             renameOk: seq<bool>, tagOk: seq<bool>)

  /** Scans are listings of trees, a mount's record holds a digest if anything, and every
      rename has an outcome. */
  predicate WellFormed(cmd: Command)
  {
    match cmd
    case Snap(es, mount, _, ok) =>
      && IsListing(es) && IsTree(TreeMap(es)) && |ok| >= 4
      && (mount.Some? && mount.value.source != "" ==> IsDigest(mount.value.source))
    case ForkTo(_, _, ok) => |ok| >= 1
    case Squash(_, policy, _, _, ok, tagOk) =>
      && |ok| >= 4 && |tagOk| >= |policy.checkpointTags| + 1
      && (policy.source.Some? ==> IsListing(policy.source.value))
  }

  /** Left out of a run: a snapshot of a mount, and a fork or a compaction of a bare digest,
      that load while their chain is not complete. They would make a ref that cannot be
      restored (`Workspaces.Workspace.Snapshot`, `Workspaces.Workspace.Fork`). */
  ghost predicate Skipped(ws: Workspace, cmd: Command, from: Disk)
  {
    match cmd
    case Snap(es, mount, opts, _) =>
      Mounted(mount, opts) && LoadDigest(ws.store.h, from, mount.value.source).Ok? &&
      !(Whole(ws.store.h, from, ws.base, mount.value.source) && OverlayShows(ws.store.h, from, es, mount.value))
    case ForkTo(source, _, _) =>
      Resolve(from, source).Ok? && !Whole(ws.store.h, from, ws.base, Resolve(from, source).value)
    case Squash(ref, _, _, _, _, _) => IsDigest(ref) && !Whole(ws.store.h, from, ws.base, ref)
  }

  lemma WholeMount(h: Blob -> Digest, disk: Disk, base: Digest, scanned: seq<TreeEntry>, mount: Option<MountInfo>,
                   opts: SnapshotOptions)
    requires Mounted(mount, opts) && Whole(h, disk, base, mount.value.source)
    requires OverlayShows(h, disk, scanned, mount.value)
    ensures MountIsGood(h, disk, scanned, mount, opts)
  {
    hide WholeBy, LoadDigest, OverlayShows, IsListing, IsTree, Unreserved, TreeMap;
    var c := ChainOfWhole(h, disk, base, mount.value.source);
    LoadsTop(h, disk, base, mount.value.source, c);
    WholeIsDigest(h, disk, base, mount.value.source);
  }

  /** Snapshot `d`, on the right parent, is what the files of the snapshot name now. */
  ghost predicate SnapMade(ws: Workspace, from: Disk, to: Disk, es: seq<TreeEntry>, mount: Option<MountInfo>,
                           opts: SnapshotOptions, d: Digest)
  {
    var files := ws.SnapFiles(from, mount, opts);
    && Whole(ws.store.h, to, ws.base, d) && LoadDigest(ws.store.h, to, d).Ok?
    && LoadDigest(ws.store.h, to, d).value.config == ws.ConfigOf(from, mount, opts, es)
    && to.refs == Overlaid(from.refs, files, d)
    && Meaning(ws.store.h, to) == Overlaid(Meaning(ws.store.h, from), files, TreeMap(es))
  }

  /** What a command does to the store and to the trees the refs stand for. */
  ghost predicate Moves(ws: Workspace, cmd: Command, from: Disk, to: Disk)
    requires WellFormed(cmd)
  {
    if Skipped(ws, cmd, from) then to == from
    else
      match cmd
      case Snap(es, mount, opts, renameOk) =>
        if ws.SnapAllowed(from, mount, opts, TreeMap(es), renameOk) then
          exists d :: SnapMade(ws, from, to, es, mount, opts, d)
        else to.refs == from.refs && Meaning(ws.store.h, to) == Meaning(ws.store.h, from)
      case ForkTo(source, target, renameOk) =>
        if ws.ForkAllowed(from, source, target, renameOk) then
          var d := Resolve(from, source).value;
          && to == Disk(from.blobs, Overlaid(from.refs, TagFile(target), d))
          && Meaning(ws.store.h, to) == Overlaid(Meaning(ws.store.h, from), TagFile(target),
                                                 TreeAt(ws.store.h, from, d))
        else to == from
      case Squash(ref, policy, signed, checkpointId, renameOk, tagOk) =>
        exists r, plan, digest, c ::
          Compacts(ws, from, to, ref, policy, signed, checkpointId, renameOk, tagOk, r, plan, digest, c)
  }

  method Step(ws: Workspace, cmd: Command)
    requires ws.Valid() && WellFormed(cmd)
    modifies ws.store
    ensures ws.Valid() && Moves(ws, cmd, old(ws.store.Contents()), ws.store.Contents())
  {
    hide Sound, WholeBy, Whole, TreeAt, Resolve, IsListing, IsTree, TreeMap, LoadDigest, AllAcceptable, AllTrue,
         Prepared, SafeRefName, TrimSpace, Meaning, Unreserved, Compacts, Files, OverlayShows, TagFile;
    ghost var disk := ws.store.Contents();
    match cmd {
      case Snap(es, mount, opts, renameOk) =>
        if Mounted(mount, opts) && LoadDigest(ws.store.h, ws.store.Contents(), mount.value.source).Ok? {
          var whole := ws.IsWhole(mount.value.source);
          if !whole || !OverlayShows(ws.store.h, ws.store.Contents(), es, mount.value) {
            return;
          }
          WholeMount(ws.store.h, disk, ws.base, es, mount, opts);
        }
        var ok, digest := ws.Snapshot(es, mount, opts, renameOk);
        if Mounted(mount, opts) && ok {
          WholeGrows(ws.store.h, disk, ws.store.Contents(), ws.base, mount.value.source);
        }
        assert ok ==> SnapMade(ws, disk, ws.store.Contents(), es, mount, opts, digest);
      case ForkTo(source, target, renameOk) =>
        var d := Resolve(ws.store.Contents(), source);
        if d.Ok? {
          var whole := ws.IsWhole(d.value);
          if !whole {
            return;
          }
        }
        var ok := ws.Fork(source, target, renameOk);
      case Squash(ref, policy, signed, checkpointId, renameOk, tagOk) =>
        if IsDigest(ref) {
          var whole := ws.IsWhole(ref);
          if !whole {
            return;
          }
        }
        var r, plan, digest;
        ghost var c;
        r, plan, digest, c := Compact(ws, ref, policy, signed, checkpointId, renameOk, tagOk);
    }
  }

  /** A run from a sound workspace, in particular from an empty one. After every command each
      ref names a snapshot with a complete chain that restores to the tree in its config
      (`Histories.WholeRestores`), and every command did exactly what it should; `trace` is the
      store along the way. */
  method Run(ws: Workspace, cmds: seq<Command>) returns (ghost trace: seq<Disk>)
    requires ws.Valid() && forall i :: 0 <= i < |cmds| ==> WellFormed(cmds[i])
    modifies ws.store
    ensures |trace| == |cmds| + 1 && trace[0] == old(ws.store.Contents()) && trace[|cmds|] == ws.store.Contents()
    ensures forall i :: 0 <= i <= |cmds| ==> Sound(ws.store.h, trace[i], ws.base)
    ensures forall i :: 0 <= i < |cmds| ==> Moves(ws, cmds[i], trace[i], trace[i + 1])
  {
    hide Sound, WellFormed, Moves, Meaning;
    trace := [ws.store.Contents()];
    for i := 0 to |cmds|
      invariant |trace| == i + 1 && ws.Valid()
      invariant trace[0] == old(ws.store.Contents()) && trace[i] == ws.store.Contents()
      invariant forall k :: 0 <= k <= i ==> Sound(ws.store.h, trace[k], ws.base)
      invariant forall k :: 0 <= k < i ==> Moves(ws, cmds[k], trace[k], trace[k + 1])
    {
      Step(ws, cmds[i]);
      trace := trace + [ws.store.Contents()];
    }
  }
}
