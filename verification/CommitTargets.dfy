/** Replacing a restore target, and an extraction target, under failures and crashes between
    any two file-system calls. */
module CommitTargets {
  import opened Trees

  /** A directory: absent, complete, or left half deleted. */
  datatype Folder = Gone | Complete(tree: Tree) | Torn

  /** How one file-system call turns out. A deletion that errs or is cut off by a crash may
      have removed part of the directory; a rename happens or does not. */
  datatype Fate = Works | Errs(partly: bool) | Crashes(partly: bool)

  datatype Call = RecoverRename | RecoverDelete | ClearDelete | MoveAway | MoveIn | Rollback | DropDelete

  datatype End = Finished | Failed | Crashed

  function EndOf(fate: Fate): End
  {
    match fate
    case Works => Finished
    case Errs(_) => Failed
    case Crashes(_) => Crashed
  }

  /** One attempt: what staging produced (nothing if it failed), and the fate of each call. */
  datatype Attempt = Attempt(stage: Option<Tree>, force: bool, fate: Call -> Fate)

  class TargetDir {
    var target: Folder
    var backup: Folder
    /** The tree last put in place. */
    ghost var committed: Option<Tree>

    /** The committed tree is complete in the target, or, while the target is away, complete
        in the backup. */
    ghost predicate Consistent()
      reads this
    {
      match committed
      case None => target == Gone && backup == Gone
      case Some(t) => target == Complete(t) || (target == Gone && backup == Complete(t))
    }

    constructor (initial: Option<Tree>)
      ensures Consistent() && committed == initial && backup == Gone
    {
      target := if initial.Some? then Complete(initial.value) else Gone;
      backup := Gone;
      committed := initial;
    }

    /** No backup, and the committed tree in its place. */
    ghost predicate Settled()
      reads this
    {
      backup == Gone && target == if committed.Some? then Complete(committed.value) else Gone
    }

    /** `removeRestoreTree` of the backup. */
    method DeleteBackup(fate: Fate) returns (end: End)
      modifies this`backup
      ensures end == EndOf(fate)
      ensures backup == match fate
                        case Works => Gone
                        case Errs(partly) => if partly && old(backup) != Gone then Torn else old(backup)
                        case Crashes(partly) => if partly && old(backup) != Gone then Torn else old(backup)
    {
      match fate {
        case Works => backup := Gone;
        case Errs(partly) => backup := if partly && backup != Gone then Torn else backup;
        case Crashes(partly) => backup := if partly && backup != Gone then Torn else backup;
      }
      end := EndOf(fate);
    }

    /** `os.Rename` of the backup to the absent target. Only a complete backup that holds the
        committed tree is ever put back. */
    method PutBack(fate: Fate) returns (end: End)
      requires target == Gone && committed.Some? && backup == Complete(committed.value)
      modifies this`target, this`backup
      ensures end == EndOf(fate)
      ensures if end == Finished then Settled() else target == Gone && backup == old(backup)
    {
      if fate.Works? {
        target, backup := backup, Gone;
      }
      end := EndOf(fate);
    }

    /** `recoverRestoreBackup`. */
    method RecoverRestoreBackup(fate: Call -> Fate) returns (end: End)
      requires Consistent()
      modifies this`target, this`backup
      ensures Consistent() && (end == Finished ==> Settled())
      ensures old(backup) == Gone ==> end == Finished
      ensures (forall c :: fate(c) == Works) ==> end == Finished
    {
      if backup == Gone {
        return Finished;
      }
      if target == Gone {
        end := PutBack(fate(RecoverRename));
        return;
      }
      end := DeleteBackup(fate(RecoverDelete));
    }

    /** The two renames both commits share: target away, new tree in, target back if that
        fails. */
    method Swap(stage: Tree, fate: Call -> Fate) returns (end: End)
      requires Consistent() && target != Gone && backup == Gone
      modifies this
      ensures Consistent()
      ensures end == Finished <==> fate(MoveAway) == Works && fate(MoveIn) == Works
      ensures end == Finished ==> target == Complete(stage) && committed == Some(stage)
      ensures end == Finished ==> old(committed).Some? && backup == Complete(old(committed).value)
      ensures end != Finished ==> committed == old(committed) && backup != Torn
    {
      if fate(MoveAway) != Works {
        return EndOf(fate(MoveAway));
      }
      backup, target := target, Gone;
      if fate(MoveIn) != Works {
        end := EndOf(fate(MoveIn));
        if end == Failed {
          var undone := PutBack(fate(Rollback));
          if undone == Crashed {
            end := Crashed;
          }
        }
        return;
      }
      target := Complete(stage);
      committed := Some(stage);
      return Finished;
    }

    /** `commitRestoreTarget`. */
    method CommitRestoreTarget(stage: Tree, fate: Call -> Fate) returns (end: End)
      requires Settled()
      modifies this
      ensures Consistent()
      ensures end == Finished ==> Settled() && committed == Some(stage)
      ensures committed == old(committed) || committed == Some(stage)
      ensures end == Failed && committed != old(committed) ==> fate(DropDelete).Errs?
      ensures (forall c :: fate(c) == Works) ==> end == Finished
    {
      if target == Gone {
        if fate(MoveIn) == Works {
          target := Complete(stage);
          committed := Some(stage);
        }
        return EndOf(fate(MoveIn));
      }
      end := DeleteBackup(fate(ClearDelete));
      if end != Finished {
        return;
      }
      end := Swap(stage, fate);
      if end != Finished {
        return;
      }
      end := DeleteBackup(fate(DropDelete));
    }

    /** `validateRestoreTarget`. */
    predicate Refuses(a: Attempt)
      reads this
    {
      !a.force && target != Gone && (target.Torn? || target.tree != map[])
    }

    /** `Restore`. The target is validated once before recovery and once after it; a refusal
        before it touches nothing, not even a leftover backup. */
    method Restore(a: Attempt) returns (end: End)
      requires Consistent()
      modifies this
      ensures Consistent()
      ensures committed == old(committed) || (a.stage.Some? && committed == Some(a.stage.value))
      ensures end == Finished ==> Settled() && a.stage.Some? && committed == Some(a.stage.value)
      ensures !a.force && old(committed).Some? && old(committed).value != map[] ==>
                end != Finished && committed == old(committed)
      ensures old(Refuses(a)) ==> end == Failed && target == old(target) && backup == old(backup)
      ensures (forall c :: a.fate(c) == Works) && a.stage.Some? && (a.force || old(committed) == None) ==>
              end == Finished
    {
      if Refuses(a) {
        return Failed;
      }
      end := RecoverRestoreBackup(a.fate);
      if end != Finished {
        return;
      }
      if Refuses(a) {
        return Failed;
      }
      if a.stage.None? {
        return Failed;
      }
      end := CommitRestoreTarget(a.stage.value, a.fate);
    }

    /** Any sequence of restores, each failing or crashing wherever it likes, followed by one
        more recovery: the target is the complete tree it had first or the complete tree of
        one of the attempts, in fact of the last attempt that got as far as moving its tree
        in. */
    method RestoreRun(attempts: seq<Attempt>, recovery: Call -> Fate) returns (end: End, ghost installed: seq<int>)
      requires Consistent()
      modifies this
      ensures Consistent() && (end == Finished ==> Settled())
      ensures forall i :: 0 <= i < |installed| ==> 0 <= installed[i] < |attempts| && attempts[installed[i]].stage.Some?
      ensures forall i, j :: 0 <= i < j < |installed| ==> installed[i] < installed[j]
      ensures committed == if installed == [] then old(committed)
                           else Some(attempts[installed[|installed| - 1]].stage.value)
    {
      installed := [];
      for i := 0 to |attempts|
        invariant Consistent()
        invariant forall k :: 0 <= k < |installed| ==> 0 <= installed[k] < i && attempts[installed[k]].stage.Some?
        invariant forall j, k :: 0 <= j < k < |installed| ==> installed[j] < installed[k]
        invariant committed == if installed == [] then old(committed)
                               else Some(attempts[installed[|installed| - 1]].stage.value)
      {
        ghost var before := committed;
        var _ := Restore(attempts[i]);
        if committed != before {
          installed := installed + [i];
        }
      }
      end := RecoverRestoreBackup(recovery);
    }

    // ----- the extraction variant

    /** `recoverExtractTarget`: with a target and a backup it refuses and touches neither. */
    method RecoverExtractTarget(fate: Call -> Fate) returns (end: End)
      requires Consistent()
      modifies this`target, this`backup
      ensures Consistent() && (end == Finished ==> Settled())
      ensures old(backup) != Gone && old(target) != Gone ==>
                end == Failed && target == old(target) && backup == old(backup)
      ensures old(backup) != Gone ==> backup == old(backup) || target == old(backup)
      ensures old(backup) == Gone ==> end == Finished
      ensures old(target) == Gone && fate(RecoverRename) == Works ==> end == Finished
    {
      if backup == Gone {
        return Finished;
      }
      if target == Gone {
        end := PutBack(fate(RecoverRename));
        return;
      }
      return Failed;
    }

    /** `commitExtractTarget`: the backup is deleted only after the payload is in place. */
    method CommitExtractTarget(payload: Tree, force: bool, fate: Call -> Fate) returns (end: End)
      requires Consistent() && (target == Gone ==> backup == Gone)
      modifies this
      ensures Consistent()
      ensures end == Finished ==> Settled() && committed == Some(payload)
      ensures committed == old(committed) || committed == Some(payload)
      ensures old(target) != Gone && (!force || old(backup) != Gone) ==>
                end == Failed && target == old(target) && backup == old(backup)
      ensures old(committed).Some? && committed == old(committed) ==>
                target == Complete(committed.value) || backup == Complete(committed.value)
      ensures backup == Torn && old(backup) != Torn ==> target == Complete(payload)
      ensures (forall c :: fate(c) == Works) && (old(target) == Gone || (force && old(backup) == Gone)) ==>
              end == Finished
    {
      if target == Gone {
        if fate(MoveIn) == Works {
          target := Complete(payload);
          committed := Some(payload);
        }
        return EndOf(fate(MoveIn));
      }
      if !force {
        return Failed;
      }
      if backup != Gone {
        return Failed;
      }
      end := Swap(payload, fate);
      if end != Finished {
        return;
      }
      end := DeleteBackup(fate(DropDelete));
    }

    /** `ExtractSnapshotPath`, from recovery to commit; any existing target needs `force`. */
    method Extract(a: Attempt) returns (end: End)
      requires Consistent()
      modifies this
      ensures Consistent()
      ensures committed == old(committed) || (a.stage.Some? && committed == Some(a.stage.value))
      ensures end == Finished ==> Settled() && a.stage.Some? && committed == Some(a.stage.value)
      ensures old(backup) != Gone && old(target) != Gone ==>
                end == Failed && target == old(target) && backup == old(backup)
    {
      end := RecoverExtractTarget(a.fate);
      if end != Finished {
        return;
      }
      if !a.force && target != Gone {
        return Failed;
      }
      if a.stage.None? {
        return Failed;
      }
      end := CommitExtractTarget(a.stage.value, a.force, a.fate);
    }

    /** Any sequence of extractions. Once a crash or an error leaves a backup beside a
        complete target, every later attempt refuses and changes nothing. */
    method ExtractRun(attempts: seq<Attempt>)
      requires Consistent()
      modifies this
      ensures Consistent()
      ensures committed == old(committed) ||
              exists i :: 0 <= i < |attempts| && attempts[i].stage.Some? && committed == Some(attempts[i].stage.value)
      ensures old(backup) != Gone && old(target) != Gone ==> target == old(target) && backup == old(backup)
    {
      for i := 0 to |attempts|
        invariant Consistent()
        invariant committed == old(committed) ||
                  exists k :: 0 <= k < i && attempts[k].stage.Some? && committed == Some(attempts[k].stage.value)
        invariant old(backup) != Gone && old(target) != Gone ==> target == old(target) && backup == old(backup)
      {
        var _ := Extract(attempts[i]);
      }
    }
  }
}
