/** The all-or-nothing update of several refs. */
module RefUpdates {
  import opened Trees
  import opened Store

  datatype RefUpdate = RefUpdate(name: string, digest: Digest, expected: string)

  /** A new value written to a temporary file, and what the ref held before. */
  datatype Saved = Saved(file: string, before: Option<string>, digest: Digest)

  function Get(refs: map<string, string>, file: string): Option<string>
  {
    if file in refs then Some(refs[file]) else None
  }

  function Put(refs: map<string, string>, file: string, value: Option<string>): map<string, string>
  {
    if value.Some? then refs[file := value.value] else refs - {file}
  }

  predicate Blank(u: RefUpdate)
  {
    TrimSpace(u.name) == ""
  }

  /** No error on this update: a digest, a name that is a file, no other name for that file,
      and, where the ref exists and a value is expected, that value. */
  predicate Acceptable(refs: map<string, string>, earlier: seq<RefUpdate>, u: RefUpdate)
  {
    Blank(u) ||
    (&& IsDigest(u.digest) && IsRefFile(SafeRefName(u.name))
     && (forall e :: e in earlier && !Blank(e) && SafeRefName(e.name) == SafeRefName(u.name) ==> e.name == u.name)
     && (TrimSpace(u.expected) != "" && SafeRefName(u.name) in refs ==> refs[SafeRefName(u.name)] == u.expected))
  }

  predicate AllAcceptable(refs: map<string, string>, updates: seq<RefUpdate>)
  {
    forall i :: 0 <= i < |updates| ==> Acceptable(refs, updates[..i], updates[i])
  }

  /** Every update installed, in order. */
  function Installed(refs: map<string, string>, updates: seq<RefUpdate>): map<string, string>
  {
    if updates == [] then refs
    else
      var n := |updates| - 1;
      var before := Installed(refs, updates[..n]);
      if Blank(updates[n]) then before else before[SafeRefName(updates[n].name) := updates[n].digest]
  }

  function Prepared(refs: map<string, string>, updates: seq<RefUpdate>): seq<Saved>
  {
    if updates == [] then []
    else
      var n := |updates| - 1;
      var u := updates[n];
      if Blank(u) then Prepared(refs, updates[..n])
      else Prepared(refs, updates[..n]) + [Saved(SafeRefName(u.name), Get(refs, SafeRefName(u.name)), u.digest)]
  }

  function Committed(refs: map<string, string>, saved: seq<Saved>): map<string, string>
  {
    if saved == [] then refs
    else
      var n := |saved| - 1;
      Committed(refs, saved[..n])[saved[n].file := saved[n].digest]
  }

  lemma {:induction false} CommittedInstalls(refs: map<string, string>, updates: seq<RefUpdate>)
    ensures Committed(refs, Prepared(refs, updates)) == Installed(refs, updates)
    ensures forall p :: p in Prepared(refs, updates) ==> p.before == Get(refs, p.file)
    ensures |Prepared(refs, updates)| <= |updates|
  {
    hide Blank, SafeRefName;
    if updates != [] {
      var n := |updates| - 1;
      CommittedInstalls(refs, updates[..n]);
      var prepared := Prepared(refs, updates);
      if !Blank(updates[n]) {
        assert prepared[..|prepared| - 1] == Prepared(refs, updates[..n]);
      }
    }
  }

  /** After undoing entries `j` to `i`, files among them are as before, the others as the
      commit of `saved[..i]` left them. */
  ghost predicate Undone(refs: map<string, string>, saved: seq<Saved>, i: int, j: int, now: map<string, string>)
    requires 0 <= j <= i <= |saved|
  {
    forall f :: Get(now, f) ==
                if exists k :: j <= k < i && saved[k].file == f then Get(refs, f)
                else Get(Committed(refs, saved[..i]), f)
  }

  lemma {:induction false} CommittedElsewhere(refs: map<string, string>, saved: seq<Saved>, f: string)
    requires forall k :: 0 <= k < |saved| ==> saved[k].file != f
    ensures Get(Committed(refs, saved), f) == Get(refs, f)
  {
    if saved != [] {
      CommittedElsewhere(refs, saved[..|saved| - 1], f);
    }
  }

  lemma AllUndone(refs: map<string, string>, saved: seq<Saved>, i: int, now: map<string, string>)
    requires 0 <= i <= |saved| && Undone(refs, saved, i, 0, now)
    ensures now == refs
  {
    hide Committed;
    forall f ensures Get(now, f) == Get(refs, f) {
      if !exists k :: 0 <= k < i && saved[k].file == f {
        CommittedElsewhere(refs, saved[..i], f);
      }
    }
    assert forall f :: f in now <==> Get(now, f).Some?;
    assert forall f :: f in refs <==> Get(refs, f).Some?;
    forall f | f in refs ensures now[f] == refs[f] {
      assert Get(now, f) == Get(refs, f);
    }
  }

  lemma UndoOne(refs: map<string, string>, saved: seq<Saved>, i: int, j: int, now: map<string, string>)
    requires 0 < j <= i <= |saved| && Undone(refs, saved, i, j, now)
    requires saved[j - 1].before == Get(refs, saved[j - 1].file)
    ensures Undone(refs, saved, i, j - 1, Put(now, saved[j - 1].file, saved[j - 1].before))
  {
    hide Committed;
    var next := Put(now, saved[j - 1].file, saved[j - 1].before);
    forall f
      ensures Get(next, f) ==
              if exists k :: j - 1 <= k < i && saved[k].file == f then Get(refs, f)
              else Get(Committed(refs, saved[..i]), f)
    {
      assert Get(now, f) ==
             if exists k :: j <= k < i && saved[k].file == f then Get(refs, f)
             else Get(Committed(refs, saved[..i]), f);
    }
  }
}
