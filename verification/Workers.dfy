/** The autosnapshot workers of a node under every interleaving of the goroutines that
    start, stop, wait for and finish them. Each step is one critical section or one channel
    operation. */
module Workers {
  import opened Trees

  type Volume = string

  /** Handles are numbered in the order they are made. A worker runs until its deferred
      `finish` has the lock; then it only has to close its channel. */
  datatype Stage = Running | Leaving | Exited

  datatype Worker = Worker(volume: Volume, cancelled: bool, stage: Stage)

  /** A caller of `stopAndWait`: which handle it saw under the lock, and its result. */
  datatype Waiter = Waiting(handle: nat) | ReturnedNil(observed: Option<nat>) | TimedOut(handle: nat)

  datatype State = State(workers: map<Volume, nat>, made: seq<Worker>, waiters: map<nat, Waiter>)

  datatype Step =
    | Start(volume: Volume)
    | Stop(volume: Volume)
    | CancelUnseen(seen: set<Volume>)
    | CancelAll
    | CallStopAndWait(caller: nat, volume: Volume)
    | WaitReturns(caller: nat)
    | WaitTimesOut(caller: nat)
    | FinishLocked(handle: nat)
    | CloseDone(handle: nat)

  function Cancel(s: State, v: Volume): State
  {
    if v in s.workers && s.workers[v] < |s.made| then
      var k := s.workers[v];
      s.(made := s.made[k := s.made[k].(cancelled := true)])
    else s
  }

  /** Cancelling the workers of a set of volumes; the handles stay where they are. */
  function CancelSet(s: State, vs: set<Volume>): State
  {
    s.(made := seq(|s.made|, k requires 0 <= k < |s.made| =>
         if exists v :: v in vs && v in s.workers && s.workers[v] == k then s.made[k].(cancelled := true)
         else s.made[k]))
  }

  /** When a step can happen. A worker leaves its loop on its own or when cancelled; a waiter
      returns once the channel it waits on is closed. */
  predicate Enabled(s: State, step: Step)
  {
    match step
    case Start(_) => true
    case Stop(_) => true
    case CancelUnseen(_) => true
    case CancelAll => true
    case CallStopAndWait(c, _) => c !in s.waiters
    case WaitReturns(c) => c in s.waiters && s.waiters[c].Waiting? && s.waiters[c].handle < |s.made| &&
                           s.made[s.waiters[c].handle].stage == Exited
    case WaitTimesOut(c) => c in s.waiters && s.waiters[c].Waiting?
    case FinishLocked(k) => k < |s.made| && s.made[k].stage == Running
    case CloseDone(k) => k < |s.made| && s.made[k].stage == Leaving
  }

  function Next(s: State, step: Step): State
    requires Enabled(s, step)
  {
    match step
    case Start(v) =>
      if v in s.workers then s
      else s.(workers := s.workers[v := |s.made|], made := s.made + [Worker(v, false, Running)])
    case Stop(v) => Cancel(s, v)
    case CancelUnseen(seen) => CancelSet(s, s.workers.Keys - seen)
    case CancelAll => CancelSet(s, s.workers.Keys)
    case CallStopAndWait(c, v) =>
      var t := Cancel(s, v);
      t.(waiters := t.waiters[c := if v in s.workers then Waiting(s.workers[v]) else ReturnedNil(None)])
    case WaitReturns(c) => s.(waiters := s.waiters[c := ReturnedNil(Some(s.waiters[c].handle))])
    case WaitTimesOut(c) => s.(waiters := s.waiters[c := TimedOut(s.waiters[c].handle)])
    case FinishLocked(k) =>
      var v := s.made[k].volume;
      s.(workers := if v in s.workers && s.workers[v] == k then s.workers - {v} else s.workers,
         made := s.made[k := s.made[k].(stage := Leaving)])
    case CloseDone(k) => s.(made := s.made[k := s.made[k].(stage := Exited)])
  }

  const INITIAL := State(map[], [], map[])

  /** Any sequence of steps; one that cannot happen at its point is skipped. */
  function After(s: State, steps: seq<Step>): State
  {
    if steps == [] then s
    else
      var before := After(s, steps[..|steps| - 1]);
      if Enabled(before, steps[|steps| - 1]) then Next(before, steps[|steps| - 1]) else before
  }

  // ----- what holds in every interleaving

  /** A worker is live exactly while the map holds its own handle under its own volume. */
  predicate MapIsLive(s: State)
  {
    && (forall v :: v in s.workers ==> s.workers[v] < |s.made| && s.made[s.workers[v]].volume == v)
    && (forall k :: 0 <= k < |s.made| ==>
          (s.made[k].stage == Running <==> s.made[k].volume in s.workers && s.workers[s.made[k].volume] == k))
  }

  /** A wait is for a handle that exists, and one that returned nil saw it exit. */
  predicate WaitersAreRight(s: State)
  {
    forall c :: c in s.waiters ==>
      match s.waiters[c]
      case Waiting(k) => k < |s.made| && (s.made[k].cancelled || s.made[k].stage != Running)
      case TimedOut(k) => k < |s.made|
      case ReturnedNil(None) => true
      case ReturnedNil(Some(k)) => k < |s.made| && s.made[k].stage == Exited
  }

  predicate Inv(s: State)
  {
    MapIsLive(s) && WaitersAreRight(s)
  }

  /** The same state but for workers that are now cancelled. */
  ghost predicate OnlyCancels(s: State, t: State)
  {
    && t.workers == s.workers && t.waiters == s.waiters && |t.made| == |s.made|
    && forall k :: 0 <= k < |s.made| ==> t.made[k] == s.made[k] || t.made[k] == s.made[k].(cancelled := true)
  }

  lemma CancelsOnly(s: State, vs: set<Volume>, v: Volume)
    ensures OnlyCancels(s, CancelSet(s, vs)) && OnlyCancels(s, Cancel(s, v))
  {
  }

  lemma CancelKeeps(s: State, t: State)
    requires Inv(s) && OnlyCancels(s, t)
    ensures Inv(t)
  {
  }

  lemma StartKeeps(s: State, v: Volume)
    requires Inv(s)
    ensures Inv(Next(s, Start(v)))
  {
  }

  lemma CallKeeps(s: State, c: nat, v: Volume)
    requires Inv(s) && Enabled(s, CallStopAndWait(c, v))
    ensures Inv(Next(s, CallStopAndWait(c, v)))
  {
    CancelsOnly(s, {}, v);
    CancelKeeps(s, Cancel(s, v));
  }

  lemma FinishKeeps(s: State, k: nat)
    requires Inv(s) && Enabled(s, FinishLocked(k))
    ensures Inv(Next(s, FinishLocked(k)))
  {
  }

  lemma CloseKeeps(s: State, k: nat)
    requires Inv(s) && Enabled(s, CloseDone(k))
    ensures Inv(Next(s, CloseDone(k)))
  {
  }

  lemma WaitKeeps(s: State, c: nat)
    requires Inv(s)
    ensures Enabled(s, WaitReturns(c)) ==> Inv(Next(s, WaitReturns(c)))
    ensures Enabled(s, WaitTimesOut(c)) ==> Inv(Next(s, WaitTimesOut(c)))
  {
  }

  lemma StepKeeps(s: State, step: Step)
    requires Inv(s) && Enabled(s, step)
    ensures Inv(Next(s, step))
  {
    hide Inv, Cancel, CancelSet, OnlyCancels;
    match step {
      case Start(v) => StartKeeps(s, v);
      case Stop(v) =>
        CancelsOnly(s, {}, v);
        CancelKeeps(s, Cancel(s, v));
      case CancelUnseen(seen) =>
        CancelsOnly(s, s.workers.Keys - seen, "");
        CancelKeeps(s, CancelSet(s, s.workers.Keys - seen));
      case CancelAll =>
        CancelsOnly(s, s.workers.Keys, "");
        CancelKeeps(s, CancelSet(s, s.workers.Keys));
      case CallStopAndWait(c, v) => CallKeeps(s, c, v);
      case WaitReturns(c) => WaitKeeps(s, c);
      case WaitTimesOut(c) => WaitKeeps(s, c);
      case FinishLocked(k) => FinishKeeps(s, k);
      case CloseDone(k) => CloseKeeps(s, k);
    }
  }

  lemma {:induction false} RunKeeps(s: State, steps: seq<Step>)
    requires Inv(s)
    ensures Inv(After(s, steps))
    decreases |steps|
  {
    hide Inv, Next, Enabled;
    if steps != [] {
      var before := After(s, steps[..|steps| - 1]);
      RunKeeps(s, steps[..|steps| - 1]);
      if Enabled(before, steps[|steps| - 1]) {
        StepKeeps(before, steps[|steps| - 1]);
      }
    }
  }

  lemma InitialInv()
    ensures Inv(INITIAL)
  {
  }

  lemma AlwaysInv(steps: seq<Step>)
    ensures Inv(After(INITIAL, steps))
  {
    hide Inv, After;
    InitialInv();
    RunKeeps(INITIAL, steps);
  }

  /** In every interleaving: a worker is live exactly while its handle is in the map, and no
      volume has two live workers. */
  lemma AtMostOneLive(steps: seq<Step>, i: nat, j: nat)
    requires i < |After(INITIAL, steps).made| && j < |After(INITIAL, steps).made|
    ensures var s := After(INITIAL, steps);
            && (s.made[i].stage == Running <==> s.made[i].volume in s.workers && s.workers[s.made[i].volume] == i)
            && (s.made[i].stage == s.made[j].stage == Running && s.made[i].volume == s.made[j].volume ==> i == j)
  {
    hide After;
    AlwaysInv(steps);
  }

  /** `finish` always finds its own handle and takes away nothing else; then the channel can
      be closed, and after that neither step can happen to this worker again. */
  lemma {:induction false} FinishRemovesOnlyItself(steps: seq<Step>, k: nat)
    requires Enabled(After(INITIAL, steps), FinishLocked(k))
    ensures var s := After(INITIAL, steps);
            var t := Next(s, FinishLocked(k));
            && s.made[k].volume in s.workers && s.workers[s.made[k].volume] == k
            && t.workers == s.workers - {s.made[k].volume}
            && !Enabled(t, FinishLocked(k)) && Enabled(t, CloseDone(k))
  {
    hide After;
    AlwaysInv(steps);
  }

  lemma ExitedStays(s: State, step: Step, k: nat)
    requires Enabled(s, step) && k < |s.made| && s.made[k].stage == Exited
    ensures k < |Next(s, step).made| && Next(s, step).made[k].stage == Exited
    ensures Next(s, step).made[k].volume == s.made[k].volume
  {
  }

  /** An exited worker stays exited whatever happens next, so its channel is never closed a
      second time and it never removes a handle again. */
  lemma {:induction false} ExitIsForever(s: State, steps: seq<Step>, k: nat)
    requires Inv(s) && k < |s.made| && s.made[k].stage == Exited
    ensures var t := After(s, steps);
            && k < |t.made| && t.made[k].stage == Exited && t.made[k].volume == s.made[k].volume
            && !Enabled(t, CloseDone(k)) && !Enabled(t, FinishLocked(k))
    decreases |steps|
  {
    hide Inv, Next;
    if steps != [] {
      var before := steps[..|steps| - 1];
      ExitIsForever(s, before, k);
      if Enabled(After(s, before), steps[|steps| - 1]) {
        ExitedStays(After(s, before), steps[|steps| - 1], k);
      }
    }
  }

  /** `stopAndWait` returns at once exactly when no worker of the volume is live; otherwise
      the one it waits for is the live one, now cancelled. */
  lemma CallSeesLiveWorker(steps: seq<Step>, c: nat, v: Volume)
    requires Enabled(After(INITIAL, steps), CallStopAndWait(c, v))
    ensures var s := After(INITIAL, steps);
            match Next(s, CallStopAndWait(c, v)).waiters[c]
            case ReturnedNil(None) =>
              forall k :: 0 <= k < |s.made| && s.made[k].volume == v ==> s.made[k].stage != Running
            case Waiting(k) => k < |s.made| && s.made[k].volume == v && s.made[k].stage == Running &&
                               Next(s, CallStopAndWait(c, v)).made[k].cancelled
            case _ => false
  {
    hide After;
    AlwaysInv(steps);
  }

  /** The handle a `stopAndWait` call waits for, or waited for. */
  function Observed(w: Waiter): Option<nat>
  {
    match w
    case Waiting(k) => Some(k)
    case TimedOut(k) => Some(k)
    case ReturnedNil(observed) => observed
  }

  lemma {:induction false} AfterAppend(s: State, a: seq<Step>, b: seq<Step>)
    ensures After(s, a + b) == After(After(s, a), b)
    decreases |b|
  {
    hide Enabled, Next;
    if b == [] {
      assert a + b == a;
    } else {
      AfterAppend(s, a, b[..|b| - 1]);
      assert (a + b)[..|a + b| - 1] == a + b[..|b| - 1];
    }
  }

  /** A call keeps the handle it saw under the lock. */
  lemma {:induction false} HandleStays(s: State, steps: seq<Step>, c: nat)
    requires c in s.waiters
    ensures c in After(s, steps).waiters && Observed(After(s, steps).waiters[c]) == Observed(s.waiters[c])
    decreases |steps|
  {
    if steps != [] {
      HandleStays(s, steps[..|steps| - 1], c);
    }
  }

  lemma OneStep(s: State, step: Step)
    requires Enabled(s, step)
    ensures After(s, [step]) == Next(s, step)
  {
    hide Next;
    assert [step][..0] == [];
    assert After(s, []) == s;
  }

  /** A `stopAndWait` for volume `v` that returned nil, after whatever else happened: if a
      worker was live for `v` at the call, that very worker has exited and is not in the map;
      if none was, the call saw none. */
  lemma {:induction false} NilMeansExited(a: seq<Step>, c: nat, v: Volume, b: seq<Step>)
    requires Enabled(After(INITIAL, a), CallStopAndWait(c, v))
    requires var t := After(INITIAL, a + [CallStopAndWait(c, v)] + b);
             c in t.waiters && t.waiters[c].ReturnedNil?
    ensures var s, t := After(INITIAL, a), After(INITIAL, a + [CallStopAndWait(c, v)] + b);
            if v in s.workers then
              var k := s.workers[v];
              && k < |s.made| && s.made[k].volume == v && s.made[k].stage == Running
              && t.waiters[c] == ReturnedNil(Some(k)) && k < |t.made| && t.made[k].stage == Exited
              && !(v in t.workers && t.workers[v] == k)
            else t.waiters[c] == ReturnedNil(None)
  {
    hide After;
    var s, call := After(INITIAL, a), [CallStopAndWait(c, v)];
    var t := After(INITIAL, a + call + b);
    AlwaysInv(a);
    AlwaysInv(a + call + b);
    AfterAppend(INITIAL, a + call, b);
    AfterAppend(INITIAL, a, call);
    OneStep(s, call[0]);
    HandleStays(Next(s, call[0]), b, c);
  }

  // ----- the manager's methods are these steps

  /** `WorkerManager`; each method is one critical section. */
  class Manager {
    var workers: map<Volume, nat>
    var made: seq<Worker>
    var waiters: map<nat, Waiter>

    function Now(): State
      reads this
    {
      State(workers, made, waiters)
    }

    constructor ()
      ensures Now() == INITIAL
    {
      workers := map[];
      made := [];
      waiters := map[];
    }

    method DoStart(volume: Volume)
      modifies this
      ensures Now() == Next(old(Now()), Start(volume))
    {
      if volume in workers {
        return;
      }
      workers := workers[volume := |made|];
      made := made + [Worker(volume, false, Running)];
    }

    method DoStop(volume: Volume)
      requires Inv(Now())
      modifies this`made
      ensures Now() == Next(old(Now()), Stop(volume))
    {
      if volume in workers {
        var k := workers[volume];
        made := made[k := made[k].(cancelled := true)];
      }
    }

    /** The loop at the end of `reconcile`, and with nothing seen the one of `stopAll`. */
    method DoCancelUnseen(seen: set<Volume>)
      requires Inv(Now())
      modifies this`made
      ensures Now() == Next(old(Now()), CancelUnseen(seen))
    {
      var todo := workers.Keys;
      while todo != {}
        invariant todo <= workers.Keys && |made| == |old(made)|
        invariant made == CancelSet(old(Now()), workers.Keys - todo - seen).made
      {
        var volume :| volume in todo;
        if volume !in seen {
          var k := workers[volume];
          made := made[k := made[k].(cancelled := true)];
        }
        todo := todo - {volume};
      }
    }

    method DoCallStopAndWait(caller: nat, volume: Volume)
      requires Inv(Now()) && Enabled(Now(), CallStopAndWait(caller, volume))
      modifies this`made, this`waiters
      ensures Now() == Next(old(Now()), CallStopAndWait(caller, volume))
    {
      if volume in workers {
        var k := workers[volume];
        made := made[k := made[k].(cancelled := true)];
        waiters := waiters[caller := Waiting(k)];
      } else {
        waiters := waiters[caller := ReturnedNil(None)];
      }
    }

    /** `finish`, up to the unlock. */
    method DoFinish(k: nat)
      requires Enabled(Now(), FinishLocked(k))
      modifies this`workers, this`made
      ensures Now() == Next(old(Now()), FinishLocked(k))
    {
      var volume := made[k].volume;
      if volume in workers && workers[volume] == k {
        workers := workers - {volume};
      }
      made := made[k := made[k].(stage := Leaving)];
    }
  }
}
