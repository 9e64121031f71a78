/** Adding nodes and pinning them in one go, under the pin lock. */
module PinningAdder {
  import opened Dag
  import P = GcProtocol

  datatype Event = Lock | Put(hash: Multihash) | PinRecursive(key: Cid) | Flush | Unlock

  ghost predicate DistinctPins(log: seq<Event>) {
    forall i, j :: 0 <= i < j < |log| && log[i].PinRecursive? && log[j].PinRecursive? ==> log[i] != log[j]
  }

  /** Locked first, unlocked last, and nothing about the lock in between. */
  ghost predicate Bracketed(log: seq<Event>) {
    && |log| >= 2 && log[0] == Lock && log[|log| - 1] == Unlock
    && forall i :: 0 < i < |log| - 1 ==> !log[i].Lock? && !log[i].Unlock?
  }

  ghost function PinsIn(log: seq<Event>): set<Cid> {
    set i | 0 <= i < |log| && log[i].PinRecursive? :: log[i].key
  }

  ghost function PutsIn(log: seq<Event>): set<Multihash> {
    set i | 0 <= i < |log| && log[i].Put? :: log[i].hash
  }

  ghost predicate PutsFirst(log: seq<Event>) {
    forall i, j :: 0 <= i < |log| && 0 <= j < |log| && log[i].Put? && log[j].PinRecursive? ==> i < j
  }

  predicate AllPut(cids: seq<Cid>, putOk: nat -> bool) {
    forall i :: 0 <= i < |cids| ==> putOk(i)
  }

  predicate AllPin(cids: seq<Cid>, pinOk: Cid -> bool) {
    forall c :: c in cids ==> pinOk(c)
  }

  class Adder {
    var store: set<Multihash>
    var recursive: set<Cid>

    /** Add all nodes, then pin each CID once, then flush; the arguments say which of these fail,
        and it succeeds exactly if none does. Whatever
        happens, every effect falls between taking and releasing the lock, and on success
        exactly the given nodes are stored and pinned. */
    method AddMany(cids: seq<Cid>, putOk: nat -> bool, pinOk: Cid -> bool, flushOk: bool)
      returns (ok: bool, log: seq<Event>)
      modifies this
      ensures Bracketed(log) && DistinctPins(log) && PutsFirst(log)
      ensures store == old(store) + PutsIn(log) && recursive == old(recursive) + PinsIn(log)
      ensures PinsIn(log) <= Elems(cids) && PutsIn(log) <= HashesOf(cids)
      ensures PinsIn(log) != {} ==> PutsIn(log) == HashesOf(cids)
      ensures ok ==> PinsIn(log) == Elems(cids) && PutsIn(log) == HashesOf(cids) && log[|log| - 2] == Flush
      ensures ok <==> AllPut(cids, putOk) && AllPin(cids, pinOk) && flushOk
    {
      log := [Lock];
      var added: bool;
      added, log := PutAll(cids, putOk, log);
      LogStep(log, Unlock);
      if !added { return false, log + [Unlock]; }
      var pinned: bool;
      pinned, log := PinAll(cids, pinOk, log);
      LogStep(log, Unlock);
      if !pinned { return false, log + [Unlock]; }
      ok := flushOk;
      LogStep(log, Flush);
      LogStep(log + [Flush], Unlock);
      log := log + [Flush] + [Unlock];
    }

    method PutAll(cids: seq<Cid>, putOk: nat -> bool, log0: seq<Event>) returns (ok: bool, log: seq<Event>)
      requires log0 == [Lock]
      modifies this`store
      ensures Open(log) && DistinctPins(log) && PutsFirst(log) && PinsIn(log) == {} && PutsIn(log) <= HashesOf(cids)
      ensures store == old(store) + PutsIn(log) && (ok ==> PutsIn(log) == HashesOf(cids))
      ensures ok <==> AllPut(cids, putOk)
    {
      log := log0;
      ok := true;
      for i := 0 to |cids|
        invariant ok && Open(log) && DistinctPins(log) && PutsFirst(log) && PinsIn(log) == {} &&
          PutsIn(log) == HashesOf(cids[..i])
        invariant store == old(store) + PutsIn(log) && forall j :: 0 <= j < i ==> putOk(j)
      {
        HashesStep(cids, i);
        if !putOk(i) { return false, log; }
        LogStep(log, Put(cids[i].hash));
        store := store + {cids[i].hash};
        log := log + [Put(cids[i].hash)];
      }
      assert cids[..|cids|] == cids;
    }

    method PinAll(cids: seq<Cid>, pinOk: Cid -> bool, log0: seq<Event>) returns (ok: bool, log: seq<Event>)
      requires Open(log0) && PinsIn(log0) == {} && DistinctPins(log0) && PutsFirst(log0)
      modifies this`recursive
      ensures Open(log) && DistinctPins(log) && PutsFirst(log) && PutsIn(log) == PutsIn(log0)
      ensures PinsIn(log) <= Elems(cids) && (ok ==> PinsIn(log) == Elems(cids))
      ensures recursive == old(recursive) + PinsIn(log)
      ensures ok <==> AllPin(cids, pinOk)
    {
      log := log0;
      ok := true;
      var visited: set<Cid> := {};
      for i := 0 to |cids|
        invariant ok && Open(log) && DistinctPins(log) && PutsFirst(log) && PutsIn(log) == PutsIn(log0)
        invariant visited == PinsIn(log) == Elems(cids[..i])
        invariant recursive == old(recursive) + PinsIn(log) && forall c :: c in visited ==> pinOk(c)
      {
        assert cids[..i + 1] == cids[..i] + [cids[i]];
        if cids[i] !in visited {
          visited := visited + {cids[i]};
          if !pinOk(cids[i]) { return false, log; }
          LogStep(log, PinRecursive(cids[i]));
          recursive := recursive + {cids[i]};
          log := log + [PinRecursive(cids[i])];
        }
      }
      assert cids[..|cids|] == cids;
    }
  }

  /** Locked and not yet unlocked. */
  ghost predicate Open(log: seq<Event>) {
    log != [] && log[0] == Lock && forall i :: 0 < i < |log| ==> !log[i].Lock? && !log[i].Unlock?
  }

  lemma LogStep(log: seq<Event>, e: Event)
    ensures PinsIn(log + [e]) == PinsIn(log) + (if e.PinRecursive? then {e.key} else {})
    ensures PutsIn(log + [e]) == PutsIn(log) + (if e.Put? then {e.hash} else {})
    ensures DistinctPins(log) && (e.PinRecursive? ==> e.key !in PinsIn(log)) ==> DistinctPins(log + [e])
    ensures PutsFirst(log) && (e.Put? ==> PinsIn(log) == {}) ==> PutsFirst(log + [e])
    ensures Open(log) && !e.Lock? && !e.Unlock? ==> Open(log + [e])
    ensures Open(log) && e.Unlock? ==> Bracketed(log + [e])
  {
    var l := log + [e];
    assert forall i :: 0 <= i < |log| ==> l[i] == log[i];
    assert l[|log|] == e;
    assert forall j :: 0 <= j < |log| && log[j].PinRecursive? ==> log[j].key in PinsIn(log);
  }

  /** The step by which a thread takes part in the protocol with one of its events. A flush
      changes no root. */
  ghost predicate Takes(s: P.State, t: P.Step, id: nat, e: Event) {
    match e
    case Lock => t == P.PinLock(id)
    case Put(h) => t == P.Put(id, h)
    case PinRecursive(key) => t == P.Mutate(id, s.recursive + {ToCidV1(key)}, s.direct, s.internal, s.mfs)
    case Flush => t == P.Mutate(id, s.recursive, s.direct, s.internal, s.mfs)
    case Unlock => t == P.PinUnlock(id)
  }

  /** In the run, among whatever others do, thread `id` goes through the events of `log`, the
      `i`th at step `at[i]`, and lets go of the lock at none of the other steps. */
  ghost predicate Performs(w: World, run: seq<P.State>, steps: seq<P.Step>, id: nat, log: seq<Event>, at: seq<nat>) {
    && P.IsRun(w, run, steps) && |at| == |log|
    && (forall i :: 0 <= i < |log| ==> at[i] < |steps| && Takes(run[at[i]], steps[at[i]], id, log[i]))
    && (forall i, j :: 0 <= i < j < |log| ==> at[i] < at[j])
    && (forall k :: 0 <= k < |steps| && steps[k] == P.PinUnlock(id) ==> k in at)
  }

  /** The thread holds the pin lock from its first event to its last. */
  lemma {:induction false} HoldsThroughout(w: World, run: seq<P.State>, steps: seq<P.Step>, id: nat, log: seq<Event>,
                                           at: seq<nat>, k: nat)
    requires Performs(w, run, steps, id, log, at) && Bracketed(log)
    requires at[0] < k <= at[|at| - 1]
    ensures id in run[k].readers
    decreases k
  {
    if k == at[0] + 1 {
      assert Takes(run[at[0]], steps[at[0]], id, log[0]);
    } else {
      HoldsThroughout(w, run, steps, id, log, at, k - 1);
    }
  }

  /** What `AddMany` stored and pinned survives every collection, in whatever run of the
      protocol its events fall, until the pin is removed. */
  lemma AddedSurvives(w: World, run: seq<P.State>, steps: seq<P.Step>, id: nat, log: seq<Event>, at: seq<nat>,
                      root: Cid, c: Cid, j: nat, end: nat)
    requires Performs(w, run, steps, id, log, at) && Bracketed(log) && PutsFirst(log)
    requires c.hash in PutsIn(log) && P.UnderPin(w, ToCidV1(root), c)
    requires j < |log| && log[j] == PinRecursive(root) && at[j] < end <= |steps|
    requires forall k :: at[j] < k < end ==> ToCidV1(root) in run[k].recursive
    ensures c.hash in run[end].store && run[at[j] + 1].recursive == run[at[j]].recursive + {ToCidV1(root)}
  {
    var i :| 0 <= i < |log| && log[i].Put? && log[i].hash == c.hash;
    assert i < j && at[0] <= at[i] < at[j] < at[|at| - 1];
    forall k | at[i] < k < at[j] + 1 ensures id in run[k].readers {
      HoldsThroughout(w, run, steps, id, log, at, k);
    }
    P.WrittenThenPinnedSurvives(w, run, steps, at[i], at[j] + 1, end, id, ToCidV1(root), c);
  }
}
