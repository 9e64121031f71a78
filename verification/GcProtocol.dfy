/** Garbage collection among concurrent writers, as a step system. Writers change pins and
    MFS roots only under the shared pin lock; the collector marks and deletes only under
    the exclusive GC lock; blocks may also be stored without any lock. */
module GcProtocol {
  import opened Dag
  import opened GcMark
  import opened GcSweep

  /** `mfs` are the roots snapshotted under the lock, `since` is the store at that moment, when
      the mark begins, and `v` the finished mark. */
  datatype GcPhase =
    | Idle
    | Waiting
    | Locked
    | Rooted(since: set<Multihash>, mfs: set<Cid>)
    | Sweeping(since: set<Multihash>, v: set<Cid>)
  {
    predicate Exclusive() { Locked? || Marking() }

    predicate Marking() { Rooted? || Sweeping? }
  }

  datatype State = State(
    store: set<Multihash>,
    recursive: set<Cid>,
    direct: set<Cid>,
    internal: set<Cid>,
    mfs: set<Cid>,
    readers: set<nat>,
    gc: GcPhase)

  datatype Step =
    | GcRequest
    | GcAcquire
    | GcSnapshot
    | GcMarked(v: set<Cid>)
    | GcDelete(h: Multihash)
    | GcRelease
    | PinLock(id: nat)
    | PinUnlock(id: nat)
    | Put(id: nat, h: Multihash)
    | Mutate(id: nat, recursive: set<Cid>, direct: set<Cid>, internal: set<Cid>, mfs: set<Cid>)
    | Arrive(h: Multihash)

  /** `GcMarked` is what `ColoredSet` promises of an uncancelled success; `GcRelease` also
      covers every failed or cancelled collection. A waiting collector bars new readers. */
  ghost predicate Enabled(w: World, s: State, t: Step) {
    match t
    case GcRequest => s.gc.Idle?
    case GcAcquire => s.gc.Waiting? && s.readers == {}
    case GcSnapshot => s.gc.Locked?
    case GcMarked(v) => s.gc.Rooted? && IsMark(w, s.gc.since, s.store, s.recursive, s.gc.mfs, s.direct, s.internal, v)
    case GcDelete(h) => s.gc.Sweeping? && h !in Hashes(s.gc.v)
    case GcRelease => s.gc.Exclusive()
    case PinLock(id) => s.gc.Idle? && id !in s.readers
    case PinUnlock(id) => id in s.readers
    case Put(id, h) => id in s.readers && h in w.content
    case Mutate(id, _, _, _, _) => id in s.readers
    case Arrive(h) => h in w.content
  }

  ghost function Apply(w: World, s: State, t: Step): State
    requires Enabled(w, s, t)
  {
    match t
    case GcRequest => s.(gc := Waiting)
    case GcAcquire => s.(gc := Locked)
    case GcSnapshot => s.(gc := Rooted(s.store, s.mfs))
    case GcMarked(v) => s.(gc := Sweeping(s.gc.since, v))
    case GcDelete(h) => s.(store := s.store - {h})
    case GcRelease => s.(gc := Idle)
    case PinLock(id) => s.(readers := s.readers + {id})
    case PinUnlock(id) => s.(readers := s.readers - {id})
    case Put(_, h) => s.(store := s.store + {h})
    case Mutate(_, r, d, i, m) => s.(recursive := r, direct := d, internal := i, mfs := m)
    case Arrive(h) => s.(store := s.store + {h})
  }

  /** Who may change what: roots only a holder of the pin lock, and then to what it says; blocks
      come by a holder or by themselves and go by the sweep; nobody gets the pin lock once a
      collector waits. */
  lemma StepFrame(w: World, s: State, t: Step)
    requires Enabled(w, s, t)
    ensures var s' := Apply(w, s, t);
      if t.Mutate? then t.id in s.readers &&
        s'.recursive == t.recursive && s'.direct == t.direct && s'.internal == t.internal && s'.mfs == t.mfs
      else s'.recursive == s.recursive && s'.direct == s.direct && s'.internal == s.internal && s'.mfs == s.mfs
    ensures forall h :: h in Apply(w, s, t).store && h !in s.store ==>
      t == Arrive(h) || (t.Put? && t.id in s.readers && t.h == h)
    ensures forall h :: h !in Apply(w, s, t).store && h in s.store ==> t == GcDelete(h)
    ensures t.Put? || t.Arrive? ==> t.h in Apply(w, s, t).store
    ensures t.GcDelete? ==> t.h !in Apply(w, s, t).store
    ensures forall id :: id in Apply(w, s, t).readers && id !in s.readers ==> t == PinLock(id) && s.gc.Idle?
    ensures forall id :: id !in Apply(w, s, t).readers && id in s.readers ==> t == PinUnlock(id)
  {
  }

  ghost predicate Inv(w: World, s: State) {
    && s.store <= w.content.Keys
    && (s.gc.Exclusive() ==> s.readers == {})
    && (s.gc.Marking() ==> s.gc.since <= w.content.Keys)
    && (s.gc.Rooted? ==> s.gc.mfs == s.mfs)
    && (s.gc.Sweeping? ==> exists hi :: IsMark(w, s.gc.since, hi, s.recursive, s.mfs, s.direct, s.internal, s.gc.v))
  }

  ghost predicate Init(w: World, s: State) {
    s.gc.Idle? && s.readers == {} && s.store <= w.content.Keys
  }

  lemma StepKeepsInv(w: World, s: State, t: Step)
    requires Inv(w, s) && Enabled(w, s, t)
    ensures Inv(w, Apply(w, s, t))
  {
    if t.GcMarked? {
      assert IsMark(w, s.gc.since, s.store, s.recursive, s.mfs, s.direct, s.internal, t.v);
    }
  }

  /** Protected by the current roots, where MFS reaches through blocks in `seen`. */
  ghost predicate ProtectedIn(w: World, s: State, seen: set<Multihash>, h: Multihash) {
    Protected(w, seen, s.recursive, s.mfs, s.direct, s.internal, h)
  }

  /** Only the sweep removes blocks, and never one that the roots of that very moment
      protect through blocks present when the mark began. */
  lemma DeletesNothingProtected(w: World, s: State, t: Step, h: Multihash)
    requires Inv(w, s) && Enabled(w, s, t)
    requires h in s.store && h !in Apply(w, s, t).store
    ensures t == GcDelete(h) && s.readers == {}
    ensures !ProtectedIn(w, s, s.gc.since, h)
  {
    var hi :| IsMark(w, s.gc.since, hi, s.recursive, s.mfs, s.direct, s.internal, s.gc.v);
    UnmarkedIsUnprotected(w, s.gc.since, hi, s.recursive, s.mfs, s.direct, s.internal, s.gc.v, h);
  }

  lemma ProtectedSurvivesStep(w: World, s: State, t: Step, h: Multihash)
    requires Inv(w, s) && Enabled(w, s, t) && h in s.store
    requires s.gc.Sweeping? ==> ProtectedIn(w, s, s.gc.since, h)
    ensures h in Apply(w, s, t).store
  {
    if h !in Apply(w, s, t).store {
      DeletesNothingProtected(w, s, t, h);
    }
  }

  /** Fewer visible blocks protect less. */
  lemma ProtectedMono(w: World, s: State, lo: set<Multihash>, hi: set<Multihash>, h: Multihash)
    requires lo <= hi && ProtectedIn(w, s, lo, h)
    ensures ProtectedIn(w, s, hi, h)
  {
    var lo', hi' := Floor(w, lo, s.recursive), Floor(w, hi, s.recursive);
    var c: Cid :| c.hash == h && Kept(w, lo', s.recursive, s.mfs, s.direct, s.internal, c);
    if Reach(w, lo', {}, s.mfs, c) { ReachMono(w, lo', hi', {}, {}, s.mfs, s.mfs, c); }
    if KeptByPinner(w, lo', s.mfs, s.direct, s.internal, c) && c !in s.internal {
      ReachMono(w, w.content.Keys, w.content.Keys, Obstacles(w, lo', s.mfs, s.direct),
                Obstacles(w, hi', s.mfs, s.direct),
                s.internal, s.internal, c);
    }
    assert c.hash == h && Kept(w, hi', s.recursive, s.mfs, s.direct, s.internal, c);
  }

  /** A run: `run[k + 1]` follows from `run[k]` by `steps[k]`. */
  ghost predicate IsRun(w: World, run: seq<State>, steps: seq<Step>) {
    && |run| == |steps| + 1
    && Inv(w, run[0])
    && forall k :: 0 <= k < |steps| ==> Enabled(w, run[k], steps[k]) && run[k + 1] == Apply(w, run[k], steps[k])
  }

  lemma {:induction false} RunKeepsInv(w: World, run: seq<State>, steps: seq<Step>, k: nat)
    requires IsRun(w, run, steps) && k <= |steps|
    ensures Inv(w, run[k])
  {
    if k > 0 {
      RunKeepsInv(w, run, steps, k - 1);
      StepKeepsInv(w, run[k - 1], steps[k - 1]);
    }
  }

  /** `c` is kept by the recursive pin `root` alone. */
  ghost predicate UnderPin(w: World, root: Cid, c: Cid) {
    Reach(w, w.content.Keys, {}, {root}, c)
  }

  /** Under any interleaving, a block below a recursive pin stays while the pin does. */
  lemma {:induction false} PinnedBlockSurvives(w: World, run: seq<State>, steps: seq<Step>, i: nat, j: nat, root: Cid,
                                               c: Cid)
    requires IsRun(w, run, steps) && i <= j <= |steps|
    requires UnderPin(w, root, c) && c.hash in run[i].store
    requires forall k :: i <= k < j ==> root in run[k].recursive
    ensures c.hash in run[j].store
    decreases j
  {
    if i < j {
      PinnedBlockSurvives(w, run, steps, i, j - 1, root, c);
      var s := run[j - 1];
      RunKeepsInv(w, run, steps, j - 1);
      ReachMono(w, w.content.Keys, w.content.Keys, {}, {}, {root}, s.recursive, c);
      assert forall seen :: KeptByRoots(w, seen, s.recursive, s.mfs, s.direct, c);
      assert forall seen :: Kept(w, seen, s.recursive, s.mfs, s.direct, s.internal, c);
      ProtectedSurvivesStep(w, s, steps[j - 1], c.hash);
    }
  }

  /** The same for a direct pin, which keeps its own block only. */
  lemma {:induction false} DirectlyPinnedBlockSurvives(w: World, run: seq<State>, steps: seq<Step>, i: nat, j: nat,
                                                       c: Cid)
    requires IsRun(w, run, steps) && i <= j <= |steps| && c.hash in run[i].store
    requires forall k :: i <= k < j ==> c in run[k].direct
    ensures c.hash in run[j].store
    decreases j
  {
    if i < j {
      DirectlyPinnedBlockSurvives(w, run, steps, i, j - 1, c);
      RunKeepsInv(w, run, steps, j - 1);
      var s := run[j - 1];
      assert forall seen :: KeptByRoots(w, seen, s.recursive, s.mfs, s.direct, c);
      assert forall seen :: Kept(w, seen, s.recursive, s.mfs, s.direct, s.internal, c);
      ProtectedSurvivesStep(w, s, steps[j - 1], c.hash);
    }
  }

  /** No block was stored behind the collector's back since its mark began. */
  ghost predicate Quiet(s: State) {
    s.gc.Marking() ==> s.store <= s.gc.since
  }

  /** Writers that hold the pin lock are never behind the collector's back, and others only
      while it marks and sweeps. */
  lemma {:induction false} LockedWritersStayQuiet(w: World, run: seq<State>, steps: seq<Step>, k: nat)
    requires IsRun(w, run, steps) && Quiet(run[0]) && k <= |steps|
    requires forall i :: 0 <= i < |steps| && steps[i].Arrive? ==> !run[i].gc.Marking()
    ensures Quiet(run[k])
  {
    if k > 0 {
      LockedWritersStayQuiet(w, run, steps, k - 1);
      RunKeepsInv(w, run, steps, k - 1);
    }
  }

  /** Where blocks are stored only under the pin lock or before a mark begins, whatever is
      protected through the blocks of the moment stays. */
  lemma LockedWritersLoseNothing(w: World, run: seq<State>, steps: seq<Step>, k: nat, h: Multihash)
    requires IsRun(w, run, steps) && Quiet(run[0]) && k < |steps|
    requires forall i :: 0 <= i < |steps| && steps[i].Arrive? ==> !run[i].gc.Marking()
    requires h in run[k].store && ProtectedIn(w, run[k], run[k].store, h)
    ensures h in run[k + 1].store
  {
    LockedWritersStayQuiet(w, run, steps, k);
    RunKeepsInv(w, run, steps, k);
    if run[k].gc.Sweeping? { ProtectedMono(w, run[k], run[k].store, run[k].gc.since, h); }
    ProtectedSurvivesStep(w, run[k], steps[k], h);
  }

  /** A link path all of whose blocks are stored. */
  ghost predicate StoredPath(w: World, store: set<Multihash>, p: seq<Cid>) {
    Path(w, store, {}, p) && forall i :: 0 <= i < |p| ==> p[i].hash in store
  }

  /** All blocks of the path are stored, and were when the mark began if one is going on. */
  ghost predicate Settled(w: World, s: State, p: seq<Cid>) {
    StoredPath(w, s.store, p) && (s.gc.Marking() ==> StoredPath(w, s.gc.since, p))
  }

  /** What an MFS root reaches through stored blocks stays as long as the root is linked,
      whatever arrives meanwhile. */
  lemma {:induction false} LinkedPathSurvives(w: World, run: seq<State>, steps: seq<Step>, i: nat, j: nat, p: seq<Cid>)
    requires IsRun(w, run, steps) && i <= j <= |steps|
    requires Settled(w, run[i], p)
    requires forall k :: i <= k < j ==> p[0] in run[k].mfs
    ensures Settled(w, run[j], p)
    decreases j
  {
    if i < j {
      LinkedPathSurvives(w, run, steps, i, j - 1, p);
      RunKeepsInv(w, run, steps, j - 1);
      PathSurvivesStep(w, run[j - 1], steps[j - 1], p);
    }
  }

  lemma PathIsKept(w: World, s: State, p: seq<Cid>, i: nat)
    requires s.gc.Marking() && StoredPath(w, s.gc.since, p) && p[0] in s.mfs && i < |p|
    ensures ProtectedIn(w, s, s.gc.since, p[i].hash)
  {
    var lo := Floor(w, s.gc.since, s.recursive);
    assert PathTo(w, s.gc.since, {}, s.mfs, p[i], p[..i + 1]);
    ReachMono(w, s.gc.since, lo, {}, {}, s.mfs, s.mfs, p[i]);
    assert Kept(w, lo, s.recursive, s.mfs, s.direct, s.internal, p[i]);
  }

  lemma PathSurvivesStep(w: World, s: State, t: Step, p: seq<Cid>)
    requires Inv(w, s) && Enabled(w, s, t)
    requires Settled(w, s, p) && p[0] in s.mfs
    ensures Settled(w, Apply(w, s, t), p)
  {
    var s' := Apply(w, s, t);
    forall i | 0 <= i < |p| ensures p[i].hash in s'.store {
      if s.gc.Sweeping? {
        PathIsKept(w, s, p, i);
      }
      ProtectedSurvivesStep(w, s, t, p[i].hash);
    }
  }

  /** While anyone holds the pin lock nothing is deleted. */
  lemma {:induction false} NothingDeletedUnderPinLock(w: World, run: seq<State>, steps: seq<Step>, i: nat, j: nat,
                                                      id: nat)
    requires IsRun(w, run, steps) && i <= j <= |steps|
    requires forall k :: i <= k < j ==> id in run[k].readers
    ensures run[i].store <= run[j].store
    decreases j
  {
    if i < j {
      NothingDeletedUnderPinLock(w, run, steps, i, j - 1, id);
      RunKeepsInv(w, run, steps, j - 1);
    }
  }

  /** A writer that stores a block under the pin lock and pins a root above it before
      letting go never loses the block while the pin lasts. */
  lemma WrittenThenPinnedSurvives(w: World, run: seq<State>, steps: seq<Step>, put: nat, pinned: nat, end: nat,
                                  id: nat, root: Cid, c: Cid)
    requires IsRun(w, run, steps) && put < pinned <= end <= |steps|
    requires steps[put] == Put(id, c.hash) && UnderPin(w, root, c)
    requires forall k :: put < k < pinned ==> id in run[k].readers
    requires forall k :: pinned <= k < end ==> root in run[k].recursive
    ensures c.hash in run[end].store
  {
    NothingDeletedUnderPinLock(w, run, steps, put + 1, pinned, id);
    PinnedBlockSurvives(w, run, steps, pinned, end, root, c);
  }

  /** The same for a writer that links its blocks into MFS. */
  lemma WrittenThenLinkedSurvives(w: World, run: seq<State>, steps: seq<Step>, put: nat, linked: nat, end: nat,
                                  id: nat, p: seq<Cid>)
    requires IsRun(w, run, steps) && put < linked <= end <= |steps|
    requires StoredPath(w, run[put].store, p)
    requires forall k :: put <= k < linked ==> id in run[k].readers
    requires forall k :: linked <= k < end ==> p[0] in run[k].mfs
    ensures StoredPath(w, run[end].store, p)
  {
    NothingDeletedUnderPinLock(w, run, steps, put, linked, id);
    forall i | 0 < i < |p| ensures p[i] in Children(w, run[linked].store, p[i - 1]) {
      ChildrenMono(w, run[put].store, run[linked].store, p[i - 1]);
    }
    RunKeepsInv(w, run, steps, linked - 1);
    LinkedPathSurvives(w, run, steps, linked, end, p);
  }

  /** The blocks that the sweep steps delete, in order. */
  ghost function Deletions(steps: seq<Step>): seq<Multihash> {
    if steps == [] then []
    else
      var t := steps[|steps| - 1];
      Deletions(steps[..|steps| - 1]) + if t.GcDelete? then [t.h] else []
  }

  lemma RunExtends(w: World, run: seq<State>, steps: seq<Step>, t: Step, s: State)
    requires IsRun(w, run, steps) && Enabled(w, run[|steps|], t) && s == Apply(w, run[|steps|], t)
    ensures IsRun(w, run + [s], steps + [t])
    ensures Deletions(steps + [t]) == Deletions(steps) + if t.GcDelete? then [t.h] else []
  {
    assert (steps + [t])[..|steps|] == steps;
  }

  lemma {:induction false} ArriveAll(w: World, run: seq<State>, steps: seq<Step>, hs: set<Multihash>)
    returns (run': seq<State>, steps': seq<Step>)
    requires IsRun(w, run, steps) && hs <= w.content.Keys
    ensures IsRun(w, run', steps') && run'[0] == run[0]
    ensures run'[|steps'|] == run[|steps|].(store := run[|steps|].store + hs)
    ensures Deletions(steps') == Deletions(steps) && forall t :: t in steps' ==> t in steps || t.Arrive?
    decreases hs
  {
    if hs == {} {
      assert run[|steps|].store + hs == run[|steps|].store;
      return run, steps;
    }
    var h :| h in hs;
    var s := run[|steps|].(store := run[|steps|].store + {h});
    RunExtends(w, run, steps, Arrive(h), s);
    run', steps' := ArriveAll(w, run + [s], steps + [Arrive(h)], hs - {h});
    assert s.store + (hs - {h}) == run[|steps|].store + hs;
  }

  /** Sweep steps for the successful deletions of a log. */
  lemma {:induction false} DeleteLogged(w: World, run: seq<State>, steps: seq<Step>, log: seq<Attempt>)
    returns (run': seq<State>, steps': seq<Step>)
    requires IsRun(w, run, steps) && run[|steps|].gc.Sweeping? && Attempted(log) !! Hashes(run[|steps|].gc.v)
    ensures IsRun(w, run', steps') && run'[0] == run[0]
    ensures run'[|steps'|] == run[|steps|].(store := run[|steps|].store - Deleted(log))
    ensures Deletions(steps') == Deletions(steps) + Removed(log)
  {
    if log == [] {
      assert run[|steps|].store - Deleted(log) == run[|steps|].store;
      return run, steps;
    }
    var init, a := log[..|log| - 1], log[|log| - 1];
    assert log == init + [a];
    Logged(init, a);
    run', steps' := DeleteLogged(w, run, steps, init);
    if a.deleted {
      var s := run'[|steps'|].(store := run'[|steps'|].store - {a.key});
      RunExtends(w, run', steps', GcDelete(a.key), s);
      run', steps' := run' + [s], steps' + [GcDelete(a.key)];
    }
    assert run'[|steps'|].store == run[|steps|].store - Deleted(log);
  }

  /** A collection up to its mark, as a run: lock, snapshot, and let blocks arrive. */
  lemma MarkingRun(w: World, s: State, arrivals: set<Multihash>) returns (run: seq<State>, steps: seq<Step>)
    requires Inv(w, s) && s.gc.Waiting? && s.readers == {} && arrivals <= w.content.Keys
    ensures IsRun(w, run, steps) && run[0] == s && Deletions(steps) == []
    ensures run[|steps|] == s.(store := s.store + arrivals, gc := Rooted(s.store, s.mfs))
  {
    RunExtends(w, [s], [], GcAcquire, s.(gc := Locked));
    run, steps := [s] + [s.(gc := Locked)], [] + [GcAcquire];
    RunExtends(w, run, steps, GcSnapshot, s.(gc := Rooted(s.store, s.mfs)));
    run, steps := ArriveAll(w, run + [s.(gc := Rooted(s.store, s.mfs))], steps + [GcSnapshot], arrivals);
  }

  lemma Release(w: World, run: seq<State>, steps: seq<Step>) returns (run': seq<State>, steps': seq<Step>)
    requires IsRun(w, run, steps) && run[|steps|].gc.Exclusive()
    ensures IsRun(w, run', steps') && run'[0] == run[0] && Deletions(steps') == Deletions(steps)
    ensures run'[|steps'|] == run[|steps|].(gc := Idle)
  {
    RunExtends(w, run, steps, GcRelease, run[|steps|].(gc := Idle));
    run', steps' := run + [run[|steps|].(gc := Idle)], steps + [GcRelease];
  }

  /** A collection with a complete mark, as a run; `again` arrives after it was deleted. */
  lemma SweepingRun(w: World, s: State, arrivals: set<Multihash>, v: set<Cid>, log: seq<Attempt>, again: set<Multihash>)
    returns (run: seq<State>, steps: seq<Step>)
    requires Inv(w, s) && s.gc.Waiting? && s.readers == {} && arrivals <= w.content.Keys && again <= arrivals
    requires IsMark(w, s.store, s.store + arrivals, s.recursive, s.mfs, s.direct, s.internal, v)
    requires Attempted(log) !! Hashes(v)
    ensures IsRun(w, run, steps) && run[0] == s && Deletions(steps) == Removed(log)
    ensures run[|steps|] == s.(store := s.store + arrivals - Deleted(log) + again, gc := Idle)
  {
    run, steps := MarkingRun(w, s, arrivals);
    var marked := run[|steps|].(gc := Sweeping(s.store, v));
    RunExtends(w, run, steps, GcMarked(v), marked);
    run, steps := DeleteLogged(w, run + [marked], steps + [GcMarked(v)], log);
    run, steps := ArriveAll(w, run, steps, again);
    run, steps := Release(w, run, steps);
  }

  /** The roots of a collector with the given store, nobody holding the pin lock. */
  ghost function StateOf(g: Collector, store: set<Multihash>, gc: GcPhase): State
    reads g
  {
    State(store, Keys(g.recursivePins), Keys(g.directPins), Keys(g.internalPins),
          if g.mfs.Roots? then Norm(Elems(g.mfs.cids)) else {}, {}, gc)
  }

  /** The collector's code refines the protocol: whatever it does, cancelled or not, its
      successful deletions in their order are the sweep steps of a run of the step system that
      takes the store from where the lock was granted to where the code leaves it. Blocks that
      arrive meanwhile do so before the mark is finished or after the last deletion. */
  method CollectIsARun(g: Collector, listable: bool, collectErr: bool)
    returns (ghost log: seq<Attempt>, ghost run: seq<State>, ghost steps: seq<Step>)
    modifies g
    ensures IsRun(g.w, run, steps) && Deletions(steps) == Removed(log)
    ensures run[0] == StateOf(g, g.since, Waiting) && run[|steps|] == StateOf(g, g.store, Idle)
    ensures Accounted(g.since, g.store, g.arrivals, log)
  {
    var swept;
    log, swept := Collect(g, listable, collectErr);
    ghost var s := StateOf(g, g.since, Waiting);
    if log == [] {
      run, steps := MarkingRun(g.w, s, g.arrivals);
      run, steps := Release(g.w, run, steps);
    } else {
      ghost var left := (g.since + g.arrivals) - Deleted(log);
      run, steps := SweepingRun(g.w, s, g.arrivals, g.marked, log, g.store - left);
      assert left + (g.store - left) == g.store;
    }
  }
}
