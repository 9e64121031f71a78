/** Exactly which blocks a collection may delete. Blocks that arrive while the collector
    holds its lock make the mark a matter of timing: a node that MFS leads to is expanded if
    its block arrives in time, and otherwise is marked without its children. The answer is in
    terms of the roots and of the blocks present when the mark begins. */
module GcLoss {
  import opened Dag
  import opened GcMark
  import opened GcSweep
  import opened GcProtocol
  import opened GcSchedule

  /** A mark that comes upon `c` either marks `h` or fails. */
  ghost predicate Fatal(w: World, lo: set<Multihash>, h: Multihash, c: Cid) {
    c.hash == h || !Fetched(w, false, lo, lo, c)
  }

  /** `c` leads to a fatal node through blocks that are certain to be expanded. */
  ghost predicate Doomed(w: World, lo: set<Multihash>, h: Multihash, c: Cid) {
    exists d :: Reach(w, lo, {}, {c}, d) && Fatal(w, lo, h, d)
  }

  ghost function Spared(w: World, lo: set<Multihash>, mfs: set<Cid>, h: Multihash): set<Cid> {
    set c | c in mfs + Targets(w) && !Doomed(w, lo, h, c)
  }

  /** The most that recursive pins and MFS roots can mark without marking `h` or failing:
      every block arrives in time, except those with a doomed child, which come too late. */
  ghost function Shadow(w: World, lo: set<Multihash>, recursive: set<Cid>, mfs: set<Cid>, h: Multihash): set<Cid> {
    set c | c in recursive + mfs + Targets(w) &&
      (Reach(w, w.content.Keys, {}, recursive, c) || Trailed(w, w.content.Keys, {}, mfs, Spared(w, lo, mfs, h), c))
  }

  /** Nothing certain keeps `h`, and nothing certain makes the mark fail: neither below
      recursive pins, nor what MFS reaches through present blocks, nor a direct pin, nor what
      internal pins reach around all that can shadow it. */
  ghost predicate ExposedFrom(w: World, lo: set<Multihash>, recursive: set<Cid>, mfs: set<Cid>, direct: set<Cid>,
                              internal: set<Cid>, h: Multihash) {
    && ExposedToRoots(w, lo, recursive, mfs, h)
    && (forall c :: c in direct ==> c.hash != h)
    && (forall c :: Reach(w, w.content.Keys, Shadow(w, lo, recursive, mfs, h) + direct, internal, c) ==>
          c.hash != h && Fetched(w, true, lo, w.content.Keys, c))
  }

  ghost predicate ExposedToRoots(w: World, lo: set<Multihash>, recursive: set<Cid>, mfs: set<Cid>, h: Multihash) {
    && (forall c :: Reach(w, w.content.Keys, {}, recursive, c) ==>
          c.hash != h && Fetched(w, true, lo, w.content.Keys, c))
    && (forall c :: Reach(w, lo, {}, mfs, c) ==> !Fatal(w, lo, h, c))
  }

  /** The same in terms of the blocks present when the mark begins. */
  ghost predicate Exposed(w: World, since: set<Multihash>, recursive: set<Cid>, mfs: set<Cid>, direct: set<Cid>,
                          internal: set<Cid>, h: Multihash) {
    ExposedFrom(w, Floor(w, since, recursive), recursive, mfs, direct, internal, h)
  }

  lemma DoomedParent(w: World, lo: set<Multihash>, h: Multihash, c: Cid, d: Cid)
    requires d in Children(w, lo, c) && Doomed(w, lo, h, d)
    ensures Doomed(w, lo, h, c)
  {
    var e :| Reach(w, lo, {}, {d}, e) && Fatal(w, lo, h, e);
    var p :| PathTo(w, lo, {}, {d}, e, p);
    assert PathTo(w, lo, {}, {c}, e, [c] + p);
  }

  /** What a trail through spared nodes leads to is not doomed, if no root is. */
  lemma TrailedIsSpared(w: World, lo: set<Multihash>, mfs: set<Cid>, h: Multihash, c: Cid)
    requires Trailed(w, w.content.Keys, {}, mfs, Spared(w, lo, mfs, h), c)
    requires forall r :: r in mfs ==> !Doomed(w, lo, h, r)
    ensures c in Spared(w, lo, mfs, h)
  {
    var p :| Trail(w, w.content.Keys, {}, mfs, Spared(w, lo, mfs, h), c, p);
    if |p| > 1 {
      assert Children(w, w.content.Keys, p[|p| - 2]) <= Spared(w, lo, mfs, h);
    }
  }

  lemma RootsAreSpared(w: World, lo: set<Multihash>, mfs: set<Cid>, h: Multihash, r: Cid)
    requires r in mfs && forall c :: Reach(w, lo, {}, mfs, c) ==> !Fatal(w, lo, h, c)
    ensures !Doomed(w, lo, h, r)
  {
    forall d | Reach(w, lo, {}, {r}, d) ensures !Fatal(w, lo, h, d) {
      ReachMono(w, lo, lo, {}, {}, {r}, mfs, d);
    }
  }

  /** A present block on a trail through spared nodes has only spared children. */
  lemma ShadowOpens(w: World, lo: set<Multihash>, mfs: set<Cid>, h: Multihash, c: Cid, d: Cid)
    requires lo <= w.content.Keys && forall r :: r in mfs ==> !Doomed(w, lo, h, r)
    requires Trailed(w, w.content.Keys, {}, mfs, Spared(w, lo, mfs, h), c) && d in Children(w, lo, c)
    ensures Trailed(w, w.content.Keys, {}, mfs, Spared(w, lo, mfs, h), d)
  {
    var all, spared := w.content.Keys, Spared(w, lo, mfs, h);
    TrailedIsSpared(w, lo, mfs, h, c);
    ChildrenFixed(w, lo, all, c);
    LinksAreTargets(w, lo, c);
    forall e | e in Children(w, lo, c) ensures e in spared {
      if Doomed(w, lo, h, e) { DoomedParent(w, lo, h, c, e); }
    }
    TrailedStep(w, all, {}, mfs, spared, c, d);
  }

  /** Trails through spared nodes stay in the shadow. */
  lemma ShadowIsTrodden(w: World, lo: set<Multihash>, recursive: set<Cid>, mfs: set<Cid>, h: Multihash, c: Cid)
    requires Trailed(w, w.content.Keys, {}, mfs, Spared(w, lo, mfs, h), c)
    ensures Trailed(w, w.content.Keys, {}, mfs, Shadow(w, lo, recursive, mfs, h), c)
  {
    var all, spared, shadow := w.content.Keys, Spared(w, lo, mfs, h), Shadow(w, lo, recursive, mfs, h);
    var p :| Trail(w, all, {}, mfs, spared, c, p);
    forall i | 0 <= i < |p| - 1 ensures Children(w, all, p[i]) <= shadow {
      assert Trail(w, all, {}, mfs, spared, p[i], p[..i + 1]);
      forall e | e in Children(w, all, p[i]) ensures e in shadow {
        TrailedStep(w, all, {}, mfs, spared, p[i], e);
        LinksAreTargets(w, all, p[i]);
      }
    }
    assert Trail(w, all, {}, mfs, shadow, c, p);
  }

  lemma ShadowIsClosed(w: World, lo: set<Multihash>, recursive: set<Cid>, mfs: set<Cid>, h: Multihash)
    requires lo <= w.content.Keys && forall r :: r in mfs ==> !Doomed(w, lo, h, r)
    ensures Closed(w, lo, {}, Shadow(w, lo, recursive, mfs, h))
  {
    forall c, d | c in Shadow(w, lo, recursive, mfs, h) && d in Children(w, lo, c)
      ensures d in Shadow(w, lo, recursive, mfs, h)
    {
      LinksAreTargets(w, lo, c);
      if Reach(w, w.content.Keys, {}, recursive, c) {
        ChildrenMono(w, lo, w.content.Keys, c);
        ReachStep(w, w.content.Keys, {}, recursive, c, d);
      } else {
        ShadowOpens(w, lo, mfs, h, c, d);
      }
    }
  }

  /** If all blocks with no doomed child arrive in time, the shadow is what gets marked. */
  lemma ShadowIsRootMark(w: World, lo: set<Multihash>, recursive: set<Cid>, mfs: set<Cid>, h: Multihash)
    requires lo <= w.content.Keys && ExposedToRoots(w, lo, recursive, mfs, h)
    ensures RootMark(w, lo, w.content.Keys, recursive, mfs, Shadow(w, lo, recursive, mfs, h))
    ensures forall c :: c in Shadow(w, lo, recursive, mfs, h) ==> c.hash != h
  {
    var all, shadow := w.content.Keys, Shadow(w, lo, recursive, mfs, h);
    forall r | r in mfs ensures !Doomed(w, lo, h, r) && r in shadow {
      RootsAreSpared(w, lo, mfs, h, r);
      TrailedRoot(w, all, {}, mfs, Spared(w, lo, mfs, h), r);
    }
    forall c | Reach(w, all, {}, recursive, c) ensures c in shadow {
      ReachedAreTargets(w, all, {}, recursive, c);
    }
    ShadowIsClosed(w, lo, recursive, mfs, h);
    forall c | c in shadow && !Reach(w, all, {}, recursive, c)
      ensures !Fatal(w, lo, h, c) && Trailed(w, all, {}, mfs, shadow, c)
    {
      ShadowNode(w, lo, recursive, mfs, h, c);
    }
  }

  lemma ShadowNode(w: World, lo: set<Multihash>, recursive: set<Cid>, mfs: set<Cid>, h: Multihash, c: Cid)
    requires forall r :: r in mfs ==> !Doomed(w, lo, h, r)
    requires c in Shadow(w, lo, recursive, mfs, h) && !Reach(w, w.content.Keys, {}, recursive, c)
    ensures !Fatal(w, lo, h, c) && Trailed(w, w.content.Keys, {}, mfs, Shadow(w, lo, recursive, mfs, h), c)
  {
    TrailedIsSpared(w, lo, mfs, h, c);
    ReachRoot(w, lo, {}, {c}, c);
    ShadowIsTrodden(w, lo, recursive, mfs, h, c);
  }

  /** With well-timed arrivals an exposed block goes unmarked. */
  lemma ExposedGoesUnmarked(w: World, since: set<Multihash>, recursive: set<Cid>, mfs: set<Cid>,
                            direct: set<Cid>, internal: set<Cid>, h: Multihash) returns (v: set<Cid>)
    requires since <= w.content.Keys && Exposed(w, since, recursive, mfs, direct, internal, h)
    ensures IsMark(w, since, w.content.Keys, recursive, mfs, direct, internal, v) && h !in Hashes(v)
  {
    var all, lo := w.content.Keys, Floor(w, since, recursive);
    var shadow := Shadow(w, lo, recursive, mfs, h);
    var base := shadow + direct;
    ShadowIsRootMark(w, lo, recursive, mfs, h);
    v := base + set c | c in internal + Targets(w) && Reach(w, all, base, internal, c);
    forall c | Reach(w, all, base, internal, c) ensures c in v {
      ReachedAreTargets(w, all, base, internal, c);
    }
    assert PinnerMark(w, lo, all, base, internal, v);
    assert MarkedFrom(w, lo, all, recursive, mfs, direct, internal, shadow, v);
  }

  /** And such arrivals there are: a schedule of the walks from MFS roots marks the shadow. */
  lemma ExposedIsScheduled(w: World, since: set<Multihash>, recursive: set<Cid>, roots: seq<Cid>, direct: set<Cid>,
                           internal: set<Cid>, h: Multihash, rank: Multihash -> nat) returns (run: seq<Walk>)
    requires since <= w.content.Keys && Exposed(w, since, recursive, Elems(roots), direct, internal, h)
    requires var lo := Floor(w, since, recursive);
      PlanFor(w, lo, w.content.Keys, recursive, roots, Shadow(w, lo, recursive, Elems(roots), h)).Feasible(rank)
    ensures var lo := Floor(w, since, recursive);
      Schedules(w, lo, w.content.Keys, recursive, roots, Shadow(w, lo, recursive, Elems(roots), h), run)
    ensures h !in Hashes(run[|run| - 1].v)
  {
    var lo, mfs := Floor(w, since, recursive), Elems(roots);
    ShadowIsRootMark(w, lo, recursive, mfs, h);
    run := EveryMarkIsScheduled(w, lo, w.content.Keys, recursive, roots, Shadow(w, lo, recursive, mfs, h), rank);
  }

  /** Whatever the timing, a mark without `h` stays in the shadow. */
  lemma RootMarkInShadow(w: World, lo: set<Multihash>, hi: set<Multihash>, recursive: set<Cid>, mfs: set<Cid>,
                         v2: set<Cid>, h: Multihash)
    requires RootMark(w, lo, hi, recursive, mfs, v2) && h !in Hashes(v2)
    ensures v2 <= Shadow(w, lo, recursive, mfs, h)
  {
    var all, spared := w.content.Keys, Spared(w, lo, mfs, h);
    forall c | c in v2 ensures !Doomed(w, lo, h, c) {
      forall d | Reach(w, lo, {}, {c}, d) ensures !Fatal(w, lo, h, d) {
        ClosedContainsReach(w, lo, {}, {c}, v2, d);
      }
    }
    forall c | c in v2 ensures c in Shadow(w, lo, recursive, mfs, h) {
      if Reach(w, all, {}, recursive, c) {
        ReachedAreTargets(w, all, {}, recursive, c);
      } else {
        SparedTrail(w, lo, hi, mfs, v2, h, c);
      }
    }
  }

  lemma SparedTrail(w: World, lo: set<Multihash>, hi: set<Multihash>, mfs: set<Cid>, v2: set<Cid>, h: Multihash, c: Cid)
    requires hi <= w.content.Keys && Trailed(w, hi, {}, mfs, v2, c)
    requires forall d :: d in v2 ==> !Doomed(w, lo, h, d)
    ensures Trailed(w, w.content.Keys, {}, mfs, Spared(w, lo, mfs, h), c) && c in mfs + Targets(w)
  {
    var all, spared := w.content.Keys, Spared(w, lo, mfs, h);
    TrailedReach(w, hi, {}, mfs, v2, c);
    ReachedAreTargets(w, hi, {}, mfs, c);
    var p :| Trail(w, hi, {}, mfs, v2, c, p);
    forall i | 0 <= i < |p| - 1 ensures Children(w, hi, p[i]) <= spared {
      assert p[i + 1] in Children(w, hi, p[i]);
      LinksAreTargets(w, hi, p[i]);
    }
    assert Trail(w, hi, {}, mfs, spared, c, p);
    TrailedMono(w, hi, all, {}, {}, mfs, spared, spared, c);
  }

  /** What internal pins reach around more nodes they reach around fewer. */
  lemma ReachedAroundMore(w: World, lo: set<Multihash>, hi: set<Multihash>, base: set<Cid>, more: set<Cid>,
                          internal: set<Cid>, v: set<Cid>, c: Cid)
    requires hi <= w.content.Keys && base <= more && PinnerMark(w, lo, hi, base, internal, v)
    requires Reach(w, w.content.Keys, more, internal, c)
    ensures c in v && Fetched(w, true, lo, w.content.Keys, c)
  {
    ReachMono(w, w.content.Keys, w.content.Keys, more, base, internal, internal, c);
    var p :| PathTo(w, w.content.Keys, more, internal, c, p);
    assert p[|p| - 1] !in more;
  }

  /** Whatever the timing, a block that goes unmarked was exposed. */
  lemma UnmarkedIsExposed(w: World, since: set<Multihash>, hi: set<Multihash>, recursive: set<Cid>, mfs: set<Cid>,
                          direct: set<Cid>, internal: set<Cid>, v: set<Cid>, h: Multihash)
    requires IsMark(w, since, hi, recursive, mfs, direct, internal, v) && h !in Hashes(v)
    ensures Exposed(w, since, recursive, mfs, direct, internal, h)
  {
    var all, lo := w.content.Keys, Floor(w, since, recursive);
    var v2 :| MarkedFrom(w, lo, hi, recursive, mfs, direct, internal, v2, v);
    assert forall c :: c in v2 ==> c in v;
    forall c | Reach(w, lo, {}, mfs, c) ensures !Fatal(w, lo, h, c) {
      RootMarkKeeps(w, lo, hi, recursive, mfs, v2, c);
    }
    forall c | Reach(w, all, {}, recursive, c) ensures c.hash != h && Fetched(w, true, lo, all, c) {
      assert c in v;
    }
    forall c | c in direct ensures c.hash != h {
      assert c in v;
    }
    var shadow := Shadow(w, lo, recursive, mfs, h);
    RootMarkInShadow(w, lo, hi, recursive, mfs, v2, h);
    forall c | Reach(w, all, shadow + direct, internal, c) ensures c.hash != h && Fetched(w, true, lo, all, c) {
      ReachedAroundMore(w, lo, hi, v2 + direct, shadow + direct, internal, v, c);
    }
  }

  /** Some way for a collection to go on from `s` deletes the stored block `h`. */
  ghost predicate MayDelete(w: World, s: State, h: Multihash) {
    exists run, steps :: Deletes(w, s, h, run, steps)
  }

  ghost predicate Deletes(w: World, s: State, h: Multihash, run: seq<State>, steps: seq<Step>) {
    && IsRun(w, run, steps) && run[0] == s && steps != [] && GcRelease !in steps
    && steps[|steps| - 1] == GcDelete(h) && h in run[|steps| - 1].store
  }

  /** The blocks that a mark still to be finished is certain to find from the start: all there
      are if it has not begun. */
  ghost function Base(s: State): set<Multihash>
    requires s.gc.Exclusive()
  {
    if s.gc.Locked? then s.store else s.gc.since
  }

  /** Until the collector releases its lock the roots stay, and blocks only go by its sweep. */
  lemma {:induction false} CollectionGoesOn(w: World, run: seq<State>, steps: seq<Step>, k: nat)
    requires IsRun(w, run, steps) && run[0].gc.Exclusive() && GcRelease !in steps && k <= |steps|
    ensures run[k].gc.Exclusive() && Base(run[0]) <= Base(run[k])
    ensures run[k].recursive == run[0].recursive && run[k].mfs == run[0].mfs
    ensures run[k].direct == run[0].direct && run[k].internal == run[0].internal
  {
    if k > 0 {
      CollectionGoesOn(w, run, steps, k - 1);
      RunKeepsInv(w, run, steps, k - 1);
      assert steps[k - 1] in steps;
    }
  }

  lemma MayDeleteOnlyExposed(w: World, s: State, h: Multihash, run: seq<State>, steps: seq<Step>)
    requires s.gc.Exclusive() && Deletes(w, s, h, run, steps)
    ensures Exposed(w, Base(s), s.recursive, s.mfs, s.direct, s.internal, h)
  {
    var k := |steps| - 1;
    CollectionGoesOn(w, run, steps, k);
    RunKeepsInv(w, run, steps, k);
    var last := run[k];
    assert Enabled(w, last, GcDelete(h));
    var hi :| IsMark(w, last.gc.since, hi, s.recursive, s.mfs, s.direct, s.internal, last.gc.v);
    MarkFromLess(w, last.gc.since, Base(s), hi, s.recursive, s.mfs, s.direct, s.internal, last.gc.v);
    UnmarkedIsExposed(w, Base(s), hi, s.recursive, s.mfs, s.direct, s.internal, last.gc.v, h);
  }

  lemma MarkThenDelete(w: World, run: seq<State>, steps: seq<Step>, v: set<Cid>, h: Multihash)
    returns (run': seq<State>, steps': seq<Step>)
    requires IsRun(w, run, steps) && Enabled(w, run[|steps|], GcMarked(v)) && h !in Hashes(v)
    requires h in run[|steps|].store && GcRelease !in steps
    ensures Deletes(w, run[0], h, run', steps') && steps' == steps + [GcMarked(v)] + [GcDelete(h)]
  {
    var marked := run[|steps|].(gc := Sweeping(run[|steps|].gc.since, v));
    RunExtends(w, run, steps, GcMarked(v), marked);
    var swept := marked.(store := marked.store - {h});
    RunExtends(w, run + [marked], steps + [GcMarked(v)], GcDelete(h), swept);
    run', steps' := run + [marked] + [swept], steps + [GcMarked(v)] + [GcDelete(h)];
  }

  /** The run that deletes an exposed block: everything arrives, and at the right moment. */
  lemma ExposedMayBeDeleted(w: World, s: State, h: Multihash) returns (run: seq<State>, steps: seq<Step>)
    requires Inv(w, s) && s.gc.Rooted? && h in w.content
    requires Exposed(w, s.gc.since, s.recursive, s.mfs, s.direct, s.internal, h)
    ensures Deletes(w, s, h, run, steps)
  {
    var v := ExposedGoesUnmarked(w, s.gc.since, s.recursive, s.mfs, s.direct, s.internal, h);
    run, steps := ArriveAll(w, [s], [], w.content.Keys);
    assert s.store + w.content.Keys == w.content.Keys;
    run, steps := MarkThenDelete(w, run, steps, v, h);
  }

  lemma SnapshotFirst(w: World, s: State, h: Multihash, run: seq<State>, steps: seq<Step>)
    requires Inv(w, s) && s.gc.Locked? && Deletes(w, s.(gc := Rooted(s.store, s.mfs)), h, run, steps)
    ensures Deletes(w, s, h, [s] + run, [GcSnapshot] + steps)
  {
    var all, first := [s] + run, [GcSnapshot] + steps;
    forall k | 0 <= k < |first| ensures Enabled(w, all[k], first[k]) && all[k + 1] == Apply(w, all[k], first[k]) {
      if k > 0 { assert all[k] == run[k - 1] && all[k + 1] == run[k] && first[k] == steps[k - 1]; }
    }
  }

  /** A collection that has its lock and not yet its mark may come to delete `h` exactly if
      `h` is exposed. */
  lemma MayDeleteIffExposed(w: World, s: State, h: Multihash)
    requires Inv(w, s) && (s.gc.Locked? || s.gc.Rooted?) && h in w.content
    ensures MayDelete(w, s, h) <==> Exposed(w, Base(s), s.recursive, s.mfs, s.direct, s.internal, h)
  {
    if MayDelete(w, s, h) {
      var run, steps :| Deletes(w, s, h, run, steps);
      MayDeleteOnlyExposed(w, s, h, run, steps);
    }
    if Exposed(w, Base(s), s.recursive, s.mfs, s.direct, s.internal, h) {
      if s.gc.Rooted? {
        var run, steps := ExposedMayBeDeleted(w, s, h);
      } else {
        var rooted := s.(gc := Rooted(s.store, s.mfs));
        var run, steps := ExposedMayBeDeleted(w, rooted, h);
        SnapshotFirst(w, s, h, run, steps);
      }
    }
  }

  /** Nothing that recursive pins or MFS roots are certain to lead to makes the mark fail. */
  ghost predicate Fetchable(w: World, since: set<Multihash>, recursive: set<Cid>, mfs: set<Cid>) {
    && (forall c :: Reach(w, w.content.Keys, {}, recursive, c) ==> Fetched(w, true, since, w.content.Keys, c))
    && var lo := Floor(w, since, recursive); forall c :: Reach(w, lo, {}, mfs, c) ==> Fetched(w, false, lo, lo, c)
  }

  /** Internal pins lead to blocks that can be fetched, and none of them is `h`. */
  ghost predicate PinnerElsewhere(w: World, internal: set<Cid>, h: Multihash) {
    forall c :: Reach(w, w.content.Keys, {}, internal, c) ==> c.hash != h && Fetched(w, true, {}, w.content.Keys, c)
  }

  lemma ProtectedIsReached(w: World, since: set<Multihash>, recursive: set<Cid>, mfs: set<Cid>, direct: set<Cid>,
                           internal: set<Cid>, h: Multihash) returns (c: Cid)
    requires Protected(w, since, recursive, mfs, direct, internal, h)
    ensures c.hash == h
    ensures KeptByRoots(w, Floor(w, since, recursive), recursive, mfs, direct, c) ||
      Reach(w, w.content.Keys, {}, internal, c)
  {
    var all, lo := w.content.Keys, Floor(w, since, recursive);
    c :| c.hash == h && Kept(w, lo, recursive, mfs, direct, internal, c);
    if c in internal {
      ReachRoot(w, all, {}, internal, c);
    } else if KeptByPinner(w, lo, mfs, direct, internal, c) {
      ReachMono(w, all, all, Obstacles(w, lo, mfs, direct), {}, internal, internal, c);
    }
  }

  lemma UnprotectedIsExposed(w: World, since: set<Multihash>, recursive: set<Cid>, mfs: set<Cid>, direct: set<Cid>,
                             internal: set<Cid>, h: Multihash)
    requires Fetchable(w, since, recursive, mfs) && !Protected(w, since, recursive, mfs, direct, internal, h)
    requires PinnerElsewhere(w, internal, h)
    ensures Exposed(w, since, recursive, mfs, direct, internal, h)
  {
    var all, lo := w.content.Keys, Floor(w, since, recursive);
    forall c | KeptByRoots(w, lo, recursive, mfs, direct, c) ensures c.hash != h {
      assert Kept(w, lo, recursive, mfs, direct, internal, c);
    }
    forall c | Reach(w, lo, {}, mfs, c) ensures !Fatal(w, lo, h, c) {
      assert KeptByRoots(w, lo, recursive, mfs, direct, c);
    }
    PinnerElsewhereAround(w, lo, Shadow(w, lo, recursive, mfs, h) + direct, internal, h);
  }

  lemma PinnerElsewhereAround(w: World, lo: set<Multihash>, base: set<Cid>, internal: set<Cid>, h: Multihash)
    requires PinnerElsewhere(w, internal, h)
    ensures forall c :: Reach(w, w.content.Keys, base, internal, c) ==>
      c.hash != h && Fetched(w, true, lo, w.content.Keys, c)
  {
    forall c | Reach(w, w.content.Keys, base, internal, c) ensures Reach(w, w.content.Keys, {}, internal, c) {
      ReachMono(w, w.content.Keys, w.content.Keys, base, {}, internal, internal, c);
    }
  }

  /** For a block away from internal pins: a collection may delete it exactly if the mark can
      be finished and the roots do not protect the block through the blocks that the mark is
      certain to find. */
  lemma MayDeleteIffUnprotected(w: World, s: State, h: Multihash)
    requires Inv(w, s) && (s.gc.Locked? || s.gc.Rooted?) && h in w.content && PinnerElsewhere(w, s.internal, h)
    ensures MayDelete(w, s, h) <==>
      Fetchable(w, Base(s), s.recursive, s.mfs) && !ProtectedIn(w, s, Base(s), h)
  {
    MayDeleteIffExposed(w, s, h);
    if ProtectedIn(w, s, Base(s), h) {
      var c := ProtectedIsReached(w, Base(s), s.recursive, s.mfs, s.direct, s.internal, h);
    } else if Fetchable(w, Base(s), s.recursive, s.mfs) {
      UnprotectedIsExposed(w, Base(s), s.recursive, s.mfs, s.direct, s.internal, h);
    }
  }

  /** What recursive pins and MFS roots lead to through blocks in `lo`. */
  ghost function Led(w: World, lo: set<Multihash>, recursive: set<Cid>, mfs: set<Cid>): set<Cid> {
    set c | c in recursive + mfs + Targets(w) &&
      (Reach(w, w.content.Keys, {}, recursive, c) || Reach(w, lo, {}, mfs, c))
  }

  lemma LedHolds(w: World, lo: set<Multihash>, recursive: set<Cid>, mfs: set<Cid>, c: Cid)
    ensures c in Led(w, lo, recursive, mfs) <==> Reach(w, w.content.Keys, {}, recursive, c) || Reach(w, lo, {}, mfs, c)
  {
    if Reach(w, w.content.Keys, {}, recursive, c) { ReachedAreTargets(w, w.content.Keys, {}, recursive, c); }
    if Reach(w, lo, {}, mfs, c) { ReachedAreTargets(w, lo, {}, mfs, c); }
  }

  /** Everything that is walked when the blocks in `lo` are there can be fetched. */
  ghost predicate LedFetched(w: World, lo: set<Multihash>, recursive: set<Cid>, mfs: set<Cid>) {
    && (forall c :: Reach(w, w.content.Keys, {}, recursive, c) ==> Fetched(w, true, lo, lo, c))
    && (forall c :: Reach(w, lo, {}, mfs, c) ==> Fetched(w, false, lo, lo, c))
  }

  /** Undisturbed, recursive pins and MFS roots mark what they lead to, if it can be fetched. */
  lemma LedIsRootMark(w: World, lo: set<Multihash>, recursive: set<Cid>, mfs: set<Cid>)
    requires lo <= w.content.Keys && LedFetched(w, lo, recursive, mfs)
    ensures RootMark(w, lo, lo, recursive, mfs, Led(w, lo, recursive, mfs))
  {
    var led := Led(w, lo, recursive, mfs);
    forall c ensures c in led <==> Reach(w, w.content.Keys, {}, recursive, c) || Reach(w, lo, {}, mfs, c) {
      LedHolds(w, lo, recursive, mfs, c);
    }
    forall c | c in mfs ensures c in led { ReachRoot(w, lo, {}, mfs, c); }
    forall c, d | c in led && d in Children(w, lo, c) ensures d in led {
      if Reach(w, lo, {}, mfs, c) {
        ReachStep(w, lo, {}, mfs, c, d);
      } else {
        ChildrenMono(w, lo, w.content.Keys, c);
        ReachStep(w, w.content.Keys, {}, recursive, c, d);
      }
    }
    forall c | Reach(w, lo, {}, mfs, c) ensures Trailed(w, lo, {}, mfs, led, c) {
      ReachIsTrailed(w, lo, mfs, led, c);
    }
  }

  lemma ReachIsTrailed(w: World, lo: set<Multihash>, mfs: set<Cid>, v: set<Cid>, c: Cid)
    requires Closed(w, lo, {}, v) && mfs <= v && Reach(w, lo, {}, mfs, c)
    ensures Trailed(w, lo, {}, mfs, v, c)
  {
    var p :| PathTo(w, lo, {}, mfs, c, p);
    forall i | 0 <= i < |p| - 1 ensures Children(w, lo, p[i]) <= v {
      PathStaysInside(w, lo, {}, v, p, i);
    }
    assert Trail(w, lo, {}, mfs, v, c, p);
  }

  /** If nothing arrives, the mark can be finished exactly if everything walked can be fetched;
      raw CIDs always can, stored or not, unless their hash is insecure. */
  lemma MarkFinishesIff(w: World, store: set<Multihash>, recursive: set<Cid>, mfs: set<Cid>, direct: set<Cid>,
                        internal: set<Cid>)
    requires store <= w.content.Keys
    ensures (exists v :: IsMark(w, store, store, recursive, mfs, direct, internal, v)) <==>
      LedFetched(w, store, recursive, mfs) &&
      forall c :: Reach(w, w.content.Keys, Led(w, store, recursive, mfs) + direct, internal, c) ==>
        Fetched(w, true, store, store, c)
  {
    if v :| IsMark(w, store, store, recursive, mfs, direct, internal, v) {
      FinishedIsFetched(w, store, recursive, mfs, direct, internal, v);
    }
    if LedFetched(w, store, recursive, mfs) &&
       forall c :: Reach(w, w.content.Keys, Led(w, store, recursive, mfs) + direct, internal, c) ==>
         Fetched(w, true, store, store, c)
    {
      var v := FetchedFinishes(w, store, recursive, mfs, direct, internal);
    }
  }

  lemma FinishedIsFetched(w: World, store: set<Multihash>, recursive: set<Cid>, mfs: set<Cid>, direct: set<Cid>,
                          internal: set<Cid>, v: set<Cid>)
    requires IsMark(w, store, store, recursive, mfs, direct, internal, v)
    ensures LedFetched(w, store, recursive, mfs)
    ensures forall c :: Reach(w, w.content.Keys, Led(w, store, recursive, mfs) + direct, internal, c) ==>
      Fetched(w, true, store, store, c)
  {
    var led := Led(w, store, recursive, mfs);
    var v2 :| MarkedFrom(w, Floor(w, store, recursive), store, recursive, mfs, direct, internal, v2, v);
    assert Floor(w, store, recursive) == store;
    forall c | Reach(w, store, {}, mfs, c) ensures c in v2 {
      RootMarkKeeps(w, store, store, recursive, mfs, v2, c);
    }
    forall c | c in v2 ensures c in led {
      if Trailed(w, store, {}, mfs, v2, c) { TrailedReach(w, store, {}, mfs, v2, c); }
      LedHolds(w, store, recursive, mfs, c);
    }
    forall c | Reach(w, w.content.Keys, led + direct, internal, c) ensures Fetched(w, true, store, store, c) {
      ReachedAroundMore(w, store, store, v2 + direct, led + direct, internal, v, c);
    }
  }

  lemma FetchedFinishes(w: World, store: set<Multihash>, recursive: set<Cid>, mfs: set<Cid>, direct: set<Cid>,
                        internal: set<Cid>) returns (v: set<Cid>)
    requires store <= w.content.Keys && LedFetched(w, store, recursive, mfs)
    requires forall c :: Reach(w, w.content.Keys, Led(w, store, recursive, mfs) + direct, internal, c) ==>
      Fetched(w, true, store, store, c)
    ensures IsMark(w, store, store, recursive, mfs, direct, internal, v)
  {
    var all, led := w.content.Keys, Led(w, store, recursive, mfs);
    LedIsRootMark(w, store, recursive, mfs);
    assert Floor(w, store, recursive) == store;
    v := led + direct + set c | c in internal + Targets(w) && Reach(w, all, led + direct, internal, c);
    forall c | Reach(w, all, led + direct, internal, c) ensures c in v {
      ReachedAreTargets(w, all, led + direct, internal, c);
    }
    assert PinnerMark(w, store, store, led + direct, internal, v);
    assert MarkedFrom(w, store, store, recursive, mfs, direct, internal, led, v);
  }

  /** For the same block, whatever roots there are in whatever order: if nothing arrives but what
      recursive pins need, the walks are over without it. */
  lemma UnprotectedIsScheduled(w: World, since: set<Multihash>, recursive: set<Cid>, roots: seq<Cid>, direct: set<Cid>,
                               internal: set<Cid>, h: Multihash, rank: Multihash -> nat) returns (run: seq<Walk>)
    requires since <= w.content.Keys && Fetchable(w, since, recursive, Elems(roots))
    requires !Protected(w, since, recursive, Elems(roots), direct, internal, h)
    ensures var lo := Floor(w, since, recursive);
      Schedules(w, lo, lo, recursive, roots, Led(w, lo, recursive, Elems(roots)), run)
    ensures h !in Hashes(run[|run| - 1].v)
  {
    var lo, mfs := Floor(w, since, recursive), Elems(roots);
    var led := Led(w, lo, recursive, mfs);
    forall c | Reach(w, w.content.Keys, {}, recursive, c) ensures Fetched(w, true, lo, lo, c) {
      ReachedAreTargets(w, w.content.Keys, {}, recursive, c);
    }
    LedIsRootMark(w, lo, recursive, mfs);
    UndisturbedIsFeasible(w, lo, recursive, roots, led, rank);
    run := EveryMarkIsScheduled(w, lo, lo, recursive, roots, led, rank);
    assert forall c :: Kept(w, lo, recursive, mfs, direct, internal, c) ==> c.hash != h;
  }

  /** If nothing arrives but what recursive pins need, and there are no internal pins, the mark
      covers exactly what is protected. */
  lemma UndisturbedMarkIsProtection(w: World, since: set<Multihash>, hi: set<Multihash>, recursive: set<Cid>,
                                    mfs: set<Cid>, direct: set<Cid>, v: set<Cid>, h: Multihash)
    requires hi <= Floor(w, since, recursive) && IsMark(w, since, hi, recursive, mfs, direct, {}, v)
    ensures h in Hashes(v) <==> Protected(w, since, recursive, mfs, direct, {}, h)
  {
    var lo := Floor(w, since, recursive);
    if h in Hashes(v) {
      var c :| c in v && c.hash == h;
      var v2 :| MarkedFrom(w, lo, hi, recursive, mfs, direct, {}, v2, v);
      assert hi == lo;
      if c in v2 && Trailed(w, hi, {}, mfs, v2, c) { TrailedReach(w, hi, {}, mfs, v2, c); }
      assert Kept(w, lo, recursive, mfs, direct, {}, c);
    } else {
      UnmarkedIsUnprotected(w, since, hi, recursive, mfs, direct, {}, v, h);
    }
  }

  /** A collection whose only root is an MFS root with its block missing, up to its sweep. */
  lemma LonelyCollection(w: World, store: set<Multihash>, root: Cid) returns (run: seq<State>, steps: seq<Step>)
    requires store <= w.content.Keys && root.hash !in store && root.hash !in w.insecure
    ensures IsRun(w, run, steps) && Init(w, run[0]) && run[0].store == store && |steps| == 4
    ensures run[4] == State(store, {}, {}, {}, {root}, {}, Sweeping(store, {root}))
    ensures forall k :: 0 <= k < 4 ==> run[k].store == store && !steps[k].Arrive?
  {
    var s := State(store, {}, {}, {}, {root}, {}, Idle);
    LonelyRootMark(w, store, root, {});
    run, steps := [s], [];
    RunExtends(w, run, steps, GcRequest, s.(gc := Waiting));
    run, steps := run + [s.(gc := Waiting)], steps + [GcRequest];
    RunExtends(w, run, steps, GcAcquire, s.(gc := Locked));
    run, steps := run + [s.(gc := Locked)], steps + [GcAcquire];
    RunExtends(w, run, steps, GcSnapshot, s.(gc := Rooted(store, {root})));
    run, steps := run + [s.(gc := Rooted(store, {root}))], steps + [GcSnapshot];
    RunExtends(w, run, steps, GcMarked({root}), s.(gc := Sweeping(store, {root})));
    run, steps := run + [s.(gc := Sweeping(store, {root}))], steps + [GcMarked({root})];
  }

  /** The mark of an MFS root whose block is missing is the root itself, even if an internal
      pin asks for all that is below it: the walk from the pin stops at the marked root, and
      the missing block is not reported. */
  lemma LonelyRootMark(w: World, store: set<Multihash>, root: Cid, internal: set<Cid>)
    requires store <= w.content.Keys && root.hash !in store && root.hash !in w.insecure && internal <= {root}
    ensures IsMark(w, store, store, {}, {root}, {}, internal, {root})
  {
    assert Floor(w, store, {}) == store;
    TrailedRoot(w, store, {}, {root}, {root}, root);
    assert RootMark(w, store, store, {}, {root}, {root});
    assert MarkedFrom(w, store, store, {}, {root}, {}, internal, {root}, {root});
  }

  /** An MFS root whose block arrives only after it was walked loses a child that was stored
      all along and is linked and reachable when it is deleted. */
  lemma LateParentLosesChild() returns (w: World, run: seq<State>, steps: seq<Step>)
    ensures IsRun(w, run, steps) && Init(w, run[0]) && |steps| == 6
    ensures forall k :: 0 <= k < 6 ==> 2 in run[k].store && steps[k] != Arrive(2)
    ensures ProtectedIn(w, run[5], run[5].store, 2) && steps[5] == GcDelete(2)
  {
    var root, leaf := V1(DAG_PROTOBUF, 1), V1(RAW, 2);
    w := World(map[1 := Block(map[DAG_PROTOBUF := [leaf]]), 2 := Block(map[RAW := []])], {}, {});
    run, steps := LonelyCollection(w, {2}, root);
    var late := run[4].(store := {2} + {1});
    RunExtends(w, run, steps, Arrive(1), late);
    run, steps := run + [late], steps + [Arrive(1)];
    LeafIsProtected(w, late, root, leaf);
    var lost := late.(store := {2} + {1} - {2});
    RunExtends(w, run, steps, GcDelete(2), lost);
    run, steps := run + [lost], steps + [GcDelete(2)];
  }

  lemma LeafIsProtected(w: World, s: State, root: Cid, leaf: Cid)
    requires root in s.mfs && leaf.V1? && FetchLinks(w, s.store, root) == Links([leaf])
    ensures ProtectedIn(w, s, s.store, leaf.hash)
  {
    var lo := Floor(w, s.store, s.recursive);
    assert leaf in Elems([leaf]) && ToCidV1(leaf) == leaf;
    assert PathTo(w, s.store, {}, s.mfs, leaf, [root, leaf]);
    ReachMono(w, s.store, lo, {}, {}, s.mfs, s.mfs, leaf);
    assert Kept(w, lo, s.recursive, s.mfs, s.direct, s.internal, leaf);
  }

  /** A pinned file: a root block whose links are all raw. */
  ghost predicate RawFile(w: World, store: set<Multihash>, root: Cid, leaves: seq<Cid>) {
    && root.V1? && root.Codec() != RAW && root.hash in store && root.hash !in w.insecure
    && FetchLinks(w, store, root) == Links(leaves)
    && forall c :: c in leaves ==> c.V1? && c.Codec() == RAW && c.hash !in w.insecure
  }

  /** The mark of such a file is the file, whichever of its leaves are stored. */
  lemma RawFileMark(w: World, store: set<Multihash>, root: Cid, leaves: seq<Cid>)
    requires store <= w.content.Keys && RawFile(w, store, root, leaves)
    ensures IsMark(w, store, store, {root}, {}, {}, {}, {root} + Elems(leaves))
  {
    var all, v := w.content.Keys, {root} + Elems(leaves);
    assert Norm(Elems(leaves)) == Elems(leaves);
    ReachRoot(w, all, {}, {root}, root);
    forall c | c in leaves ensures Reach(w, all, {}, {root}, c) { ReachStep(w, all, {}, {root}, root, c); }
    forall c | Reach(w, all, {}, {root}, c) ensures c in v {
      ClosedContainsReach(w, all, {}, {root}, v, c);
    }
    assert Floor(w, store, {root}) == store;
    assert RootMark(w, store, store, {root}, {}, v);
    assert MarkedFrom(w, store, store, {root}, {}, {}, {}, v, v);
  }

  /** So a collection goes on while raw leaves of a pinned file are missing, and sweeps what is
      no part of the file. */
  lemma MissingRawLeafIsNoObstacle(w: World, store: set<Multihash>, root: Cid, leaves: seq<Cid>, junk: Multihash)
    returns (run: seq<State>, steps: seq<Step>)
    requires store <= w.content.Keys && RawFile(w, store, root, leaves)
    requires junk in store && junk != root.hash && forall c :: c in leaves ==> c.hash != junk
    ensures Deletes(w, State(store, {root}, {}, {}, {}, {}, Locked), junk, run, steps)
    ensures forall t :: t in steps ==> !t.Arrive? && !t.Put?
  {
    RawFileMark(w, store, root, leaves);
    var s := State(store, {root}, {}, {}, {}, {}, Locked);
    var rooted := s.(gc := Rooted(store, {}));
    RunExtends(w, [s], [], GcSnapshot, rooted);
    run, steps := MarkThenDelete(w, [s] + [rooted], [] + [GcSnapshot], {root} + Elems(leaves), junk);
  }
}
