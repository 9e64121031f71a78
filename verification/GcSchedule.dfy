/** Which marks the timing of fetches and arrivals can bring about. `ColoredSet` promises that
    what recursive pins and MFS roots mark is a `RootMark`; here every `RootMark` is reached by
    some order in which the walks from the roots, one root after the other, fetch nodes and
    blocks arrive, so the promise is exact. Blocks arrive by multihash, and CIDs that share one
    see it arrive at the same moment. */
module GcSchedule {
  import opened Dag
  import opened GcMark

  /** Best-effort walks: nodes `v` visited, those in `inflight` with links still to fetch, and
      the first `next` roots begun with. */
  datatype Walk = Walk(store: set<Multihash>, v: set<Cid>, inflight: set<Cid>, next: nat)

  ghost predicate Arrives(w: World, s: Walk, s': Walk, h: Multihash) {
    h in w.content && s' == s.(store := s.store + {h})
  }

  /** The walk from one root is over, and the next begins. */
  ghost predicate Begins(roots: seq<Cid>, s: Walk, s': Walk) {
    && s.inflight == {} && s.next < |roots|
    && s' == Walk(s.store, s.v + {roots[s.next]}, {roots[s.next]} - s.v, s.next + 1)
  }

  /** Fetching a node that is missing or decodes. Any other node would fail the mark. */
  ghost predicate Fetches(w: World, s: Walk, s': Walk, c: Cid) {
    && c in s.inflight && c.hash !in w.insecure && !FetchLinks(w, s.store, c).Broken?
    && var found := Children(w, s.store, c);
       s' == s.(v := s.v + found, inflight := (s.inflight - {c}) + (found - s.v))
  }

  ghost predicate Next(w: World, roots: seq<Cid>, s: Walk, s': Walk) {
    || (exists h :: Arrives(w, s, s', h))
    || (exists c :: Fetches(w, s, s', c))
    || Begins(roots, s, s')
  }

  ghost predicate IsSchedule(w: World, roots: seq<Cid>, run: seq<Walk>) {
    run != [] && forall k :: 0 <= k < |run| - 1 ==> Next(w, roots, run[k], run[k + 1])
  }

  lemma ScheduleExtends(w: World, roots: seq<Cid>, run: seq<Walk>, t: Walk, s: Walk) returns (run': seq<Walk>)
    requires IsSchedule(w, roots, run) && Next(w, roots, t, s)
    requires t == run[|run| - 1] || Next(w, roots, run[|run| - 1], t)
    ensures IsSchedule(w, roots, run') && run'[0] == run[0] && run'[|run'| - 1] == s
  {
    run' := if t == run[|run| - 1] then run + [s] else run + [t] + [s];
  }

  /** Links lead to hashes of lower rank: no block can link to one that depends on it. */
  ghost predicate Acyclic(w: World, rank: Multihash -> nat) {
    forall c, d :: d in Children(w, w.content.Keys, c) ==> rank(d.hash) < rank(c.hash)
  }

  /** Walks over `v1`, the nodes below recursive pins, that are to end with `v2`. */
  datatype Plan = Plan(w: World, lo: set<Multihash>, hi: set<Multihash>, roots: seq<Cid>, v1: set<Cid>, v2: set<Cid>) {
    /** This node is to be expanded; any other is to be fetched before its block is there. */
    ghost predicate Opens(c: Cid) {
      FetchLinks(w, hi, c).Links? && Children(w, hi, c) <= v2
    }

    ghost predicate Sensible() {
      && lo <= hi <= w.content.Keys && v1 + Elems(roots) <= v2 && Closed(w, w.content.Keys, {}, v1)
      && (forall c :: c in v2 && c !in v1 ==> Trailed(w, hi, {}, Elems(roots), v2, c) && c.hash !in w.insecure)
      && (forall c :: c in v2 && c !in v1 && c.hash in lo ==> Opens(c))
    }

    /** CIDs that share a multihash are all to be expanded or none. */
    ghost predicate Uniform() {
      forall c, d :: c in v2 && c !in v1 && d in v2 && d !in v1 && c.hash == d.hash && c.Codec() != RAW && Opens(c) ==>
        Opens(d)
    }

    /** The plan can be carried out: of CIDs that share a multihash none has to see its block
        and another has not, or there is a single walk, free to take them in the right order. */
    ghost predicate Feasible(rank: Multihash -> nat) {
      Uniform() || (|roots| <= 1 && Acyclic(w, rank))
    }

    /** On its way: what was fetched and is to be expanded was, and no node that is not to be
        expanded and not yet fetched has its block. */
    ghost predicate Fits(s: Walk) {
      && v1 <= s.v <= v2 && s.inflight <= s.v - v1 && lo <= s.store <= hi && s.next <= |roots|
      && (forall i :: 0 <= i < s.next ==> roots[i] in s.v) && (s.inflight != {} ==> s.next > 0)
      && (forall c :: c in s.v && c !in v1 && c !in s.inflight && Opens(c) ==> Children(w, hi, c) <= s.v)
      && (forall c :: c in v2 && c !in v1 && !Opens(c) && (c !in s.v || c in s.inflight) ==> c.hash !in s.store)
    }

    /** Once all roots are begun with, a node still to be visited has one still to be expanded
        above it. */
    lemma UnvisitedIsBelow(s: Walk, c: Cid) returns (p: seq<Cid>, i: nat)
      requires Sensible() && Fits(s) && s.next == |roots| && c in v2 && c !in s.v
      ensures Path(w, hi, {}, p) && i < |p| - 1 && p[|p| - 1] == c && p[i] in s.inflight
    {
      p :| Trail(w, hi, {}, Elems(roots), v2, c, p);
      i := |p| - 1;
      while p[i] !in s.v
        invariant i < |p| && (i == |p| - 1 || p[i + 1] !in s.v)
        decreases i
      {
        i := i - 1;
      }
      assert p[i + 1] in Children(w, hi, p[i]);
      ChildrenMono(w, hi, w.content.Keys, p[i]);
    }

    lemma {:induction false} FallsAlong(rank: Multihash -> nat, p: seq<Cid>, i: nat, j: nat)
      requires hi <= w.content.Keys && Acyclic(w, rank) && i < j < |p| && Path(w, hi, {}, p)
      ensures rank(p[j].hash) < rank(p[i].hash)
      decreases j
    {
      ChildrenMono(w, hi, w.content.Keys, p[j - 1]);
      assert p[j] in Children(w, hi, p[j - 1]);
      if i < j - 1 { FallsAlong(rank, p, i, j - 1); }
    }

    /** The node to fetch next: of the highest rank, and before its block if that is to be. */
    ghost function Urgency(rank: Multihash -> nat, c: Cid): nat {
      2 * rank(c.hash) + if Opens(c) then 0 else 1
    }

    lemma MostUrgent(rank: Multihash -> nat, cs: set<Cid>) returns (c: Cid)
      requires cs != {}
      ensures c in cs && forall d :: d in cs ==> Urgency(rank, d) <= Urgency(rank, c)
      decreases cs
    {
      c :| c in cs;
      if cs != {c} {
        var d := MostUrgent(rank, cs - {c});
        if Urgency(rank, c) < Urgency(rank, d) { c := d; }
      }
    }

    /** Before the block of the most urgent node arrives, all nodes that must not see it have
        been fetched. */
    lemma ArrivalFits(s: Walk, rank: Multihash -> nat, c: Cid)
      requires Sensible() && Feasible(rank) && Fits(s) && c in s.inflight && Opens(c) && c.Codec() != RAW
      requires forall d :: d in s.inflight ==> Urgency(rank, d) <= Urgency(rank, c)
      ensures Fits(s.(store := s.store + {c.hash}))
    {
      forall e | e in v2 && e !in v1 && !Opens(e) && (e !in s.v || e in s.inflight) ensures e.hash != c.hash {
        if !Uniform() {
          OutOfTheWay(s, rank, c, e);
        }
      }
    }

    lemma OutOfTheWay(s: Walk, rank: Multihash -> nat, c: Cid, e: Cid)
      requires Sensible() && |roots| <= 1 && Acyclic(w, rank) && Fits(s) && c in s.inflight && Opens(c)
      requires forall d :: d in s.inflight ==> Urgency(rank, d) <= Urgency(rank, c)
      requires e in v2 && !Opens(e) && (e !in s.v || e in s.inflight)
      ensures e.hash != c.hash
    {
      if e in s.v {
        assert Urgency(rank, e) <= Urgency(rank, c);
      } else {
        var p, i := UnvisitedIsBelow(s, e);
        FallsAlong(rank, p, i, |p| - 1);
        assert Urgency(rank, p[i]) <= Urgency(rank, c);
      }
    }

    ghost function AfterFetch(s: Walk, c: Cid): Walk {
      var found := Children(w, s.store, c);
      s.(v := s.v + found, inflight := (s.inflight - {c}) + (found - s.v))
    }

    lemma FetchFits(s: Walk, c: Cid)
      requires Sensible() && Fits(s) && c in s.inflight && (Opens(c) && c.Codec() != RAW ==> c.hash in s.store)
      ensures Fits(AfterFetch(s, c)) && Fetches(w, s, AfterFetch(s, c), c)
    {
      if c.Codec() == RAW {
      } else if Opens(c) {
        ChildrenFixed(w, s.store, hi, c);
      } else {
        assert c.hash !in s.store;
      }
    }

    lemma FetchIsProgress(s: Walk, c: Cid)
      requires Fits(s) && Fits(AfterFetch(s, c)) && c in s.inflight
      ensures v2 - AfterFetch(s, c).v < v2 - s.v ||
        (AfterFetch(s, c).v == s.v && AfterFetch(s, c).inflight < s.inflight)
    {
      var found := Children(w, s.store, c);
      if found - s.v == {} {
        assert s.v + found == s.v && (s.inflight - {c}) + (found - s.v) == s.inflight - {c};
      } else {
        var d :| d in found - s.v;
        assert d in v2 - s.v && d !in v2 - AfterFetch(s, c).v;
      }
    }

    /** Fetch the most urgent node, its block arriving just before if it is to be expanded. */
    lemma FetchMostUrgent(s: Walk, rank: Multihash -> nat) returns (t: Walk, s': Walk)
      requires Sensible() && Feasible(rank) && Fits(s) && s.inflight != {}
      ensures (t == s || Next(w, roots, s, t)) && Next(w, roots, t, s') && Fits(s') && s'.next == s.next
      ensures v2 - s'.v < v2 - s.v || (s'.v == s.v && s'.inflight < s.inflight)
    {
      var c := MostUrgent(rank, s.inflight);
      t := s;
      if Opens(c) && c.Codec() != RAW {
        ArrivalFits(s, rank, c);
        t := s.(store := s.store + {c.hash});
        assert Arrives(w, s, t, c.hash);
      }
      s' := AfterFetch(t, c);
      FetchFits(t, c);
      FetchIsProgress(t, c);
    }

    lemma BeginNext(s: Walk) returns (s': Walk)
      requires Sensible() && Fits(s) && s.inflight == {} && s.next < |roots|
      ensures Next(w, roots, s, s') && Fits(s') && s'.next == s.next + 1
      ensures v2 - s'.v < v2 - s.v || s'.v == s.v
    {
      var root := roots[s.next];
      s' := Walk(s.store, s.v + {root}, {root} - s.v, s.next + 1);
      assert Begins(roots, s, s') && root in Elems(roots);
      if root in s.v {
        assert s'.v == s.v;
      } else {
        assert root in v2 - s.v && root !in v2 - s'.v;
      }
    }

    lemma {:induction false} Finish(run: seq<Walk>, rank: Multihash -> nat) returns (run': seq<Walk>)
      requires Sensible() && Feasible(rank) && IsSchedule(w, roots, run) && Fits(run[|run| - 1])
      ensures IsSchedule(w, roots, run') && run'[0] == run[0]
      ensures var end := run'[|run'| - 1]; Fits(end) && end.inflight == {} && end.next == |roots|
      decreases v2 - run[|run| - 1].v, |roots| - run[|run| - 1].next, run[|run| - 1].inflight
    {
      var s := run[|run| - 1];
      if s.inflight != {} {
        var t, s' := FetchMostUrgent(s, rank);
        var further := ScheduleExtends(w, roots, run, t, s');
        run' := Finish(further, rank);
      } else if s.next < |roots| {
        var s' := BeginNext(s);
        var further := ScheduleExtends(w, roots, run, s, s');
        run' := Finish(further, rank);
      } else {
        run' := run;
      }
    }

    /** Once all is fetched, all that was to be visited is. */
    lemma FinishedVisitsAll(s: Walk)
      requires Sensible() && Fits(s) && s.inflight == {} && s.next == |roots|
      ensures s.v == v2
    {
      if c :| c in v2 && c !in s.v {
        var p, i := UnvisitedIsBelow(s, c);
      }
    }
  }

  ghost function BelowPins(w: World, recursive: set<Cid>): set<Cid> {
    set c | c in recursive + Targets(w) && Reach(w, w.content.Keys, {}, recursive, c)
  }

  lemma BelowPinsIsClosed(w: World, recursive: set<Cid>)
    ensures Closed(w, w.content.Keys, {}, BelowPins(w, recursive))
  {
    forall c, d | c in BelowPins(w, recursive) && d in Children(w, w.content.Keys, c)
      ensures d in BelowPins(w, recursive)
    {
      ReachStep(w, w.content.Keys, {}, recursive, c, d);
      ReachedAreTargets(w, w.content.Keys, {}, recursive, d);
    }
  }

  ghost function PlanFor(w: World, lo: set<Multihash>, hi: set<Multihash>, recursive: set<Cid>, roots: seq<Cid>,
                         v2: set<Cid>): Plan {
    Plan(w, lo, hi, roots, BelowPins(w, recursive), v2)
  }

  /** A schedule that starts with everything below recursive pins marked, walks every root, and
      ends with `v2` marked, nothing left to fetch, and no blocks but those in `hi`. */
  ghost predicate Schedules(w: World, lo: set<Multihash>, hi: set<Multihash>, recursive: set<Cid>, roots: seq<Cid>,
                            v2: set<Cid>, run: seq<Walk>) {
    && IsSchedule(w, roots, run)
    && run[0] == Walk(lo, BelowPins(w, recursive), {}, 0)
    && var end := run[|run| - 1]; end.v == v2 && end.inflight == {} && end.next == |roots| && end.store <= hi
  }

  /** From the moment when what recursive pins reach is marked, some schedule marks `v2`. */
  lemma EveryMarkIsScheduled(w: World, lo: set<Multihash>, hi: set<Multihash>, recursive: set<Cid>, roots: seq<Cid>,
                             v2: set<Cid>, rank: Multihash -> nat) returns (run: seq<Walk>)
    requires RootMark(w, lo, hi, recursive, Elems(roots), v2)
    requires PlanFor(w, lo, hi, recursive, roots, v2).Feasible(rank)
    ensures Schedules(w, lo, hi, recursive, roots, v2, run)
  {
    var plan := PlanFor(w, lo, hi, recursive, roots, v2);
    PlanIsSensible(w, lo, hi, recursive, roots, v2);
    run := [Walk(lo, plan.v1, {}, 0)];
    run := plan.Finish(run, rank);
    plan.FinishedVisitsAll(run[|run| - 1]);
  }

  lemma PlanIsSensible(w: World, lo: set<Multihash>, hi: set<Multihash>, recursive: set<Cid>, roots: seq<Cid>,
                       v2: set<Cid>)
    requires RootMark(w, lo, hi, recursive, Elems(roots), v2)
    ensures PlanFor(w, lo, hi, recursive, roots, v2).Sensible()
  {
    var plan := PlanFor(w, lo, hi, recursive, roots, v2);
    BelowPinsIsClosed(w, recursive);
    forall c | c in v2 && c !in plan.v1 ensures Trailed(w, hi, {}, Elems(roots), v2, c) {
      if Reach(w, w.content.Keys, {}, recursive, c) { ReachedAreTargets(w, w.content.Keys, {}, recursive, c); }
    }
    forall c | c in v2 && c.hash in lo ensures plan.Opens(c) {
      ChildrenFixed(w, lo, hi, c);
    }
  }

  /** Where the walks over `v1` stand: what was fetched and was certain to be found is expanded,
      and everything was come upon through expanded nodes. */
  ghost predicate Underway(w: World, lo: set<Multihash>, roots: seq<Cid>, v1: set<Cid>, s: Walk) {
    && v1 <= s.v && lo <= s.store <= w.content.Keys && s.inflight <= s.v - v1 && s.next <= |roots|
    && (forall i :: 0 <= i < s.next ==> roots[i] in s.v)
    && (forall c :: c in s.v && c !in v1 && c !in s.inflight ==>
          Fetched(w, false, lo, lo, c) && Children(w, lo, c) <= s.v)
    && (forall c :: c in s.v && c !in v1 ==> Trailed(w, s.store, {}, Elems(roots), s.v, c))
  }

  lemma ArrivalKeepsUnderway(w: World, lo: set<Multihash>, roots: seq<Cid>, v1: set<Cid>, s: Walk, s': Walk,
                             h: Multihash)
    requires Underway(w, lo, roots, v1, s) && Arrives(w, s, s', h)
    ensures Underway(w, lo, roots, v1, s')
  {
    forall c | c in s.v && c !in v1 ensures Trailed(w, s'.store, {}, Elems(roots), s.v, c) {
      TrailedMono(w, s.store, s'.store, {}, {}, Elems(roots), s.v, s.v, c);
    }
  }

  lemma BeginKeepsUnderway(w: World, lo: set<Multihash>, roots: seq<Cid>, v1: set<Cid>, s: Walk, s': Walk)
    requires Underway(w, lo, roots, v1, s) && Begins(roots, s, s')
    ensures Underway(w, lo, roots, v1, s')
  {
    var mfs := Elems(roots);
    assert roots[s.next] in mfs;
    forall c | c in s'.v && c !in v1 ensures Trailed(w, s'.store, {}, mfs, s'.v, c) {
      if c in s.v {
        TrailedMono(w, s.store, s.store, {}, {}, mfs, s.v, s'.v, c);
      } else {
        TrailedRoot(w, s.store, {}, mfs, s'.v, c);
      }
    }
  }

  lemma FetchKeepsUnderway(w: World, lo: set<Multihash>, roots: seq<Cid>, v1: set<Cid>, s: Walk, s': Walk, c: Cid)
    requires Underway(w, lo, roots, v1, s) && Fetches(w, s, s', c)
    ensures Underway(w, lo, roots, v1, s')
  {
    var mfs := Elems(roots);
    ChildrenMono(w, lo, s.store, c);
    TrailedMono(w, s.store, s.store, {}, {}, mfs, s.v, s'.v, c);
    forall d | d in s'.v && d !in v1 ensures Trailed(w, s'.store, {}, mfs, s'.v, d) {
      if d in s.v {
        TrailedMono(w, s.store, s.store, {}, {}, mfs, s.v, s'.v, d);
      } else {
        TrailedStep(w, s.store, {}, mfs, s'.v, c, d);
      }
    }
  }

  lemma {:induction false} ScheduleKeepsUnderway(w: World, lo: set<Multihash>, roots: seq<Cid>, v1: set<Cid>,
                                                 run: seq<Walk>, k: nat)
    requires IsSchedule(w, roots, run) && run[0] == Walk(lo, v1, {}, 0) && lo <= w.content.Keys && k < |run|
    ensures Underway(w, lo, roots, v1, run[k])
  {
    if k > 0 {
      ScheduleKeepsUnderway(w, lo, roots, v1, run, k - 1);
      var s, s' := run[k - 1], run[k];
      if h :| Arrives(w, s, s', h) {
        ArrivalKeepsUnderway(w, lo, roots, v1, s, s', h);
      } else if c :| Fetches(w, s, s', c) {
        FetchKeepsUnderway(w, lo, roots, v1, s, s', c);
      } else {
        BeginKeepsUnderway(w, lo, roots, v1, s, s');
      }
    }
  }

  lemma ScheduledIsMark(w: World, lo: set<Multihash>, hi: set<Multihash>, recursive: set<Cid>, roots: seq<Cid>,
                        v2: set<Cid>, run: seq<Walk>)
    requires lo <= hi <= w.content.Keys && Schedules(w, lo, hi, recursive, roots, v2, run)
    requires forall c :: Reach(w, w.content.Keys, {}, recursive, c) ==> Fetched(w, true, lo, lo, c)
    ensures RootMark(w, lo, hi, recursive, Elems(roots), v2)
  {
    var v1, end := BelowPins(w, recursive), run[|run| - 1];
    ScheduleKeepsUnderway(w, lo, roots, v1, run, |run| - 1);
    BelowPinsIsClosed(w, recursive);
    ClosedBelow(w, lo, v1);
    forall c | Reach(w, w.content.Keys, {}, recursive, c) ensures c in v1 {
      ReachedAreTargets(w, w.content.Keys, {}, recursive, c);
    }
    forall c | c in v2 && c !in v1 ensures Trailed(w, hi, {}, Elems(roots), v2, c) {
      TrailedMono(w, end.store, hi, {}, {}, Elems(roots), v2, v2, c);
    }
  }

  /** What recursive pins and MFS roots can mark is exactly what some schedule marks. */
  lemma MarkIffScheduled(w: World, lo: set<Multihash>, hi: set<Multihash>, recursive: set<Cid>, roots: seq<Cid>,
                         v2: set<Cid>, rank: Multihash -> nat)
    requires lo <= hi <= w.content.Keys && PlanFor(w, lo, hi, recursive, roots, v2).Feasible(rank)
    requires forall c :: Reach(w, w.content.Keys, {}, recursive, c) ==> Fetched(w, true, lo, lo, c)
    ensures RootMark(w, lo, hi, recursive, Elems(roots), v2) <==>
      exists run :: Schedules(w, lo, hi, recursive, roots, v2, run)
  {
    if RootMark(w, lo, hi, recursive, Elems(roots), v2) {
      var run := EveryMarkIsScheduled(w, lo, hi, recursive, roots, v2, rank);
    }
    if run :| Schedules(w, lo, hi, recursive, roots, v2, run) {
      ScheduledIsMark(w, lo, hi, recursive, roots, v2, run);
    }
  }

  /** No two CIDs share a multihash, but for raw ones, which are not fetched. */
  ghost predicate Unaliased(v: set<Cid>) {
    forall c, d :: c in v && d in v && c.hash == d.hash && c.Codec() != RAW && d.Codec() != RAW ==> c == d
  }

  /** Without aliases any roots in any order will do. */
  lemma UnaliasedIsFeasible(w: World, lo: set<Multihash>, hi: set<Multihash>, recursive: set<Cid>, roots: seq<Cid>,
                            v2: set<Cid>, rank: Multihash -> nat)
    requires Unaliased(v2 - BelowPins(w, recursive))
    ensures PlanFor(w, lo, hi, recursive, roots, v2).Feasible(rank)
  {
  }

  /** So they will if no block arrives that the walks were not certain to find. */
  lemma UndisturbedIsFeasible(w: World, lo: set<Multihash>, recursive: set<Cid>, roots: seq<Cid>, v2: set<Cid>,
                              rank: Multihash -> nat)
    requires RootMark(w, lo, lo, recursive, Elems(roots), v2)
    ensures PlanFor(w, lo, lo, recursive, roots, v2).Feasible(rank)
  {
    PlanIsSensible(w, lo, lo, recursive, roots, v2);
  }
}
