/** The mark phase of garbage collection (`ColoredSet`, `Descendants` and the walk
    they drive), running under the exclusive GC lock while blocks may still arrive
    and the context may be cancelled between any two steps. */
module GcMark {
  import opened Dag

  /** An item of a pin stream: a key, or the error that ends the stream. */
  datatype StreamedPin = Pin(key: Cid) | StreamFailure

  datatype Result =
    | KeyRemoved(key: Cid)
    | CannotFetchLinks(key: Cid)
    | CannotDeleteBlock(key: Cid)
    | CannotFetchAllLinks
    | CannotDeleteSomeBlocks
    | StreamError
    | RootsError
    | ListError
    | CollectError
    | ContextError

  /** What the best-effort roots callback returns: the live MFS roots, or an error. */
  datatype MfsRoots = Roots(cids: seq<Cid>) | Unreadable

  function Keys(pins: seq<StreamedPin>): (r: set<Cid>)
    ensures forall i :: 0 <= i < |pins| && pins[i].Pin? ==> ToCidV1(pins[i].key) in r
  {
    set i | 0 <= i < |pins| && pins[i].Pin? :: ToCidV1(pins[i].key)
  }

  lemma KeysMember(pins: seq<StreamedPin>, c: Cid)
    ensures c in Keys(pins) <==> exists i :: 0 <= i < |pins| && pins[i].Pin? && c == ToCidV1(pins[i].key)
  {
  }

  predicate Clean(pins: seq<StreamedPin>) {
    forall i :: 0 <= i < |pins| ==> pins[i].Pin?
  }

  /** Every node the walk added is reachable from `roots` around `base`. */
  ghost predicate Sound(w: World, store: set<Multihash>, base: set<Cid>, roots: set<Cid>, v: set<Cid>) {
    base <= v && forall c :: c in v && c !in base ==> Reach(w, store, base, roots, c)
  }

  /** All of `lo`-visible reachability is in `v`, every node added could be fetched, and was
      come upon by way of expanded nodes. */
  ghost predicate Complete(w: World, strict: bool, lo: set<Multihash>, store: set<Multihash>, base: set<Cid>,
                           roots: set<Cid>, v: set<Cid>) {
    && Closed(w, lo, base, v)
    && (forall c :: c in v && c !in base ==> Fetched(w, strict, lo, store, c))
    && Trodden(w, store, base, roots, v)
  }

  ghost predicate Trodden(w: World, store: set<Multihash>, base: set<Cid>, roots: set<Cid>, v: set<Cid>) {
    forall c :: c in v && c !in base ==> Trailed(w, store, base, roots, v, c)
  }

  /** A secure hash whose block decodes. A strict walk insists on the block being there, a
      best-effort walk does not. */
  ghost predicate Fetched(w: World, strict: bool, lo: set<Multihash>, store: set<Multihash>, c: Cid) {
    c.hash !in w.insecure &&
    if strict then FetchLinks(w, store, c).Links? else c.hash in lo ==> FetchLinks(w, lo, c).Links?
  }

  /** Fetching the links of `c` fails, given that blocks in `since` are present. */
  ghost predicate Sick(w: World, strict: bool, since: set<Multihash>, c: Cid) {
    || c.hash in w.insecure
    || (c.hash in w.content && FetchLinks(w, {c.hash}, c).Broken?)
    || (strict && c.Codec() != RAW && c.hash !in since)
  }

  ghost predicate SomeSick(w: World, strict: bool, since: set<Multihash>, base: set<Cid>, v: set<Cid>) {
    exists c :: c in v && c !in base && Sick(w, strict, since, c)
  }

  /** What a mark adds to the output: nodes it came upon and could not fetch, and errors that
      ended a stream or a walk. */
  ghost predicate Reported(before: seq<Result>, after: seq<Result>, v: set<Cid>) {
    && before <= after
    && forall i :: |before| <= i < |after| ==>
         after[i].StreamError? || (after[i].CannotFetchLinks? && ToCidV1(after[i].key) in v)
  }

  lemma KeysAppend(pins: seq<StreamedPin>, p: StreamedPin)
    requires p.Pin?
    ensures Keys(pins + [p]) == Keys(pins) + {ToCidV1(p.key)}
  {
    var q := pins + [p];
    assert forall i :: 0 <= i < |pins| ==> q[i] == pins[i];
    assert q[|pins|] == p;
  }

  /** The best-effort roots sent on a channel of their own. */
  function AsPins(roots: seq<Cid>): (r: seq<StreamedPin>)
    ensures Clean(r) && Keys(r) == Norm(Elems(roots))
  {
    var r := seq(|roots|, i requires 0 <= i < |roots| => Pin(roots[i]));
    assert forall i :: 0 <= i < |roots| ==> r[i].key == roots[i];
    r
  }

  /** Kept by a recursive pin, by an MFS root through blocks in `store`, or directly. */
  ghost predicate KeptByRoots(w: World, store: set<Multihash>, recursive: set<Cid>, mfs: set<Cid>, direct: set<Cid>,
                              c: Cid) {
    || Reach(w, w.content.Keys, {}, recursive, c)
    || Reach(w, store, {}, mfs, c)
    || c in direct
  }

  /** What recursive pins and MFS roots mark. Below recursive pins every block was fetched.
      From MFS roots, blocks in `lo` were expanded, blocks not in `hi` could not be, and
      others may or may not have been; each marked node was come upon through expanded ones. */
  ghost predicate RootMark(w: World, lo: set<Multihash>, hi: set<Multihash>, recursive: set<Cid>, mfs: set<Cid>,
                           v2: set<Cid>) {
    && lo <= hi <= w.content.Keys
    && (forall c :: Reach(w, w.content.Keys, {}, recursive, c) ==> c in v2 && Fetched(w, true, lo, hi, c))
    && mfs <= v2 && Closed(w, lo, {}, v2)
    && (forall c :: c in v2 ==> Fetched(w, false, lo, hi, c))
    && (forall c :: c in v2 ==> Reach(w, w.content.Keys, {}, recursive, c) || Trailed(w, hi, {}, mfs, v2, c))
  }

  /** What internal pins add to the nodes in `base`, at which their walk stops. */
  ghost predicate PinnerMark(w: World, lo: set<Multihash>, hi: set<Multihash>, base: set<Cid>, internal: set<Cid>,
                             v: set<Cid>) {
    && (forall c :: c in v <==> c in base || Reach(w, w.content.Keys, base, internal, c))
    && (forall c :: c in v && c !in base ==> Fetched(w, true, lo, hi, c))
  }

  ghost predicate MarkedFrom(w: World, lo: set<Multihash>, hi: set<Multihash>, recursive: set<Cid>, mfs: set<Cid>,
                             direct: set<Cid>, internal: set<Cid>, v2: set<Cid>, v: set<Cid>) {
    RootMark(w, lo, hi, recursive, mfs, v2) && PinnerMark(w, lo, hi, v2 + direct, internal, v)
  }

  /** The blocks that the walk from MFS roots is certain to find: those present when the mark
      started, and all that recursive pins reach by CIDs that are not raw, fetched by then. */
  ghost function Floor(w: World, since: set<Multihash>, recursive: set<Cid>): set<Multihash> {
    since + set c | c in recursive + Targets(w) && c.Codec() != RAW &&
      Reach(w, w.content.Keys, {}, recursive, c) :: c.hash
  }

  /** What a finished mark is, when blocks in `since` were there from the start and those in
      `hi` by its end. If nothing came but what recursive pins needed, a single `v` is left. */
  ghost predicate IsMark(w: World, since: set<Multihash>, hi: set<Multihash>, recursive: set<Cid>, mfs: set<Cid>,
                         direct: set<Cid>, internal: set<Cid>, v: set<Cid>) {
    exists v2 :: MarkedFrom(w, Floor(w, since, recursive), hi, recursive, mfs, direct, internal, v2, v)
  }

  /** What MFS roots reach through blocks that were there from the start is marked. */
  lemma RootMarkKeeps(w: World, lo: set<Multihash>, hi: set<Multihash>, recursive: set<Cid>, mfs: set<Cid>,
                      v2: set<Cid>, c: Cid)
    requires RootMark(w, lo, hi, recursive, mfs, v2) && Reach(w, lo, {}, mfs, c)
    ensures c in v2
  {
    ClosedContainsReach(w, lo, {}, mfs, v2, c);
  }

  /** The mark is a function of the store and of the sets of roots: neither the order of
      the walk nor the order of the roots can show in it. Only blocks that arrive meanwhile
      can, and only those that no recursive pin reaches. */
  lemma MarkIsUnique(w: World, since: set<Multihash>, hi: set<Multihash>, hi': set<Multihash>, recursive: set<Cid>,
                     mfs: set<Cid>, direct: set<Cid>, internal: set<Cid>, v: set<Cid>, v': set<Cid>)
    requires hi <= Floor(w, since, recursive) && hi' <= Floor(w, since, recursive)
    requires IsMark(w, since, hi, recursive, mfs, direct, internal, v)
    requires IsMark(w, since, hi', recursive, mfs, direct, internal, v')
    ensures v == v'
  {
    var lo := Floor(w, since, recursive);
    var a :| MarkedFrom(w, lo, hi, recursive, mfs, direct, internal, a, v);
    var b :| MarkedFrom(w, lo, hi', recursive, mfs, direct, internal, b, v');
    assert hi == lo == hi';
    RootMarkWithin(w, lo, recursive, mfs, a, b);
    RootMarkWithin(w, lo, recursive, mfs, b, a);
    assert a == b;
  }

  lemma RootMarkWithin(w: World, store: set<Multihash>, recursive: set<Cid>, mfs: set<Cid>, a: set<Cid>, b: set<Cid>)
    requires RootMark(w, store, store, recursive, mfs, a) && RootMark(w, store, store, recursive, mfs, b)
    ensures a <= b
  {
    forall c | c in a ensures c in b {
      if Trailed(w, store, {}, mfs, a, c) {
        TrailedReach(w, store, {}, mfs, a, c);
        RootMarkKeeps(w, store, store, recursive, mfs, b, c);
      }
    }
  }

  /** A walk that was certain to find some blocks was certain to find fewer. */
  lemma RootMarkFromLess(w: World, lo: set<Multihash>, lo': set<Multihash>, hi: set<Multihash>,
                         recursive: set<Cid>, mfs: set<Cid>, v2: set<Cid>)
    requires lo' <= lo && RootMark(w, lo, hi, recursive, mfs, v2)
    ensures RootMark(w, lo', hi, recursive, mfs, v2)
  {
    forall c, d | c in v2 && d in Children(w, lo', c) ensures d in v2 {
      ChildrenMono(w, lo', lo, c);
    }
  }

  lemma MarkFromLess(w: World, since: set<Multihash>, since': set<Multihash>, hi: set<Multihash>, recursive: set<Cid>,
                     mfs: set<Cid>, direct: set<Cid>, internal: set<Cid>, v: set<Cid>)
    requires since' <= since && IsMark(w, since, hi, recursive, mfs, direct, internal, v)
    ensures IsMark(w, since', hi, recursive, mfs, direct, internal, v)
  {
    var lo, lo' := Floor(w, since, recursive), Floor(w, since', recursive);
    var v2 :| MarkedFrom(w, lo, hi, recursive, mfs, direct, internal, v2, v);
    RootMarkFromLess(w, lo, lo', hi, recursive, mfs, v2);
    assert MarkedFrom(w, lo', hi, recursive, mfs, direct, internal, v2, v);
  }

  /** The children of a file pinned by its CIDv0 are marked. */
  lemma CidV0PinMarksChildren(w: World, since: set<Multihash>, hi: set<Multihash>, pins: seq<StreamedPin>,
                              mfs: set<Cid>, direct: set<Cid>, internal: set<Cid>, v: set<Cid>, h: Multihash, l: Cid)
    requires IsMark(w, since, hi, Keys(pins), mfs, direct, internal, v) && Pin(V0(h)) in pins
    requires h in w.content && h !in w.unreadable && 0x70 in w.content[h].links && l in w.content[h].links[0x70]
    ensures V1(0x70, h) in v && (if l.V0? then V1(0x70, l.hash) else l) in v
  {
    var all, root := w.content.Keys, V1(0x70, h);
    var v2 :| MarkedFrom(w, Floor(w, since, Keys(pins)), hi, Keys(pins), mfs, direct, internal, v2, v);
    DagPbChildren(w, all, h);
    assert ToCidV1(V0(h)) in Keys(pins);
    ReachRoot(w, all, {}, Keys(pins), root);
    ReachStep(w, all, {}, Keys(pins), root, ToCidV1(l));
  }

  lemma RootMarkAllowsArrivals(w: World, lo: set<Multihash>, hi: set<Multihash>, hi': set<Multihash>,
                               recursive: set<Cid>, mfs: set<Cid>, v2: set<Cid>)
    requires hi <= hi' <= w.content.Keys && RootMark(w, lo, hi, recursive, mfs, v2)
    ensures RootMark(w, lo, hi', recursive, mfs, v2)
  {
    forall c | Trailed(w, hi, {}, mfs, v2, c) ensures Trailed(w, hi', {}, mfs, v2, c) {
      TrailedMono(w, hi, hi', {}, {}, mfs, v2, v2, c);
    }
  }

  lemma MarkAllowsArrivals(w: World, since: set<Multihash>, hi: set<Multihash>, hi': set<Multihash>,
                           recursive: set<Cid>, mfs: set<Cid>, direct: set<Cid>, internal: set<Cid>, v: set<Cid>)
    requires hi <= hi' <= w.content.Keys && IsMark(w, since, hi, recursive, mfs, direct, internal, v)
    ensures IsMark(w, since, hi', recursive, mfs, direct, internal, v)
  {
    var lo := Floor(w, since, recursive);
    var v2 :| MarkedFrom(w, lo, hi, recursive, mfs, direct, internal, v2, v);
    RootMarkAllowsArrivals(w, lo, hi, hi', recursive, mfs, v2);
    assert MarkedFrom(w, lo, hi', recursive, mfs, direct, internal, v2, v);
  }

  ghost predicate PhaseDone(w: World, strict: bool, lo: set<Multihash>, hi: set<Multihash>, base: set<Cid>,
                            roots: set<Cid>, v: set<Cid>) {
    Sound(w, hi, base, roots, v) && Complete(w, strict, lo, hi, base, roots, v) && roots <= v
  }

  /** What a strict phase from nothing marks: exactly what its roots reach, all of it fetched. */
  ghost predicate StrictMark(w: World, since: set<Multihash>, store: set<Multihash>, roots: set<Cid>, v1: set<Cid>) {
    && (forall c :: c in v1 <==> Reach(w, w.content.Keys, {}, roots, c))
    && (forall c :: c in v1 ==> Fetched(w, true, since, store, c) && Fetched(w, false, since, store, c))
    && Closed(w, since, {}, v1)
  }

  lemma StrictPhase(w: World, since: set<Multihash>, s1: set<Multihash>, store: set<Multihash>, roots: set<Cid>,
                    v1: set<Cid>)
    requires since <= s1 <= store <= w.content.Keys
    requires Sound(w, s1, {}, roots, v1) && Closed(w, w.content.Keys, {}, v1) && roots <= v1
    requires forall c :: c in v1 ==> Fetched(w, true, w.content.Keys, s1, c)
    ensures StrictMark(w, since, store, roots, v1)
  {
    StrictlyReached(w, s1, roots, v1);
    ClosedBelow(w, since, v1);
    forall c | c in v1 ensures Fetched(w, true, since, store, c) && Fetched(w, false, since, store, c) {
      FetchedIn(w, since, s1, store, c);
    }
  }

  lemma StrictlyReached(w: World, s1: set<Multihash>, roots: set<Cid>, v1: set<Cid>)
    requires s1 <= w.content.Keys && Sound(w, s1, {}, roots, v1) && Closed(w, w.content.Keys, {}, v1) && roots <= v1
    ensures forall c :: c in v1 <==> Reach(w, w.content.Keys, {}, roots, c)
  {
    forall c | Reach(w, w.content.Keys, {}, roots, c) ensures c in v1 {
      ClosedContainsReach(w, w.content.Keys, {}, roots, v1, c);
    }
    forall c | c in v1 ensures Reach(w, w.content.Keys, {}, roots, c) {
      ReachMono(w, s1, w.content.Keys, {}, {}, roots, roots, c);
    }
  }

  lemma ClosedBelow(w: World, since: set<Multihash>, v: set<Cid>)
    requires since <= w.content.Keys && Closed(w, w.content.Keys, {}, v)
    ensures Closed(w, since, {}, v)
  {
    forall c, d | c in v && d in Children(w, since, c) ensures d in v {
      ChildrenMono(w, since, w.content.Keys, c);
    }
  }

  /** What was fetched once can be fetched later, and was or was not there before. */
  lemma FetchedIn(w: World, since: set<Multihash>, s1: set<Multihash>, store: set<Multihash>, c: Cid)
    requires since <= s1 <= store && Fetched(w, true, w.content.Keys, s1, c)
    ensures Fetched(w, true, since, store, c) && Fetched(w, false, since, store, c)
  {
  }

  /** The first two phases: a walk that stops at nodes marked by an earlier strict phase
      misses nothing. */
  lemma BestEffortPhase(w: World, since: set<Multihash>, store: set<Multihash>, recursive: set<Cid>, mfs: set<Cid>,
                        v1: set<Cid>, v2: set<Cid>)
    requires since <= store <= w.content.Keys
    requires StrictMark(w, since, store, recursive, v1) && PhaseDone(w, false, since, store, v1, mfs, v2)
    ensures RootMark(w, since, store, recursive, mfs, v2)
  {
    forall c | c in v2 ensures Reach(w, w.content.Keys, {}, recursive, c) || Trailed(w, store, {}, mfs, v2, c) {
      if c !in v1 { TrailedMono(w, store, store, v1, {}, mfs, v2, v2, c); }
    }
  }

  /** The four phases in order yield the mark. The second starts with every block that the
      first had to fetch. */
  lemma PhasesMakeMark(w: World, since: set<Multihash>, s1: set<Multihash>, s2: set<Multihash>, s4: set<Multihash>,
                       recursive: set<Cid>, mfs: set<Cid>, direct: set<Cid>, internal: set<Cid>,
                       v1: set<Cid>, v2: set<Cid>, v3: set<Cid>, v4: set<Cid>)
    requires since <= s1 <= s2 <= s4 <= w.content.Keys
    requires PhaseDone(w, true, w.content.Keys, s1, {}, recursive, v1)
    requires PhaseDone(w, false, s1, s2, v1, mfs, v2) && v3 == v2 + direct
    requires PhaseDone(w, true, w.content.Keys, s4, v3, internal, v4)
    ensures IsMark(w, since, s4, recursive, mfs, direct, internal, v4)
  {
    var lo := Floor(w, since, recursive);
    StrictPhase(w, s1, s1, s2, recursive, v1);
    BestEffortPhase(w, s1, s2, recursive, mfs, v1, v2);
    FloorIsFetched(w, since, s1, s2, recursive, v1);
    RootMarkFromLess(w, s1, lo, s2, recursive, mfs, v2);
    RootMarkAllowsArrivals(w, lo, s2, s4, recursive, mfs, v2);
    StrictPhaseAround(w, lo, s4, v2 + direct, internal, v4);
    assert MarkedFrom(w, lo, s4, recursive, mfs, direct, internal, v2, v4);
  }

  lemma FloorIsFetched(w: World, since: set<Multihash>, s1: set<Multihash>, s2: set<Multihash>, recursive: set<Cid>,
                       v1: set<Cid>)
    requires since <= s1 && (forall c :: c in v1 ==> Fetched(w, true, s1, s1, c))
    requires StrictMark(w, s1, s2, recursive, v1)
    ensures Floor(w, since, recursive) <= s1
  {
    forall c | Reach(w, w.content.Keys, {}, recursive, c) && c.Codec() != RAW ensures c.hash in s1 {
      assert c in v1;
    }
  }

  lemma StrictPhaseAround(w: World, since: set<Multihash>, store: set<Multihash>, base: set<Cid>, internal: set<Cid>,
                          v: set<Cid>)
    requires store <= w.content.Keys && PhaseDone(w, true, w.content.Keys, store, base, internal, v)
    ensures PinnerMark(w, since, store, base, internal, v)
  {
    var all := w.content.Keys;
    forall c | Reach(w, all, base, internal, c) ensures c in v {
      ClosedContainsReach(w, all, base, internal, v, c);
    }
    forall c | c in v && c !in base ensures Reach(w, all, base, internal, c) && Fetched(w, true, since, store, c) {
      ReachMono(w, store, all, base, base, internal, internal, c);
    }
  }

  /** All link targets of all blocks: the bound that makes every walk finite. */
  ghost function Targets(w: World): (r: set<Cid>)
    ensures forall h, k, i {:trigger w.content[h].links[k][i]} ::
      h in w.content && k in w.content[h].links && 0 <= i < |w.content[h].links[k]|
      ==> ToCidV1(w.content[h].links[k][i]) in r
  {
    set h, k, i | h in w.content && k in w.content[h].links && 0 <= i < |w.content[h].links[k]|
      :: ToCidV1(w.content[h].links[k][i])
  }

  lemma LinksAreTargets(w: World, store: set<Multihash>, c: Cid)
    requires FetchLinks(w, store, c).Links?
    ensures Norm(Elems(FetchLinks(w, store, c).links)) <= Targets(w)
  {
    var ls := FetchLinks(w, store, c).links;
    forall d | d in Norm(Elems(ls)) ensures d in Targets(w) {
      var l :| l in Elems(ls) && d == ToCidV1(l);
      var i :| 0 <= i < |ls| && ls[i] == l;
      assert w.content[c.hash].links[c.Codec()][i] == l;
    }
  }

  lemma {:induction false} ReachedAreTargets(w: World, store: set<Multihash>, avoid: set<Cid>, roots: set<Cid>, c: Cid)
    requires Reach(w, store, avoid, roots, c)
    ensures c in roots + Targets(w)
  {
    var p :| PathTo(w, store, avoid, roots, c, p);
    if |p| > 1 { LinksAreTargets(w, store, p[|p| - 2]); }
  }

  /** Nodes at which the walk from internal pins may stop although their children are not
      marked: direct pins, and nodes that MFS leads to whose blocks were missing. */
  ghost function Obstacles(w: World, since: set<Multihash>, mfs: set<Cid>, direct: set<Cid>): set<Cid> {
    direct + set c | c in mfs + Targets(w) && c.Codec() != RAW && c.hash !in since &&
      Reach(w, w.content.Keys, {}, mfs, c)
  }

  ghost predicate KeptByPinner(w: World, since: set<Multihash>, mfs: set<Cid>, direct: set<Cid>, internal: set<Cid>,
                               c: Cid) {
    c in internal || Reach(w, w.content.Keys, Obstacles(w, since, mfs, direct), internal, c)
  }

  /** What internal pins reach without passing an obstacle is marked, though the walk
      may have stopped at nodes marked before it. */
  lemma InternalReachIsMarked(w: World, since: set<Multihash>, hi: set<Multihash>, recursive: set<Cid>, mfs: set<Cid>,
                              direct: set<Cid>, internal: set<Cid>, v: set<Cid>, c: Cid)
    requires IsMark(w, since, hi, recursive, mfs, direct, internal, v)
    requires KeptByPinner(w, Floor(w, since, recursive), mfs, direct, internal, c)
    ensures c in v
  {
    var all, lo := w.content.Keys, Floor(w, since, recursive);
    var obstacles := Obstacles(w, lo, mfs, direct);
    var v2 :| MarkedFrom(w, lo, hi, recursive, mfs, direct, internal, v2, v);
    forall i | i in internal ensures i in v {
      if i !in v2 + direct { ReachRoot(w, all, v2 + direct, internal, i); }
    }
    forall x, d | x in v && x !in obstacles && d in Children(w, all, x) ensures d in v {
      if x in v2 {
        RootMarkOpens(w, lo, hi, recursive, mfs, direct, v2, x, d);
      } else if d !in v2 + direct {
        ReachStep(w, all, v2 + direct, internal, x, d);
      }
    }
    if c !in internal { ClosedContainsReach(w, all, obstacles, internal, v, c); }
  }

  /** Marked nodes other than obstacles were expanded. */
  lemma RootMarkOpens(w: World, lo: set<Multihash>, hi: set<Multihash>, recursive: set<Cid>, mfs: set<Cid>,
                      direct: set<Cid>, v2: set<Cid>, c: Cid, d: Cid)
    requires RootMark(w, lo, hi, recursive, mfs, v2) && c in v2
    requires c !in Obstacles(w, lo, mfs, direct) && d in Children(w, w.content.Keys, c)
    ensures d in v2
  {
    var all := w.content.Keys;
    if Reach(w, all, {}, recursive, c) {
      ReachStep(w, all, {}, recursive, c, d);
    } else {
      TrailedReach(w, hi, {}, mfs, v2, c);
      ReachMono(w, hi, all, {}, {}, mfs, mfs, c);
      ReachedAreTargets(w, all, {}, mfs, c);
      ChildrenFixed(w, lo, all, c);
    }
  }

  lemma SoundMono(w: World, lo: set<Multihash>, hi: set<Multihash>, base: set<Cid>, roots: set<Cid>, roots': set<Cid>,
                  v: set<Cid>)
    requires lo <= hi && roots <= roots' && Sound(w, lo, base, roots, v)
    ensures Sound(w, hi, base, roots', v)
  {
    forall c | c in v && c !in base ensures Reach(w, hi, base, roots', c) {
      ReachMono(w, lo, hi, base, base, roots, roots', c);
    }
  }

  /** A walk in progress: `pending` links are still to be visited, `inflight` nodes are
      visited and their links still to be fetched. */
  ghost predicate Frontier(w: World, store: set<Multihash>, base: set<Cid>, roots: set<Cid>,
                           v: set<Cid>, pending: set<Cid>, inflight: set<Cid>) {
    && Sound(w, store, base, roots, v)
    && (forall k :: k in pending && ToCidV1(k) !in base ==> Reach(w, store, base, roots, ToCidV1(k)))
    && (forall k :: k in inflight ==> ToCidV1(k) in v && ToCidV1(k) !in base)
  }

  /** Every visited node whose links have been fetched has its visible children visited
      or pending, and was found if the walk is strict. */
  ghost predicate Explored(w: World, strict: bool, lo: set<Multihash>, store: set<Multihash>, base: set<Cid>,
                           v: set<Cid>, pending: set<Cid>, inflight: set<Cid>) {
    forall c :: c in v && c !in base && c !in Norm(inflight) ==>
      Children(w, lo, c) <= v + Norm(pending) && Fetched(w, strict, lo, store, c)
  }

  lemma FrontierMono(w: World, lo: set<Multihash>, hi: set<Multihash>, base: set<Cid>, roots: set<Cid>,
                     v: set<Cid>, pending: set<Cid>, inflight: set<Cid>)
    requires lo <= hi && Frontier(w, lo, base, roots, v, pending, inflight)
    ensures Frontier(w, hi, base, roots, v, pending, inflight)
  {
    SoundMono(w, lo, hi, base, roots, roots, v);
    forall k | k in pending && ToCidV1(k) !in base ensures Reach(w, hi, base, roots, ToCidV1(k)) {
      ReachMono(w, lo, hi, base, base, roots, roots, ToCidV1(k));
    }
  }

  lemma NormPlus(a: set<Cid>, b: set<Cid>)
    ensures Norm(a + b) == Norm(a) + Norm(b)
  {
  }

  lemma NormMinus(a: set<Cid>, k: Cid)
    requires k in a
    ensures Norm(a) == Norm(a - {k}) + {ToCidV1(k)}
  {
    assert a == (a - {k}) + {k};
  }

  lemma VisitKeepsExplored(w: World, strict: bool, lo: set<Multihash>, store: set<Multihash>, base: set<Cid>,
                           v: set<Cid>, pending: set<Cid>, inflight: set<Cid>, k: Cid, inflight': set<Cid>)
    requires k in pending && Explored(w, strict, lo, store, base, v, pending, inflight)
    requires inflight' == if ToCidV1(k) in v then inflight else inflight + {k}
    ensures Explored(w, strict, lo, store, base, v + {ToCidV1(k)}, pending - {k}, inflight')
  {
    NormMinus(pending, k);
    NormPlus(inflight, {k});
  }

  /** The links of a reached node are reached. */
  lemma FetchKeepsFrontier(w: World, store: set<Multihash>, base: set<Cid>, roots: set<Cid>,
                           v: set<Cid>, pending: set<Cid>, inflight: set<Cid>, k: Cid, links: seq<Cid>)
    requires k in inflight && Frontier(w, store, base, roots, v, pending, inflight)
    requires links == [] || FetchLinks(w, store, k) == Links(links)
    ensures Frontier(w, store, base, roots, v, pending + Elems(links), inflight - {k})
    ensures Norm(pending + Elems(links)) <= Norm(pending) + Targets(w)
  {
    NormPlus(pending, Elems(links));
    if links != [] {
      LinksAreTargets(w, store, k);
      forall l | l in Elems(links) && ToCidV1(l) !in base ensures Reach(w, store, base, roots, ToCidV1(l)) {
        ReachStep(w, store, base, roots, ToCidV1(k), ToCidV1(l));
      }
    }
  }

  lemma TroddenMono(w: World, lo: set<Multihash>, hi: set<Multihash>, base: set<Cid>, roots: set<Cid>, u: set<Cid>)
    requires lo <= hi && Trodden(w, lo, base, roots, u)
    ensures Trodden(w, hi, base, roots, u)
  {
    forall c | c in u && c !in base ensures Trailed(w, hi, base, roots, u, c) {
      TrailedMono(w, lo, hi, base, base, roots, u, u, c);
    }
  }

  lemma TroddenRoot(w: World, store: set<Multihash>, base: set<Cid>, roots: set<Cid>, u: set<Cid>, root: Cid)
    requires Trodden(w, store, base, roots, u) && root in roots
    ensures Trodden(w, store, base, roots, u + {root})
  {
    forall c | c in u + {root} && c !in base ensures Trailed(w, store, base, roots, u + {root}, c) {
      if c == root {
        TrailedRoot(w, store, base, roots, u + {root}, c);
      } else {
        TrailedMono(w, store, store, base, base, roots, u, u + {root}, c);
      }
    }
  }

  /** Expanding a node come upon through expanded nodes. */
  lemma FetchKeepsTrodden(w: World, store: set<Multihash>, base: set<Cid>, roots: set<Cid>, u: set<Cid>, k: Cid,
                          links: seq<Cid>)
    requires Trodden(w, store, base, roots, u) && ToCidV1(k) in u && ToCidV1(k) !in base
    requires links == [] || FetchLinks(w, store, k) == Links(links)
    ensures Trodden(w, store, base, roots, u + Norm(Elems(links)))
  {
    var u' := u + Norm(Elems(links));
    forall c | c in u' && c !in base ensures Trailed(w, store, base, roots, u', c) {
      if c in u {
        TrailedMono(w, store, store, base, base, roots, u, u', c);
      } else {
        assert Children(w, store, ToCidV1(k)) == Norm(Elems(links));
        TrailedMono(w, store, store, base, base, roots, u, u', ToCidV1(k));
        TrailedStep(w, store, base, roots, u', ToCidV1(k), c);
      }
    }
  }

  /** A fetched node's links are all the children any part of the store can show. */
  lemma FetchKeepsExplored(w: World, strict: bool, lo: set<Multihash>, store: set<Multihash>, base: set<Cid>,
                           v: set<Cid>, pending: set<Cid>, inflight: set<Cid>, k: Cid, links: seq<Cid>)
    requires k in inflight && Explored(w, strict, lo, store, base, v, pending, inflight)
    requires k.hash !in w.insecure
    requires FetchLinks(w, store, k) == Links(links) || (!strict && k.hash !in lo && links == [])
    ensures Explored(w, strict, lo, store, base, v, pending + Elems(links), inflight - {k})
  {
    NormPlus(pending, Elems(links));
    NormMinus(inflight, k);
  }

  /** A collector: the blockstore, the pinner's streams, the MFS roots, the run's
      context and output channel, and the set being marked. */
  class Collector {
    const w: World
    const undeletable: set<Multihash>   // blocks whose deletion fails
    var store: set<Multihash>
    var recursivePins: seq<StreamedPin>
    var directPins: seq<StreamedPin>
    var internalPins: seq<StreamedPin>
    var mfs: MfsRoots
    var locked: bool
    var cancelled: bool
    var output: seq<Result>
    var marked: set<Cid>
    var markErrors: bool
    ghost var since: set<Multihash>     // blocks present when the mark begins
    ghost var arrivals: set<Multihash>  // blocks stored by others since then
    ghost var seen: set<Multihash>      // blocks present when the current phase began

    ghost predicate Valid()
      reads this
    {
      locked && store == since + arrivals && store <= w.content.Keys && seen <= store
    }

    /** What a walk can rely on seeing: strict walks insist on every block, best-effort
        walks see at least the blocks present when their phase began. */
    ghost function Visible(strict: bool): set<Multihash>
      reads this
    {
      if strict then w.content.Keys else seen
    }

    /** `GCLock` and what comes before the mark: wait for all pin-lock holders, who may change
        anything meanwhile, and read the roots. */
    method AwaitLock()
      modifies this
      ensures Valid() && since == store && arrivals == {}
      ensures (old(cancelled) ==> cancelled) && output == old(output)
    {
      var present: set<Multihash> :| present <= w.content.Keys;
      store := present;
      recursivePins, directPins, internalPins, mfs := *, *, *, *;
      since, arrivals, seen, locked := store, {}, store, true;
      if * { cancelled := true; }
    }

    /** Anything others may do while the exclusive lock is held: store blocks without
        a pin, or cancel the context. Pins and MFS roots need the pin lock. */
    method Interfere()
      requires locked && store <= w.content.Keys
      modifies this`store, this`arrivals, this`cancelled
      ensures old(store) <= store <= old(store) + arrivals && store <= w.content.Keys
      ensures old(arrivals) <= arrivals <= old(arrivals) + store && (old(cancelled) ==> cancelled)
      ensures old(Valid()) ==> Valid()
    {
      var extra: set<Multihash> :| extra <= w.content.Keys;
      store := store + extra;
      arrivals := arrivals + extra;
      if * { cancelled := true; }
    }

    /** A send guarded by the context: dropped only when the context is done. */
    method Emit(r: Result) returns (sent: bool)
      modifies this`output
      ensures output == if sent then old(output) + [r] else old(output)
      ensures !sent ==> cancelled
    {
      var dropped: bool := *;
      sent := !(cancelled && dropped);
      if sent { output := output + [r]; }
    }

    /** `cid.Set.Visit` on the normalised key: add it and say whether it was new. */
    method Visit(k: Cid) returns (isNew: bool)
      modifies this`marked
      ensures marked == old(marked) + {ToCidV1(k)}
      ensures isNew <==> ToCidV1(k) !in old(marked)
    {
      isNew := ToCidV1(k) !in marked;
      marked := marked + {ToCidV1(k)};
    }

    /** The hash is fine, but getting the links fails, if only because the block is missing where
        that matters. */
    ghost predicate CannotFetch(strict: bool, k: Cid)
      reads this
    {
      k.hash !in w.insecure && (FetchLinks(w, store, k).Broken? || (strict && FetchLinks(w, store, k).NotFound?))
    }

    /** The output holds reports of trouble since `before`, and one if trouble was new. */
    ghost predicate Spoke(before: seq<Result>, wasErr: bool)
      reads this
    {
      && Reported(before, output, marked) && (markErrors || output == before)
      && (markErrors && !wasErr && !cancelled ==> |before| < |output|)
    }

    /** `verifyGetLinks` over `getLinks` or `bestEffortGetLinks`. */
    method GetLinks(strict: bool, k: Cid) returns (err: bool, links: seq<Cid>)
      requires Valid()
      modifies this`markErrors, this`output
      ensures markErrors <==> old(markErrors) || CannotFetch(strict, k)
      ensures output == old(output) || output == old(output) + [CannotFetchLinks(k)]
      ensures !cancelled ==> output == old(output) + if CannotFetch(strict, k) then [CannotFetchLinks(k)] else []
      ensures !cancelled ==> (err <==> k.hash in w.insecure)
      ensures (err || (markErrors && !old(markErrors))) && !cancelled ==> Sick(w, strict, since, ToCidV1(k))
      ensures links == [] || FetchLinks(w, store, k) == Links(links)
      ensures !err ==> k.hash !in w.insecure
      ensures markErrors || output == old(output)
      ensures !err && !markErrors ==>
        FetchLinks(w, store, k) == Links(links) || (!strict && k.hash !in store && links == [])
    {
      if k.hash in w.insecure { return true, []; }
      var f := FetchLinks(w, store, k);
      if f.Links? { return false, f.links; }
      if strict || f.Broken? {
        markErrors := true;
        var sent := Emit(CannotFetchLinks(k));
        if !sent { return true, []; }
      }
      return false, [];
    }

    /** `dag.Walk` with concurrency: visits and fetches happen in any order; a node's
        links are fetched only if visiting it said it was new. */
    method Walk(strict: bool, root: Cid, ghost base: set<Cid>, ghost roots: set<Cid>) returns (err: bool)
      requires Valid() && ToCidV1(root) in roots
      requires Sound(w, store, base, roots, marked)
      requires cancelled || markErrors || Complete(w, strict, Visible(strict), store, base, roots, marked)
      modifies this`store, this`arrivals, this`cancelled, this`marked, this`markErrors, this`output
      ensures Valid() && (old(cancelled) ==> cancelled) && (old(markErrors) ==> markErrors)
      ensures old(store) <= store && old(marked) <= marked
      ensures Sound(w, store, base, roots, marked)
      ensures !err && !cancelled ==> ToCidV1(root) in marked
      ensures !err && !cancelled && !markErrors ==> Complete(w, strict, Visible(strict), store, base, roots, marked)
      ensures (err || (markErrors && !old(markErrors))) && !cancelled ==> SomeSick(w, strict, since, base, marked)
      ensures Spoke(old(output), old(markErrors))
    {
      var pending, inflight: set<Cid> := {root}, {};
      WalkStarts(strict, root, base, roots);
      ghost var bound := marked + {ToCidV1(root)} + Targets(w);
      while pending != {} || inflight != {}
        invariant Valid() && (old(cancelled) ==> cancelled) && (old(markErrors) ==> markErrors)
        invariant old(store) <= store && old(marked) <= marked && marked + Norm(pending) + Targets(w) <= bound
        invariant ToCidV1(root) in marked || root in pending
        invariant Walking(strict, base, roots, pending, inflight)
        invariant Spoke(old(output), old(markErrors))
        invariant markErrors && !old(markErrors) && !cancelled ==> SomeSick(w, strict, since, base, marked)
        decreases bound - marked, inflight, pending
      {
        var stop;
        stop, err, pending, inflight := Advance(strict, base, roots, pending, inflight);
        if stop { return; }
      }
      WalkEnds(strict, base, roots);
      err := false;
    }

    lemma WalkStarts(strict: bool, root: Cid, base: set<Cid>, roots: set<Cid>)
      requires ToCidV1(root) in roots && Sound(w, store, base, roots, marked)
      requires cancelled || markErrors || Complete(w, strict, Visible(strict), store, base, roots, marked)
      ensures Walking(strict, base, roots, {root}, {}) && Norm({root}) == {ToCidV1(root)}
    {
      if ToCidV1(root) !in base { ReachRoot(w, store, base, roots, ToCidV1(root)); }
      if !(cancelled || markErrors) { TroddenRoot(w, store, base, roots, marked, ToCidV1(root)); }
      assert Norm({root}) == {ToCidV1(root)};
    }

    lemma WalkEnds(strict: bool, base: set<Cid>, roots: set<Cid>)
      requires Walking(strict, base, roots, {}, {})
      ensures Sound(w, store, base, roots, marked)
      ensures cancelled || markErrors || Complete(w, strict, Visible(strict), store, base, roots, marked)
    {
      assert marked + Norm({}) == marked;
    }

    ghost predicate Walking(strict: bool, base: set<Cid>, roots: set<Cid>, pending: set<Cid>, inflight: set<Cid>)
      reads this
    {
      && Frontier(w, store, base, roots, marked, pending, inflight)
      && (cancelled || markErrors || Explored(w, strict, Visible(strict), store, base, marked, pending, inflight))
      && (cancelled || markErrors || Trodden(w, store, base, roots, marked + Norm(pending)))
    }

    /** One step of a walk, after whatever others did meanwhile. */
    method Advance(strict: bool, ghost base: set<Cid>, ghost roots: set<Cid>, pending: set<Cid>, inflight: set<Cid>)
      returns (stop: bool, err: bool, pending': set<Cid>, inflight': set<Cid>)
      requires Valid() && (pending != {} || inflight != {}) && Walking(strict, base, roots, pending, inflight)
      modifies this`store, this`arrivals, this`cancelled, this`marked, this`markErrors, this`output
      ensures Valid() && (old(cancelled) ==> cancelled) && (old(markErrors) ==> markErrors)
      ensures old(store) <= store && old(marked) <= marked
      ensures Sound(w, store, base, roots, marked)
      ensures (err || (markErrors && !old(markErrors))) && !cancelled ==> SomeSick(w, strict, since, base, marked)
      ensures stop ==> err || cancelled
      ensures !stop ==> Walking(strict, base, roots, pending', inflight')
      ensures !stop ==> forall k :: k in pending ==> k in pending' || ToCidV1(k) in marked
      ensures !stop ==> marked + Norm(pending') + Targets(w) <= old(marked) + Norm(pending) + Targets(w)
      ensures !stop && marked == old(marked) ==> inflight' < inflight || (inflight' == inflight && pending' < pending)
      ensures Spoke(old(output), old(markErrors))
    {
      Interfere();
      FrontierMono(w, old(store), store, base, roots, marked, pending, inflight);
      if !(cancelled || markErrors) { TroddenMono(w, old(store), store, base, roots, marked + Norm(pending)); }
      pending', inflight' := pending, inflight;
      var giveUp: bool, visitNext: bool := *, *;
      if cancelled && giveUp {
        stop, err := true, *;
      } else if pending != {} && (inflight == {} || visitNext) {
        pending', inflight' := VisitOne(strict, base, roots, pending, inflight);
        stop, err := false, false;
      } else {
        err, pending', inflight' := FetchOne(strict, base, roots, pending, inflight);
        stop := err;
      }
    }

    method VisitOne(strict: bool, ghost base: set<Cid>, ghost roots: set<Cid>, pending: set<Cid>, inflight: set<Cid>)
      returns (pending': set<Cid>, inflight': set<Cid>)
      requires pending != {} && Valid() && Walking(strict, base, roots, pending, inflight)
      modifies this`marked
      ensures old(marked) <= marked <= old(marked) + Norm(pending) && pending' < pending
      ensures forall k :: k in pending ==> k in pending' || ToCidV1(k) in marked
      ensures marked == old(marked) ==> inflight' == inflight
      ensures Norm(pending') <= Norm(pending)
      ensures Walking(strict, base, roots, pending', inflight')
    {
      var k :| k in pending;
      NormMinus(pending, k);
      pending' := pending - {k};
      var isNew := Visit(k);
      inflight' := if isNew then inflight + {k} else inflight;
      assert marked + Norm(pending') == old(marked) + Norm(pending);
      if !(cancelled || markErrors) {
        VisitKeepsExplored(w, strict, Visible(strict), store, base, old(marked), pending, inflight, k, inflight');
      }
    }

    method FetchOne(strict: bool, ghost base: set<Cid>, ghost roots: set<Cid>, pending: set<Cid>, inflight: set<Cid>)
      returns (err: bool, pending': set<Cid>, inflight': set<Cid>)
      requires inflight != {} && Valid() && Walking(strict, base, roots, pending, inflight)
      modifies this`markErrors, this`output
      ensures old(markErrors) ==> markErrors
      ensures (err || (markErrors && !old(markErrors))) && !cancelled ==> SomeSick(w, strict, since, base, marked)
      ensures inflight' < inflight && pending <= pending' && Norm(pending') <= Norm(pending) + Targets(w)
      ensures !err ==> Walking(strict, base, roots, pending', inflight')
      ensures Spoke(old(output), old(markErrors))
    {
      var k :| k in inflight;
      var links;
      err, links := GetLinks(strict, k);
      FetchKeepsFrontier(w, store, base, roots, marked, pending, inflight, k, links);
      pending', inflight' := pending + Elems(links), inflight - {k};
      if !(err || cancelled || markErrors) {
        FetchKeepsExplored(w, strict, Visible(strict), store, base, marked, pending, inflight, k, links);
        FetchKeepsTrodden(w, store, base, roots, marked + Norm(pending), k, links);
        NormPlus(pending, Elems(links));
        assert marked + Norm(pending') == marked + Norm(pending) + Norm(Elems(links));
      }
    }

    /** Walk every root of a pin stream. The stream, and with it this loop, may end
        early without an error, but only once the context is cancelled. */
    method Descendants(strict: bool, pins: seq<StreamedPin>) returns (err: bool)
      requires Valid()
      modifies this`store, this`arrivals, this`cancelled, this`marked, this`markErrors, this`output
      ensures Valid() && (old(cancelled) ==> cancelled) && (old(markErrors) ==> markErrors) && old(store) <= store
      ensures Sound(w, store, old(marked), Keys(pins), marked)
      ensures !err && !cancelled ==> Clean(pins) && Keys(pins) <= marked
      ensures !err && !cancelled && !markErrors ==>
        Complete(w, strict, Visible(strict), store, old(marked), Keys(pins), marked)
      ensures (err || (markErrors && !old(markErrors))) && !cancelled ==>
        !Clean(pins) || SomeSick(w, strict, since, old(marked), marked)
      ensures Spoke(old(output), old(markErrors))
    {
      ghost var base := marked;
      var i, stop := 0, false;
      err := false;
      while !stop
        invariant 0 <= i <= |pins| && Valid() && old(store) <= store && base <= marked
        invariant (old(cancelled) ==> cancelled) && (old(markErrors) ==> markErrors)
        invariant Sound(w, store, base, Keys(pins), marked)
        invariant Spoke(old(output), old(markErrors))
        invariant !stop ==> !err && Descended(strict, pins, i, base)
        invariant stop && !err ==> cancelled || Descended(strict, pins, |pins|, base)
        invariant stop && err && !cancelled ==> !Clean(pins) || SomeSick(w, strict, since, base, marked)
        invariant markErrors && !old(markErrors) && !cancelled ==> SomeSick(w, strict, since, base, marked)
        decreases |pins| - i, !stop
      {
        stop, err := DescendNext(strict, pins, i, base);
        if !stop { i := i + 1; }
      }
      assert pins[..|pins|] == pins;
    }

    /** The first `i` pins are walked, unless the context is done or an error remembered. */
    ghost predicate Descended(strict: bool, pins: seq<StreamedPin>, i: nat, base: set<Cid>)
      requires i <= |pins|
      reads this
    {
      && Clean(pins[..i])
      && (cancelled || forall j :: 0 <= j < i ==> ToCidV1(pins[j].key) in marked)
      && (cancelled || markErrors || Complete(w, strict, Visible(strict), store, base, Keys(pins), marked))
    }

    /** One round of the loop: the context, the end of the stream, or another walk. */
    method DescendNext(strict: bool, pins: seq<StreamedPin>, i: nat, ghost base: set<Cid>)
      returns (stop: bool, err: bool)
      requires Valid() && i <= |pins| && Sound(w, store, base, Keys(pins), marked) && Descended(strict, pins, i, base)
      modifies this`store, this`arrivals, this`cancelled, this`marked, this`markErrors, this`output
      ensures Valid() && (old(cancelled) ==> cancelled) && (old(markErrors) ==> markErrors)
      ensures old(store) <= store && old(marked) <= marked
      ensures Sound(w, store, base, Keys(pins), marked)
      ensures Spoke(old(output), old(markErrors))
      ensures !stop ==> !err && i < |pins| && Descended(strict, pins, i + 1, base)
      ensures stop && !err ==> cancelled || Descended(strict, pins, |pins|, base)
      ensures stop && err && !cancelled ==> !Clean(pins) || SomeSick(w, strict, since, base, marked)
      ensures markErrors && !old(markErrors) && !cancelled ==> SomeSick(w, strict, since, base, marked)
    {
      Interfere();
      SoundMono(w, old(store), store, base, Keys(pins), Keys(pins), marked);
      if !(cancelled || markErrors) { TroddenMono(w, old(store), store, base, Keys(pins), marked); }
      var done: bool, cut: bool := *, *;
      if cancelled && done { return true, true; }
      if i == |pins| || (cancelled && cut) { return true, false; }
      if pins[i].StreamFailure? { return true, true; }
      err := Walk(strict, pins[i].key, base, Keys(pins));
      stop := err;
      assert pins[..i + 1] == pins[..i] + [pins[i]];
    }

    ghost predicate Pinned(c: Cid)
      reads this
    {
      Reach(w, w.content.Keys, {}, Keys(recursivePins), c) || Reach(w, w.content.Keys, {}, Keys(internalPins), c)
    }

    /** Something that must be reported: a stream failed, a node reached by a strict walk
        could not be fetched, or a present block could not be read. */
    ghost predicate Trouble()
      reads this
    {
      || !Clean(recursivePins) || !Clean(directPins) || !Clean(internalPins)
      || (exists c :: c in marked && Sick(w, false, since, c))
      || (exists c :: c in marked && Sick(w, true, since, c) && Pinned(c))
    }

    /** Mark recursive pins strictly, MFS roots best-effort, direct pins, and internal
        pins strictly, into one shared set. */
    method ColoredSet(mfsRoots: seq<Cid>) returns (ok: bool, err: Result)
      requires Valid()
      modifies this`store, this`arrivals, this`seen, this`cancelled, this`marked, this`markErrors, this`output
      ensures Valid() && (old(cancelled) ==> cancelled) && old(store) <= store
      ensures ok && !cancelled ==>
        IsMark(w, since, store, Keys(recursivePins), Norm(Elems(mfsRoots)), Keys(directPins), Keys(internalPins),
               marked)
      ensures ok && !cancelled ==> Clean(recursivePins) && Clean(directPins) && Clean(internalPins)
      ensures ok ==> output == old(output)
      ensures !ok && !cancelled ==> Trouble() && Reported(old(output), output, marked)
      ensures !ok && !cancelled && Clean(directPins) ==> err == CannotFetchAllLinks && |old(output)| < |output|
      ensures !ok && !cancelled && !Clean(directPins) ==> err == StreamError
    {
      marked, markErrors := {}, false;
      ghost var v1, s1;
      var sent;
      sent, v1, s1 := MarkRoots(mfsRoots);
      if !sent { return false, ContextError; }
      ghost var v2, s2 := marked, store;
      ok := DirectKeys();
      if !ok { return false, StreamError; }
      ok, err := MarkInternal(mfsRoots, v1, s1, v2, s2);
    }

    ghost predicate RootsDone(mfsRoots: seq<Cid>, v1: set<Cid>, s1: set<Multihash>, v2: set<Cid>, s2: set<Multihash>)
      reads this
    {
      && PhaseDone(w, true, w.content.Keys, s1, {}, Keys(recursivePins), v1)
      && PhaseDone(w, false, s1, s2, v1, Norm(Elems(mfsRoots)), v2)
    }

    /** The last phase, and what all four come to. */
    method MarkInternal(mfsRoots: seq<Cid>, ghost v1: set<Cid>, ghost s1: set<Multihash>, ghost v2: set<Cid>,
                        ghost s2: set<Multihash>)
      returns (ok: bool, err: Result)
      requires Valid() && (markErrors && !cancelled ==> Trouble()) && since <= s1 <= s2 <= store
      requires !cancelled ==> marked == v2 + Keys(directPins)
      requires !markErrors && !cancelled ==> RootsDone(mfsRoots, v1, s1, v2, s2)
      modifies this`store, this`arrivals, this`seen, this`cancelled, this`marked, this`markErrors, this`output
      ensures Valid() && (old(cancelled) ==> cancelled) && old(store) <= store && old(marked) <= marked
      ensures ok && !cancelled ==> Clean(internalPins)
      ensures ok && !cancelled ==>
        IsMark(w, since, store, Keys(recursivePins), Norm(Elems(mfsRoots)), Keys(directPins), Keys(internalPins),
               marked)
      ensures ok ==> !old(markErrors) && output == old(output)
      ensures !ok && !cancelled ==> Trouble() && Spoke(old(output), old(markErrors)) && markErrors
      ensures !ok && !cancelled ==> err == CannotFetchAllLinks
    {
      ghost var v3 := marked;
      var sent := MarkPhase(true, internalPins);
      if !sent { return false, ContextError; }
      if markErrors { return false, CannotFetchAllLinks; }
      if !cancelled {
        PhasesMakeMark(w, since, s1, s2, store, Keys(recursivePins), Norm(Elems(mfsRoots)),
                       Keys(directPins), Keys(internalPins), v1, v2, v3, marked);
      }
      return true, ContextError;
    }

    /** The first two phases. The second starts from all that was marked and stored by the end
        of the first, `v1` and `s1`. */
    method MarkRoots(mfsRoots: seq<Cid>) returns (sent: bool, ghost v1: set<Cid>, ghost s1: set<Multihash>)
      requires Valid() && marked == {} && !markErrors
      modifies this`store, this`arrivals, this`seen, this`cancelled, this`marked, this`markErrors, this`output
      ensures Valid() && (old(cancelled) ==> cancelled) && old(store) <= s1 <= store
      ensures !sent ==> cancelled
      ensures markErrors && !cancelled ==> Trouble()
      ensures Spoke(old(output), false)
      ensures !markErrors && !cancelled ==> Clean(recursivePins) && RootsDone(mfsRoots, v1, s1, marked, store)
    {
      sent := MarkPhase(true, recursivePins);
      v1, s1 := marked, store;
      if !sent { return; }
      sent := MarkPhase(false, AsPins(mfsRoots));
    }

    /** Walk one stream of roots, remembering and reporting a failure. */
    method MarkPhase(strict: bool, pins: seq<StreamedPin>) returns (sent: bool)
      requires Valid() && (markErrors && !cancelled ==> Trouble())
      requires if strict then pins == recursivePins || pins == internalPins else Clean(pins)
      modifies this`store, this`arrivals, this`seen, this`cancelled, this`marked, this`markErrors, this`output
      ensures Valid() && (old(cancelled) ==> cancelled) && (old(markErrors) ==> markErrors)
      ensures old(store) <= store && old(marked) <= marked
      ensures !sent ==> cancelled
      ensures seen == old(store)
      ensures markErrors && !cancelled ==> Trouble()
      ensures !markErrors && !cancelled ==>
        Clean(pins) && PhaseDone(w, strict, Visible(strict), store, old(marked), Keys(pins), marked)
      ensures Spoke(old(output), old(markErrors))
    {
      seen := store;
      var err := Descendants(strict, pins);
      if strict { PinnedTrouble(old(marked), pins); }
      sent := true;
      if err {
        markErrors := true;
        sent := Emit(StreamError);
      }
    }

    /** A node a strict walk could not fetch is one that a pin reaches. */
    lemma PinnedTrouble(base: set<Cid>, pins: seq<StreamedPin>)
      requires Valid() && Sound(w, store, base, Keys(pins), marked)
      requires pins == recursivePins || pins == internalPins
      ensures SomeSick(w, true, since, base, marked) ==> exists c :: c in marked && Sick(w, true, since, c) && Pinned(c)
    {
      if SomeSick(w, true, since, base, marked) {
        var c :| c in marked && c !in base && Sick(w, true, since, c);
        ReachMono(w, store, w.content.Keys, base, {}, Keys(pins), Keys(pins), c);
        assert Pinned(c);
      }
    }

    /** Add the direct pins; an error on their stream ends the mark at once. */
    method DirectKeys() returns (ok: bool)
      requires Valid()
      modifies this`store, this`arrivals, this`cancelled, this`marked
      ensures Valid() && (old(cancelled) ==> cancelled) && old(store) <= store
      ensures old(marked) <= marked
      ensures ok && !cancelled ==> Clean(directPins) && marked == old(marked) + Keys(directPins)
      ensures !ok ==> !Clean(directPins)
    {
      var i := 0;
      while i < |directPins|
        invariant 0 <= i <= |directPins| && Clean(directPins[..i])
        invariant Valid() && (old(cancelled) ==> cancelled) && old(store) <= store
        invariant marked == old(marked) + Keys(directPins[..i])
      {
        Interfere();
        var cut: bool := *;
        if cancelled && cut { return true; }
        if directPins[i].StreamFailure? { return false; }
        assert directPins[..i + 1] == directPins[..i] + [directPins[i]];
        KeysAppend(directPins[..i], directPins[i]);
        marked := marked + {ToCidV1(directPins[i].key)};
        i := i + 1;
      }
      assert directPins[..i] == directPins;
      return true;
    }
  }
}
