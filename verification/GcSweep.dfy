/** A whole garbage collection: lock, snapshot the roots, mark, and delete every stored
    block whose multihash no marked CID carries. */
module GcSweep {
  import opened Dag
  import opened GcMark

  /** One attempted deletion and whether the blockstore carried it out. */
  datatype Attempt = Attempt(key: Multihash, deleted: bool)

  function Hashes(v: set<Cid>): (r: set<Multihash>)
    ensures forall c :: c in v ==> c.hash in r
  {
    set c | c in v :: c.hash
  }

  lemma HashesMember(v: set<Cid>, h: Multihash)
    ensures h in Hashes(v) <==> exists c :: c in v && c.hash == h
  {
  }

  ghost function Deleted(log: seq<Attempt>): (r: set<Multihash>) {
    set i | 0 <= i < |log| && log[i].deleted :: log[i].key
  }

  /** The blocks deleted, in order. */
  ghost function Removed(log: seq<Attempt>): seq<Multihash> {
    if log == [] then []
    else
      var a := log[|log| - 1];
      Removed(log[..|log| - 1]) + if a.deleted then [a.key] else []
  }

  ghost function Attempted(log: seq<Attempt>): (r: set<Multihash>) {
    set i | 0 <= i < |log| :: log[i].key
  }

  predicate AnyFailed(log: seq<Attempt>) {
    exists i :: 0 <= i < |log| && !log[i].deleted
  }

  function Shown(a: Attempt): Result {
    if a.deleted then KeyRemoved(V1(RAW, a.key)) else CannotDeleteBlock(V1(RAW, a.key))
  }

  /** What the output channel shows for a sequence of attempts. */
  function Rendered(log: seq<Attempt>): (r: seq<Result>)
    ensures |r| == |log|
    ensures forall i :: 0 <= i < |log| && log[i].deleted ==> r[i] == KeyRemoved(V1(0x55, log[i].key))
    ensures forall i :: 0 <= i < |log| && !log[i].deleted ==> r[i] == CannotDeleteBlock(V1(0x55, log[i].key))
  {
    seq(|log|, i requires 0 <= i < |log| => Shown(log[i]))
  }

  /** Some CID with multihash `h` is kept: by a recursive pin, by an MFS root through blocks
      that were present or that a recursive pin reaches, by a direct pin, or by an internal pin
      that reaches it without passing an obstacle. */
  ghost predicate Protected(w: World, since: set<Multihash>, recursive: set<Cid>, mfs: set<Cid>,
                            direct: set<Cid>, internal: set<Cid>, h: Multihash) {
    exists c: Cid :: c.hash == h && Kept(w, Floor(w, since, recursive), recursive, mfs, direct, internal, c)
  }

  ghost predicate Kept(w: World, lo: set<Multihash>, recursive: set<Cid>, mfs: set<Cid>,
                       direct: set<Cid>, internal: set<Cid>, c: Cid) {
    KeptByRoots(w, lo, recursive, mfs, direct, c) || KeptByPinner(w, lo, mfs, direct, internal, c)
  }

  /** A block whose multihash is not marked is not protected. */
  lemma UnmarkedIsUnprotected(w: World, since: set<Multihash>, hi: set<Multihash>, recursive: set<Cid>, mfs: set<Cid>,
                              direct: set<Cid>, internal: set<Cid>, v: set<Cid>, h: Multihash)
    requires IsMark(w, since, hi, recursive, mfs, direct, internal, v)
    requires h !in Hashes(v)
    ensures !Protected(w, since, recursive, mfs, direct, internal, h)
  {
    var lo := Floor(w, since, recursive);
    forall c | Kept(w, lo, recursive, mfs, direct, internal, c) ensures c.hash != h {
      if KeptByPinner(w, lo, mfs, direct, internal, c) {
        InternalReachIsMarked(w, since, hi, recursive, mfs, direct, internal, v, c);
      } else {
        var v2 :| MarkedFrom(w, lo, hi, recursive, mfs, direct, internal, v2, v);
        if Reach(w, lo, {}, mfs, c) { RootMarkKeeps(w, lo, hi, recursive, mfs, v2, c); }
      }
      assert c in v;
    }
  }

  ghost predicate MarkOf(g: Collector, v: set<Cid>)
    requires g.mfs.Roots?
    reads g
  {
    IsMark(g.w, g.since, g.since + g.arrivals, Keys(g.recursivePins), Norm(Elems(g.mfs.cids)), Keys(g.directPins),
           Keys(g.internalPins), v)
  }

  ghost predicate Safe(g: Collector, h: Multihash)
    requires g.mfs.Roots?
    reads g
  {
    !Protected(g.w, g.since, Keys(g.recursivePins), Norm(Elems(g.mfs.cids)), Keys(g.directPins), Keys(g.internalPins),
               h)
  }

  /** Codecs and versions are dropped: the blockstore lists raw CIDv1 keys. */
  method ToRawCids(v: set<Cid>) returns (raw: set<Cid>)
    ensures forall h :: V1(RAW, h) in raw <==> h in Hashes(v)
  {
    raw := {};
    var todo := v;
    while todo != {}
      invariant todo <= v
      invariant forall h :: V1(RAW, h) in raw <==> h in Hashes(v - todo)
      decreases todo
    {
      var c :| c in todo;
      raw := raw + {V1(RAW, c.hash)};
      assert v - (todo - {c}) == (v - todo) + {c};
      todo := todo - {c};
    }
  }

  /** `DeleteBlock`: may fail, and then leaves the block in place. */
  method DeleteBlock(g: Collector, h: Multihash) returns (deleted: bool)
    modifies g`store
    ensures deleted <==> h !in g.undeletable
    ensures g.store == if deleted then old(g.store) - {h} else old(g.store)
  {
    deleted := h !in g.undeletable;
    if deleted { g.store := g.store - {h}; }
  }

  /** What a sweep of `store0` may have done so far: only unmarked keys were tried, and
      what is gone was deleted, what is there was kept or has arrived. */
  ghost predicate Swept(v: set<Cid>, store0: set<Multihash>, store: set<Multihash>, arrivals: set<Multihash>,
                        log: seq<Attempt>) {
    Attempted(log) !! Hashes(v) && Accounted(store0, store, arrivals, log)
  }

  /** Only logged deletions remove blocks, and only arrivals add any. */
  ghost predicate Accounted(store0: set<Multihash>, store: set<Multihash>, arrivals: set<Multihash>,
                            log: seq<Attempt>) {
    (store0 + arrivals) - Deleted(log) <= store <= (store0 - Deleted(log)) + arrivals
  }

  /** Every deletion that was tried went through unless the block cannot be deleted. */
  ghost predicate Honest(g: Collector, log: seq<Attempt>) {
    forall i :: 0 <= i < |log| ==> (log[i].deleted <==> log[i].key !in g.undeletable)
  }

  /** One key of the sweep: kept if any marked CID has its multihash, else deleted and
      reported. `sent` is false only when the context is done. */
  method SweepKey(g: Collector, k: Multihash, raw: set<Cid>, ghost store0: set<Multihash>, ghost log: seq<Attempt>)
    returns (ghost log': seq<Attempt>, failed: bool, sent: bool)
    requires forall h :: V1(RAW, h) in raw <==> h in Hashes(g.marked)
    requires Swept(g.marked, store0, g.store, g.arrivals, log) && Honest(g, log)
    modifies g`store, g`output
    ensures Swept(g.marked, store0, g.store, g.arrivals, log') && g.store <= old(g.store) && Honest(g, log')
    ensures Attempted(log) <= Attempted(log')
    ensures k in Hashes(g.marked) + Attempted(log')
    ensures AnyFailed(log') <==> AnyFailed(log) || failed
    ensures !sent ==> g.cancelled
    ensures sent ==> log <= log' && g.output == old(g.output) + Rendered(log'[|log|..])
  {
    log', failed, sent := log, false, true;
    if V1(RAW, k) !in raw {
      var deleted := DeleteBlock(g, k);
      Logged(log, Attempt(k, deleted));
      log', failed := log + [Attempt(k, deleted)], !deleted;
      sent := g.Emit(Shown(Attempt(k, deleted)));
    }
  }

  /** The sweep. `keys` is what the key channel delivers unless the context is cancelled.
      The context is looked at before every key, so a sweep entered after cancellation
      deletes nothing, whatever is in `raw`. */
  method Sweep(g: Collector, keys: seq<Multihash>, raw: set<Cid>) returns (ghost log: seq<Attempt>, failed: bool)
    requires g.locked && g.store <= g.w.content.Keys && g.arrivals <= g.store
    requires forall h :: V1(RAW, h) in raw <==> h in Hashes(g.marked)
    modifies g`store, g`arrivals, g`cancelled, g`output
    ensures old(g.cancelled) ==> g.cancelled && log == []
    ensures g.store <= g.w.content.Keys && g.arrivals <= old(g.arrivals) + g.w.content.Keys
    ensures Swept(g.marked, old(g.store), g.store, g.arrivals, log) && old(g.arrivals) <= g.arrivals
    ensures !g.cancelled ==> Elems(keys) <= Hashes(g.marked) + Attempted(log)
    ensures !g.cancelled ==> g.output == old(g.output) + Rendered(log)
    ensures (failed <==> AnyFailed(log)) && Honest(g, log)
  {
    log, failed := [], false;
    var i := 0;
    while i < |keys| && !g.cancelled
      invariant 0 <= i <= |keys|
      invariant g.store <= g.w.content.Keys && old(g.arrivals) <= g.arrivals <= old(g.arrivals) + g.w.content.Keys
      invariant old(g.cancelled) ==> g.cancelled && log == []
      invariant SoFar(g, old(g.store), old(g.output), keys[..i], log)
      invariant failed <==> AnyFailed(log)
      decreases |keys| - i
    {
      var bad, stop;
      assert keys[..i + 1] == keys[..i] + [keys[i]];
      log, bad, stop := SweepNext(g, keys[..i], keys[i], raw, old(g.store), old(g.output), log);
      failed := failed || bad;
      if stop { return; }
      i := i + 1;
    }
    assert !g.cancelled ==> keys[..i] == keys;
  }

  /** Where a sweep stands after `done` keys, unless it was cancelled. */
  ghost predicate SoFar(g: Collector, store0: set<Multihash>, output0: seq<Result>, done: seq<Multihash>,
                        log: seq<Attempt>)
    reads g
  {
    && Swept(g.marked, store0, g.store, g.arrivals, log) && Honest(g, log)
    && (g.cancelled || (Elems(done) <= Hashes(g.marked) + Attempted(log) && g.output == output0 + Rendered(log)))
  }

  /** One key, and what others do until the next. */
  method SweepNext(g: Collector, ghost done: seq<Multihash>, k: Multihash, raw: set<Cid>, ghost store0: set<Multihash>,
                   ghost output0: seq<Result>, ghost log: seq<Attempt>)
    returns (ghost log': seq<Attempt>, failed: bool, stop: bool)
    requires g.locked && g.store <= g.w.content.Keys && !g.cancelled && SoFar(g, store0, output0, done, log)
    requires forall h :: V1(RAW, h) in raw <==> h in Hashes(g.marked)
    modifies g`store, g`arrivals, g`cancelled, g`output
    ensures g.store <= g.w.content.Keys && old(g.arrivals) <= g.arrivals <= old(g.arrivals) + g.w.content.Keys
    ensures SoFar(g, store0, output0, done + [k], log')
    ensures AnyFailed(log') <==> AnyFailed(log) || failed
    ensures stop ==> g.cancelled
  {
    var sent;
    log', failed, sent := SweepKey(g, k, raw, store0, log);
    if !sent { return log', failed, true; }
    RenderedGrows(output0, log, log');
    ElemsAppend(done, k);
    stop := Pause(g, store0, output0, done + [k], log');
  }

  method Pause(g: Collector, ghost store0: set<Multihash>, ghost output0: seq<Result>, ghost done: seq<Multihash>,
               ghost log: seq<Attempt>)
    returns (stop: bool)
    requires g.locked && g.store <= g.w.content.Keys && SoFar(g, store0, output0, done, log)
    modifies g`store, g`arrivals, g`cancelled
    ensures g.store <= g.w.content.Keys && (old(g.cancelled) ==> g.cancelled)
    ensures old(g.arrivals) <= g.arrivals <= old(g.arrivals) + g.w.content.Keys
    ensures SoFar(g, store0, output0, done, log)
    ensures stop ==> g.cancelled
  {
    g.Interfere();
    var finish: bool := *;
    stop := g.cancelled && finish;
  }

  lemma RenderedGrows(before: seq<Result>, log: seq<Attempt>, log': seq<Attempt>)
    requires log <= log'
    ensures before + Rendered(log') == (before + Rendered(log)) + Rendered(log'[|log|..])
  {
    assert Rendered(log') == Rendered(log) + Rendered(log'[|log|..]);
  }

  lemma ElemsAppend(q: seq<Multihash>, k: Multihash)
    ensures Elems(q + [k]) == Elems(q) + {k}
  {
  }

  lemma Logged(log: seq<Attempt>, a: Attempt)
    ensures Deleted(log + [a]) == Deleted(log) + (if a.deleted then {a.key} else {})
    ensures Attempted(log + [a]) == Attempted(log) + {a.key}
    ensures AnyFailed(log + [a]) <==> AnyFailed(log) || !a.deleted
  {
    var l := log + [a];
    assert forall i :: 0 <= i < |log| ==> l[i] == log[i];
    assert l[|log|] == a && l[..|log|] == log;
  }

  /** `AllKeysChan`: every stored block once, in some order. */
  method AllKeys(g: Collector) returns (keys: seq<Multihash>)
    ensures Elems(keys) == g.store
  {
    keys := [];
    var todo := g.store;
    while todo != {}
      invariant todo <= g.store && Elems(keys) == g.store - todo
      decreases todo
    {
      var h :| h in todo;
      keys, todo := keys + [h], todo - {h};
    }
  }

  /** What a collection guarantees of its deletions, judged by the roots as they are when
      the block goes: no protected block is touched, and no block at all unless every pin
      stream was read to its end and the mark finished, every node to be walked fetched. */
  ghost predicate DeletionsJustified(g: Collector, log: seq<Attempt>)
    reads g
  {
    log != [] ==>
      && g.mfs.Roots? && MarkOf(g, g.marked) && Attempted(log) !! Hashes(g.marked)
      && (forall h :: h in Attempted(log) ==> Safe(g, h))
      && Clean(g.recursivePins) && Clean(g.directPins) && Clean(g.internalPins)
  }

  /** A finished sweep tried exactly the blocks whose multihash no marked CID carries. */
  ghost predicate ExactSweep(g: Collector, v: set<Cid>, log: seq<Attempt>)
    reads g
  {
    && g.mfs.Roots? && MarkOf(g, v)
    && g.since - Hashes(v) <= Attempted(log) && Attempted(log) !! Hashes(v)
  }

  /** What an uncancelled sweep puts out: one result for each attempt, then the error for some
      blocks exactly if a deletion failed, then the datastore's error if there was one. */
  function Summary(log: seq<Attempt>, collectErr: bool): (r: seq<Result>)
    ensures |log| <= |r| && r[..|log|] == Rendered(log)
    ensures (exists i :: 0 <= i < |log| && !log[i].deleted) ==> |log| < |r| && r[|log|] == CannotDeleteSomeBlocks
    ensures (forall i :: 0 <= i < |log| ==> log[i].deleted) ==> CannotDeleteSomeBlocks !in r[|log|..]
    ensures collectErr ==> |log| < |r| && r[|r| - 1] == CollectError
    ensures !collectErr ==> CollectError !in r[|log|..]
    ensures |r| <= |log| + 2 && CannotDeleteSomeBlocks !in r[..|log|]
  {
    Rendered(log) + Closing(AnyFailed(log), collectErr)
  }

  function Closing(failed: bool, collectErr: bool): seq<Result> {
    (if failed then [CannotDeleteSomeBlocks] else []) + (if collectErr then [CollectError] else [])
  }

  /** A garbage collection. `listable` says whether the blockstore can list its keys, and
      `collectErr` whether the datastore's own collection fails. */
  method Collect(g: Collector, listable: bool, collectErr: bool) returns (ghost log: seq<Attempt>, swept: bool)
    modifies g
    ensures !g.locked && (old(g.cancelled) ==> g.cancelled && log == [])
    ensures g.since + g.arrivals <= g.w.content.Keys
    ensures Accounted(g.since, g.store, g.arrivals, log)
    ensures DeletionsJustified(g, log) && Honest(g, log)
    ensures swept && !g.cancelled ==>
      ExactSweep(g, g.marked, log) && g.output == old(g.output) + Summary(log, collectErr)
    ensures swept && !g.cancelled && g.arrivals == {} ==> g.store == g.since * (Hashes(g.marked) + g.undeletable)
    ensures !swept ==> log == []
    ensures !swept && !g.cancelled ==> g.mfs.Unreadable? || GaveUp(g, old(g.output), listable)
    ensures g.mfs.Unreadable? && !g.cancelled ==> !swept && g.output == old(g.output) + [RootsError]
  {
    g.AwaitLock();
    log, swept := [], false;
    if g.mfs.Unreadable? {
      var _ := g.Emit(RootsError);
    } else {
      log, swept := MarkAndSweep(g, listable, collectErr);
      if swept && !g.cancelled && g.arrivals == {} { ExactlyMarkedRemain(g, log); }
    }
    g.locked := false;
  }

  /** Why a collection with roots ended before its sweep, and what it said last: the mark met
      trouble, reported on the way, or the keys could not be listed. */
  ghost predicate GaveUp(g: Collector, before: seq<Result>, listable: bool)
    reads g
  {
    || (!listable && g.output == before + [ListError])
    || (g.Trouble() && Clean(g.directPins) && |before| + 1 < |g.output| &&
        Reported(before, g.output[..|g.output| - 1], g.marked) && g.output[|g.output| - 1] == CannotFetchAllLinks)
    || (!Clean(g.directPins) && |before| < |g.output| &&
        Reported(before, g.output[..|g.output| - 1], g.marked) && g.output[|g.output| - 1] == StreamError)
  }

  method MarkAndSweep(g: Collector, listable: bool, collectErr: bool) returns (ghost log: seq<Attempt>, swept: bool)
    requires g.Valid() && g.mfs.Roots? && g.since == g.store && g.arrivals == {}
    modifies g`store, g`arrivals, g`seen, g`cancelled, g`marked, g`markErrors, g`output
    ensures g.since + g.arrivals <= g.w.content.Keys
    ensures old(g.cancelled) ==> g.cancelled && log == []
    ensures Accounted(g.since, g.store, g.arrivals, log)
    ensures DeletionsJustified(g, log) && Honest(g, log)
    ensures swept && !g.cancelled ==>
      ExactSweep(g, g.marked, log) && g.output == old(g.output) + Summary(log, collectErr)
    ensures !swept ==> log == []
    ensures !swept && !g.cancelled ==> GaveUp(g, old(g.output), listable)
  {
    log, swept := [], false;
    var ok, err := g.ColoredSet(g.mfs.cids);
    if !ok {
      var _ := g.Emit(err);
      return;
    }
    ghost var hi := g.store;
    var raw := ToRawCids(g.marked);
    g.Interfere();
    if !listable {
      var _ := g.Emit(ListError);
      return;
    }
    var keys := AllKeys(g);
    ghost var live, listed := !g.cancelled, g.store;
    var failed;
    log, failed := Sweep(g, keys, raw);
    swept := true;
    if live { Justify(g, hi, log); }
    SummaryParts(old(g.output), log, collectErr);
    Conclude(g, failed, collectErr);
  }

  lemma SummaryParts(before: seq<Result>, log: seq<Attempt>, collectErr: bool)
    ensures before + Summary(log, collectErr) == (before + Rendered(log)) + Closing(AnyFailed(log), collectErr)
  {
  }

  /** After the sweep: say whether deletions failed, and let the datastore collect. */
  method Conclude(g: Collector, failed: bool, collectErr: bool)
    modifies g`output
    ensures !g.cancelled ==> g.output == old(g.output) + Closing(failed, collectErr)
  {
    if failed {
      var sent := g.Emit(CannotDeleteSomeBlocks);
      if !sent { return; }
    }
    if collectErr { var _ := g.Emit(CollectError); }
  }

  lemma Justify(g: Collector, hi: set<Multihash>, log: seq<Attempt>)
    requires g.mfs.Roots? && hi <= g.since + g.arrivals <= g.w.content.Keys && Attempted(log) !! Hashes(g.marked)
    requires IsMark(g.w, g.since, hi, Keys(g.recursivePins), Norm(Elems(g.mfs.cids)), Keys(g.directPins),
                    Keys(g.internalPins), g.marked)
    ensures MarkOf(g, g.marked)
    ensures forall h :: h in Attempted(log) ==> Safe(g, h)
  {
    var r, m, d, i := Keys(g.recursivePins), Norm(Elems(g.mfs.cids)), Keys(g.directPins), Keys(g.internalPins);
    MarkAllowsArrivals(g.w, g.since, hi, g.since + g.arrivals, r, m, d, i, g.marked);
    forall h | h in Attempted(log) ensures Safe(g, h) {
      UnmarkedIsUnprotected(g.w, g.since, hi, r, m, d, i, g.marked, h);
    }
  }

  /** Undisturbed, a collection leaves exactly the blocks that share a multihash with some marked
      CID of any version or codec, and those that cannot be deleted. */
  lemma ExactlyMarkedRemain(g: Collector, log: seq<Attempt>)
    requires ExactSweep(g, g.marked, log) && Honest(g, log)
    requires Accounted(g.since, g.store, g.arrivals, log) && g.arrivals == {}
    ensures g.store == g.since * (Hashes(g.marked) + g.undeletable)
  {
    assert Deleted(log) == Attempted(log) - g.undeletable;
  }
}
