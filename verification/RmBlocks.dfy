/** Removing blocks by request, under the GC lock, sparing what is pinned. */
module RmBlocks {
  import opened Wrappers
  import opened Dag

  /** The pinner's answer for one requested key. */
  datatype PinStatus = PinStatus(key: Cid, pinned: bool)

  datatype RmOptions = RmOptions(quiet: bool, force: bool)

  datatype Removed =
    | RemovedOk(key: Cid)
    | CheckFailed
    | IsPinned(key: Cid)
    | HasFailed(key: Cid)
    | NotStored(key: Cid)
    | DeleteFailed(key: Cid)

  function Unpinned(res: seq<PinStatus>): seq<Cid> {
    if res == [] then []
    else Unpinned(res[..|res| - 1]) + (if res[|res| - 1].pinned then [] else [res[|res| - 1].key])
  }

  function PinnedKeys(res: seq<PinStatus>): seq<Removed> {
    if res == [] then []
    else PinnedKeys(res[..|res| - 1]) + (if res[|res| - 1].pinned then [IsPinned(res[|res| - 1].key)] else [])
  }

  lemma {:induction false} UnpinnedMember(res: seq<PinStatus>, c: Cid)
    ensures c in Unpinned(res) <==> PinStatus(c, false) in res
  {
    if res != [] {
      UnpinnedMember(res[..|res| - 1], c);
      assert res == res[..|res| - 1] + [res[|res| - 1]];
    }
  }

  /** Some key reported unpinned carries the multihash of `p`, under whatever codec or version. */
  ghost predicate Aliased(res: seq<PinStatus>, p: Cid) {
    exists i :: 0 <= i < |res| && !res[i].pinned && res[i].key.hash == p.hash
  }

  /** Exactly the keys reported pinned are said to be. */
  lemma {:induction false} PinnedKeysMember(res: seq<PinStatus>, c: Cid)
    ensures IsPinned(c) in PinnedKeys(res) <==> PinStatus(c, true) in res
    ensures forall r :: r in PinnedKeys(res) ==> r.IsPinned?
  {
    if res != [] {
      PinnedKeysMember(res[..|res| - 1], c);
      assert res == res[..|res| - 1] + [res[|res| - 1]];
    }
  }

  ghost predicate NothingFails(readable: nat -> bool, deletable: nat -> bool) {
    forall i :: readable(i) && deletable(i)
  }

  /** The block of a pinned key is still there exactly if no unpinned key is an alias of it. */
  ghost predicate SparedIffUnaliased(before: set<Multihash>, res: seq<PinStatus>, after: set<Multihash>) {
    forall p :: PinStatus(p, true) in res && p.hash in before ==> (p.hash in after <==> !Aliased(res, p))
  }

  /** Answers come one after the other, each where it stands in the list. */
  lemma {:induction false} AnswersJoin(a: seq<PinStatus>, b: seq<PinStatus>)
    ensures Unpinned(a + b) == Unpinned(a) + Unpinned(b) && PinnedKeys(a + b) == PinnedKeys(a) + PinnedKeys(b)
    decreases |b|
  {
    if b == [] {
      assert a + b == a;
    } else {
      AnswersJoin(a, b[..|b| - 1]);
      assert (a + b)[..|a + b| - 1] == a + b[..|b| - 1] && (a + b)[|a + b| - 1] == b[|b| - 1];
    }
  }

  class Remover {
    var store: set<Multihash>
    var out: seq<Removed>

    /** Split the answers: pinned keys are reported, the others returned. */
    method FilterPinned(check: Option<seq<PinStatus>>) returns (stillOkay: seq<Cid>)
      modifies this`out
      ensures check.None? ==> stillOkay == [] && out == old(out) + [CheckFailed]
      ensures check.Some? ==> stillOkay == Unpinned(check.value) && out == old(out) + PinnedKeys(check.value)
      ensures check.Some? ==> |stillOkay| + |out| == |old(out)| + |check.value|
    {
      if check.None? {
        out := out + [CheckFailed];
        return [];
      }
      var res := check.value;
      stillOkay := [];
      for i := 0 to |res|
        invariant stillOkay == Unpinned(res[..i]) && out == old(out) + PinnedKeys(res[..i])
        invariant |stillOkay| + |out| == |old(out)| + i
      {
        assert res[..i + 1][..i] == res[..i];
        if !res[i].pinned {
          stillOkay := stillOkay + [res[i].key];
        } else {
          out := out + [IsPinned(res[i].key)];
        }
      }
      assert res[..|res|] == res;
    }

    /** The removal proper. `check` is the pinner's answer, at most one status per requested
        key; `readable` and `deletable` say for each key tried whether looking its block up and
        deleting it go through. */
    method RmBlocks(cids: seq<Cid>, check: Option<seq<PinStatus>>, opts: RmOptions, readable: nat -> bool,
                    deletable: nat -> bool)
      requires out == [] && (check.Some? ==> |check.value| <= |cids|)
      modifies this
      // the output never outgrows a channel of the request's length
      ensures cids != [] || check.Some? ==> |out| <= |cids|
      ensures check.None? ==> store == old(store) && out == [CheckFailed]
      // exactly the multihashes of unpinned keys go for which nothing fails
      ensures check.Some? ==> store == old(store) - Gone(Unpinned(check.value), readable, deletable)
      // pinned keys are reported first, then one report for each other key in order
      ensures check.Some? ==>
        out == PinnedKeys(check.value) + Reports(old(store), Unpinned(check.value), opts, readable, deletable)
      // so the block of a pinned key is spared exactly if no unpinned key is an alias of it
      ensures check.Some? && NothingFails(readable, deletable) ==> SparedIffUnaliased(old(store), check.value, store)
    {
      var okay := FilterPinned(check);
      if check.Some? && NothingFails(readable, deletable) { AllTried(store, check.value, readable, deletable); }
      RmEach(okay, opts, readable, deletable);
    }

    method RmEach(okay: seq<Cid>, opts: RmOptions, readable: nat -> bool, deletable: nat -> bool)
      modifies this
      ensures store == old(store) - Gone(okay, readable, deletable) && |out| <= |old(out)| + |okay|
      ensures out == old(out) + Reports(old(store), okay, opts, readable, deletable)
    {
      for i := 0 to |okay|
        invariant |out| <= |old(out)| + i
        invariant store == old(store) - Gone(okay[..i], readable, deletable)
        invariant out == old(out) + Reports(old(store), okay[..i], opts, readable, deletable)
      {
        ReportsStep(old(store), okay, i, opts, readable, deletable);
        GoneStep(okay, i, readable, deletable);
        ghost var before := out;
        RmOne(okay[i], opts, readable(i), deletable(i));
        Appended(old(out), Reports(old(store), okay[..i], opts, readable, deletable), out[|before|..]);
      }
      assert okay[..|okay|] == okay;
    }

    method RmOne(c: Cid, opts: RmOptions, readable: bool, deletable: bool)
      modifies this
      ensures out == old(out) + Report(old(store), c, opts, readable, deletable)
      ensures store == if readable && deletable then old(store) - {c.hash} else old(store)
    {
      if !readable {
        out := out + [HasFailed(c)];
        return;
      }
      if c.hash !in store && !opts.force {
        out := out + [NotStored(c)];
        return;
      }
      if !deletable {
        out := out + [DeleteFailed(c)];
      } else {
        store := store - {c.hash};
        if !opts.quiet { out := out + [RemovedOk(c)]; }
      }
    }
  }

  ghost function Gone(okay: seq<Cid>, readable: nat -> bool, deletable: nat -> bool): set<Multihash> {
    set i | 0 <= i < |okay| && readable(i) && deletable(i) :: okay[i].hash
  }

  /** If nothing fails, all unpinned multihashes go and all others stay. */
  lemma AllTried(store: set<Multihash>, res: seq<PinStatus>, readable: nat -> bool, deletable: nat -> bool)
    requires NothingFails(readable, deletable)
    ensures SparedIffUnaliased(store, res, store - Gone(Unpinned(res), readable, deletable))
  {
    assert Gone(Unpinned(res), readable, deletable) == HashesOf(Unpinned(res));
    forall p | PinStatus(p, true) in res && p.hash in store
      ensures p.hash in store - HashesOf(Unpinned(res)) <==> !Aliased(res, p)
    {
      PinnedBlockSparedIff(store, res, p);
    }
  }

  lemma GoneStep(okay: seq<Cid>, i: nat, readable: nat -> bool, deletable: nat -> bool)
    requires i < |okay|
    ensures Gone(okay[..i + 1], readable, deletable) ==
      Gone(okay[..i], readable, deletable) + if readable(i) && deletable(i) then {okay[i].hash} else {}
  {
    assert forall j :: 0 <= j < i ==> okay[..i + 1][j] == okay[..i][j];
    assert okay[..i + 1][i] == okay[i];
  }

  /** What is said of one key, given the blocks there are. */
  function Report(store: set<Multihash>, c: Cid, opts: RmOptions, readable: bool, deletable: bool): (r: seq<Removed>)
    ensures |r| <= 1
  {
    if !readable then [HasFailed(c)]
    else if c.hash !in store && !opts.force then [NotStored(c)]
    else if !deletable then [DeleteFailed(c)]
    else if opts.quiet then []
    else [RemovedOk(c)]
  }

  /** At most one thing is said, and it is the truth. */
  lemma ReportTells(store: set<Multihash>, c: Cid, opts: RmOptions, readable: bool, deletable: bool)
    ensures var r := Report(store, c, opts, readable, deletable);
      && |r| <= 1 && (r == [] <==> readable && deletable && opts.quiet && (opts.force || c.hash in store))
      && (HasFailed(c) in r <==> !readable)
      && (NotStored(c) in r <==> readable && c.hash !in store && !opts.force)
      && (DeleteFailed(c) in r <==> readable && (opts.force || c.hash in store) && !deletable)
      && (RemovedOk(c) in r <==> readable && (opts.force || c.hash in store) && deletable && !opts.quiet)
  {
  }

  /** The reports on all keys tried, each on the blocks that the ones before it left. */
  ghost function Reports(store: set<Multihash>, okay: seq<Cid>, opts: RmOptions, readable: nat -> bool,
                         deletable: nat -> bool): seq<Removed> {
    if okay == [] then []
    else
      var n := |okay| - 1;
      Reports(store, okay[..n], opts, readable, deletable) +
      Report(store - Gone(okay[..n], readable, deletable), okay[n], opts, readable(n), deletable(n))
  }

  lemma Appended(a: seq<Removed>, b: seq<Removed>, c: seq<Removed>)
    ensures (a + b) + c == a + (b + c)
  {
  }

  lemma ReportsStep(store: set<Multihash>, okay: seq<Cid>, i: nat, opts: RmOptions, readable: nat -> bool,
                    deletable: nat -> bool)
    requires i < |okay|
    ensures Reports(store, okay[..i + 1], opts, readable, deletable) ==
      Reports(store, okay[..i], opts, readable, deletable) +
      Report(store - Gone(okay[..i], readable, deletable), okay[i], opts, readable(i), deletable(i))
  {
    assert okay[..i + 1][..i] == okay[..i] && okay[..i + 1][i] == okay[i];
  }

  /** A removal without failures spares the block of a pinned key exactly if no requested key
      reported unpinned carries the same multihash under another codec or version. */
  lemma PinnedBlockSparedIff(store: set<Multihash>, res: seq<PinStatus>, p: Cid)
    requires PinStatus(p, true) in res && p.hash in store
    ensures p.hash in store - HashesOf(Unpinned(res)) <==> !Aliased(res, p)
  {
    if i :| 0 <= i < |res| && !res[i].pinned && res[i].key.hash == p.hash {
      UnpinnedMember(res, res[i].key);
      assert res[i] == PinStatus(res[i].key, false);
    }
    if p.hash in HashesOf(Unpinned(res)) {
      var j :| 0 <= j < |Unpinned(res)| && Unpinned(res)[j].hash == p.hash;
      UnpinnedMember(res, Unpinned(res)[j]);
    }
  }

  /** So being reported pinned does not protect a block by itself. */
  lemma AliasRemovesPinnedBlock()
    ensures 7 !in {7} - HashesOf(Unpinned([PinStatus(V0(7), true), PinStatus(V1(RAW, 7), false)]))
  {
    var res := [PinStatus(V0(7), true), PinStatus(V1(RAW, 7), false)];
    assert PinStatus(V0(7), true) in res && res[1] == PinStatus(V1(RAW, 7), false);
    PinnedBlockSparedIff({7}, res, V0(7));
  }
}
