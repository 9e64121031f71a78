/** `ipfs repo verify`: a pool of workers checking, dropping and healing blocks, and the
    loop that collects their results, under every interleaving of the workers and with the
    request cancelled at any time. */
module VerifyPool {

  type Key = nat

  datatype Options = Options(drop: bool, heal: bool)

  datatype Outcome = Valid | Corrupt | Removed | RemoveFailed | Healed | HealFailed

  datatype Result = Result(key: Key, outcome: Outcome)

  datatype Worker =
    | Idle
    | Reading(key: Key)
    | Deleting(key: Key)
    | Healing(key: Key)
    | Sending(key: Key, outcome: Outcome)
    | Exited
  {
    predicate Holds(k: Key) { !Idle? && !Exited? && key == k }
  }

  /** `queue` is what the key channel still holds, `store` the blocks present and `bad`
      those of them that do not match their CID. */
  datatype State = State(queue: set<Key>, workers: seq<Worker>, results: seq<Result>, closed: bool, cancelled: bool,
                         store: set<Key>, bad: set<Key>)

  datatype Step =
    | Take(i: nat, k: Key)
    | Exit(i: nat)
    | Read(i: nat, ok: bool)
    | Delete(i: nat, ok: bool)
    | Heal(i: nat, ok: bool)
    | Send(i: nat)
    | Quit(i: nat)
    | Close
    | Cancel

  /** Sending is not made to depend on the channel being open: that it is, is a theorem.
      Once the request is cancelled the key channel may close early, a worker may give up on
      sending and leave, and reading a block that is fine may fail. */
  predicate Enabled(o: Options, s: State, t: Step) {
    match t
    case Take(i, k) => i < |s.workers| && s.workers[i].Idle? && k in s.queue
    case Exit(i) => i < |s.workers| && s.workers[i].Idle? && (s.queue == {} || s.cancelled)
    case Read(i, ok) => i < |s.workers| && s.workers[i].Reading? && (ok || s.cancelled)
    case Delete(i, _) => i < |s.workers| && s.workers[i].Deleting?
    case Heal(i, _) => i < |s.workers| && s.workers[i].Healing?
    case Send(i) => i < |s.workers| && s.workers[i].Sending?
    case Quit(i) => i < |s.workers| && s.workers[i].Sending? && s.cancelled
    case Cancel => !s.cancelled
    case Close => !s.closed && forall i :: 0 <= i < |s.workers| ==> s.workers[i].Exited?
  }

  function Apply(o: Options, s: State, t: Step): State
    requires Enabled(o, s, t)
  {
    match t
    case Take(i, k) => s.(queue := s.queue - {k}, workers := s.workers[i := Reading(k)])
    case Exit(i) => s.(workers := s.workers[i := Exited])
    case Read(i, ok) =>
      var k := s.workers[i].key;
      s.(workers := s.workers[i :=
        if ok && k in s.store && k !in s.bad then Sending(k, Valid)
        else if o.drop then Deleting(k)
        else Sending(k, Corrupt)])
    case Delete(i, ok) =>
      var k := s.workers[i].key;
      if !ok then s.(workers := s.workers[i := Sending(k, RemoveFailed)])
      else s.(workers := s.workers[i := if o.heal then Healing(k) else Sending(k, Removed)], store := s.store - {k},
              bad := s.bad - {k})
    case Heal(i, ok) =>
      var k := s.workers[i].key;
      if ok then s.(workers := s.workers[i := Sending(k, Healed)], store := s.store + {k})
      else s.(workers := s.workers[i := Sending(k, HealFailed)])
    case Send(i) =>
      s.(workers := s.workers[i := Idle], results := s.results + [Result(s.workers[i].key, s.workers[i].outcome)])
    case Quit(i) => s.(workers := s.workers[i := Exited])
    case Cancel => s.(cancelled := true)
    case Close => s.(closed := true)
  }

  ghost predicate Init(s: State) {
    && s.queue == s.store && s.bad <= s.store && s.results == [] && !s.closed && !s.cancelled
    && forall i :: 0 <= i < |s.workers| ==> s.workers[i].Idle?
  }

  function Keys(rs: seq<Result>): (ks: set<Key>)
    ensures forall k :: k in ks <==> exists i :: 0 <= i < |rs| && rs[i].key == k
  {
    set i | 0 <= i < |rs| :: rs[i].key
  }

  ghost predicate Distinct(rs: seq<Result>) {
    forall i, j :: 0 <= i < j < |rs| ==> rs[i].key != rs[j].key
  }

  ghost predicate Held(s: State, k: Key) {
    exists i :: 0 <= i < |s.workers| && s.workers[i].Holds(k)
  }

  ghost predicate Somewhere(s: State, k: Key) {
    k in s.queue || Held(s, k) || k in Keys(s.results)
  }

  /** No key is in two places, be it the channel, a worker or a result, and until the request
      is cancelled every key is in one. */
  ghost predicate EachOnce(s0: State, s: State) {
    && (forall k :: Somewhere(s, k) ==> k in s0.store)
    && (!s.cancelled ==> forall k :: k in s0.store ==> Somewhere(s, k))
    && Distinct(s.results) && s.queue !! Keys(s.results)
    && (forall i :: 0 <= i < |s.workers| ==> forall k :: s.workers[i].Holds(k) ==>
          k !in s.queue && k !in Keys(s.results))
    && (forall i, j :: 0 <= i < j < |s.workers| ==> forall k :: s.workers[i].Holds(k) ==> !s.workers[j].Holds(k))
  }

  /** The block could not be read: it was bad, or the request was cancelled. */
  ghost predicate Suspect(s0: State, s: State, k: Key) {
    k in s0.bad || s.cancelled
  }

  ghost predicate AsBefore(s0: State, s: State, k: Key) {
    k in s.store && (k in s.bad <==> k in s0.bad)
  }

  /** What a block looks like given how far its key has come. */
  ghost predicate Fits(o: Options, s0: State, s: State, k: Key, outcome: Outcome) {
    match outcome
    case Valid => k !in s0.bad && AsBefore(s0, s, k)
    case Corrupt => Suspect(s0, s, k) && !o.drop && AsBefore(s0, s, k)
    case Removed => Suspect(s0, s, k) && o.drop && !o.heal && k !in s.store && k !in s.bad
    case RemoveFailed => Suspect(s0, s, k) && o.drop && AsBefore(s0, s, k)
    case Healed => Suspect(s0, s, k) && o.drop && o.heal && k in s.store && k !in s.bad
    case HealFailed => Suspect(s0, s, k) && o.drop && o.heal && k !in s.store && k !in s.bad
  }

  ghost predicate WorkerFits(o: Options, s0: State, s: State, w: Worker) {
    match w
    case Idle => true
    case Exited => true
    case Reading(k) => AsBefore(s0, s, k)
    case Deleting(k) => Suspect(s0, s, k) && o.drop && AsBefore(s0, s, k)
    case Healing(k) => Suspect(s0, s, k) && o.drop && o.heal && k !in s.store && k !in s.bad
    case Sending(k, outcome) => Fits(o, s0, s, k, outcome)
  }

  ghost predicate Inv(o: Options, s0: State, s: State) {
    && EachOnce(s0, s)
    && s.bad <= s.store && s.store <= s0.store
    && (forall k :: k in s.queue ==> AsBefore(s0, s, k))
    && (forall k :: k in s0.store && k !in s0.bad && !(o.drop && s.cancelled) ==> k in s.store)
    && (forall i :: 0 <= i < |s.workers| ==> WorkerFits(o, s0, s, s.workers[i]))
    && (forall i :: 0 <= i < |s.results| ==> Fits(o, s0, s, s.results[i].key, s.results[i].outcome))
    && Closing(s)
  }

  ghost predicate Closing(s: State) {
    && (s.closed ==> forall i :: 0 <= i < |s.workers| ==> s.workers[i].Exited?)
    && ((exists i :: 0 <= i < |s.workers| && s.workers[i].Exited?) ==> s.queue == {} || s.cancelled)
  }

  lemma InitInv(o: Options, s: State)
    requires Init(s)
    ensures Inv(o, s, s)
  {
    assert Keys(s.results) == {};
  }

  lemma KeysAppend(rs: seq<Result>, r: Result)
    ensures Keys(rs + [r]) == Keys(rs) + {r.key}
  {
    var q := rs + [r];
    assert q[|rs|] == r;
    assert forall i :: 0 <= i < |rs| ==> q[i] == rs[i];
  }

  /** A worker going on with the key it has. */
  lemma SameKeyKeepsEachOnce(s0: State, s: State, s': State, i: nat)
    requires EachOnce(s0, s) && i < |s.workers|
    requires s'.queue == s.queue && s'.results == s.results && s'.cancelled == s.cancelled &&
      |s'.workers| == |s.workers|
    requires forall j :: 0 <= j < |s.workers| && j != i ==> s'.workers[j] == s.workers[j]
    requires forall k :: s'.workers[i].Holds(k) <==> s.workers[i].Holds(k)
    ensures EachOnce(s0, s')
  {
    forall k ensures Held(s, k) <==> Held(s', k) {
      if Held(s, k) { var j :| 0 <= j < |s.workers| && s.workers[j].Holds(k); assert s'.workers[j].Holds(k); }
      if Held(s', k) { var j :| 0 <= j < |s.workers| && s'.workers[j].Holds(k); assert s.workers[j].Holds(k); }
    }
  }

  lemma QuitKeepsEachOnce(s0: State, s: State, i: nat, s': State)
    requires EachOnce(s0, s) && s.cancelled && i < |s.workers| && s' == s.(workers := s.workers[i := Exited])
    ensures EachOnce(s0, s')
  {
    forall k | Held(s', k) ensures Held(s, k) {
      var j :| 0 <= j < |s.workers| && s'.workers[j].Holds(k);
      assert s.workers[j].Holds(k);
    }
    assert forall k :: Somewhere(s', k) ==> Somewhere(s, k);
  }

  lemma TakeKeepsEachOnce(s0: State, s: State, i: nat, k: Key, s': State)
    requires EachOnce(s0, s) && i < |s.workers| && s.workers[i].Idle? && k in s.queue
    requires s' == s.(queue := s.queue - {k}, workers := s.workers[i := Reading(k)])
    ensures EachOnce(s0, s')
  {
    assert s'.workers[i].Holds(k);
    forall x | x != k ensures Held(s, x) <==> Held(s', x) {
      if Held(s, x) { var j :| 0 <= j < |s.workers| && s.workers[j].Holds(x); assert s'.workers[j].Holds(x); }
      if Held(s', x) { var j :| 0 <= j < |s.workers| && s'.workers[j].Holds(x); assert s.workers[j].Holds(x); }
    }
  }

  lemma SendKeepsEachOnce(s0: State, s: State, i: nat, s': State)
    requires EachOnce(s0, s) && i < |s.workers| && s.workers[i].Sending?
    requires s' == s.(workers := s.workers[i := Idle],
                      results := s.results + [Result(s.workers[i].key, s.workers[i].outcome)])
    ensures EachOnce(s0, s')
  {
    var k := s.workers[i].key;
    KeysAppend(s.results, Result(k, s.workers[i].outcome));
    assert s.workers[i].Holds(k);
    forall x | x != k ensures Held(s, x) <==> Held(s', x) {
      if Held(s, x) { var j :| 0 <= j < |s.workers| && s.workers[j].Holds(x); assert s'.workers[j].Holds(x); }
      if Held(s', x) { var j :| 0 <= j < |s.workers| && s'.workers[j].Holds(x); assert s.workers[j].Holds(x); }
    }
  }

  lemma StepKeepsEachOnce(o: Options, s0: State, s: State, t: Step)
    requires EachOnce(s0, s) && Enabled(o, s, t)
    ensures EachOnce(s0, Apply(o, s, t))
  {
    var s' := Apply(o, s, t);
    match t
    case Take(i, k) => TakeKeepsEachOnce(s0, s, i, k, s');
    case Exit(i) => SameKeyKeepsEachOnce(s0, s, s', i);
    case Read(i, _) => SameKeyKeepsEachOnce(s0, s, s', i);
    case Delete(i, _) => SameKeyKeepsEachOnce(s0, s, s', i);
    case Heal(i, _) => SameKeyKeepsEachOnce(s0, s, s', i);
    case Send(i) => SendKeepsEachOnce(s0, s, i, s');
    case Quit(i) => QuitKeepsEachOnce(s0, s, i, s');
    case Cancel =>
      forall k ensures Held(s, k) <==> Held(s', k) { }
      assert forall k :: Somewhere(s', k) ==> Somewhere(s, k);
    case Close =>
      forall k ensures Held(s, k) <==> Held(s', k) { }
      assert forall k :: Somewhere(s', k) <==> Somewhere(s, k);
  }

  /** Deleting and healing happen to keys that are nowhere else. */
  lemma ActedOnAlone(s0: State, s: State, i: nat)
    requires EachOnce(s0, s) && i < |s.workers| && (s.workers[i].Deleting? || s.workers[i].Healing?)
    ensures s.workers[i].key !in s.queue && s.workers[i].key !in Keys(s.results) && s.workers[i].key in s0.store
    ensures forall j :: 0 <= j < |s.workers| && j != i ==> !s.workers[j].Holds(s.workers[i].key)
  {
    assert s.workers[i].Holds(s.workers[i].key);
    assert Held(s, s.workers[i].key);
  }

  lemma WorkerStillFits(o: Options, s0: State, s: State, t: Step, j: nat)
    requires Inv(o, s0, s) && Enabled(o, s, t) && j < |s.workers|
    ensures WorkerFits(o, s0, Apply(o, s, t), Apply(o, s, t).workers[j])
  {
    assert WorkerFits(o, s0, s, s.workers[j]);
    if t.Delete? || t.Heal? { ActedOnAlone(s0, s, t.i); }
  }

  lemma ResultStillFits(o: Options, s0: State, s: State, t: Step, j: nat)
    requires Inv(o, s0, s) && Enabled(o, s, t) && j < |Apply(o, s, t).results|
    ensures Fits(o, s0, Apply(o, s, t), Apply(o, s, t).results[j].key, Apply(o, s, t).results[j].outcome)
  {
    if t.Delete? || t.Heal? {
      ActedOnAlone(s0, s, t.i);
      assert s.results[j].key in Keys(s.results);
    }
  }

  lemma QueueStillFits(o: Options, s0: State, s: State, t: Step, k: Key)
    requires Inv(o, s0, s) && Enabled(o, s, t) && k in Apply(o, s, t).queue
    ensures k in Apply(o, s, t).store && (k in Apply(o, s, t).bad <==> k in s0.bad)
  {
    if t.Delete? || t.Heal? { ActedOnAlone(s0, s, t.i); }
  }

  lemma StoreStaysInBounds(o: Options, s0: State, s: State, t: Step)
    requires Inv(o, s0, s) && Enabled(o, s, t)
    ensures Apply(o, s, t).bad <= Apply(o, s, t).store <= s0.store
  {
    if t.Delete? || t.Heal? { ActedOnAlone(s0, s, t.i); }
  }

  lemma StepKeepsInv(o: Options, s0: State, s: State, t: Step)
    requires Inv(o, s0, s) && Enabled(o, s, t)
    ensures Inv(o, s0, Apply(o, s, t))
  {
    var s' := Apply(o, s, t);
    StepKeepsEachOnce(o, s0, s, t);
    StoreStaysInBounds(o, s0, s, t);
    forall k | k in s'.queue ensures k in s'.store && (k in s'.bad <==> k in s0.bad) { QueueStillFits(o, s0, s, t, k); }
    forall j | 0 <= j < |s'.workers| ensures WorkerFits(o, s0, s', s'.workers[j]) { WorkerStillFits(o, s0, s, t, j); }
    forall j | 0 <= j < |s'.results| ensures Fits(o, s0, s', s'.results[j].key, s'.results[j].outcome) {
      ResultStillFits(o, s0, s, t, j);
    }
    ClosingStillHolds(o, s0, s, t);
  }

  /** Workers leave only when the key channel is empty, and the channel closes last. */
  lemma ClosingStillHolds(o: Options, s0: State, s: State, t: Step)
    requires Inv(o, s0, s) && Enabled(o, s, t)
    ensures Closing(Apply(o, s, t))
  {
    var s' := Apply(o, s, t);
    if i: nat :| i < |s'.workers| && s'.workers[i].Exited? && t != Exit(i) && t != Quit(i) {
      assert s.workers[i].Exited?;
    }
  }

  ghost predicate IsRun(o: Options, run: seq<State>, steps: seq<Step>) {
    && |run| == |steps| + 1 && Init(run[0])
    && forall k :: 0 <= k < |steps| ==> Enabled(o, run[k], steps[k]) && run[k + 1] == Apply(o, run[k], steps[k])
  }

  lemma {:induction false} RunKeepsInv(o: Options, run: seq<State>, steps: seq<Step>, k: nat)
    requires IsRun(o, run, steps) && k <= |steps|
    ensures Inv(o, run[0], run[k])
  {
    if k == 0 {
      InitInv(o, run[0]);
    } else {
      RunKeepsInv(o, run, steps, k - 1);
      StepKeepsInv(o, run[0], run[k - 1], steps[k - 1]);
    }
  }

  /** No worker sends after the channel is closed. */
  lemma NoSendAfterClose(o: Options, run: seq<State>, steps: seq<Step>, k: nat)
    requires IsRun(o, run, steps) && k < |steps| && steps[k].Send?
    ensures !run[k].closed
  {
    RunKeepsInv(o, run, steps, k);
  }

  /** Without flags the store is never touched. */
  lemma {:induction false} ReadOnlyWithoutDrop(o: Options, run: seq<State>, steps: seq<Step>, k: nat)
    requires IsRun(o, run, steps) && k <= |steps| && !o.drop
    ensures run[k].store == run[0].store && run[k].bad == run[0].bad
  {
    if k > 0 {
      ReadOnlyWithoutDrop(o, run, steps, k - 1);
      RunKeepsInv(o, run, steps, k - 1);
      var s := run[k - 1];
      assert forall i :: 0 <= i < |s.workers| ==> WorkerFits(o, run[0], s, s.workers[i]);
    }
  }

  /** A block that was fine goes only in a cancelled request with removal asked for. */
  lemma GoodBlockGoesOnlyCancelled(o: Options, run: seq<State>, steps: seq<Step>, j: nat, k: Key)
    requires IsRun(o, run, steps) && j <= |steps| && k in run[0].store && k !in run[0].bad && k !in run[j].store
    ensures o.drop && run[j].cancelled
  {
    RunKeepsInv(o, run, steps, j);
  }

  ghost predicate Loses(o: Options, s0: State, k: Key, run: seq<State>, steps: seq<Step>) {
    IsRun(o, run, steps) && run[0] == s0 && k !in run[|steps|].store
  }

  /** The run that loses it: taken, cancelled, not readable any more, removed. */
  lemma LosingRun(o: Options, s0: State, k: Key) returns (run: seq<State>, steps: seq<Step>)
    requires Init(s0) && k in s0.store && |s0.workers| > 0 && o.drop
    ensures Loses(o, s0, k, run, steps)
  {
    var s1 := Apply(o, s0, Take(0, k));
    var s2 := Apply(o, s1, Cancel);
    var s3 := Apply(o, s2, Read(0, false));
    var s4 := Apply(o, s3, Delete(0, true));
    run, steps := [s0, s1, s2, s3, s4], [Take(0, k), Cancel, Read(0, false), Delete(0, true)];
  }

  /** So a block that is fine can get lost exactly if removal is asked for. */
  lemma GoodBlockMayGoIff(o: Options, s0: State, k: Key)
    requires Init(s0) && k in s0.store && k !in s0.bad && |s0.workers| > 0
    ensures (exists run, steps :: Loses(o, s0, k, run, steps)) <==> o.drop
  {
    if run, steps :| Loses(o, s0, k, run, steps) {
      GoodBlockGoesOnlyCancelled(o, run, steps, |steps|, k);
    }
    if o.drop {
      var run, steps := LosingRun(o, s0, k);
    }
  }

  /** Once the channel is closed, every key has exactly one result, unless the request was
      cancelled, and never more than one. */
  lemma ClosedIsComplete(o: Options, run: seq<State>, steps: seq<Step>)
    requires IsRun(o, run, steps) && run[|steps|].closed && |run[0].workers| > 0
    ensures Keys(run[|steps|].results) <= run[0].store && Distinct(run[|steps|].results)
    ensures !run[|steps|].cancelled ==> Keys(run[|steps|].results) == run[0].store
  {
    RunKeepsInv(o, run, steps, |steps|);
    WorkersStay(o, run, steps, |steps|);
    var s := run[|steps|];
    assert s.workers[0].Exited?;
    assert forall k :: !Held(s, k);
    assert forall k :: k in Keys(s.results) ==> Somewhere(s, k);
  }

  lemma {:induction false} WorkersStay(o: Options, run: seq<State>, steps: seq<Step>, k: nat)
    requires IsRun(o, run, steps) && k <= |steps|
    ensures |run[k].workers| == |run[0].workers|
  {
    if k > 0 { WorkersStay(o, run, steps, k - 1); }
  }

  /** How many steps a worker can still take with what it has. */
  function Weight(w: Worker): nat {
    match w
    case Exited => 0
    case Idle => 1
    case Sending(_, _) => 2
    case Healing(_) => 3
    case Deleting(_) => 4
    case Reading(_) => 5
  }

  function Work(ws: seq<Worker>): nat {
    if ws == [] then 0 else Work(ws[..|ws| - 1]) + Weight(ws[|ws| - 1])
  }

  lemma {:induction false} WorkUpdate(ws: seq<Worker>, i: nat, w: Worker)
    requires i < |ws|
    ensures Work(ws[i := w]) + Weight(ws[i]) == Work(ws) + Weight(w)
  {
    var init := ws[..|ws| - 1];
    if i == |ws| - 1 {
      assert ws[i := w][..|ws| - 1] == init;
    } else {
      WorkUpdate(init, i, w);
      assert ws[i := w][..|ws| - 1] == init[i := w];
    }
  }

  /** What is left to do: six steps for a queued key at most, and closing and cancelling. */
  function Remaining(s: State): nat {
    6 * |s.queue| + Work(s.workers) + (if s.closed then 0 else 1) + (if s.cancelled then 0 else 1)
  }

  /** The worker taking a step has less to do after it, unless it takes a key. */
  lemma WorkerIsProgress(o: Options, s: State, t: Step)
    requires Enabled(o, s, t) && !t.Close? && !t.Cancel?
    ensures |Apply(o, s, t).workers| == |s.workers| && t.i < |s.workers|
    ensures Apply(o, s, t).workers == s.workers[t.i := Apply(o, s, t).workers[t.i]]
    ensures Weight(Apply(o, s, t).workers[t.i]) < Weight(s.workers[t.i]) + if t.Take? then 6 else 0
  {
  }

  lemma StepIsProgress(o: Options, s: State, t: Step)
    requires Enabled(o, s, t)
    ensures Remaining(Apply(o, s, t)) < Remaining(s)
  {
    if !t.Close? && !t.Cancel? {
      WorkerIsProgress(o, s, t);
      WorkUpdate(s.workers, t.i, Apply(o, s, t).workers[t.i]);
    }
  }

  lemma {:induction false} IdleWork(ws: seq<Worker>)
    requires forall i :: 0 <= i < |ws| ==> ws[i].Idle?
    ensures Work(ws) == |ws|
  {
    if ws != [] { IdleWork(ws[..|ws| - 1]); }
  }

  lemma {:induction false} RunIsProgress(o: Options, run: seq<State>, steps: seq<Step>, k: nat)
    requires IsRun(o, run, steps) && k <= |steps|
    ensures k + Remaining(run[k]) <= Remaining(run[0])
  {
    if k > 0 {
      RunIsProgress(o, run, steps, k - 1);
      StepIsProgress(o, run[k - 1], steps[k - 1]);
    }
  }

  /** As long as the channel is open something can be done, without waiting for a cancel. */
  lemma NeverStuck(o: Options, s: State) returns (t: Step)
    requires !s.closed
    ensures Enabled(o, s, t) && !t.Cancel?
  {
    if i: nat :| i < |s.workers| && !s.workers[i].Exited? {
      match s.workers[i]
      case Idle => if k :| k in s.queue { t := Take(i, k); } else { t := Exit(i); }
      case Reading(_) => t := Read(i, true);
      case Deleting(_) => t := Delete(i, true);
      case Healing(_) => t := Heal(i, true);
      case Sending(_, _) => t := Send(i);
    } else {
      t := Close;
    }
  }

  /** Every verification comes to its end: no run is longer than the work there was to begin
      with, and one that cannot go on has closed the channel. */
  lemma VerificationEnds(o: Options, run: seq<State>, steps: seq<Step>)
    requires IsRun(o, run, steps)
    ensures |steps| <= 6 * |run[0].store| + |run[0].workers| + 2
    ensures (forall t :: Enabled(o, run[|steps|], t) ==> t.Cancel?) ==> run[|steps|].closed
  {
    RunIsProgress(o, run, steps, |steps|);
    IdleWork(run[0].workers);
    if !run[|steps|].closed { var t := NeverStuck(o, run[|steps|]); }
  }

  datatype Counters = Counters(corrupted: nat, removed: nat, removeFailed: nat, healed: nat, healFailed: nat)

  ghost function CountOf(rs: seq<Result>, outcomes: set<Outcome>): nat {
    if rs == [] then 0
    else CountOf(rs[..|rs| - 1], outcomes) + (if rs[|rs| - 1].outcome in outcomes then 1 else 0)
  }

  ghost predicate Has(rs: seq<Result>, o: Outcome) {
    exists i :: 0 <= i < |rs| && rs[i].outcome == o
  }

  /** The collecting loop and the decision at its end, where a cancelled request fails. */
  method Report(o: Options, rs: seq<Result>, cancelled: bool) returns (c: Counters, success: bool)
    ensures c.corrupted == CountOf(rs, {Corrupt, Removed, RemoveFailed, Healed, HealFailed})
    ensures c.removed == CountOf(rs, {Removed, Healed, HealFailed}) && c.removeFailed == CountOf(rs, {RemoveFailed})
    ensures c.healed == CountOf(rs, {Healed}) && c.healFailed == CountOf(rs, {HealFailed})
    ensures success <==> !cancelled && Success(o, rs)
  {
    c := Counters(0, 0, 0, 0, 0);
    for i := 0 to |rs|
      invariant c.corrupted == CountOf(rs[..i], {Corrupt, Removed, RemoveFailed, Healed, HealFailed})
      invariant c.removed == CountOf(rs[..i], {Removed, Healed, HealFailed}) &&
        c.removeFailed == CountOf(rs[..i], {RemoveFailed})
      invariant c.healed == CountOf(rs[..i], {Healed}) && c.healFailed == CountOf(rs[..i], {HealFailed})
    {
      assert rs[..i + 1][..i] == rs[..i];
      match rs[i].outcome {
        case Corrupt => c := c.(corrupted := c.corrupted + 1);
        case Removed => c := c.(corrupted := c.corrupted + 1, removed := c.removed + 1);
        case RemoveFailed => c := c.(corrupted := c.corrupted + 1, removeFailed := c.removeFailed + 1);
        case Healed => c := c.(corrupted := c.corrupted + 1, removed := c.removed + 1, healed := c.healed + 1);
        case HealFailed =>
          c := c.(corrupted := c.corrupted + 1, removed := c.removed + 1, healFailed := c.healFailed + 1);
        case Valid =>
      }
    }
    assert rs[..|rs|] == rs;
    CountZero(rs, {Corrupt, Removed, RemoveFailed, Healed, HealFailed});
    CountZero(rs, {RemoveFailed});
    CountZero(rs, {HealFailed});
    if cancelled {
      success := false;
    } else if c.corrupted > 0 {
      success := if !o.drop then false
                 else if o.heal then !(c.removeFailed > 0 || c.healFailed > 0)
                 else !(c.removeFailed > 0);
    } else {
      success := true;
    }
  }

  lemma {:induction false} CountZero(rs: seq<Result>, outcomes: set<Outcome>)
    ensures CountOf(rs, outcomes) == 0 <==> forall i :: 0 <= i < |rs| ==> rs[i].outcome !in outcomes
  {
    if rs != [] { CountZero(rs[..|rs| - 1], outcomes); }
  }

  ghost function KeysOf(rs: seq<Result>, outcomes: set<Outcome>): set<Key> {
    set i | 0 <= i < |rs| && rs[i].outcome in outcomes :: rs[i].key
  }

  lemma KeysOfAppend(rs: seq<Result>, r: Result, outcomes: set<Outcome>)
    ensures KeysOf(rs + [r], outcomes) == KeysOf(rs, outcomes) + if r.outcome in outcomes then {r.key} else {}
  {
    var q := rs + [r];
    assert q[|rs|] == r;
    assert forall i :: 0 <= i < |rs| ==> q[i] == rs[i];
  }

  /** With one result per key, counting results is counting blocks. */
  lemma {:induction false} CountIsSize(rs: seq<Result>, outcomes: set<Outcome>)
    requires Distinct(rs)
    ensures CountOf(rs, outcomes) == |KeysOf(rs, outcomes)|
  {
    if rs != [] {
      var init, r := rs[..|rs| - 1], rs[|rs| - 1];
      CountIsSize(init, outcomes);
      KeysOfAppend(init, r, outcomes);
      assert init + [r] == rs;
      assert r.key !in KeysOf(init, outcomes);
    }
  }

  const REMOVALS := {Removed, Healed, HealFailed}
  const FAULTS := {Corrupt, Removed, RemoveFailed, Healed, HealFailed}

  /** The outcomes a worker can report under the given options. */
  predicate Possible(o: Options, outcome: Outcome) {
    match outcome
    case Valid => true
    case Corrupt => !o.drop
    case Removed => o.drop && !o.heal
    case RemoveFailed => o.drop
    case Healed => o.drop && o.heal
    case HealFailed => o.drop && o.heal
  }

  ghost predicate Balanced(o: Options, rs: seq<Result>) {
    && (o.drop ==> CountOf(rs, FAULTS) == CountOf(rs, REMOVALS) + CountOf(rs, {RemoveFailed}))
    && (o.drop && o.heal ==> CountOf(rs, REMOVALS) == CountOf(rs, {Healed}) + CountOf(rs, {HealFailed}))
    && (!o.drop ==> CountOf(rs, REMOVALS) == CountOf(rs, {RemoveFailed}) == 0)
  }

  lemma {:induction false} PossibleOutcomesBalance(o: Options, rs: seq<Result>)
    requires forall i :: 0 <= i < |rs| ==> Possible(o, rs[i].outcome)
    ensures Balanced(o, rs)
  {
    if rs != [] { PossibleOutcomesBalance(o, rs[..|rs| - 1]); }
  }

  /** What the counters of a finished verification mean for the blocks. */
  lemma CountersMeanBlocks(o: Options, run: seq<State>, steps: seq<Step>)
    requires IsRun(o, run, steps) && run[|steps|].closed && !run[|steps|].cancelled && |run[0].workers| > 0
    ensures CountOf(run[|steps|].results, FAULTS) == |run[0].bad|
    ensures Balanced(o, run[|steps|].results)
  {
    var s0, s := run[0], run[|steps|];
    RunKeepsInv(o, run, steps, |steps|);
    ClosedIsComplete(o, run, steps);
    CountIsSize(s.results, FAULTS);
    BadAreFaults(o, s0, s);
    PossibleOutcomesBalance(o, s.results);
  }

  lemma BadAreFaults(o: Options, s0: State, s: State)
    requires Inv(o, s0, s) && !s.cancelled && Keys(s.results) == s0.store && s0.bad <= s0.store
    ensures KeysOf(s.results, FAULTS) == s0.bad
  {
    forall k | k in s0.bad ensures k in KeysOf(s.results, FAULTS) {
      var i :| 0 <= i < |s.results| && s.results[i].key == k;
    }
  }

  /** At the end the result of a key describes its block. */
  lemma ResultOf(o: Options, s0: State, s: State, k: Key) returns (i: nat)
    requires Inv(o, s0, s) && Keys(s.results) == s0.store && k in s0.store
    ensures i < |s.results| && s.results[i].key == k && Fits(o, s0, s, k, s.results[i].outcome)
  {
    i :| 0 <= i < |s.results| && s.results[i].key == k;
  }

  ghost predicate AllValid(rs: seq<Result>) {
    forall i :: 0 <= i < |rs| ==> rs[i].outcome == Valid
  }

  lemma AllValidIffNoneBad(o: Options, s0: State, s: State)
    requires Inv(o, s0, s) && !s.cancelled && Keys(s.results) == s0.store && s0.bad <= s0.store
    ensures AllValid(s.results) <==> s0.bad == {}
  {
    if k :| k in s0.bad {
      var i := ResultOf(o, s0, s, k);
      assert s.results[i].outcome != Valid;
    }
  }

  lemma RemovalsDoneIffNoneBad(o: Options, s0: State, s: State)
    requires Inv(o, s0, s) && !s.cancelled && Keys(s.results) == s0.store && o.drop
    ensures !Has(s.results, RemoveFailed) <==> s.bad == {}
  {
    if k :| k in s.bad {
      var i := ResultOf(o, s0, s, k);
      assert s.results[i].outcome == RemoveFailed;
    }
    if i :| 0 <= i < |s.results| && s.results[i].outcome == RemoveFailed {
      assert Fits(o, s0, s, s.results[i].key, s.results[i].outcome);
    }
  }

  lemma HealsDoneIffAllBack(o: Options, s0: State, s: State)
    requires Inv(o, s0, s) && !s.cancelled && Keys(s.results) == s0.store && o.drop && o.heal
    ensures !Has(s.results, HealFailed) <==> s.store == s0.store
  {
    if k :| k in s0.store && k !in s.store {
      var i := ResultOf(o, s0, s, k);
      assert s.results[i].outcome == HealFailed;
    }
    if i :| 0 <= i < |s.results| && s.results[i].outcome == HealFailed {
      assert Fits(o, s0, s, s.results[i].key, s.results[i].outcome);
      assert s.results[i].key in Keys(s.results);
    }
  }

  /** What `Report` decides of a finished verification, in terms of the blocks: it succeeds
      exactly if no block was unreadable, or if removing was asked for, no unreadable block
      is left and, if healing was asked for too, every block is back. */
  lemma SuccessMeansRepaired(o: Options, run: seq<State>, steps: seq<Step>)
    requires IsRun(o, run, steps) && run[|steps|].closed && !run[|steps|].cancelled && |run[0].workers| > 0
    ensures Success(o, run[|steps|].results) <==>
      run[0].bad == {} || (o.drop && run[|steps|].bad == {} && (o.heal ==> run[|steps|].store == run[0].store))
  {
    var s0, s := run[0], run[|steps|];
    RunKeepsInv(o, run, steps, |steps|);
    ClosedIsComplete(o, run, steps);
    AllValidIffNoneBad(o, s0, s);
    if o.drop { RemovalsDoneIffNoneBad(o, s0, s); }
    if o.drop && o.heal { HealsDoneIffAllBack(o, s0, s); }
  }

  ghost predicate Success(o: Options, rs: seq<Result>) {
    AllValid(rs) || (o.drop && !Has(rs, RemoveFailed) && (o.heal ==> !Has(rs, HealFailed)))
  }

  /** What was done to a block: deletions and heals that failed or went through. */
  datatype Past = Past(deleteFailed: bool, deleted: bool, healFailed: bool, healed: bool)

  const UNTOUCHED := Past(false, false, false, false)

  /** What is known to have been done to the block `k` after one more step. */
  ghost function NextPast(s: State, t: Step, k: Key, p: Past): Past {
    if t.Delete? && t.i < |s.workers| && s.workers[t.i].Holds(k) then
      if t.ok then p.(deleted := true) else p.(deleteFailed := true)
    else if t.Heal? && t.i < |s.workers| && s.workers[t.i].Holds(k) then
      if t.ok then p.(healed := true) else p.(healFailed := true)
    else p
  }

  /** What the first `j` steps of a run did to the block `k`, as the steps have it. */
  ghost function PastOf(run: seq<State>, steps: seq<Step>, j: nat, k: Key): Past
    requires j <= |steps| < |run|
  {
    if j == 0 then UNTOUCHED else NextPast(run[j - 1], steps[j - 1], k, PastOf(run, steps, j - 1, k))
  }

  /** A step by which some worker tried to delete the block `k`, with the given success. */
  ghost predicate TriedDelete(run: seq<State>, steps: seq<Step>, n: nat, k: Key, ok: bool)
    requires n < |steps| < |run|
  {
    steps[n].Delete? && steps[n].ok == ok && steps[n].i < |run[n].workers| && run[n].workers[steps[n].i].Holds(k)
  }

  ghost predicate TriedHeal(run: seq<State>, steps: seq<Step>, n: nat, k: Key, ok: bool)
    requires n < |steps| < |run|
  {
    steps[n].Heal? && steps[n].ok == ok && steps[n].i < |run[n].workers| && run[n].workers[steps[n].i].Holds(k)
  }

  lemma {:induction false} PastMeans(run: seq<State>, steps: seq<Step>, j: nat, k: Key)
    requires j <= |steps| < |run|
    ensures PastOf(run, steps, j, k).deleteFailed <==> exists n :: 0 <= n < j && TriedDelete(run, steps, n, k, false)
    ensures PastOf(run, steps, j, k).deleted <==> exists n :: 0 <= n < j && TriedDelete(run, steps, n, k, true)
    ensures PastOf(run, steps, j, k).healFailed <==> exists n :: 0 <= n < j && TriedHeal(run, steps, n, k, false)
    ensures PastOf(run, steps, j, k).healed <==> exists n :: 0 <= n < j && TriedHeal(run, steps, n, k, true)
  {
    if j > 0 {
      PastMeans(run, steps, j - 1, k);
      var lastDelete, lastHeal := TriedDelete(run, steps, j - 1, k, true), TriedHeal(run, steps, j - 1, k, true);
      var badDelete, badHeal := TriedDelete(run, steps, j - 1, k, false), TriedHeal(run, steps, j - 1, k, false);
    }
  }

  /** What an outcome claims was done. */
  function Claim(outcome: Outcome): Past {
    match outcome
    case Valid => UNTOUCHED
    case Corrupt => UNTOUCHED
    case Removed => Past(false, true, false, false)
    case RemoveFailed => Past(true, false, false, false)
    case Healed => Past(false, true, false, true)
    case HealFailed => Past(false, true, true, false)
  }

  function WorkerClaim(w: Worker): Past {
    match w
    case Healing(_) => Past(false, true, false, false)
    case Sending(_, outcome) => Claim(outcome)
    case _ => UNTOUCHED
  }

  /** What is claimed of every key was done to it. */
  ghost predicate Truthful(run: seq<State>, steps: seq<Step>, j: nat)
    requires j <= |steps| < |run|
  {
    var s := run[j];
    && (forall k :: k in s.queue ==> PastOf(run, steps, j, k) == UNTOUCHED)
    && (forall i, k :: 0 <= i < |s.workers| && s.workers[i].Holds(k) ==>
          PastOf(run, steps, j, k) == WorkerClaim(s.workers[i]))
    && (forall i :: 0 <= i < |s.results| ==> PastOf(run, steps, j, s.results[i].key) == Claim(s.results[i].outcome))
  }

  /** Keys in the channel and keys with a result are not touched. */
  lemma RestingIsUntouched(s0: State, s: State, t: Step, k: Key, p: Past)
    requires EachOnce(s0, s) && (k in s.queue || k in Keys(s.results))
    ensures NextPast(s, t, k, p) == p
  {
  }

  /** A worker's next claim is its last one, or nothing for a key just taken, with what it did. */
  lemma ClaimFollows(o: Options, s0: State, s: State, t: Step, i: nat, k: Key)
    requires EachOnce(s0, s) && Enabled(o, s, t) && i < |s.workers| && Apply(o, s, t).workers[i].Holds(k)
    ensures var was := if s.workers[i].Holds(k) then WorkerClaim(s.workers[i]) else UNTOUCHED;
      (s.workers[i].Holds(k) || k in s.queue) && WorkerClaim(Apply(o, s, t).workers[i]) == NextPast(s, t, k, was)
  {
    if t.Close? || t.Cancel? || t.i != i {
      assert Apply(o, s, t).workers[i] == s.workers[i];
    }
  }

  lemma QueueStaysTruthful(o: Options, run: seq<State>, steps: seq<Step>, j: nat, k: Key)
    requires IsRun(o, run, steps) && 0 < j <= |steps| && EachOnce(run[0], run[j - 1]) && Truthful(run, steps, j - 1)
    requires k in run[j].queue
    ensures PastOf(run, steps, j, k) == UNTOUCHED
  {
    assert k in run[j - 1].queue;
    RestingIsUntouched(run[0], run[j - 1], steps[j - 1], k, UNTOUCHED);
  }

  lemma ResultsStayTruthful(o: Options, run: seq<State>, steps: seq<Step>, j: nat, i: nat)
    requires IsRun(o, run, steps) && 0 < j <= |steps| && EachOnce(run[0], run[j - 1]) && Truthful(run, steps, j - 1)
    requires i < |run[j].results|
    ensures PastOf(run, steps, j, run[j].results[i].key) == Claim(run[j].results[i].outcome)
  {
    var s, t, r := run[j - 1], steps[j - 1], run[j].results[i];
    assert run[j] == Apply(o, s, t);
    if i < |s.results| {
      assert r == s.results[i] && r.key in Keys(s.results);
      RestingIsUntouched(run[0], s, t, r.key, Claim(r.outcome));
    } else {
      assert s.workers[t.i].Holds(r.key);
    }
  }

  lemma WorkersStayTruthful(o: Options, run: seq<State>, steps: seq<Step>, j: nat, i: nat, k: Key)
    requires IsRun(o, run, steps) && 0 < j <= |steps| && EachOnce(run[0], run[j - 1]) && Truthful(run, steps, j - 1)
    requires i < |run[j].workers| && run[j].workers[i].Holds(k)
    ensures PastOf(run, steps, j, k) == WorkerClaim(run[j].workers[i])
  {
    assert run[j] == Apply(o, run[j - 1], steps[j - 1]);
    ClaimFollows(o, run[0], run[j - 1], steps[j - 1], i, k);
  }

  lemma {:induction false} RunIsTruthful(o: Options, run: seq<State>, steps: seq<Step>, j: nat)
    requires IsRun(o, run, steps) && j <= |steps|
    ensures Truthful(run, steps, j)
  {
    if j > 0 {
      RunIsTruthful(o, run, steps, j - 1);
      RunKeepsInv(o, run, steps, j - 1);
      forall k | k in run[j].queue ensures PastOf(run, steps, j, k) == UNTOUCHED {
        QueueStaysTruthful(o, run, steps, j, k);
      }
      forall i, k | 0 <= i < |run[j].workers| && run[j].workers[i].Holds(k)
        ensures PastOf(run, steps, j, k) == WorkerClaim(run[j].workers[i])
      {
        WorkersStayTruthful(o, run, steps, j, i, k);
      }
      forall i | 0 <= i < |run[j].results|
        ensures PastOf(run, steps, j, run[j].results[i].key) == Claim(run[j].results[i].outcome)
      {
        ResultsStayTruthful(o, run, steps, j, i);
      }
    }
  }

  /** A result says exactly what was tried on its block, in every run: a failed removal iff a
      deletion failed, a removal iff one went through, a heal or a failed heal iff a fetch went
      through or failed. */
  lemma ResultsTellWhatWasDone(o: Options, run: seq<State>, steps: seq<Step>, j: nat, i: nat)
    requires IsRun(o, run, steps) && j <= |steps| && i < |run[j].results|
    ensures var r := run[j].results[i];
      && (r.outcome == RemoveFailed <==> exists n :: 0 <= n < j && TriedDelete(run, steps, n, r.key, false))
      && (r.outcome in {Removed, Healed, HealFailed} <==>
            exists n :: 0 <= n < j && TriedDelete(run, steps, n, r.key, true))
      && (r.outcome == HealFailed <==> exists n :: 0 <= n < j && TriedHeal(run, steps, n, r.key, false))
      && (r.outcome == Healed <==> exists n :: 0 <= n < j && TriedHeal(run, steps, n, r.key, true))
  {
    RunIsTruthful(o, run, steps, j);
    PastMeans(run, steps, j, run[j].results[i].key);
  }

  /** So if no deletion fails, a finished verification with removal leaves no bad block and
      succeeds, if healing is asked for provided that no heal fails. */
  lemma NothingFailedMeansRepaired(o: Options, run: seq<State>, steps: seq<Step>)
    requires IsRun(o, run, steps) && run[|steps|].closed && !run[|steps|].cancelled && |run[0].workers| > 0
    requires o.drop && (forall n :: 0 <= n < |steps| && steps[n].Delete? ==> steps[n].ok)
    ensures run[|steps|].bad == {}
    ensures (o.heal ==> forall n :: 0 <= n < |steps| && steps[n].Heal? ==> steps[n].ok) ==>
      Success(o, run[|steps|].results) && (o.heal ==> run[|steps|].store == run[0].store)
  {
    var s := run[|steps|];
    RunKeepsInv(o, run, steps, |steps|);
    ClosedIsComplete(o, run, steps);
    forall i | 0 <= i < |s.results| ensures s.results[i].outcome != RemoveFailed {
      ResultsTellWhatWasDone(o, run, steps, |steps|, i);
    }
    RemovalsDoneIffNoneBad(o, run[0], s);
    if o.heal && forall n :: 0 <= n < |steps| && steps[n].Heal? ==> steps[n].ok {
      forall i | 0 <= i < |s.results| ensures s.results[i].outcome != HealFailed {
        ResultsTellWhatWasDone(o, run, steps, |steps|, i);
      }
      HealsDoneIffAllBack(o, run[0], s);
    }
  }
}
