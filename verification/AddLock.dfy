/** `ipfs add` with `--to-files` and the pin lock: a shared lock that is granted to nobody
    once a collector waits, so a thread that asks for it twice can wait for itself. */
module AddLock {

  datatype Options = Options(dopin: bool, toFiles: bool)

  /** Where the goroutine for one added entry is. The `Want` points are lock requests. */
  datatype Pc =
    | Begin
    | WantOuter
    | CallAdd
    | Writing
    | WantInner
    | WritingPinned
    | Added
    | WantLink
    | Linking
    | Finish
    | Done
  {
    predicate Wants() { WantOuter? || WantInner? || WantLink? }
  }

  /** `holding` counts the read locks this goroutine has, `work` is what it did: blocks are
      written from `wrote` on, `pinned` says that all of them so far are pinned, `linked` that
      they are linked into MFS, and `failed` that it gave up. */
  datatype Thread = Thread(opts: Options, pc: Pc, holding: nat, work: Work) {
    /** It has blocks to protect that neither a pin nor an MFS link protects yet. */
    predicate Exposed() {
      work.wrote && !work.failed && if opts.dopin then !work.pinned else opts.toFiles && !work.linked
    }
  }

  datatype Work = Work(wrote: bool, pinned: bool, linked: bool, failed: bool)

  datatype Gc = Idle | Waiting | Held

  datatype State = State(threads: seq<Thread>, gc: Gc)

  datatype Step =
    | Run(i: nat, ok: bool, pause: bool)
    | GcRequest
    | GcAcquire
    | GcRelease

  predicate Enabled(s: State, t: Step) {
    match t
    case Run(i, _, _) => i < |s.threads| && !s.threads[i].pc.Done? && (s.threads[i].pc.Wants() ==> s.gc.Idle?)
    case GcRequest => s.gc.Idle?
    case GcAcquire => s.gc.Waiting? && forall i :: 0 <= i < |s.threads| ==> s.threads[i].holding == 0
    case GcRelease => s.gc.Held?
  }

  /** One action of the goroutine; `ok` is whether a fallible one succeeds, `pause` whether a
      pinned add yields to a waiting collector, after pinning what it has. */
  function Act(t: Thread, ok: bool, pause: bool): Thread {
    Thread(t.opts, NextPc(t.opts, t.pc, ok, pause), NextHolding(t.pc, t.holding),
           NextWork(t.opts, t.pc, t.work, ok, pause))
  }

  function NextPc(o: Options, pc: Pc, ok: bool, pause: bool): Pc {
    match pc
    case Begin => if o.toFiles && !o.dopin then WantOuter else CallAdd
    case WantOuter => CallAdd
    case CallAdd => if o.dopin then WantInner else Writing
    case Writing => if ok then Added else Finish
    case WantInner => WritingPinned
    case WritingPinned => if pause then WantInner else if ok then Added else Finish
    case Added => if !o.toFiles then Finish else if o.dopin then WantLink else Linking
    case WantLink => Linking
    case Linking => Finish
    case Finish => Done
    case Done => Done
  }

  /** Requests are granted one at a time; a pinned add unlocks when it has pinned, and the
      deferred unlocks happen at the end. */
  function NextHolding(pc: Pc, holding: nat): nat {
    if pc.Wants() then holding + 1
    else if pc.WritingPinned? && holding > 0 then holding - 1
    else if pc.Finish? then 0
    else holding
  }

  function NextWork(o: Options, pc: Pc, w: Work, ok: bool, pause: bool): Work {
    match pc
    case CallAdd => if o.dopin then w else w.(wrote := true)
    case Writing => if ok then w else w.(failed := true)
    case WantInner => w.(wrote := true, pinned := false)
    case WritingPinned => if pause || ok then w.(pinned := true) else w.(failed := true)
    case Linking => if ok then w.(linked := true) else w.(failed := true)
    case _ => w
  }

  function Apply(s: State, t: Step): State
    requires Enabled(s, t)
  {
    match t
    case Run(i, ok, pause) => s.(threads := s.threads[i := Act(s.threads[i], ok, pause)])
    case GcRequest => s.(gc := Waiting)
    case GcAcquire => s.(gc := Held)
    case GcRelease => s.(gc := Idle)
  }

  ghost predicate Init(s: State) {
    s.gc.Idle? && forall i :: 0 <= i < |s.threads| ==>
      s.threads[i] == Thread(s.threads[i].opts, Begin, 0, Work(false, false, false, false))
  }

  /** How many locks a goroutine holds at each point. */
  function Expected(t: Thread): nat {
    match t.pc
    case CallAdd => if t.opts.toFiles && !t.opts.dopin then 1 else 0
    case Writing => if t.opts.toFiles then 1 else 0
    case WritingPinned => 1
    case Added => if t.opts.toFiles && !t.opts.dopin then 1 else 0
    case Linking => 1
    case _ => 0
  }

  ghost predicate LockInv(t: Thread) {
    && (t.pc.Finish? || t.holding == Expected(t)) && t.holding <= 1
    && (t.pc.Writing? ==> !t.opts.dopin)
    && (t.pc.WantOuter? ==> t.opts.toFiles && !t.opts.dopin)
    && (t.pc.WantInner? || t.pc.WritingPinned? || t.pc.WantLink? ==> t.opts.dopin)
    && (t.pc.Linking? || t.pc.WantLink? ==> t.opts.toFiles)
  }

  /** How far its work has come at each point. */
  ghost predicate WorkInv(t: Thread) {
    var w := t.work;
    && (w.failed ==> t.pc.Finish? || t.pc.Done?)
    && (t.pc.Writing? || t.pc.WritingPinned? || t.pc.Added? || t.pc.WantLink? || t.pc.Linking? ==> w.wrote)
    && (t.opts.dopin && (t.pc.Added? || t.pc.WantLink? || t.pc.Linking?) ==> w.pinned)
    && (t.pc.Finish? || t.pc.Done? ==> w.failed || Finished(t))
    && (t.Exposed() ==> t.pc.Writing? || t.pc.WritingPinned? || (!t.opts.dopin && (t.pc.Added? || t.pc.Linking?)))
  }

  ghost predicate ThreadInv(t: Thread) {
    LockInv(t) && WorkInv(t)
  }

  /** What a goroutine has done when it is through and nothing failed. */
  ghost predicate Finished(t: Thread) {
    t.work.wrote && (t.opts.dopin ==> t.work.pinned) && (t.opts.toFiles ==> t.work.linked)
  }

  ghost predicate Inv(s: State) {
    && (forall i :: 0 <= i < |s.threads| ==> ThreadInv(s.threads[i]))
    && (s.gc.Held? ==> forall i :: 0 <= i < |s.threads| ==> s.threads[i].holding == 0)
  }

  lemma ActKeepsLockInv(t: Thread, ok: bool, pause: bool)
    requires LockInv(t)
    ensures LockInv(Act(t, ok, pause))
    ensures Act(t, ok, pause).holding <= t.holding || t.pc.Wants()
  {
  }

  lemma ActKeepsWorkInv(t: Thread, ok: bool, pause: bool)
    requires LockInv(t) && WorkInv(t)
    ensures WorkInv(Act(t, ok, pause))
  {
  }

  lemma StepKeepsInv(s: State, t: Step)
    requires Inv(s) && Enabled(s, t)
    ensures Inv(Apply(s, t))
  {
    if t.Run? {
      assert ThreadInv(s.threads[t.i]);
      ActKeepsLockInv(s.threads[t.i], t.ok, t.pause);
      ActKeepsWorkInv(s.threads[t.i], t.ok, t.pause);
    }
  }

  ghost predicate IsRun(run: seq<State>, steps: seq<Step>) {
    && |run| == |steps| + 1 && Init(run[0])
    && forall k :: 0 <= k < |steps| ==> Enabled(run[k], steps[k]) && run[k + 1] == Apply(run[k], steps[k])
  }

  lemma {:induction false} RunKeepsInv(run: seq<State>, steps: seq<Step>, k: nat)
    requires IsRun(run, steps) && k <= |steps|
    ensures Inv(run[k])
  {
    if k > 0 {
      RunKeepsInv(run, steps, k - 1);
      StepKeepsInv(run[k - 1], steps[k - 1]);
    }
  }

  /** No goroutine asks for the lock while it has it, whatever its options. */
  lemma NeverRequestsTwice(run: seq<State>, steps: seq<Step>, k: nat, i: nat)
    requires IsRun(run, steps) && k <= |steps| && i < |run[k].threads| && run[k].threads[i].pc.Wants()
    ensures run[k].threads[i].holding == 0
    ensures !run[k].gc.Idle? ==> forall ok, pause :: !Enabled(run[k], Run(i, ok, pause))
  {
    RunKeepsInv(run, steps, k);
    assert ThreadInv(run[k].threads[i]);
  }

  /** Blocks a goroutine has to protect are never exposed without its lock, and it links only
      under its lock, so the collector does not hold its own meanwhile. */
  lemma ExposedOnlyUnderLock(run: seq<State>, steps: seq<Step>, k: nat, i: nat)
    requires IsRun(run, steps) && k <= |steps| && i < |run[k].threads|
    requires run[k].threads[i].Exposed() || run[k].threads[i].pc.Linking?
    ensures run[k].threads[i].holding == 1 && !run[k].gc.Held?
  {
    RunKeepsInv(run, steps, k);
    assert ThreadInv(run[k].threads[i]);
  }

  /** A goroutine that is through without a failure has written its blocks, pinned them if asked
      to, linked them if asked to, and holds no lock. */
  lemma DoneMeansDone(run: seq<State>, steps: seq<Step>, k: nat, i: nat)
    requires IsRun(run, steps) && k <= |steps| && i < |run[k].threads| && run[k].threads[i].pc.Done?
    ensures run[k].threads[i].holding == 0
    ensures !run[k].threads[i].work.failed ==> Finished(run[k].threads[i])
  {
    RunKeepsInv(run, steps, k);
    assert ThreadInv(run[k].threads[i]);
  }

  /** And it fails only if one of its actions did. */
  lemma {:induction false} FailsOnlyByAction(run: seq<State>, steps: seq<Step>, k: nat, i: nat)
    requires IsRun(run, steps) && k <= |steps| && i < |run[k].threads|
    requires forall n :: 0 <= n < k && steps[n].Run? && steps[n].i == i ==> steps[n].ok
    ensures !run[k].threads[i].work.failed
  {
    if k > 0 { FailsOnlyByAction(run, steps, k - 1, i); }
  }

  /** Whatever runs and waits, something can go on until all is done: no deadlock. */
  lemma NeverStuck(run: seq<State>, steps: seq<Step>, k: nat) returns (t: Step)
    requires IsRun(run, steps) && k <= |steps|
    requires !run[k].gc.Idle? || exists i :: 0 <= i < |run[k].threads| && !run[k].threads[i].pc.Done?
    ensures Enabled(run[k], t) && t != GcRequest
  {
    RunKeepsInv(run, steps, k);
    var s := run[k];
    if s.gc.Held? {
      t := GcRelease;
    } else if s.gc.Idle? {
      var i :| 0 <= i < |s.threads| && !s.threads[i].pc.Done?;
      t := Run(i, true, false);
    } else if i :| 0 <= i < |s.threads| && s.threads[i].holding != 0 {
      assert ThreadInv(s.threads[i]);
      t := Run(i, true, false);
    } else {
      t := GcAcquire;
    }
  }
}
