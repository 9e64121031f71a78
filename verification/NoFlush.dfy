/** The counter of unflushed MFS operations: a check and an increment that are each atomic
    but not together, with resets at any time. */
module NoFlush {

  /** `inside` are the operations that passed the check and have not incremented yet. */
  datatype State = State(counter: int, inside: set<nat>)

  datatype Step = Check(id: nat) | Add(id: nat) | Reset

  predicate Enabled(limit: int, s: State, t: Step) {
    match t
    case Check(id) => id !in s.inside && !(limit > 0 && s.counter >= limit)
    case Add(id) => id in s.inside
    case Reset => true
  }

  function Apply(s: State, t: Step): State {
    match t
    case Check(id) => s.(inside := s.inside + {id})
    case Add(id) => State(s.counter + 1, s.inside - {id})
    case Reset => s.(counter := 0)
  }

  ghost predicate IsRun(limit: int, run: seq<State>, steps: seq<Step>) {
    && |run| == |steps| + 1 && run[0] == State(0, {})
    && forall k :: 0 <= k < |steps| ==> Enabled(limit, run[k], steps[k]) && run[k + 1] == Apply(run[k], steps[k])
  }

  /** How many increments the first `k` steps made since the last reset. */
  function AddsSinceReset(steps: seq<Step>, k: nat): nat
    requires k <= |steps|
  {
    if k == 0 || steps[k - 1].Reset? then 0
    else AddsSinceReset(steps, k - 1) + if steps[k - 1].Add? then 1 else 0
  }

  /** The counter counts the operations that were let through since the last flush. */
  lemma {:induction false} CounterCounts(limit: int, run: seq<State>, steps: seq<Step>, k: nat)
    requires IsRun(limit, run, steps) && k <= |steps|
    ensures run[k].counter == AddsSinceReset(steps, k)
  {
    if k > 0 { CounterCounts(limit, run, steps, k - 1); }
  }

  /** A new operation is refused exactly if there is a positive limit and as many operations were
      let through since the last flush; a flush never is. */
  lemma RefusedIff(limit: int, run: seq<State>, steps: seq<Step>, k: nat, id: nat)
    requires IsRun(limit, run, steps) && k <= |steps| && id !in run[k].inside
    ensures !Enabled(limit, run[k], Check(id)) <==> 0 < limit <= AddsSinceReset(steps, k)
    ensures Enabled(limit, run[k], Reset)
  {
    CounterCounts(limit, run, steps, k);
  }

  /** At most `width` operations are between check and increment at any time. */
  ghost predicate Width(run: seq<State>, width: nat) {
    forall k :: 0 <= k < |run| ==> |run[k].inside| <= width
  }

  /** The counter passes a positive limit by less than the number of concurrent operations. */
  lemma {:induction false} Bounded(limit: int, run: seq<State>, steps: seq<Step>, width: nat, k: nat)
    requires limit > 0 && width > 0 && IsRun(limit, run, steps) && Width(run, width) && k <= |steps|
    ensures run[k].counter + |run[k].inside| <= limit + width - 1
    ensures 0 <= run[k].counter <= limit + width - 1
  {
    if k > 0 {
      Bounded(limit, run, steps, width, k - 1);
      assert |run[k].inside| <= width;
    }
  }

  lemma Extend(limit: int, run: seq<State>, steps: seq<Step>, width: nat, t: Step)
    requires IsRun(limit, run, steps) && Width(run, width) && Enabled(limit, run[|steps|], t)
    requires |Apply(run[|steps|], t).inside| <= width
    ensures IsRun(limit, run + [Apply(run[|steps|], t)], steps + [t])
    ensures Width(run + [Apply(run[|steps|], t)], width)
  {
  }

  ghost function Below(n: nat): (r: set<nat>)
    ensures forall i :: i in r <==> 0 <= i < n
    ensures |r| == n
  {
    if n == 0 then {} else Below(n - 1) + {n - 1}
  }

  ghost predicate Reaches(limit: int, run: seq<State>, steps: seq<Step>, width: nat, s: State) {
    IsRun(limit, run, steps) && Width(run, width) && run[|steps|] == s
  }

  lemma FillOneByOne(limit: nat, width: nat, n: nat) returns (run: seq<State>, steps: seq<Step>)
    requires width > 0 && n < limit
    ensures Reaches(limit, run, steps, width, State(n, {}))
  {
    if n == 0 { return [State(0, {})], []; }
    run, steps := FillOneByOne(limit, width, n - 1);
    Extend(limit, run, steps, width, Check(0));
    run, steps := run + [State(n - 1, {0})], steps + [Check(0)];
    Extend(limit, run, steps, width, Add(0));
    assert {0} - {0} == {};
    run, steps := run + [State(n, {})], steps + [Add(0)];
  }

  lemma AllCheck(limit: nat, width: nat, n: nat) returns (run: seq<State>, steps: seq<Step>)
    requires limit > 0 && 0 < width && n <= width
    ensures Reaches(limit, run, steps, width, State(limit - 1, Below(n)))
  {
    if n == 0 {
      run, steps := FillOneByOne(limit, width, limit - 1);
      return;
    }
    run, steps := AllCheck(limit, width, n - 1);
    ghost var next := Apply(State(limit - 1, Below(n - 1)), Check(n - 1));
    assert next == State(limit - 1, Below(n)) by { assert Below(n - 1) + {n - 1} == Below(n); }
    Extend(limit, run, steps, width, Check(n - 1));
    run, steps := run + [next], steps + [Check(n - 1)];
  }

  lemma AllAdd(limit: nat, width: nat, left: nat) returns (run: seq<State>, steps: seq<Step>)
    requires limit > 0 && 0 < width && left <= width
    ensures Reaches(limit, run, steps, width, State(limit - 1 + width - left, Below(left)))
    decreases width - left
  {
    if left == width {
      run, steps := AllCheck(limit, width, width);
      return;
    }
    run, steps := AllAdd(limit, width, left + 1);
    ghost var next := Apply(State(limit - 2 + width - left, Below(left + 1)), Add(left));
    assert next == State(limit - 1 + width - left, Below(left)) by { assert Below(left + 1) - {left} == Below(left); }
    Extend(limit, run, steps, width, Add(left));
    run, steps := run + [next], steps + [Add(left)];
  }

  /** The bound is reached: for every limit and width some run gets there. Hence the counter
      stays within the limit for all runs exactly when operations come one at a time. */
  lemma BoundIsReached(limit: nat, width: nat) returns (run: seq<State>, steps: seq<Step>)
    requires limit > 0 && width > 0
    ensures IsRun(limit, run, steps) && Width(run, width)
    ensures run[|steps|].counter == limit + width - 1
  {
    run, steps := AllAdd(limit, width, 0);
  }

  ghost predicate AlwaysWithin(limit: int, width: nat) {
    forall run: seq<State>, steps: seq<Step>, k: nat :: IsRun(limit, run, steps) && Width(run, width) && k < |run| ==>
      run[k].counter <= limit
  }

  /** The limit itself is kept, in all runs, exactly for a single caller. */
  lemma KeptIffSingle(limit: nat, width: nat)
    requires limit > 0 && width > 0
    ensures AlwaysWithin(limit, width) <==> width == 1
  {
    if width == 1 {
      forall run: seq<State>, steps: seq<Step>, k: nat | IsRun(limit, run, steps) && Width(run, width) && k < |run|
        ensures run[k].counter <= limit
      {
        Bounded(limit, run, steps, width, k);
      }
    } else {
      var run, steps := BoundIsReached(limit, width);
      assert run[|steps|].counter > limit;
    }
  }
}
