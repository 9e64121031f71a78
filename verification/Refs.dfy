/** `ipfs refs`: a depth-first traversal that lists links down to a depth limit, listing a
    CID once if asked to and exploring a node again when it is met nearer to a root. */
module Refs {
  import opened Dag

  /** The nodes that can be fetched, with their links in order. */
  type Graph = map<Cid, seq<Cid>>

  datatype Edge = Edge(from: Cid, to: Cid)

  /** Content addressing makes link graphs acyclic; `rank` witnesses it. */
  ghost predicate Acyclic(dag: Graph, rank: Cid -> nat) {
    forall c, i :: c in dag && 0 <= i < |dag[c]| ==> rank(dag[c][i]) < rank(c)
  }

  /** Every link leads to a node that can be fetched. */
  ghost predicate Available(dag: Graph) {
    forall c, i :: c in dag && 0 <= i < |dag[c]| ==> dag[c][i] in dag
  }

  ghost predicate Linked(dag: Graph, a: Cid, b: Cid) {
    a in dag && b in dag[a]
  }

  /** Some path of exactly `k` links leads from a root to `c`. */
  ghost predicate AtDepth(dag: Graph, roots: set<Cid>, c: Cid, k: nat)
    decreases k
  {
    if k == 0 then c in roots else exists b :: Linked(dag, b, c) && AtDepth(dag, roots, b, k - 1)
  }

  /** Below the limit, the first `upto` links of `n`, met at `depth`, are recorded no
      deeper than one further. Without a limit they are just recorded. */
  ghost predicate LinksSeen(dag: Graph, limit: int, seen: map<Cid, nat>, n: Cid, depth: nat, upto: nat)
    requires n in dag && upto <= |dag[n]|
  {
    forall i :: 0 <= i < upto && (limit < 0 || depth < limit) ==>
      dag[n][i] in seen && (limit >= 0 ==> seen[dag[n][i]] <= depth + 1)
  }

  /** A recorded node has been explored from its recorded depth. */
  ghost predicate Settled(dag: Graph, limit: int, seen: map<Cid, nat>, c: Cid)
    requires c in seen
  {
    c in dag ==> LinksSeen(dag, limit, seen, c, seen[c], |dag[c]|)
  }

  ghost predicate Lowered(a: map<Cid, nat>, b: map<Cid, nat>) {
    forall c :: c in a ==> c in b && b[c] <= a[c]
  }

  /** Every entry that is new or lower since `a` is settled in `b`. */
  ghost predicate NewsSettled(dag: Graph, limit: int, a: map<Cid, nat>, b: map<Cid, nat>) {
    forall c :: c in b && (c !in a || b[c] < a[c]) ==> Settled(dag, limit, b, c)
  }

  /** Every recorded depth is that of an actual path within the limit. */
  ghost predicate Sourced(dag: Graph, limit: int, roots: set<Cid>, seen: map<Cid, nat>) {
    forall c :: c in seen ==> 1 <= seen[c] && (limit >= 0 ==> seen[c] <= limit) && AtDepth(dag, roots, c, seen[c])
  }

  lemma NewsCompose(dag: Graph, limit: int, a: map<Cid, nat>, b: map<Cid, nat>, c: map<Cid, nat>)
    requires Lowered(a, b) && Lowered(b, c)
    requires NewsSettled(dag, limit, a, b) && NewsSettled(dag, limit, b, c)
    ensures Lowered(a, c) && NewsSettled(dag, limit, a, c)
  {
    forall x | x in c && (x !in a || c[x] < a[x]) ensures Settled(dag, limit, c, x) {
      if x in b && c[x] == b[x] {
        assert Settled(dag, limit, b, x);
      }
    }
  }

  lemma LinksSeenExtend(dag: Graph, limit: int, a: map<Cid, nat>, b: map<Cid, nat>, n: Cid, depth: nat, i: nat)
    requires n in dag && i < |dag[n]| && Lowered(a, b) && LinksSeen(dag, limit, a, n, depth, i)
    requires limit < 0 || depth < limit ==> dag[n][i] in b && (limit >= 0 ==> b[dag[n][i]] <= depth + 1)
    ensures LinksSeen(dag, limit, b, n, depth, i + 1)
  {
  }

  /** Recording `e` and then exploring it settles it. */
  lemma RecordThenExplore(dag: Graph, limit: int, a: map<Cid, nat>, b: map<Cid, nat>, e: Cid, depth: nat)
    requires e in dag && (e in a ==> depth < a[e])
    requires Lowered(a[e := depth], b) && NewsSettled(dag, limit, a[e := depth], b)
    requires LinksSeen(dag, limit, b, e, depth, |dag[e]|)
    ensures Lowered(a, b) && NewsSettled(dag, limit, a, b)
  {
    forall x | x in b && (x !in a || b[x] < a[x]) ensures Settled(dag, limit, b, x) {
      if x == e && b[x] == depth {
        assert Settled(dag, limit, b, e);
      }
    }
  }

  function Targets(written: seq<Edge>): (r: set<Cid>)
    ensures forall i :: 0 <= i < |written| ==> written[i].to in r
    ensures forall c :: c in r ==> exists i :: 0 <= i < |written| && written[i].to == c
  {
    set i | 0 <= i < |written| :: written[i].to
  }

  /** No target is listed twice. */
  ghost predicate Once(written: seq<Edge>) {
    forall i, j :: 0 <= i < j < |written| ==> written[i].to != written[j].to
  }

  lemma TargetsAppend(written: seq<Edge>, e: Edge)
    ensures Targets(written + [e]) == Targets(written) + {e.to}
    ensures Once(written) && e.to !in Targets(written) ==> Once(written + [e])
  {
    var w := written + [e];
    assert forall i :: 0 <= i < |written| ==> w[i] == written[i];
    assert w[|written|] == e;
  }

  /** `q` picks links by position: distinct `q` are distinct paths, parallel links included. */
  ghost predicate PathByLinks(dag: Graph, n: Cid, q: seq<nat>)
    decreases |q|
  {
    q != [] ==> n in dag && q[0] < |dag[n]| && PathByLinks(dag, dag[n][q[0]], q[1..])
  }

  function OneLess(limit: int): int {
    if limit < 0 then limit else limit - 1
  }

  ghost function Prefixed(i: nat, qs: seq<seq<nat>>): (r: seq<seq<nat>>)
    ensures |r| == |qs| && forall k :: 0 <= k < |qs| ==> r[k] == [i] + qs[k]
  {
    seq(|qs|, k requires 0 <= k < |qs| => [i] + qs[k])
  }

  /** The nonempty paths from `n` of at most `limit` links, or all of them if it is negative,
      depth first. */
  ghost function Paths(dag: Graph, n: Cid, limit: int, rank: Cid -> nat): seq<seq<nat>>
    requires Acyclic(dag, rank)
    decreases rank(n), 1, 0
  {
    if n in dag && limit != 0 then PathsVia(dag, n, limit, rank, |dag[n]|) else []
  }

  /** Those that start with one of the first `upto` links. */
  ghost function PathsVia(dag: Graph, n: Cid, limit: int, rank: Cid -> nat, upto: nat): seq<seq<nat>>
    requires Acyclic(dag, rank) && n in dag && upto <= |dag[n]| && limit != 0
    decreases rank(n), 0, upto
  {
    if upto == 0 then [] else
      PathsVia(dag, n, limit, rank, upto - 1) + [[upto - 1]] +
      Prefixed(upto - 1, Paths(dag, dag[n][upto - 1], OneLess(limit), rank))
  }

  /** Depth first: a path comes before those it is part of, and elder links before younger. */
  ghost predicate Before(q: seq<nat>, r: seq<nat>)
    decreases |q|
  {
    r != [] && (q == [] || q[0] < r[0] || (q[0] == r[0] && Before(q[1..], r[1..])))
  }

  ghost predicate Ordered(qs: seq<seq<nat>>) {
    forall i, j :: 0 <= i < j < |qs| ==> Before(qs[i], qs[j])
  }

  lemma {:induction false} BeforeDiffers(q: seq<nat>, r: seq<nat>)
    requires Before(q, r)
    ensures q != r
    decreases |q|
  {
    if q != [] && q[0] == r[0] { BeforeDiffers(q[1..], r[1..]); }
  }

  lemma {:induction false} PathsAreAllPaths(dag: Graph, n: Cid, limit: int, rank: Cid -> nat, q: seq<nat>)
    requires Acyclic(dag, rank)
    ensures q in Paths(dag, n, limit, rank) <==> PathByLinks(dag, n, q) && 1 <= |q| && (limit < 0 || |q| <= limit)
    decreases rank(n), 1, 0
  {
    if n in dag && limit != 0 {
      PathsViaAreAllPaths(dag, n, limit, rank, |dag[n]|, q);
    }
  }

  lemma PrefixedHas(i: nat, qs: seq<seq<nat>>, q: seq<nat>)
    ensures q in Prefixed(i, qs) <==> q != [] && q[0] == i && q[1..] in qs
  {
    if q != [] && q[0] == i && q[1..] in qs {
      var k :| 0 <= k < |qs| && qs[k] == q[1..];
      assert Prefixed(i, qs)[k] == q;
    }
    if q in Prefixed(i, qs) {
      var k :| 0 <= k < |qs| && Prefixed(i, qs)[k] == q;
      assert q[1..] == qs[k];
    }
  }

  lemma {:induction false} PathsViaAreAllPaths(dag: Graph, n: Cid, limit: int, rank: Cid -> nat, upto: nat, q: seq<nat>)
    requires Acyclic(dag, rank) && n in dag && upto <= |dag[n]| && limit != 0
    ensures q in PathsVia(dag, n, limit, rank, upto) <==>
      PathByLinks(dag, n, q) && 1 <= |q| && q[0] < upto && (limit < 0 || |q| <= limit)
    decreases rank(n), 0, upto
  {
    if upto > 0 {
      var below := Paths(dag, dag[n][upto - 1], OneLess(limit), rank);
      PathsViaAreAllPaths(dag, n, limit, rank, upto - 1, q);
      PrefixedHas(upto - 1, below, q);
      assert q in PathsVia(dag, n, limit, rank, upto) <==>
        q in PathsVia(dag, n, limit, rank, upto - 1) || q == [upto - 1] || q in Prefixed(upto - 1, below);
      if q != [] && q[0] == upto - 1 {
        PathsAreAllPaths(dag, dag[n][upto - 1], OneLess(limit), rank, q[1..]);
        assert q == [upto - 1] <==> q[1..] == [];
      }
    }
  }

  /** Every path is there once, depth first. */
  lemma {:induction false} PathsAreOrdered(dag: Graph, n: Cid, limit: int, rank: Cid -> nat)
    requires Acyclic(dag, rank)
    ensures Ordered(Paths(dag, n, limit, rank))
    decreases rank(n), 1, 0
  {
    if n in dag && limit != 0 { PathsViaAreOrdered(dag, n, limit, rank, |dag[n]|); }
  }

  lemma {:induction false} PathsViaAreOrdered(dag: Graph, n: Cid, limit: int, rank: Cid -> nat, upto: nat)
    requires Acyclic(dag, rank) && n in dag && upto <= |dag[n]| && limit != 0
    ensures Ordered(PathsVia(dag, n, limit, rank, upto))
    decreases rank(n), 0, upto
  {
    if upto > 0 {
      var a := PathsVia(dag, n, limit, rank, upto - 1);
      var below := Paths(dag, dag[n][upto - 1], OneLess(limit), rank);
      PathsViaAreOrdered(dag, n, limit, rank, upto - 1);
      PathsAreOrdered(dag, dag[n][upto - 1], OneLess(limit), rank);
      forall q | q in a ensures q != [] && q[0] < upto - 1 {
        PathsViaAreAllPaths(dag, n, limit, rank, upto - 1, q);
      }
      forall q | q in below ensures q != [] {
        PathsAreAllPaths(dag, dag[n][upto - 1], OneLess(limit), rank, q);
      }
      OrderedJoin(a, upto - 1, below);
    }
  }

  lemma PathsAreDistinct(dag: Graph, n: Cid, limit: int, rank: Cid -> nat, i: nat, j: nat)
    requires Acyclic(dag, rank) && i < j < |Paths(dag, n, limit, rank)|
    ensures Paths(dag, n, limit, rank)[i] != Paths(dag, n, limit, rank)[j]
  {
    PathsAreOrdered(dag, n, limit, rank);
    BeforeDiffers(Paths(dag, n, limit, rank)[i], Paths(dag, n, limit, rank)[j]);
  }

  lemma OrderedJoin(a: seq<seq<nat>>, i: nat, below: seq<seq<nat>>)
    requires Ordered(a) && Ordered(below)
    requires (forall q :: q in a ==> q != [] && q[0] < i) && (forall q :: q in below ==> q != [])
    ensures Ordered(a + [[i]] + Prefixed(i, below))
  {
    var b := Prefixed(i, below);
    var all := a + [[i]] + b;
    forall j, k | 0 <= j < k < |all| ensures Before(all[j], all[k]) {
      if k < |a| {
      } else if j < |a| {
        assert all[j] in a && all[k][0] == i;
      } else if j == |a| {
        var q := below[k - |a| - 1];
        assert q in below && all[k] == [i] + q && all[k][1..] == q && all[j][1..] == [];
      } else {
        var q, r := below[j - |a| - 1], below[k - |a| - 1];
        assert all[j] == [i] + q && all[k] == [i] + r && all[j][1..] == q && all[k][1..] == r;
      }
    }
  }

  /** The last link of a path. */
  ghost function LastLink(dag: Graph, n: Cid, q: seq<nat>): Edge
    requires q != [] && PathByLinks(dag, n, q)
    decreases |q|
  {
    if |q| == 1 then Edge(n, dag[n][q[0]]) else LastLink(dag, dag[n][q[0]], q[1..])
  }

  /** One edge for each of a sequence of paths: its last link. */
  ghost predicate EdgesOf(dag: Graph, n: Cid, qs: seq<seq<nat>>, edges: seq<Edge>) {
    |edges| == |qs| &&
    forall i :: 0 <= i < |qs| ==> qs[i] != [] && PathByLinks(dag, n, qs[i]) && edges[i] == LastLink(dag, n, qs[i])
  }

  /** A link, and what was listed below it. */
  lemma EdgesOfNext(dag: Graph, n: Cid, qs: seq<seq<nat>>, edges: seq<Edge>, i: nat, below: seq<seq<nat>>,
                    more: seq<Edge>)
    requires n in dag && i < |dag[n]| && EdgesOf(dag, n, qs, edges) && EdgesOf(dag, dag[n][i], below, more)
    ensures EdgesOf(dag, n, qs + [[i]] + Prefixed(i, below), edges + ([Edge(n, dag[n][i])] + more))
  {
    var qs', edges' := qs + [[i]] + Prefixed(i, below), edges + ([Edge(n, dag[n][i])] + more);
    forall k | 0 <= k < |qs'|
      ensures qs'[k] != [] && PathByLinks(dag, n, qs'[k]) && edges'[k] == LastLink(dag, n, qs'[k])
    {
      if k == |qs| {
        assert qs'[k][1..] == [];
      } else if k > |qs| {
        assert qs'[k][1..] == below[k - |qs| - 1];
      }
    }
  }

  ghost predicate AllLinks(dag: Graph, written: seq<Edge>) {
    forall i :: 0 <= i < |written| ==> Linked(dag, written[i].from, written[i].to)
  }

  class RefWriter {
    const dag: Graph
    const unique: bool
    const maxDepth: int
    const emits: nat -> bool  // which attempts to emit succeed
    var attempts: nat
    var seen: map<Cid, nat>
    var written: seq<Edge>
    ghost var emitFailed: bool

    constructor (dag: Graph, unique: bool, maxDepth: int, emits: nat -> bool)
      ensures this.dag == dag && this.unique == unique && this.maxDepth == maxDepth && this.emits == emits
      ensures seen == map[] && written == [] && !emitFailed && attempts == 0
    {
      this.dag, this.unique, this.maxDepth, this.emits := dag, unique, maxDepth, emits;
      seen, written, emitFailed, attempts := map[], [], false, 0;
    }

    /** What holds between any two links of any traversal, failed ones included. */
    ghost predicate Valid(roots: set<Cid>)
      reads this
    {
      && (unique ==> Sourced(dag, maxDepth, roots, seen) && Once(written) && Targets(written) <= seen.Keys)
      && (!unique ==> seen == map[])
      && AllLinks(dag, written) && Explained()
    }

    /** Emitting failed only if some attempt fails. */
    ghost predicate Explained()
      reads this
    {
      emitFailed ==> exists i :: !emits(i)
    }

    /** Decide whether to go deeper below `c`, met at `depth`, and whether to list it. */
    method Visit(c: Cid, depth: nat) returns (goDeeper: bool, shouldWrite: bool)
      modifies this`seen
      ensures maxDepth >= 0 && depth > maxDepth ==> !goDeeper && !shouldWrite && seen == old(seen)
      ensures !unique && !(maxDepth >= 0 && depth > maxDepth) ==>
        shouldWrite && goDeeper == (depth != maxDepth) && seen == old(seen)
      ensures unique && !(maxDepth >= 0 && depth > maxDepth) ==>
        if c in old(seen) && (maxDepth < 0 || old(seen)[c] <= depth)
        then !goDeeper && !shouldWrite && seen == old(seen)
        else goDeeper == (depth != maxDepth) && shouldWrite == (c !in old(seen)) && seen == old(seen)[c := depth]
    {
      var atMaxDepth := maxDepth >= 0 && depth == maxDepth;
      var overMaxDepth := maxDepth >= 0 && depth > maxDepth;
      if overMaxDepth { return false, false; }
      if !unique { return !atMaxDepth, true; }
      var known := c in seen;
      if known && (maxDepth < 0 || seen[c] <= depth) { return false, false; }
      seen := seen[c := depth];
      return !atMaxDepth, !known;
    }

    /** Emitting may fail, for a cancelled context or a broken connection. */
    method WriteEdge(from: Cid, to: Cid) returns (ok: bool)
      modifies this`written, this`emitFailed, this`attempts
      ensures ok <==> emits(old(attempts))
      ensures written == if ok then old(written) + [Edge(from, to)] else old(written)
      ensures emitFailed <==> old(emitFailed) || !ok
    {
      ok := emits(attempts);
      attempts := attempts + 1;
      if ok { written := written + [Edge(from, to)]; } else { emitFailed := true; }
    }

    function LimitAt(depth: nat): int {
      if maxDepth < 0 then maxDepth else maxDepth - depth
    }

    /** If the list and the record agreed before, they do now. */
    twostate predicate InSync()
      reads this
    {
      unique && Targets(old(written)) == old(seen).Keys ==> Targets(written) == seen.Keys
    }

    /** The list only grows, by `count` edges, and recorded depths only shrink. */
    twostate predicate Grown(count: nat)
      reads this
    {
      && old(written) <= written && |written| == |old(written)| + count
      && Lowered(old(seen), seen)
      && (old(emitFailed) ==> emitFailed)
    }

    /** Meet one link of `n`: prune it, or fetch it and list it if it is new. */
    method Meet(n: Cid, lc: Cid, depth: nat, ghost roots: set<Cid>) returns (goDeeper: bool, count: nat, ok: bool)
      requires AtDepth(dag, roots, lc, depth) && depth >= 1 && Valid(roots) && Linked(dag, n, lc)
      modifies this`seen, this`written, this`emitFailed, this`attempts
      ensures Valid(roots) && Grown(count)
      ensures ok ==> InSync()
      ensures written == old(written) || written == old(written) + [Edge(n, lc)]
      ensures lc in dag && !emitFailed ==> ok
      ensures ok && goDeeper ==> lc in dag && (maxDepth < 0 || depth < maxDepth)
      ensures ok && !unique ==> count == (if maxDepth >= 0 && depth > maxDepth then 0 else 1)
      ensures ok && !unique && !goDeeper ==> maxDepth >= 0 && depth >= maxDepth
      ensures ok && goDeeper && unique ==> seen == old(seen)[lc := depth] && (lc in old(seen) ==> depth < old(seen)[lc])
      ensures ok && !goDeeper && unique ==> NewsSettled(dag, maxDepth, old(seen), seen)
      ensures ok && unique && (maxDepth < 0 || depth <= maxDepth) ==>
        lc in seen && (maxDepth >= 0 ==> seen[lc] <= depth)
    {
      var shouldWrite;
      goDeeper, shouldWrite := Visit(lc, depth);
      if !shouldWrite && !goDeeper { return false, 0, true; }
      assert unique ==> seen.Keys == old(seen).Keys + {lc};
      if lc !in dag { return goDeeper, 0, false; }
      count, ok := 0, true;
      if shouldWrite {
        count, ok := List(n, lc);
      }
    }

    /** List a CID that is not listed yet, if listing each once. */
    method List(from: Cid, to: Cid) returns (count: nat, ok: bool)
      requires unique ==> Once(written) && to !in Targets(written)
      requires Linked(dag, from, to) && AllLinks(dag, written) && Explained()
      modifies this`written, this`emitFailed, this`attempts
      ensures written == if ok then old(written) + [Edge(from, to)] else old(written)
      ensures (unique ==> Once(written)) && AllLinks(dag, written) && Explained()
      ensures Targets(written) == Targets(old(written)) + (if ok then {to} else {})
      ensures emitFailed <==> old(emitFailed) || !ok
      ensures (ok <==> emits(old(attempts))) && count == if ok then 1 else 0
    {
      TargetsAppend(written, Edge(from, to));
      ok := WriteEdge(from, to);
      count := if ok then 1 else 0;
    }

    /** Since `before`, the link was listed and one edge for each path below it, if not too deep. */
    ghost predicate LinkSpelled(before: seq<Edge>, n: Cid, lc: Cid, depth: nat, rank: Cid -> nat)
      requires Acyclic(dag, rank)
      reads this
    {
      if maxDepth >= 0 && depth > maxDepth then written == before
      else exists more :: EdgesOf(dag, lc, Paths(dag, lc, LimitAt(depth), rank), more) &&
                          written == before + ([Edge(n, lc)] + more)
    }

    /** One link of `n`, and everything below it. */
    method WriteLink(n: Cid, lc: Cid, depth: nat, ghost roots: set<Cid>, ghost rank: Cid -> nat)
      returns (count: nat, ok: bool)
      requires Acyclic(dag, rank) && AtDepth(dag, roots, lc, depth) && depth >= 1 && Valid(roots) && Linked(dag, n, lc)
      modifies this`seen, this`written, this`emitFailed, this`attempts
      ensures Valid(roots) && Grown(count)
      ensures ok ==> InSync()
      ensures ok && unique ==> NewsSettled(dag, maxDepth, old(seen), seen)
      ensures ok && unique && (maxDepth < 0 || depth <= maxDepth) ==>
        lc in seen && (maxDepth >= 0 ==> seen[lc] <= depth)
      ensures lc in dag && Available(dag) && !emitFailed ==> ok
      ensures ok && !unique ==> LinkSpelled(old(written), n, lc, depth, rank)
      decreases rank(lc), 2
    {
      var goDeeper;
      goDeeper, count, ok := Meet(n, lc, depth, roots);
      if ok && goDeeper {
        ghost var recorded := seen;
        var c;
        c, ok := WriteRefsRecursive(lc, depth, roots, rank);
        count := count + c;
        if ok && unique { RecordThenExplore(dag, maxDepth, old(seen), seen, lc, depth); }
        if ok && !unique { SpelledBelow(old(written), n, lc, depth, rank); }
      } else if ok && !unique && (maxDepth < 0 || depth <= maxDepth) {
        SpelledBelow(old(written), n, lc, depth, rank);
      }
    }

    /** A link was listed, and after it one edge for each path below it. */
    lemma SpelledBelow(before: seq<Edge>, n: Cid, lc: Cid, depth: nat, rank: Cid -> nat)
      requires Acyclic(dag, rank) && (maxDepth < 0 || depth <= maxDepth)
      requires Spelled(before + [Edge(n, lc)], lc, Paths(dag, lc, LimitAt(depth), rank))
      ensures LinkSpelled(before, n, lc, depth, rank)
    {
      var more := written[|before| + 1..];
      assert written == before + ([Edge(n, lc)] + more);
    }

    /** The paths that start with one of the first `upto` links of `n`, met at `depth`. */
    ghost function PathsFrom(n: Cid, depth: nat, rank: Cid -> nat, upto: nat): seq<seq<nat>>
      requires Acyclic(dag, rank) && n in dag && upto <= |dag[n]|
    {
      if LimitAt(depth) == 0 then [] else PathsVia(dag, n, LimitAt(depth), rank, upto)
    }

    /** Since `before`, one edge was listed for each of the paths, in their order. */
    ghost predicate Spelled(before: seq<Edge>, n: Cid, qs: seq<seq<nat>>)
      reads this
    {
      before <= written && EdgesOf(dag, n, qs, written[|before|..])
    }

    /** The first `upto` links of `n` are dealt with, and all that changed since `seen0` is. */
    ghost predicate Upto(n: Cid, depth: nat, upto: nat, seen0: map<Cid, nat>)
      requires n in dag && upto <= |dag[n]|
      reads this
    {
      && Lowered(seen0, seen) && NewsSettled(dag, maxDepth, seen0, seen)
      && LinksSeen(dag, maxDepth, seen, n, depth, upto)
    }

    method NextLink(n: Cid, i: nat, depth: nat, ghost roots: set<Cid>, ghost rank: Cid -> nat,
                    ghost seen0: map<Cid, nat>, ghost written0: seq<Edge>)
      returns (count: nat, ok: bool)
      requires Acyclic(dag, rank) && n in dag && i < |dag[n]| && AtDepth(dag, roots, n, depth) && Valid(roots)
      requires (maxDepth < 0 || depth <= maxDepth) && (unique ==> Upto(n, depth, i, seen0))
      requires !unique ==> Spelled(written0, n, PathsFrom(n, depth, rank, i))
      modifies this`seen, this`written, this`emitFailed, this`attempts
      ensures Valid(roots) && Grown(count)
      ensures ok ==> InSync()
      ensures ok && unique ==> Upto(n, depth, i + 1, seen0)
      ensures ok && !unique ==> Spelled(written0, n, PathsFrom(n, depth, rank, i + 1))
      ensures Available(dag) && !emitFailed ==> ok
      decreases rank(n), 0
    {
      assert Linked(dag, n, dag[n][i]);
      count, ok := WriteLink(n, dag[n][i], depth + 1, roots, rank);
      if ok && unique {
        NewsCompose(dag, maxDepth, seen0, old(seen), seen);
        LinksSeenExtend(dag, maxDepth, old(seen), seen, n, depth, i);
      }
      if ok && !unique { NextSpelled(n, i, depth, rank, written0, old(written)); }
    }

    lemma NextSpelled(n: Cid, i: nat, depth: nat, rank: Cid -> nat, written0: seq<Edge>, before: seq<Edge>)
      requires Acyclic(dag, rank) && n in dag && i < |dag[n]| && (maxDepth < 0 || depth <= maxDepth)
      requires written0 <= before && EdgesOf(dag, n, PathsFrom(n, depth, rank, i), before[|written0|..])
      requires LinkSpelled(before, n, dag[n][i], depth + 1, rank)
      ensures Spelled(written0, n, PathsFrom(n, depth, rank, i + 1))
    {
      if LimitAt(depth) != 0 {
        var below := Paths(dag, dag[n][i], LimitAt(depth + 1), rank);
        var more :| EdgesOf(dag, dag[n][i], below, more) && written == before + ([Edge(n, dag[n][i])] + more);
        EdgesOfNext(dag, n, PathsFrom(n, depth, rank, i), before[|written0|..], i, below, more);
        assert written[|written0|..] == before[|written0|..] + ([Edge(n, dag[n][i])] + more);
      }
    }

    /** Explore the links of `n`, which was met at `depth`. */
    method WriteRefsRecursive(n: Cid, depth: nat, ghost roots: set<Cid>, ghost rank: Cid -> nat)
      returns (count: nat, ok: bool)
      requires Acyclic(dag, rank) && n in dag && AtDepth(dag, roots, n, depth) && Valid(roots)
      requires maxDepth < 0 || depth <= maxDepth
      modifies this`seen, this`written, this`emitFailed, this`attempts
      ensures Valid(roots) && Grown(count)
      ensures ok ==> InSync()
      ensures ok && unique ==> Upto(n, depth, |dag[n]|, old(seen))
      ensures ok && !unique ==> Spelled(old(written), n, Paths(dag, n, LimitAt(depth), rank))
      ensures Available(dag) && !emitFailed ==> ok
      decreases rank(n), 1
    {
      count, ok := 0, true;
      var i := 0;
      while i < |dag[n]|
        invariant 0 <= i <= |dag[n]| && ok
        invariant Valid(roots) && Grown(count) && InSync()
        invariant unique ==> Upto(n, depth, i, old(seen))
        invariant !unique ==> Spelled(old(written), n, PathsFrom(n, depth, rank, i))
      {
        var c;
        c, ok := NextLink(n, i, depth, roots, rank, old(seen), old(written));
        count := count + c;
        if !ok { return; }
        i := i + 1;
      }
    }

    /** List the links below one object. */
    method WriteRefs(c: Cid, ghost roots: set<Cid>, ghost rank: Cid -> nat) returns (count: nat, ok: bool)
      requires Acyclic(dag, rank) && Valid(roots) && c in roots
      modifies this`seen, this`written, this`emitFailed, this`attempts
      ensures Valid(roots) && Grown(count)
      ensures ok ==> InSync() && c in dag
      ensures ok && unique ==> Upto(c, 0, |dag[c]|, old(seen))
      ensures ok && !unique ==>
        Spelled(old(written), c, Paths(dag, c, maxDepth, rank)) && count == |Paths(dag, c, maxDepth, rank)|
      ensures c in dag && Available(dag) && !emitFailed ==> ok
    {
      if c !in dag { return 0, false; }
      count, ok := WriteRefsRecursive(c, 0, roots, rank);
    }

    /** The `refs` command over all its arguments; an object that fails is reported and the
        next one is tried, unless the report itself cannot be emitted. */
    method WriteAll(objs: seq<Cid>, ghost rank: Cid -> nat) returns (allOk: bool)
      requires Acyclic(dag, rank) && seen == map[] && written == [] && !emitFailed
      modifies this`seen, this`written, this`emitFailed, this`attempts
      ensures AllLinks(dag, written) && (unique ==> Once(written))
      ensures allOk && unique ==> Listed(dag, maxDepth, Elems(objs), seen) && Targets(written) == seen.Keys
      ensures allOk && !unique ==> ListsAll(dag, maxDepth, rank, objs, written)
      ensures Available(dag) && (forall o :: o in objs ==> o in dag) && (forall i :: emits(i)) ==> allOk
    {
      ghost var roots := Elems(objs);
      allOk := true;
      for i := 0 to |objs|
        invariant Valid(roots) && (allOk ==> ListedUpto(objs, i, rank))
        invariant Available(dag) && (forall o :: o in objs ==> o in dag) && !emitFailed ==> allOk
      {
        ghost var before, list := seen, written;
        var _, ok := WriteRefs(objs[i], roots, rank);
        if allOk && ok { OneMoreListed(objs, i, rank, before, list); }
        allOk := allOk && ok;
        if !ok {
          var sent := emits(attempts);
          attempts := attempts + 1;
          if !sent { return; }
        }
      }
      assert objs[..|objs|] == objs;
      if allOk && unique { SettledIsListed(dag, maxDepth, roots, seen); }
    }

    /** The first `i` objects are listed. */
    ghost predicate ListedUpto(objs: seq<Cid>, i: nat, rank: Cid -> nat)
      requires i <= |objs| && Acyclic(dag, rank)
      reads this
    {
      && (forall j :: 0 <= j < i ==> objs[j] in dag)
      && (unique ==> NewsSettled(dag, maxDepth, map[], seen) && Targets(written) == seen.Keys)
      && (unique ==> forall j :: 0 <= j < i ==> LinksSeen(dag, maxDepth, seen, objs[j], 0, |dag[objs[j]]|))
      && (!unique ==> ListsAll(dag, maxDepth, rank, objs[..i], written))
    }

    lemma OneMoreListed(objs: seq<Cid>, i: nat, rank: Cid -> nat, before: map<Cid, nat>, list: seq<Edge>)
      requires Acyclic(dag, rank) && i < |objs| && objs[i] in dag
      requires forall j :: 0 <= j < i ==> objs[j] in dag
      requires unique ==> NewsSettled(dag, maxDepth, map[], before) && Upto(objs[i], 0, |dag[objs[i]]|, before)
      requires unique ==> forall j :: 0 <= j < i ==> LinksSeen(dag, maxDepth, before, objs[j], 0, |dag[objs[j]]|)
      requires unique ==> Targets(written) == seen.Keys
      requires !unique ==> ListsAll(dag, maxDepth, rank, objs[..i], list)
      requires !unique ==> Spelled(list, objs[i], Paths(dag, objs[i], maxDepth, rank))
      ensures ListedUpto(objs, i + 1, rank)
    {
      if unique {
        NewsCompose(dag, maxDepth, map[], before, seen);
      } else {
        var more := objs[..i + 1];
        assert more[..i] == objs[..i] && more[i] == objs[i] && written[..|list|] == list;
        assert EdgesOf(dag, more[i], Paths(dag, more[i], maxDepth, rank), written[|list|..]);
      }
    }
  }

  /** For each object in turn, one edge for each path from it: its last link. */
  ghost predicate ListsAll(dag: Graph, limit: int, rank: Cid -> nat, objs: seq<Cid>, written: seq<Edge>)
    requires Acyclic(dag, rank)
    decreases |objs|
  {
    if objs == [] then written == []
    else
      var last := objs[|objs| - 1];
      exists k :: 0 <= k <= |written| && ListsAll(dag, limit, rank, objs[..|objs| - 1], written[..k]) &&
                  EdgesOf(dag, last, Paths(dag, last, limit, rank), written[k..])
  }

  /** Listed at the shortest distance: exactly the CIDs within the limit of some root. */
  ghost predicate Listed(dag: Graph, limit: int, roots: set<Cid>, seen: map<Cid, nat>) {
    && (forall c :: c in seen ==> 1 <= seen[c] && (limit >= 0 ==> seen[c] <= limit) && AtDepth(dag, roots, c, seen[c]))
    && (forall c, k: nat :: AtDepth(dag, roots, c, k) && 1 <= k && (limit < 0 || k <= limit) ==>
          c in seen && (limit >= 0 ==> seen[c] <= k))
  }

  lemma SettledIsListed(dag: Graph, limit: int, roots: set<Cid>, seen: map<Cid, nat>)
    requires Sourced(dag, limit, roots, seen) && NewsSettled(dag, limit, map[], seen)
    requires forall r :: r in roots ==> r in dag && LinksSeen(dag, limit, seen, r, 0, |dag[r]|)
    ensures Listed(dag, limit, roots, seen)
  {
    forall c, k: nat | AtDepth(dag, roots, c, k) && 1 <= k && (limit < 0 || k <= limit)
      ensures c in seen && (limit >= 0 ==> seen[c] <= k)
    {
      SeenAtDepth(dag, limit, roots, seen, c, k);
    }
  }

  lemma {:induction false} SeenAtDepth(dag: Graph, limit: int, roots: set<Cid>, seen: map<Cid, nat>, c: Cid, k: nat)
    requires NewsSettled(dag, limit, map[], seen)
    requires forall r :: r in roots ==> r in dag && LinksSeen(dag, limit, seen, r, 0, |dag[r]|)
    requires AtDepth(dag, roots, c, k) && 1 <= k && (limit < 0 || k <= limit)
    ensures c in seen && (limit >= 0 ==> seen[c] <= k)
    decreases k
  {
    var b :| Linked(dag, b, c) && AtDepth(dag, roots, b, k - 1);
    if k > 1 {
      SeenAtDepth(dag, limit, roots, seen, b, k - 1);
      assert Settled(dag, limit, seen, b);
    }
  }
}
