/** The registry of forwarded p2p streams: connection counts and peer tags under
    concurrent registrations and repeated closes and resets. */
module Streams {

  type Peer = nat

  const UINT64_RANGE := 0x1_0000_0000_0000_0000

  /** The registry's own fields; `tagged` is what it told the connection manager. */
  datatype Registry = Registry(streams: map<nat, Peer>, conns: map<Peer, int>, nextID: nat, tagged: set<Peer>)

  ghost function StreamsOf(r: Registry, p: Peer): set<nat> {
    set id | id in r.streams && r.streams[id] == p
  }

  /** A missing map entry reads as zero. */
  function ConnsOf(r: Registry, p: Peer): int {
    if p in r.conns then r.conns[p] else 0
  }

  /** Each peer's count is its number of streams, and it is tagged iff that is positive. */
  ghost predicate Consistent(r: Registry) {
    && (forall p :: ConnsOf(r, p) == |StreamsOf(r, p)|)
    && (forall p :: p in r.tagged <==> StreamsOf(r, p) != {})
    && (forall p :: p in r.conns <==> StreamsOf(r, p) != {})
    && (forall id :: id in r.streams ==> id < r.nextID)
  }

  function Registered(r: Registry, p: Peer): Registry {
    Registry(r.streams[r.nextID := p], r.conns[p := ConnsOf(r, p) + 1], (r.nextID + 1) % UINT64_RANGE, r.tagged + {p})
  }

  function Deregistered(r: Registry, id: nat): Registry {
    if id !in r.streams then r else
      var p := r.streams[id];
      var n := ConnsOf(r, p) - 1;
      if n < 1
      then Registry(r.streams - {id}, r.conns - {p}, r.nextID, r.tagged - {p})
      else Registry(r.streams - {id}, r.conns[p := n], r.nextID, r.tagged)
  }

  lemma RegisterConsistent(r: Registry, p: Peer)
    requires Consistent(r) && r.nextID + 1 < UINT64_RANGE
    ensures Consistent(Registered(r, p))
  {
    var r' := Registered(r, p);
    assert StreamsOf(r', p) == StreamsOf(r, p) + {r.nextID};
    forall q | q != p ensures StreamsOf(r', q) == StreamsOf(r, q) { }
  }

  lemma DeregisterConsistent(r: Registry, id: nat)
    requires Consistent(r)
    ensures Consistent(Deregistered(r, id))
  {
    if id in r.streams {
      var r', p := Deregistered(r, id), r.streams[id];
      assert id in StreamsOf(r, p);
      assert StreamsOf(r', p) == StreamsOf(r, p) - {id};
      forall q | q != p ensures StreamsOf(r', q) == StreamsOf(r, q) { }
      if StreamsOf(r', p) != {} {
        assert |StreamsOf(r', p)| > 0;
      }
    }
  }

  /** The registry object; each method runs under its mutex. */
  class StreamRegistry {
    var streams: map<nat, Peer>
    var conns: map<Peer, int>
    var nextID: nat
    var tagged: set<Peer>

    ghost function View(): Registry
      reads this
    {
      Registry(streams, conns, nextID, tagged)
    }

    constructor ()
      ensures View() == Registry(map[], map[], 0, {}) && Consistent(View())
    {
      streams, conns, nextID, tagged := map[], map[], 0, {};
      new;
      assert forall p :: StreamsOf(View(), p) == {};
    }

    method Register(peer: Peer) returns (id: nat)
      requires Consistent(View()) && nextID + 1 < UINT64_RANGE
      modifies this
      ensures id == old(nextID) && id !in old(streams)
      ensures View() == Registered(old(View()), peer) && Consistent(View())
      ensures streams == old(streams)[id := peer] && nextID == id + 1
    {
      RegisterConsistent(View(), peer);
      tagged := tagged + {peer};
      conns := conns[peer := (if peer in conns then conns[peer] else 0) + 1];
      id := nextID;
      streams := streams[nextID := peer];
      nextID := (nextID + 1) % UINT64_RANGE;
    }

    method Deregister(id: nat)
      requires Consistent(View())
      modifies this
      ensures View() == Deregistered(old(View()), id) && Consistent(View())
      ensures streams == old(streams) - {id} && nextID == old(nextID)
    {
      DeregisterConsistent(View(), id);
      if id !in streams { return; }
      var p := streams[id];
      conns := conns[p := (if p in conns then conns[p] else 0) - 1];
      if conns[p] < 1 {
        conns := conns - {p};
        tagged := tagged - {p};
        assert conns == old(conns) - {p};
      }
      streams := streams - {id};
    }
  }

  /** A thread carrying out `Close` or `Reset` of one stream: a copy goroutine that ended,
      or the close command. `done` counts its three actions. */
  datatype Closer = Closer(id: nat, done: nat)

  /** `peers` records every registration ever made, `local` and `remote` the endpoints that
      were closed, `downs` how often a stream was counted down. */
  datatype System = System(reg: Registry, peers: map<nat, Peer>, local: set<nat>, remote: set<nat>,
                           downs: map<nat, nat>, closers: seq<Closer>)

  datatype Step = Register(p: Peer) | Start(id: nat) | Advance(c: nat)

  predicate Enabled(s: System, t: Step) {
    match t
    case Register(_) => true
    case Start(id) => id in s.peers
    case Advance(c) => c < |s.closers| && s.closers[c].done < 3
  }

  function Apply(s: System, t: Step): System
    requires Enabled(s, t)
  {
    match t
    case Register(p) =>
      s.(reg := Registered(s.reg, p), peers := s.peers[s.reg.nextID := p], downs := s.downs[s.reg.nextID := 0])
    case Start(id) => s.(closers := s.closers + [Closer(id, 0)])
    case Advance(c) =>
      var Closer(id, done) := s.closers[c];
      var s' := s.(closers := s.closers[c := Closer(id, done + 1)]);
      if done == 0 then s'.(local := s.local + {id})
      else if done == 1 then s'.(remote := s.remote + {id})
      else if id in s.reg.streams && id in s.downs
      then s'.(reg := Deregistered(s.reg, id), downs := s.downs[id := s.downs[id] + 1])
      else s'.(reg := Deregistered(s.reg, id))
  }

  ghost predicate Inv(s: System) {
    && Consistent(s.reg) && s.downs.Keys == s.peers.Keys
    && (forall id :: id in s.peers ==> id < s.reg.nextID)
    && (forall id :: id in s.reg.streams ==> id in s.peers && s.reg.streams[id] == s.peers[id])
    // counted down once, exactly when it left the registry, with both ends closed
    && (forall id :: id in s.peers ==> s.downs[id] == if id in s.reg.streams then 0 else 1)
    && (forall id :: id in s.peers && id !in s.reg.streams ==> id in s.local && id in s.remote)
    && (forall c :: 0 <= c < |s.closers| ==> CloserFits(s, s.closers[c]))
  }

  ghost predicate CloserFits(s: System, c: Closer) {
    && c.id in s.peers && c.done <= 3
    && (c.done >= 1 ==> c.id in s.local)
    && (c.done >= 2 ==> c.id in s.remote)
    && (c.done >= 3 ==> c.id !in s.reg.streams)
  }

  lemma RegisterKeepsInv(s: System, p: Peer)
    requires Inv(s) && s.reg.nextID + 1 < UINT64_RANGE
    ensures Inv(Apply(s, Register(p)))
  {
    RegisterConsistent(s.reg, p);
    var s' := Apply(s, Register(p));
    forall c | 0 <= c < |s'.closers| ensures CloserFits(s', s'.closers[c]) {
      assert CloserFits(s, s.closers[c]);
    }
  }

  /** The last action of a closer: the registry forgets the stream, if it still knows it. */
  lemma DeregisterKeepsInv(s: System, c: nat)
    requires Inv(s) && c < |s.closers| && s.closers[c].done == 2
    ensures Inv(Apply(s, Advance(c)))
  {
    var s' := Apply(s, Advance(c));
    DeregisterConsistent(s.reg, s.closers[c].id);
    assert CloserFits(s, s.closers[c]);
    assert s'.reg.streams.Keys == s.reg.streams.Keys - {s.closers[c].id};
    forall d | 0 <= d < |s'.closers| ensures CloserFits(s', s'.closers[d]) {
      assert CloserFits(s, s.closers[d]);
    }
  }

  lemma CloseEndKeepsInv(s: System, c: nat)
    requires Inv(s) && c < |s.closers| && s.closers[c].done < 2
    ensures Inv(Apply(s, Advance(c)))
  {
    var s' := Apply(s, Advance(c));
    forall d | 0 <= d < |s'.closers| ensures CloserFits(s', s'.closers[d]) {
      assert CloserFits(s, s.closers[d]);
    }
  }

  lemma StepKeepsInv(s: System, t: Step)
    requires Inv(s) && Enabled(s, t) && (t.Register? ==> s.reg.nextID + 1 < UINT64_RANGE)
    ensures Inv(Apply(s, t))
  {
    match t
    case Register(p) => RegisterKeepsInv(s, p);
    case Start(_) =>
    case Advance(c) =>
      if s.closers[c].done < 2 { CloseEndKeepsInv(s, c); } else { DeregisterKeepsInv(s, c); }
  }

  ghost predicate IsRun(run: seq<System>, steps: seq<Step>) {
    && |run| == |steps| + 1
    && run[0] == System(Registry(map[], map[], 0, {}), map[], {}, {}, map[], [])
    && forall k :: 0 <= k < |steps| ==> Enabled(run[k], steps[k]) && run[k + 1] == Apply(run[k], steps[k])
  }

  /** How many registrations the first `k` steps hold. */
  function Registrations(steps: seq<Step>, k: nat): nat
    requires k <= |steps|
  {
    if k == 0 then 0 else Registrations(steps, k - 1) + if steps[k - 1].Register? then 1 else 0
  }

  /** After `n` registrations: the next id counts them modulo 2^64, and the ids given so far
      are those below `n`, or all there are. */
  ghost predicate Given(s: System, n: nat) {
    s.reg.nextID == n % UINT64_RANGE && forall id: nat :: id in s.peers <==> id < UINT64_RANGE && id < n
  }

  lemma NextId(n: nat)
    ensures (n % UINT64_RANGE + 1) % UINT64_RANGE == (n + 1) % UINT64_RANGE
    ensures n % UINT64_RANGE < UINT64_RANGE && (n < UINT64_RANGE ==> n % UINT64_RANGE == n)
  {
  }

  lemma RegisterGives(s: System, p: Peer, n: nat)
    requires Given(s, n)
    ensures Given(Apply(s, Register(p)), n + 1)
  {
    NextId(n);
  }

  lemma {:induction false} IdsGiven(run: seq<System>, steps: seq<Step>, k: nat)
    requires IsRun(run, steps) && k <= |steps|
    ensures Given(run[k], Registrations(steps, k))
  {
    if k > 0 {
      IdsGiven(run, steps, k - 1);
      if steps[k - 1].Register? { RegisterGives(run[k - 1], steps[k - 1].p, Registrations(steps, k - 1)); }
    }
  }

  /** In every run until the ids are used up, whatever threads close what and how often. */
  lemma {:induction false} RunKeepsInv(run: seq<System>, steps: seq<Step>, k: nat)
    requires IsRun(run, steps) && k <= |steps| && Registrations(steps, k) < UINT64_RANGE
    ensures Inv(run[k])
  {
    if k == 0 {
      assert forall p :: StreamsOf(run[0].reg, p) == {};
    } else {
      RunKeepsInv(run, steps, k - 1);
      IdsGiven(run, steps, k - 1);
      NextId(Registrations(steps, k - 1));
      StepKeepsInv(run[k - 1], steps[k - 1]);
    }
  }

  /** A registration gets an id never given before exactly if fewer than 2^64 were made. */
  lemma FreshIffNotWrapped(run: seq<System>, steps: seq<Step>, k: nat)
    requires IsRun(run, steps) && k < |steps| && steps[k].Register?
    ensures run[k].reg.nextID !in run[k].peers <==> Registrations(steps, k) < UINT64_RANGE
  {
    IdsGiven(run, steps, k);
    NextId(Registrations(steps, k));
  }

  /** A registration records the stream under its id with its peer, and a closer's last action
      takes exactly its own stream out. */
  lemma StepRecords(run: seq<System>, steps: seq<Step>, k: nat)
    requires IsRun(run, steps) && k < |steps|
    ensures steps[k].Register? ==>
      run[k + 1].reg.streams == run[k].reg.streams[run[k].reg.nextID := steps[k].p] &&
      run[k + 1].peers == run[k].peers[run[k].reg.nextID := steps[k].p]
    ensures !steps[k].Register? ==> run[k + 1].peers == run[k].peers
    ensures steps[k].Advance? && run[k].closers[steps[k].c].done == 2 ==>
      run[k + 1].reg.streams == run[k].reg.streams - {run[k].closers[steps[k].c].id}
    ensures !steps[k].Register? && !(steps[k].Advance? && run[k].closers[steps[k].c].done == 2) ==>
      run[k + 1].reg == run[k].reg
  {
    if steps[k].Advance? {
      var id := run[k].closers[steps[k].c].id;
      if id !in run[k].reg.streams { assert run[k].reg.streams - {id} == run[k].reg.streams; }
    }
  }
}
