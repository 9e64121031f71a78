/** Content identifiers, content-addressed blocks, and reachability over links.

    A block is addressed by its multihash alone; which links it has depends on the
    codec it is decoded with. `World.content` fixes what every multihash stands for,
    and a store is the set of multihashes present. Reachability is defined by
    explicit paths and knows nothing of how a walk computes it. */
module Dag {

  /** The digest of a block, kept abstract. */
  type Multihash = nat

  const DAG_PROTOBUF := 0x70
  const RAW := 0x55

  /** CIDv0 has no codec field: it always means dag-pb. */
  datatype Cid = V0(hash: Multihash) | V1(codec: nat, hash: Multihash) {
    function Codec(): nat {
      if V0? then DAG_PROTOBUF else codec
    }
  }

  function ToCidV1(c: Cid): (r: Cid)
    ensures r.V1? && r.hash == c.hash && r.Codec() == c.Codec()
  {
    if c.V0? then V1(DAG_PROTOBUF, c.hash) else c
  }

  /** A CIDv0 is a dag-pb CID, and a CIDv1 is left as it is. */
  lemma CidV0IsDagPb(c: Cid)
    ensures c.V0? ==> ToCidV1(c) == V1(0x70, c.hash) && c.Codec() == 0x70
    ensures c.V1? ==> ToCidV1(c) == c && c.Codec() == c.codec
  {
  }

  function Norm(s: set<Cid>): (r: set<Cid>)
    ensures forall c :: c in s ==> ToCidV1(c) in r
    ensures forall d :: d in r ==> exists c :: c in s && d == ToCidV1(c)
  {
    set c | c in s :: ToCidV1(c)
  }

  function Elems<T(==, !new)>(q: seq<T>): (r: set<T>)
    ensures forall x :: x in r <==> x in q
  {
    set x | x in q
  }

  ghost function HashesOf(cs: seq<Cid>): (r: set<Multihash>)
    ensures forall h :: h in r <==> exists i :: 0 <= i < |cs| && cs[i].hash == h
  {
    set i | 0 <= i < |cs| :: cs[i].hash
  }

  lemma HashesStep(cs: seq<Cid>, i: nat)
    requires i < |cs|
    ensures HashesOf(cs[..i + 1]) == HashesOf(cs[..i]) + {cs[i].hash}
    ensures HashesOf(cs[..i]) <= HashesOf(cs)
  {
    assert forall j :: 0 <= j < i ==> cs[..i + 1][j] == cs[..i][j];
    assert cs[..i + 1][i] == cs[i];
  }

  /** The links a block decodes to, for each codec that can decode it. */
  datatype Block = Block(links: map<nat, seq<Cid>>)

  /** `content` is what each multihash stands for, `unreadable` the blocks whose read
      fails for a reason other than absence, `insecure` the hashes `verifcid` rejects. */
  datatype World = World(content: map<Multihash, Block>, unreadable: set<Multihash>, insecure: set<Multihash>)

  datatype Fetch = Links(links: seq<Cid>) | NotFound | Broken

  /** `ipld.GetLinks` against a store holding exactly the multihashes in `store`. A raw CID has
      no links, and its block is not even looked for. */
  function FetchLinks(w: World, store: set<Multihash>, c: Cid): Fetch {
    if c.Codec() == RAW then Links([])
    else if c.hash !in store then NotFound
    else if c.hash in w.unreadable || c.hash !in w.content || c.Codec() !in w.content[c.hash].links then Broken
    else Links(w.content[c.hash].links[c.Codec()])
  }

  /** The normalised children of `c` that can be seen from `store`. */
  function Children(w: World, store: set<Multihash>, c: Cid): set<Cid> {
    match FetchLinks(w, store, c)
    case Links(ls) => Norm(Elems(ls))
    case _ => {}
  }

  /** A stored, readable block decoded as dag-pb: a CIDv0 and the dag-pb CIDv1 of its multihash
      see the same children, the normalised links of that decoding. */
  lemma DagPbChildren(w: World, store: set<Multihash>, h: Multihash)
    requires h in store && h in w.content && h !in w.unreadable && 0x70 in w.content[h].links
    ensures Children(w, store, V0(h)) == Norm(Elems(w.content[h].links[0x70]))
    ensures Children(w, store, V1(0x70, h)) == Norm(Elems(w.content[h].links[0x70]))
  {
  }

  /** What getting the links of a CIDv1 answers: nothing for a raw one, otherwise the decoding by
      its codec, or that the block is missing, or that it cannot be read or decoded. */
  lemma FetchCases(w: World, store: set<Multihash>, codec: nat, h: Multihash)
    ensures codec == 0x55 ==> FetchLinks(w, store, V1(codec, h)) == Links([])
    ensures codec != 0x55 ==> (FetchLinks(w, store, V1(codec, h)).NotFound? <==> h !in store)
    ensures codec != 0x55 && h in store ==>
      (FetchLinks(w, store, V1(codec, h)).Links? <==>
         h !in w.unreadable && h in w.content && codec in w.content[h].links)
    ensures codec != 0x55 && FetchLinks(w, store, V1(codec, h)).Links? ==>
      FetchLinks(w, store, V1(codec, h)).links == w.content[h].links[codec]
  {
  }

  /** `p` follows links visible in `store` and never touches `avoid`. */
  ghost predicate Path(w: World, store: set<Multihash>, avoid: set<Cid>, p: seq<Cid>) {
    && p != []
    && (forall i :: 0 <= i < |p| ==> p[i] !in avoid)
    && (forall i :: 0 < i < |p| ==> p[i] in Children(w, store, p[i - 1]))
  }

  ghost predicate PathTo(w: World, store: set<Multihash>, avoid: set<Cid>, roots: set<Cid>, c: Cid, p: seq<Cid>) {
    Path(w, store, avoid, p) && p[0] in roots && p[|p| - 1] == c
  }

  /** Some path from `roots` to `c` follows links visible in `store` outside `avoid`. */
  ghost predicate Reach(w: World, store: set<Multihash>, avoid: set<Cid>, roots: set<Cid>, c: Cid) {
    exists p :: PathTo(w, store, avoid, roots, c, p)
  }

  /** Everything in `v` but not in `base` has all its `store`-visible children in `v`. */
  ghost predicate Closed(w: World, store: set<Multihash>, base: set<Cid>, v: set<Cid>) {
    forall c, d :: c in v && c !in base && d in Children(w, store, c) ==> d in v
  }

  lemma ReachRoot(w: World, store: set<Multihash>, avoid: set<Cid>, roots: set<Cid>, c: Cid)
    requires c in roots && c !in avoid
    ensures Reach(w, store, avoid, roots, c)
  {
    assert PathTo(w, store, avoid, roots, c, [c]);
  }

  lemma ReachStep(w: World, store: set<Multihash>, avoid: set<Cid>, roots: set<Cid>, c: Cid, d: Cid)
    requires Reach(w, store, avoid, roots, c)
    requires d in Children(w, store, c) && d !in avoid
    ensures Reach(w, store, avoid, roots, d)
  {
    var p :| PathTo(w, store, avoid, roots, c, p);
    assert PathTo(w, store, avoid, roots, d, p + [d]);
  }

  lemma ChildrenMono(w: World, lo: set<Multihash>, hi: set<Multihash>, c: Cid)
    requires lo <= hi
    ensures Children(w, lo, c) <= Children(w, hi, c)
  {
  }

  /** More blocks, more roots or fewer obstacles never lose a reachable node. */
  lemma ReachMono(w: World, lo: set<Multihash>, hi: set<Multihash>, avoid: set<Cid>, avoid': set<Cid>,
                  roots: set<Cid>, roots': set<Cid>, c: Cid)
    requires lo <= hi && roots <= roots' && avoid' <= avoid
    requires Reach(w, lo, avoid, roots, c)
    ensures Reach(w, hi, avoid', roots', c)
  {
    var p :| PathTo(w, lo, avoid, roots, c, p);
    forall i | 0 < i < |p| ensures p[i] in Children(w, hi, p[i - 1]) {
      ChildrenMono(w, lo, hi, p[i - 1]);
    }
    assert PathTo(w, hi, avoid', roots', c, p);
  }

  /** A closed set holding the roots holds everything reachable. */
  lemma ClosedContainsReach(w: World, store: set<Multihash>, base: set<Cid>, roots: set<Cid>, v: set<Cid>, c: Cid)
    requires Closed(w, store, base, v) && roots <= v
    requires Reach(w, store, base, roots, c)
    ensures c in v
  {
    var p :| PathTo(w, store, base, roots, c, p);
    PathStaysInside(w, store, base, v, p, |p| - 1);
  }

  lemma {:induction false} PathStaysInside(w: World, store: set<Multihash>, base: set<Cid>, v: set<Cid>, p: seq<Cid>,
                                           i: nat)
    requires Closed(w, store, base, v) && Path(w, store, base, p) && p[0] in v && i < |p|
    ensures p[i] in v
  {
    if i > 0 {
      PathStaysInside(w, store, base, v, p, i - 1);
    }
  }

  /** A path whose nodes, all but the last, have all their children in `v`: each was
      expanded, and everything found there is accounted for. */
  ghost predicate Trail(w: World, store: set<Multihash>, avoid: set<Cid>, roots: set<Cid>, v: set<Cid>, c: Cid,
                        p: seq<Cid>) {
    PathTo(w, store, avoid, roots, c, p) && forall i :: 0 <= i < |p| - 1 ==> Children(w, store, p[i]) <= v
  }

  ghost predicate Trailed(w: World, store: set<Multihash>, avoid: set<Cid>, roots: set<Cid>, v: set<Cid>, c: Cid) {
    exists p :: Trail(w, store, avoid, roots, v, c, p)
  }

  lemma TrailedReach(w: World, store: set<Multihash>, avoid: set<Cid>, roots: set<Cid>, v: set<Cid>, c: Cid)
    requires Trailed(w, store, avoid, roots, v, c)
    ensures Reach(w, store, avoid, roots, c)
  {
    var p :| Trail(w, store, avoid, roots, v, c, p);
  }

  lemma TrailedRoot(w: World, store: set<Multihash>, avoid: set<Cid>, roots: set<Cid>, v: set<Cid>, c: Cid)
    requires c in roots && c !in avoid
    ensures Trailed(w, store, avoid, roots, v, c)
  {
    assert Trail(w, store, avoid, roots, v, c, [c]);
  }

  lemma TrailedStep(w: World, store: set<Multihash>, avoid: set<Cid>, roots: set<Cid>, v: set<Cid>, c: Cid, d: Cid)
    requires Trailed(w, store, avoid, roots, v, c) && Children(w, store, c) <= v
    requires d in Children(w, store, c) && d !in avoid
    ensures Trailed(w, store, avoid, roots, v, d)
  {
    var p :| Trail(w, store, avoid, roots, v, c, p);
    assert Trail(w, store, avoid, roots, v, d, p + [d]);
  }

  /** A present block shows the same children in every larger store. */
  lemma ChildrenFixed(w: World, lo: set<Multihash>, hi: set<Multihash>, c: Cid)
    requires lo <= hi && (c.hash in lo || Children(w, lo, c) != {})
    ensures Children(w, hi, c) == Children(w, lo, c)
  {
  }

  lemma TrailedMono(w: World, lo: set<Multihash>, hi: set<Multihash>, avoid: set<Cid>, avoid': set<Cid>,
                    roots: set<Cid>, v: set<Cid>, v': set<Cid>, c: Cid)
    requires lo <= hi && avoid' <= avoid && v <= v'
    requires Trailed(w, lo, avoid, roots, v, c)
    ensures Trailed(w, hi, avoid', roots, v', c)
  {
    var p :| Trail(w, lo, avoid, roots, v, c, p);
    forall i | 0 <= i < |p| - 1 ensures p[i + 1] in Children(w, hi, p[i]) && Children(w, hi, p[i]) <= v' {
      assert p[i + 1] in Children(w, lo, p[i]);
      ChildrenFixed(w, lo, hi, p[i]);
    }
    assert Trail(w, hi, avoid', roots, v', c, p);
  }
}
