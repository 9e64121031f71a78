/** Custom routing: building routers from their configuration, with sharing and loop
    detection, and asking whether a router can provide over HTTP. */
module Routing {
  import opened Wrappers

  /** A child of a composed router: its name, and the timeouts and flags passed along. */
  datatype ConfigRouter = ConfigRouter(name: string, options: nat)

  datatype DhtParams = WrongParams | DhtParams(accelerated: bool, mode: string)

  datatype RouterConfig =
    | Http(endpoint: string)
    | Dht(params: DhtParams)
    | Parallel(routers: seq<ConfigRouter>)
    | Sequential(routers: seq<ConfigRouter>)
    | UnknownType

  type Routers = map<string, RouterConfig>

  /** For which endpoints an HTTP client can be made with the node's identity, and whether a DHT
      client can be made on its host. */
  datatype Env = Env(httpOk: string -> bool, dhtOk: bool)

  datatype Part = Part(router: Router, options: nat)

  datatype Router =
    | HttpRouter(endpoint: string)
    | DhtRouter(accelerated: bool, mode: string)
    | ParallelRouter(parts: seq<Part>)
    | SequentialRouter(parts: seq<Part>)

  function Children(cfg: RouterConfig): seq<ConfigRouter> {
    match cfg
    case Parallel(rs) => rs
    case Sequential(rs) => rs
    case _ => []
  }

  predicate ValidMode(mode: string) {
    mode == "auto" || mode == "client" || mode == "server"
  }

  /** The type is known, and a leaf can be constructed. */
  predicate Constructible(env: Env, cfg: RouterConfig) {
    match cfg
    case Http(endpoint) => endpoint != "" && env.httpOk(endpoint)
    case Dht(WrongParams) => false
    case Dht(DhtParams(accelerated, mode)) => (accelerated || ValidMode(mode)) && env.dhtOk
    case Parallel(_) => true
    case Sequential(_) => true
    case UnknownType => false
  }

  /** What each kind of router takes to be made: an HTTP router an endpoint, a DHT router
      parameters of its kind with a known mode unless it is accelerated. */
  lemma ConstructibleKinds(env: Env, endpoint: string, accelerated: bool, mode: string, routers: seq<ConfigRouter>)
    ensures Constructible(env, Http(endpoint)) <==> |endpoint| > 0 && env.httpOk(endpoint)
    ensures !Constructible(env, Dht(WrongParams)) && !Constructible(env, UnknownType)
    ensures Constructible(env, Dht(DhtParams(accelerated, mode))) <==>
      env.dhtOk && (accelerated || mode in {"auto", "client", "server"})
    ensures Constructible(env, Parallel(routers)) && Constructible(env, Sequential(routers))
  {
  }

  ghost predicate Edge(cfg: Routers, a: string, b: string) {
    a in cfg && exists i :: 0 <= i < |Children(cfg[a])| && Children(cfg[a])[i].name == b
  }

  /** `b` is reached from `a` over exactly `k` edges. */
  ghost predicate ReachesIn(cfg: Routers, a: string, b: string, k: nat)
    decreases k
  {
    if k == 0 then a == b else exists m :: Edge(cfg, a, m) && ReachesIn(cfg, m, b, k - 1)
  }

  ghost predicate Reaches(cfg: Routers, a: string, b: string) {
    exists k: nat :: ReachesIn(cfg, a, b, k)
  }

  /** `b` is reached from `a` over at least one edge. */
  ghost predicate Above(cfg: Routers, a: string, b: string) {
    exists m :: Edge(cfg, a, m) && Reaches(cfg, m, b)
  }

  ghost predicate OnLoop(cfg: Routers, n: string) {
    Above(cfg, n, n)
  }

  /** Everything reachable is defined, of a known type, constructible, and on no loop. */
  ghost predicate Buildable(cfg: Routers, env: Env, n: string) {
    forall m :: Reaches(cfg, n, m) ==> m in cfg && Constructible(env, cfg[m]) && !OnLoop(cfg, m)
  }

  /** `r` is the router that `n` describes. */
  ghost predicate Denotes(cfg: Routers, n: string, r: Router)
    decreases r
  {
    n in cfg && match cfg[n]
      case Http(endpoint) => r == HttpRouter(endpoint)
      case Dht(params) => params.DhtParams? && r == DhtRouter(params.accelerated, params.mode)
      case Parallel(rs) => r.ParallelRouter? && |r.parts| == |rs| &&
        forall i :: 0 <= i < |rs| ==> r.parts[i].options == rs[i].options && Denotes(cfg, rs[i].name, r.parts[i].router)
      case Sequential(rs) => r.SequentialRouter? && |r.parts| == |rs| &&
        forall i :: 0 <= i < |rs| ==> r.parts[i].options == rs[i].options && Denotes(cfg, rs[i].name, r.parts[i].router)
      case UnknownType => false
  }

  lemma {:induction false} DenotesOne(cfg: Routers, n: string, r: Router, r': Router)
    requires Denotes(cfg, n, r) && Denotes(cfg, n, r')
    ensures r == r'
    decreases r
  {
    var rs := Children(cfg[n]);
    if r.ParallelRouter? || r.SequentialRouter? {
      forall i | 0 <= i < |rs| ensures r.parts[i] == r'.parts[i] {
        DenotesOne(cfg, rs[i].name, r.parts[i].router, r'.parts[i].router);
      }
      assert r.parts == r'.parts;
    }
  }

  lemma ReachesSelf(cfg: Routers, n: string)
    ensures Reaches(cfg, n, n)
  {
    assert ReachesIn(cfg, n, n, 0);
  }

  lemma EdgeThenReaches(cfg: Routers, a: string, b: string, c: string)
    requires Edge(cfg, a, b) && Reaches(cfg, b, c)
    ensures Reaches(cfg, a, c)
  {
    var k: nat :| ReachesIn(cfg, b, c, k);
    assert ReachesIn(cfg, a, c, k + 1);
  }

  lemma {:induction false} ReachesTransIn(cfg: Routers, a: string, b: string, c: string, k: nat)
    requires ReachesIn(cfg, a, b, k) && Reaches(cfg, b, c)
    ensures Reaches(cfg, a, c)
    decreases k
  {
    if k > 0 {
      var m :| Edge(cfg, a, m) && ReachesIn(cfg, m, b, k - 1);
      ReachesTransIn(cfg, m, b, c, k - 1);
      EdgeThenReaches(cfg, a, m, c);
    }
  }

  lemma ReachesTrans(cfg: Routers, a: string, b: string, c: string)
    requires Reaches(cfg, a, b) && Reaches(cfg, b, c)
    ensures Reaches(cfg, a, c)
  {
    var k: nat :| ReachesIn(cfg, a, b, k);
    ReachesTransIn(cfg, a, b, c, k);
  }

  lemma BuildableChild(cfg: Routers, env: Env, n: string, c: string)
    requires Buildable(cfg, env, n) && Edge(cfg, n, c)
    ensures Buildable(cfg, env, c)
  {
    forall m | Reaches(cfg, c, m) ensures Reaches(cfg, n, m) {
      EdgeThenReaches(cfg, n, c, m);
    }
  }

  /** A constructible node whose children are all buildable is buildable: were it on a
      loop, a child would reach that loop. */
  lemma BuildableFromChildren(cfg: Routers, env: Env, n: string)
    requires n in cfg && Constructible(env, cfg[n])
    requires forall c :: Edge(cfg, n, c) ==> Buildable(cfg, env, c)
    ensures Buildable(cfg, env, n)
  {
    forall m | Reaches(cfg, n, m) ensures m in cfg && Constructible(env, cfg[m]) && !OnLoop(cfg, m) {
      var k: nat :| ReachesIn(cfg, n, m, k);
      if k > 0 {
        var c :| Edge(cfg, n, c) && ReachesIn(cfg, c, m, k - 1);
        assert Reaches(cfg, c, m);
      }
    }
  }

  lemma NotBuildable(cfg: Routers, env: Env, n: string)
    requires n !in cfg || !Constructible(env, cfg[n]) || OnLoop(cfg, n)
    ensures !Buildable(cfg, env, n)
  {
    ReachesSelf(cfg, n);
  }

  lemma AboveChild(cfg: Routers, v: string, n: string, c: string)
    requires Edge(cfg, n, c) && (v == n || Above(cfg, v, n))
    ensures Above(cfg, v, c)
  {
    ReachesSelf(cfg, c);
    if v != n {
      var m :| Edge(cfg, v, m) && Reaches(cfg, m, n);
      EdgeThenReaches(cfg, n, c, c);
      ReachesTrans(cfg, m, n, c);
    }
  }

  ghost predicate PartsDenote(cfg: Routers, rs: seq<ConfigRouter>, parts: seq<Part>) {
    |parts| == |rs| &&
    forall i :: 0 <= i < |rs| ==> parts[i].options == rs[i].options && Denotes(cfg, rs[i].name, parts[i].router)
  }

  lemma PartsDenoteAppend(cfg: Routers, rs: seq<ConfigRouter>, i: nat, parts: seq<Part>, part: Part)
    requires i < |rs| && PartsDenote(cfg, rs[..i], parts)
    requires part.options == rs[i].options && Denotes(cfg, rs[i].name, part.router)
    ensures PartsDenote(cfg, rs[..i + 1], parts + [part])
  {
    assert rs[..i + 1] == rs[..i] + [rs[i]];
  }

  /** The state of a build: names visited in this call and routers created so far. */
  class Builder {
    const cfg: Routers
    const env: Env
    var visited: set<string>
    var created: map<string, Router>
    ghost var built: seq<string>

    constructor (cfg: Routers, env: Env)
      ensures this.cfg == cfg && this.env == env && Valid() && visited == {} && created == map[]
    {
      this.cfg, this.env := cfg, env;
      visited, created, built := {}, map[], [];
    }

    /** Created routers are what their names describe, and were each built once. */
    ghost predicate Valid()
      reads this
    {
      && (forall n :: n in created ==> Denotes(cfg, n, created[n]) && Buildable(cfg, env, n))
      && multiset(built) == multiset(created.Keys)
    }

    /** Everything visited and not created is being built right now, above `n`. */
    ghost predicate AllAbove(n: string)
      reads this
    {
      forall v :: v in visited && v !in created ==> Above(cfg, v, n)
    }

    ghost predicate AllAboveOrAt(n: string)
      reads this
    {
      forall v :: v in visited && v !in created ==> v == n || Above(cfg, v, n)
    }

    /** Only names not visited before get created. */
    twostate predicate Grown()
      reads this
    {
      && old(visited) <= visited
      && (forall n :: n in old(created) ==> n in created && created[n] == old(created)[n])
      && (forall n :: n in created && n !in old(created) ==> n !in old(visited))
    }

    /** Nothing is left half built. */
    twostate predicate Finished()
      reads this
    {
      forall v :: v in visited && v !in created ==> v in old(visited)
    }

    method Parse(name: string) returns (res: Option<Router>)
      requires Valid() && AllAbove(name)
      modifies this
      ensures Valid() && Grown()
      ensures res.Some? <==> Buildable(cfg, env, name)
      ensures res.Some? ==> Finished() && name in created && res.value == created[name]
      decreases cfg.Keys - visited, 0, 0
    {
      if name in created { return Some(created[name]); }
      if name in visited || name !in cfg { NotBuildable(cfg, env, name); }
      if name in visited { return None; }
      visited := visited + {name};
      if name !in cfg { return None; }
      res := Construct(name);
      if res.Some? { Create(name, res.value); }
    }

    /** Build one router, the routers below it first. */
    method Construct(name: string) returns (res: Option<Router>)
      requires Valid() && name in cfg && name in visited && name !in created && AllAboveOrAt(name)
      modifies this
      ensures Valid() && Grown()
      ensures res.None? ==> !Buildable(cfg, env, name)
      ensures res.Some? ==> Finished() && Denotes(cfg, name, res.value)
      ensures res.Some? ==> Constructible(env, cfg[name]) && forall c :: Edge(cfg, name, c) ==> c in created
      decreases cfg.Keys - visited, 2
    {
      if !Constructible(env, cfg[name]) {
        NotBuildable(cfg, env, name);
        return None;
      }
      match cfg[name] {
        case Http(endpoint) =>
          res := Some(HttpRouter(endpoint));
        case Dht(params) =>
          res := Some(DhtRouter(params.accelerated, params.mode));
        case Parallel(rs) =>
          var parts := ParseChildren(name);
          res := if parts.None? then None else Some(ParallelRouter(parts.value));
        case Sequential(rs) =>
          var parts := ParseChildren(name);
          res := if parts.None? then None else Some(SequentialRouter(parts.value));
      }
    }

    method Create(name: string, router: Router)
      requires Valid() && name in cfg && Constructible(env, cfg[name]) && name !in created && Denotes(cfg, name, router)
      requires forall c :: Edge(cfg, name, c) ==> c in created
      modifies this`created, this`built
      ensures Valid() && Buildable(cfg, env, name)
      ensures created == old(created)[name := router]
    {
      BuildableFromChildren(cfg, env, name);
      assert created[name := router].Keys == created.Keys + {name};
      created := created[name := router];
      built := built + [name];
    }

    /** The loop over the children of a composed router. */
    method ParseChildren(name: string) returns (res: Option<seq<Part>>)
      requires Valid() && name in cfg && name in visited && name !in created && AllAboveOrAt(name)
      modifies this
      ensures Valid() && Grown()
      ensures res.None? ==> !Buildable(cfg, env, name)
      ensures res.Some? ==> Finished() && PartsDenote(cfg, Children(cfg[name]), res.value)
      ensures res.Some? ==> forall c :: Edge(cfg, name, c) ==> c in created
      decreases cfg.Keys - visited, 1
    {
      var rs := Children(cfg[name]);
      var parts: seq<Part> := [];
      for i := 0 to |rs|
        invariant Valid() && Grown() && Finished() && AllAboveOrAt(name)
        invariant PartsDenote(cfg, rs[..i], parts)
        invariant CreatedUpto(name, i)
      {
        var part := ParseChild(name, i);
        if part.None? { return None; }
        PartsDenoteAppend(cfg, rs, i, parts, part.value);
        parts := parts + [part.value];
      }
      assert rs[..|rs|] == rs;
      res := Some(parts);
    }

    lemma ChildIsBelow(name: string, c: string)
      requires Edge(cfg, name, c) && AllAboveOrAt(name)
      ensures AllAbove(c)
    {
      forall v | v in visited && v !in created ensures Above(cfg, v, c) {
        AboveChild(cfg, v, name, c);
      }
    }

    ghost predicate CreatedUpto(name: string, i: nat)
      requires name in cfg && i <= |Children(cfg[name])|
      reads this
    {
      forall j :: 0 <= j < i ==> Children(cfg[name])[j].name in created
    }

    method ParseChild(name: string, i: nat) returns (res: Option<Part>)
      requires Valid() && name in cfg && name in visited && name !in created && AllAboveOrAt(name)
      requires i < |Children(cfg[name])| && CreatedUpto(name, i)
      modifies this
      ensures Valid() && Grown()
      ensures res.None? ==> !Buildable(cfg, env, name)
      ensures res.Some? ==> Finished() && AllAboveOrAt(name) && CreatedUpto(name, i + 1)
      ensures res.Some? ==> res.value.options == Children(cfg[name])[i].options
      ensures res.Some? ==> Denotes(cfg, Children(cfg[name])[i].name, res.value.router)
      decreases cfg.Keys - visited, 0, 1
    {
      var cr := Children(cfg[name])[i];
      assert Edge(cfg, name, cr.name);
      ChildIsBelow(name, cr.name);
      var r := Parse(cr.name);
      if r.None? {
        if Buildable(cfg, env, name) { BuildableChild(cfg, env, name, cr.name); }
        return None;
      }
      res := Some(Part(r.value, cr.options));
    }
  }

  const PROVIDE := "provide"
  const FIND_PEERS := "find-peers"
  const FIND_PROVIDERS := "find-providers"
  const GET_IPNS := "get-ipns"
  const PUT_IPNS := "put-ipns"
  const METHOD_NAMES := [PROVIDE, FIND_PEERS, FIND_PROVIDERS, GET_IPNS, PUT_IPNS]

  /** Method names to router names. */
  type Methods = map<string, string>

  ghost predicate ExactlyFive(methods: Methods) {
    methods.Keys == {PROVIDE, FIND_PEERS, FIND_PROVIDERS, GET_IPNS, PUT_IPNS}
  }

  /** All supported methods are there, and no other. */
  method Check(methods: Methods) returns (ok: bool)
    ensures ok <==> ExactlyFive(methods)
  {
    for i := 0 to |METHOD_NAMES|
      invariant forall j :: 0 <= j < i ==> METHOD_NAMES[j] in methods
    {
      if METHOD_NAMES[i] !in methods { return false; }
    }
    assert METHOD_NAMES[0] in methods && METHOD_NAMES[1] in methods && METHOD_NAMES[2] in methods
        && METHOD_NAMES[3] in methods && METHOD_NAMES[4] in methods;
    var todo := methods.Keys;
    while todo != {}
      invariant todo <= methods.Keys
      invariant forall k :: k in methods && k !in todo ==> k in METHOD_NAMES
      decreases todo
    {
      var k :| k in todo;
      if k !in METHOD_NAMES { return false; }
      todo := todo - {k};
    }
    ok := true;
  }

  datatype Composer = Composer(provide: Option<Router>, findPeers: Option<Router>, findProviders: Option<Router>,
                               getValue: Option<Router>, putValue: Option<Router>)
  {
    function Field(mn: string): Option<Router> {
      if mn == PROVIDE then provide
      else if mn == FIND_PEERS then findPeers
      else if mn == FIND_PROVIDERS then findProviders
      else if mn == GET_IPNS then getValue
      else if mn == PUT_IPNS then putValue
      else None
    }

    function Set(mn: string, r: Router): (c: Composer)
      ensures mn in METHOD_NAMES ==> c.Field(mn) == Some(r)
      ensures forall m :: m != mn ==> c.Field(m) == Field(m)
    {
      if mn == PUT_IPNS then this.(putValue := Some(r))
      else if mn == GET_IPNS then this.(getValue := Some(r))
      else if mn == FIND_PEERS then this.(findPeers := Some(r))
      else if mn == FIND_PROVIDERS then this.(findProviders := Some(r))
      else if mn == PROVIDE then this.(provide := Some(r))
      else this
    }
  }

  ghost predicate Describes(cfg: Routers, n: string, r: Option<Router>) {
    r.Some? && Denotes(cfg, n, r.value)
  }

  /** Every method is served by the router its configuration describes. */
  ghost predicate Serves(cfg: Routers, methods: Methods, c: Composer) {
    forall mn :: mn in methods ==> c.Field(mn).Some? && Denotes(cfg, methods[mn], c.Field(mn).value)
  }

  ghost predicate DoneBut(cfg: Routers, env: Env, methods: Methods, todo: set<string>, c: Composer) {
    forall mn :: mn in methods && mn !in todo ==>
      Buildable(cfg, env, methods[mn]) && c.Field(mn).Some? && Denotes(cfg, methods[mn], c.Field(mn).value)
  }

  lemma ServeOneMore(cfg: Routers, env: Env, methods: Methods, todo: set<string>, c: Composer, mn: string, r: Router)
    requires ExactlyFive(methods) && DoneBut(cfg, env, methods, todo, c)
    requires mn in methods && Buildable(cfg, env, methods[mn]) && Denotes(cfg, methods[mn], r)
    ensures DoneBut(cfg, env, methods, todo - {mn}, c.Set(mn, r))
  {
    assert mn in METHOD_NAMES;
  }

  /** Building everything the methods need, in whatever order the map yields them. */
  method Parse(cfg: Routers, methods: Methods, env: Env) returns (res: Option<Composer>)
    ensures res.Some? <==> ExactlyFive(methods) && forall mn :: mn in methods ==> Buildable(cfg, env, methods[mn])
    ensures res.Some? ==> Serves(cfg, methods, res.value)
    ensures res.Some? ==> methods.Keys == {"provide", "find-peers", "find-providers", "get-ipns", "put-ipns"}
    ensures res.Some? ==> Describes(cfg, methods["provide"], res.value.provide)
    ensures res.Some? ==> Describes(cfg, methods["find-peers"], res.value.findPeers)
    ensures res.Some? ==> Describes(cfg, methods["find-providers"], res.value.findProviders)
    ensures res.Some? ==> Describes(cfg, methods["get-ipns"], res.value.getValue)
    ensures res.Some? ==> Describes(cfg, methods["put-ipns"], res.value.putValue)
  {
    var ok := Check(methods);
    if !ok { return None; }
    var b := new Builder(cfg, env);
    var composer := Composer(None, None, None, None, None);
    var todo := methods.Keys;
    while todo != {}
      invariant todo <= methods.Keys && b.cfg == cfg && b.env == env && b.Valid()
      invariant DoneBut(cfg, env, methods, todo, composer)
      decreases todo
    {
      var mn :| mn in todo;
      b.visited := {};
      var r := b.Parse(methods[mn]);
      if r.None? { return None; }
      ServeOneMore(cfg, env, methods, todo, composer, mn, r.value);
      composer := composer.Set(mn, r.value);
      todo := todo - {mn};
    }
    ServedByField(cfg, methods, composer);
    res := Some(composer);
  }

  lemma ServedByField(cfg: Routers, methods: Methods, c: Composer)
    requires ExactlyFive(methods) && Serves(cfg, methods, c)
    ensures methods.Keys == {"provide", "find-peers", "find-providers", "get-ipns", "put-ipns"}
    ensures Describes(cfg, methods["provide"], c.provide)
    ensures Describes(cfg, methods["find-peers"], c.findPeers)
    ensures Describes(cfg, methods["find-providers"], c.findProviders)
    ensures Describes(cfg, methods["get-ipns"], c.getValue)
    ensures Describes(cfg, methods["put-ipns"], c.putValue)
  {
    assert PROVIDE in methods && FIND_PEERS in methods && FIND_PROVIDERS in methods;
    assert GET_IPNS in methods && PUT_IPNS in methods;
  }

  /** All five fields are set, and to the same routers for every iteration order. */
  lemma ComposerIsDetermined(cfg: Routers, methods: Methods, c: Composer, c': Composer)
    requires ExactlyFive(methods) && Serves(cfg, methods, c) && Serves(cfg, methods, c')
    ensures c == c'
  {
    forall mn | mn in methods ensures c.Field(mn) == c'.Field(mn) {
      DenotesOne(cfg, methods[mn], c.Field(mn).value, c'.Field(mn).value);
    }
    assert PROVIDE in methods && FIND_PEERS in methods && FIND_PROVIDERS in methods && GET_IPNS in methods &&
      PUT_IPNS in methods;
  }

  ghost predicate HttpBelow(cfg: Routers, n: string) {
    exists m :: Reaches(cfg, n, m) && m in cfg && cfg[m].Http?
  }

  /** Whether the router is or includes an HTTP router: an unguarded recursion over the
      configuration. `None` means that it goes deeper than `depth` calls. */
  function SupportsHttp(cfg: Routers, n: string, depth: nat): Option<bool>
    decreases depth, 0
  {
    if depth == 0 then None
    else if n !in cfg then Some(false)
    else match cfg[n]
      case Http(_) => Some(true)
      case Parallel(rs) => AnySupportsHttp(cfg, rs, depth - 1)
      case Sequential(rs) => AnySupportsHttp(cfg, rs, depth - 1)
      case _ => Some(false)
  }

  /** The loop over the children, which ends at the first that supports HTTP. */
  function AnySupportsHttp(cfg: Routers, rs: seq<ConfigRouter>, depth: nat): Option<bool>
    decreases depth, |rs|
  {
    if rs == [] then Some(false)
    else
      var first := SupportsHttp(cfg, rs[0].name, depth);
      if first == Some(false) then AnySupportsHttp(cfg, rs[1..], depth) else first
  }

  ghost predicate Returns(cfg: Routers, n: string) {
    exists depth :: SupportsHttp(cfg, n, depth).Some?
  }

  /** An HTTP router below `n` is `n` itself or below one of its children. */
  lemma HttpHere(cfg: Routers, n: string)
    ensures HttpBelow(cfg, n) <==>
      n in cfg && (cfg[n].Http? || exists j :: 0 <= j < |Children(cfg[n])| && HttpBelow(cfg, Children(cfg[n])[j].name))
  {
    ReachesSelf(cfg, n);
    if HttpBelow(cfg, n) {
      var m :| Reaches(cfg, n, m) && m in cfg && cfg[m].Http?;
      var k: nat :| ReachesIn(cfg, n, m, k);
      if k > 0 {
        var c :| Edge(cfg, n, c) && ReachesIn(cfg, c, m, k - 1);
        assert Reaches(cfg, c, m) && HttpBelow(cfg, c);
      }
    }
    if n in cfg {
      forall j | 0 <= j < |Children(cfg[n])| && HttpBelow(cfg, Children(cfg[n])[j].name) ensures HttpBelow(cfg, n) {
        var c := Children(cfg[n])[j].name;
        var m :| Reaches(cfg, c, m) && m in cfg && cfg[m].Http?;
        EdgeThenReaches(cfg, n, c, m);
      }
    }
  }

  /** If the query returns, it says whether an HTTP router is reachable. */
  lemma {:induction false} AnswerIsRight(cfg: Routers, n: string, depth: nat)
    requires SupportsHttp(cfg, n, depth).Some?
    ensures SupportsHttp(cfg, n, depth).value <==> HttpBelow(cfg, n)
    decreases depth, 0
  {
    HttpHere(cfg, n);
    if n in cfg && (cfg[n].Parallel? || cfg[n].Sequential?) {
      AnyAnswerIsRight(cfg, Children(cfg[n]), depth - 1);
    }
  }

  lemma {:induction false} AnyAnswerIsRight(cfg: Routers, rs: seq<ConfigRouter>, depth: nat)
    requires AnySupportsHttp(cfg, rs, depth).Some?
    ensures AnySupportsHttp(cfg, rs, depth).value <==> exists j :: 0 <= j < |rs| && HttpBelow(cfg, rs[j].name)
    decreases depth, |rs|
  {
    if rs != [] {
      AnswerIsRight(cfg, rs[0].name, depth);
      if SupportsHttp(cfg, rs[0].name, depth) == Some(false) {
        AnyAnswerIsRight(cfg, rs[1..], depth);
        assert forall j :: 0 < j < |rs| ==> rs[j] == rs[1..][j - 1];
      }
    }
  }

  /** More room for the call stack does not change an answer. */
  lemma {:induction false} DeeperIsSame(cfg: Routers, n: string, depth: nat, more: nat)
    requires depth <= more && SupportsHttp(cfg, n, depth).Some?
    ensures SupportsHttp(cfg, n, more) == SupportsHttp(cfg, n, depth)
    decreases depth, 0
  {
    if n in cfg && (cfg[n].Parallel? || cfg[n].Sequential?) {
      AnyDeeperIsSame(cfg, Children(cfg[n]), depth - 1, more - 1);
    }
  }

  lemma {:induction false} AnyDeeperIsSame(cfg: Routers, rs: seq<ConfigRouter>, depth: nat, more: nat)
    requires depth <= more && AnySupportsHttp(cfg, rs, depth).Some?
    ensures AnySupportsHttp(cfg, rs, more) == AnySupportsHttp(cfg, rs, depth)
    decreases depth, |rs|
  {
    if rs != [] {
      DeeperIsSame(cfg, rs[0].name, depth, more);
      if SupportsHttp(cfg, rs[0].name, depth) == Some(false) { AnyDeeperIsSame(cfg, rs[1..], depth, more); }
    }
  }

  /** No child before the `j`th has an HTTP router below it. */
  ghost predicate NoneBefore(cfg: Routers, rs: seq<ConfigRouter>, j: nat) {
    forall i :: 0 <= i < j && i < |rs| ==> !HttpBelow(cfg, rs[i].name)
  }

  /** The query at `a` gets to its child `b`. */
  ghost predicate Asks(cfg: Routers, a: string, b: string) {
    && a in cfg
    && var rs := Children(cfg[a]); exists j :: 0 <= j < |rs| && rs[j].name == b && NoneBefore(cfg, rs, j)
  }

  ghost predicate AsksIn(cfg: Routers, a: string, b: string, k: nat)
    decreases k
  {
    if k == 0 then a == b else exists m :: Asks(cfg, a, m) && AsksIn(cfg, m, b, k - 1)
  }

  /** The query at `n` gets to `b`, or would if every query before it returned. */
  ghost predicate Consults(cfg: Routers, n: string, b: string) {
    exists k: nat :: AsksIn(cfg, n, b, k)
  }

  /** A query at `n` leads back to a query at `n`. */
  ghost predicate AsksItself(cfg: Routers, n: string) {
    exists m :: Asks(cfg, n, m) && Consults(cfg, m, n)
  }

  lemma AskThenConsult(cfg: Routers, a: string, b: string, c: string)
    requires Asks(cfg, a, b) && Consults(cfg, b, c)
    ensures Consults(cfg, a, c)
  {
    var k: nat :| AsksIn(cfg, b, c, k);
    assert AsksIn(cfg, a, c, k + 1);
  }

  lemma ConsultsSelf(cfg: Routers, n: string)
    ensures Consults(cfg, n, n)
  {
    assert AsksIn(cfg, n, n, 0);
  }

  /** A query that returned has got an answer from every child it asks. */
  lemma AnsweredByChild(cfg: Routers, a: string, b: string, depth: nat)
    requires Asks(cfg, a, b) && SupportsHttp(cfg, a, depth).Some?
    ensures depth > 0 && SupportsHttp(cfg, b, depth - 1).Some?
  {
    var rs := Children(cfg[a]);
    var j :| 0 <= j < |rs| && rs[j].name == b && NoneBefore(cfg, rs, j);
    AnsweredByEach(cfg, rs, depth - 1, j);
  }

  lemma {:induction false} AnsweredByEach(cfg: Routers, rs: seq<ConfigRouter>, depth: nat, j: nat)
    requires AnySupportsHttp(cfg, rs, depth).Some? && j < |rs| && NoneBefore(cfg, rs, j)
    ensures SupportsHttp(cfg, rs[j].name, depth).Some?
    decreases j
  {
    if j > 0 {
      AnswerIsRight(cfg, rs[0].name, depth);
      assert forall i :: 0 <= i < |rs| - 1 ==> rs[1..][i] == rs[i + 1];
      AnsweredByEach(cfg, rs[1..], depth, j - 1);
    }
  }

  lemma {:induction false} AnsweredBelow(cfg: Routers, a: string, b: string, k: nat, depth: nat)
    requires AsksIn(cfg, a, b, k) && SupportsHttp(cfg, a, depth).Some?
    ensures k <= depth && SupportsHttp(cfg, b, depth - k).Some?
    decreases k
  {
    if k > 0 {
      var m :| Asks(cfg, a, m) && AsksIn(cfg, m, b, k - 1);
      AnsweredByChild(cfg, a, m, depth);
      AnsweredBelow(cfg, m, b, k - 1, depth - 1);
    }
  }

  /** Around a loop the depth left would fall for ever. */
  lemma {:induction false} NoAnswerAroundLoop(cfg: Routers, n: string, depth: nat)
    requires AsksItself(cfg, n)
    ensures SupportsHttp(cfg, n, depth).None?
    decreases depth
  {
    if SupportsHttp(cfg, n, depth).Some? {
      var m :| Asks(cfg, n, m) && Consults(cfg, m, n);
      var k: nat :| AsksIn(cfg, m, n, k);
      AnsweredByChild(cfg, n, m, depth);
      AnsweredBelow(cfg, m, n, k, depth - 1);
      NoAnswerAroundLoop(cfg, n, depth - 1 - k);
    }
  }

  /** Nothing the query gets to leads back to itself. */
  ghost predicate NoLoopConsulted(cfg: Routers, n: string) {
    forall m :: Consults(cfg, n, m) ==> !AsksItself(cfg, m)
  }

  ghost function Consulted(cfg: Routers, n: string): set<string> {
    set m | m in cfg.Keys && Consults(cfg, n, m)
  }

  /** Without such a loop there is strictly less to consult below: the recursion's rank. */
  lemma ConsultedShrinks(cfg: Routers, n: string, c: string)
    requires NoLoopConsulted(cfg, n) && Asks(cfg, n, c)
    ensures NoLoopConsulted(cfg, c) && Consulted(cfg, c) < Consulted(cfg, n)
  {
    ConsultsSelf(cfg, n);
    forall m | Consults(cfg, c, m) ensures Consults(cfg, n, m) {
      AskThenConsult(cfg, n, c, m);
    }
    assert n in Consulted(cfg, n) && n !in Consulted(cfg, c);
  }

  lemma {:induction false} LoopFreeReturns(cfg: Routers, n: string) returns (depth: nat)
    requires NoLoopConsulted(cfg, n)
    ensures SupportsHttp(cfg, n, depth).Some?
    decreases Consulted(cfg, n), 1, 0
  {
    depth := 1;
    if n in cfg && (cfg[n].Parallel? || cfg[n].Sequential?) {
      var rs := Children(cfg[n]);
      assert rs[0..] == rs;
      depth := ChildrenReturn(cfg, n, 0);
      depth := depth + 1;
    }
  }

  lemma {:induction false} ChildrenReturn(cfg: Routers, n: string, i: nat) returns (depth: nat)
    requires NoLoopConsulted(cfg, n) && n in cfg && i <= |Children(cfg[n])| && NoneBefore(cfg, Children(cfg[n]), i)
    ensures AnySupportsHttp(cfg, Children(cfg[n])[i..], depth).Some?
    decreases Consulted(cfg, n), 0, |Children(cfg[n])| - i
  {
    var rs := Children(cfg[n]);
    if i == |rs| { return 0; }
    assert Asks(cfg, n, rs[i].name);
    ConsultedShrinks(cfg, n, rs[i].name);
    depth := LoopFreeReturns(cfg, rs[i].name);
    AnswerIsRight(cfg, rs[i].name, depth);
    if !HttpBelow(cfg, rs[i].name) {
      var rest := ChildrenReturn(cfg, n, i + 1);
      var most := if depth < rest then rest else depth;
      DeeperIsSame(cfg, rs[i].name, depth, most);
      AnyDeeperIsSame(cfg, rs[i + 1..], rest, most);
      depth := most;
      assert rs[i..][1..] == rs[i + 1..];
    }
  }

  /** The query returns exactly if no loop can be met along children whose elder siblings
      have no HTTP router below them. */
  lemma ReturnsIffNoLoopConsulted(cfg: Routers, n: string)
    ensures Returns(cfg, n) <==> NoLoopConsulted(cfg, n)
  {
    if Returns(cfg, n) {
      var depth: nat :| SupportsHttp(cfg, n, depth).Some?;
      forall m | Consults(cfg, n, m) ensures !AsksItself(cfg, m) {
        var k: nat :| AsksIn(cfg, n, m, k);
        AnsweredBelow(cfg, n, m, k, depth);
        if AsksItself(cfg, m) { NoAnswerAroundLoop(cfg, m, depth - k); }
      }
    }
    if NoLoopConsulted(cfg, n) {
      var depth := LoopFreeReturns(cfg, n);
    }
  }

  lemma {:induction false} AsksAlongEdges(cfg: Routers, a: string, b: string, k: nat)
    requires AsksIn(cfg, a, b, k)
    ensures ReachesIn(cfg, a, b, k)
    decreases k
  {
    if k > 0 {
      var m :| Asks(cfg, a, m) && AsksIn(cfg, m, b, k - 1);
      AsksAlongEdges(cfg, m, b, k - 1);
      assert Edge(cfg, a, m);
    }
  }

  lemma ConsultsReaches(cfg: Routers, a: string, b: string)
    requires Consults(cfg, a, b)
    ensures Reaches(cfg, a, b)
  {
    var k: nat :| AsksIn(cfg, a, b, k);
    AsksAlongEdges(cfg, a, b, k);
  }

  lemma AsksItselfOnLoop(cfg: Routers, n: string)
    requires AsksItself(cfg, n)
    ensures OnLoop(cfg, n)
  {
    var c :| Asks(cfg, n, c) && Consults(cfg, c, n);
    ConsultsReaches(cfg, c, n);
    assert Edge(cfg, n, c);
  }

  /** On every router that `Parse` accepts the query returns. */
  lemma AcceptedReturns(cfg: Routers, env: Env, n: string)
    requires Buildable(cfg, env, n)
    ensures Returns(cfg, n)
  {
    forall m | Consults(cfg, n, m) ensures !AsksItself(cfg, m) {
      ConsultsReaches(cfg, n, m);
      if AsksItself(cfg, m) { AsksItselfOnLoop(cfg, m); }
    }
    ReturnsIffNoLoopConsulted(cfg, n);
  }

  /** `HasHTTPProviderConfigured`. */
  function HasHttpProvider(cfg: Routers, methods: Methods, depth: nat): (r: Option<bool>)
    ensures r.Some? ==> (r.value <==> PROVIDE in methods && HttpBelow(cfg, methods[PROVIDE]))
  {
    if |cfg| == 0 then
      assert cfg.Keys == {};
      Some(false)
    else if PROVIDE !in methods then Some(false)
    else
      var r := SupportsHttp(cfg, methods[PROVIDE], depth);
      if r.Some? then AnswerIsRight(cfg, methods[PROVIDE], depth); r else r
  }

  lemma ProviderAnswerExists(cfg: Routers, methods: Methods)
    ensures (exists depth :: HasHttpProvider(cfg, methods, depth).Some?) <==>
      (PROVIDE in methods ==> NoLoopConsulted(cfg, methods[PROVIDE]))
  {
    if PROVIDE !in methods {
      assert HasHttpProvider(cfg, methods, 0).Some?;
    } else {
      var n := methods[PROVIDE];
      ReturnsIffNoLoopConsulted(cfg, n);
      if |cfg| == 0 {
        assert cfg.Keys == {};
        assert SupportsHttp(cfg, n, 1).Some? && HasHttpProvider(cfg, methods, 0).Some?;
      } else {
        assert forall depth :: HasHttpProvider(cfg, methods, depth) == SupportsHttp(cfg, n, depth);
      }
    }
  }

  /** A router that is its own first child is never answered for. */
  lemma SelfFirstNeverReturns(depth: nat)
    ensures
      var cfg: Routers := map["n" := Parallel([ConfigRouter("n", 0), ConfigRouter("h", 0)]), "h" := Http("e")];
      SupportsHttp(cfg, "n", depth).None?
  {
    var cfg: Routers := map["n" := Parallel([ConfigRouter("n", 0), ConfigRouter("h", 0)]), "h" := Http("e")];
    assert Children(cfg["n"])[0].name == "n" && NoneBefore(cfg, Children(cfg["n"]), 0);
    ConsultsSelf(cfg, "n");
    NoAnswerAroundLoop(cfg, "n", depth);
  }

  /** With its children swapped, the same router is answered for, though it is on a loop. */
  lemma SelfSecondReturns()
    ensures
      var cfg: Routers := map["n" := Parallel([ConfigRouter("h", 0), ConfigRouter("n", 0)]), "h" := Http("e")];
      OnLoop(cfg, "n") && SupportsHttp(cfg, "n", 2) == Some(true)
  {
    var cfg: Routers := map["n" := Parallel([ConfigRouter("h", 0), ConfigRouter("n", 0)]), "h" := Http("e")];
    assert Children(cfg["n"])[1].name == "n";
    ReachesSelf(cfg, "n");
    assert SupportsHttp(cfg, "h", 1) == Some(true);
  }
}
