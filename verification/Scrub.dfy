/** Concealing parts of the configuration: `config show` scrubs a tree with selectors, and
    `matchesGlobPrefix` decides from a dotted path alone whether a selector covers it.
    `fold` maps each character to the representative of its case-folding class. */
module Scrub {
  import opened Wrappers

  datatype Result<+T> = Ok(value: T) | Err

  datatype Value = Null | Scalar(text: string) | Object(fields: Fields)

  type Fields = map<string, Value>

  predicate EqualFold(fold: char -> char, s: string, t: string) {
    |s| == |t| && forall i :: 0 <= i < |s| ==> fold(s[i]) == fold(t[i])
  }

  predicate Matches(fold: char -> char, pattern: string, part: string) {
    pattern == "*" || EqualFold(fold, pattern, part)
  }

  /** The parts of `path` match the patterns of `glob` as far as both go. */
  ghost predicate Covered(fold: char -> char, path: seq<string>, glob: seq<string>) {
    forall i :: 0 <= i < |path| && i < |glob| ==> Matches(fold, glob[i], path[i])
  }

  /** What scrubbing leaves: matched leaves go, matched objects are scrubbed further, and an
      object the selector ends at is emptied. */
  function Scrubbed(fold: char -> char, m: Fields, key: seq<string>): Fields
    decreases |key|
  {
    if key == [] then
      map[]
    else
      map k | k in m && (Matches(fold, key[0], k) ==> m[k].Object?) ::
        if Matches(fold, key[0], k) then Object(Scrubbed(fold, m[k].fields, key[1..])) else m[k]
  }

  /** The non-object value at a path, if there is one. */
  function LeafAt(v: Value, path: seq<string>): Option<Value>
    decreases |path|
  {
    if path == [] then (if v.Object? then None else Some(v))
    else if v.Object? && path[0] in v.fields then LeafAt(v.fields[path[0]], path[1..])
    else None
  }

  /** Scrubbing a value that is not an object. The caller passes it wrapped in an interface
      that is never nil, so the error for a missing key is out of reach. */
  function ScrubValue(isNil: bool, okIfMissing: bool): Result<Option<Value>> {
    if isNil && !okIfMissing then Err else Ok(None)
  }

  method ScrubEither(fold: char -> char, u: Value, key: seq<string>, okIfMissing: bool)
    returns (r: Result<Option<Value>>)
    ensures r == Ok(if u.Object? then Some(Object(Scrubbed(fold, u.fields, key))) else None)
    decreases |key|, 1
  {
    if u.Object? {
      var n := ScrubMap(fold, u.fields, key, okIfMissing);
      return if n.Ok? then Ok(Some(Object(n.value))) else Err;
    }
    return ScrubValue(false, okIfMissing);
  }

  /** The recursive scrub over a map, in any iteration order. It never fails. */
  method ScrubMap(fold: char -> char, m: Fields, key: seq<string>, okIfMissing: bool) returns (r: Result<Fields>)
    ensures r == Ok(Scrubbed(fold, m, key))
    decreases |key|, 0
  {
    if key == [] { return Ok(map[]); }
    var n: Fields := map[];
    var todo := m.Keys;
    while todo != {}
      invariant todo <= m.Keys
      invariant n == map k | k in Scrubbed(fold, m, key) && k !in todo :: Scrubbed(fold, m, key)[k]
      decreases todo
    {
      var k :| k in todo;
      if key[0] == "*" || EqualFold(fold, key[0], k) {
        var u := ScrubEither(fold, m[k], key[1..], okIfMissing);
        if u.Err? { return Err; }
        if u.value.Some? { n := n[k := u.value.value]; }
      } else {
        n := n[k := m[k]];
      }
      todo := todo - {k};
    }
    assert n == Scrubbed(fold, m, key);
    r := Ok(n);
  }

  /** A leaf is dropped exactly if the selector covers its path, and is otherwise as it was. */
  lemma {:induction false} ScrubDropsCovered(fold: char -> char, m: Fields, key: seq<string>, path: seq<string>)
    requires path != []
    ensures LeafAt(Object(Scrubbed(fold, m, key)), path) ==
      if Covered(fold, path, key) then None else LeafAt(Object(m), path)
    decreases |key|
  {
    if key != [] && path[0] in m && Matches(fold, key[0], path[0]) {
      CoveredTail(fold, path, key);
      if m[path[0]].Object? && |path| > 1 {
        ScrubDropsCovered(fold, m[path[0]].fields, key[1..], path[1..]);
      }
    }
  }

  /** The value at a path, be it an object or not, if there is one. */
  function ValueAt(v: Value, path: seq<string>): Option<Value>
    decreases |path|
  {
    if path == [] then Some(v)
    else if v.Object? && path[0] in v.fields then ValueAt(v.fields[path[0]], path[1..])
    else None
  }

  ghost predicate IsObject(v: Option<Value>) {
    v.Some? && v.value.Object?
  }

  /** What scrubbing does to each place of the tree. Where the selector does not cover the path,
      all is as it was. Where it does, only objects are left, down to where it ends: there they
      are empty, and nothing is left below. */
  lemma {:induction false} ScrubbedPlaces(fold: char -> char, m: Fields, key: seq<string>, path: seq<string>)
    requires path != []
    ensures var was, now := ValueAt(Object(m), path), ValueAt(Object(Scrubbed(fold, m, key)), path);
      && (!Covered(fold, path, key) ==> now == was)
      && (Covered(fold, path, key) && |path| > |key| ==> now == None)
      && (Covered(fold, path, key) && |path| == |key| ==> now == if IsObject(was) then Some(Object(map[])) else None)
      && (Covered(fold, path, key) && |path| < |key| ==> if IsObject(was) then IsObject(now) else now == None)
    decreases |key|
  {
    if key != [] {
      if path[0] in m && Matches(fold, key[0], path[0]) {
        CoveredTail(fold, path, key);
        if m[path[0]].Object? && |path| > 1 {
          ScrubbedPlaces(fold, m[path[0]].fields, key[1..], path[1..]);
        }
      }
    }
  }

  /** A star matches every part, any other pattern the parts of its length that fold alike. */
  lemma MatchesWhat(fold: char -> char, pattern: string, part: string)
    ensures pattern == "*" ==> Matches(fold, pattern, part)
    ensures pattern != "*" && |pattern| != |part| ==> !Matches(fold, pattern, part)
    ensures pattern != "*" && |pattern| == |part| ==>
      (Matches(fold, pattern, part) <==> forall i :: 0 <= i < |part| ==> fold(part[i]) == fold(pattern[i]))
  {
  }

  lemma CoveredTail(fold: char -> char, path: seq<string>, key: seq<string>)
    requires path != [] && key != [] && Matches(fold, key[0], path[0])
    ensures Covered(fold, path, key) <==> Covered(fold, path[1..], key[1..])
  {
    if Covered(fold, path[1..], key[1..]) {
      forall i | 0 <= i < |path| && i < |key| ensures Matches(fold, key[i], path[i]) {
        if i > 0 { assert key[i] == key[1..][i - 1] && path[i] == path[1..][i - 1]; }
      }
    }
    if Covered(fold, path, key) {
      forall i | 0 <= i < |path[1..]| && i < |key[1..]| ensures Matches(fold, key[1..][i], path[1..][i]) {
        assert Matches(fold, key[i + 1], path[i + 1]);
      }
    }
  }

  /** Scrubs with different selectors commute; with itself, a scrub is done at once. */
  lemma {:induction false} ScrubsCommute(fold: char -> char, m: Fields, a: seq<string>, b: seq<string>)
    ensures Scrubbed(fold, Scrubbed(fold, m, a), b) == Scrubbed(fold, Scrubbed(fold, m, b), a)
    decreases |a| + |b|
  {
    if a != [] && b != [] {
      var ab, ba := Scrubbed(fold, Scrubbed(fold, m, a), b), Scrubbed(fold, Scrubbed(fold, m, b), a);
      assert ab.Keys == ba.Keys;
      forall k | k in ab ensures ab[k] == ba[k] {
        if Matches(fold, a[0], k) && Matches(fold, b[0], k) {
          ScrubsCommute(fold, m[k].fields, a[1..], b[1..]);
        }
      }
    }
  }

  lemma {:induction false} ScrubIsIdempotent(fold: char -> char, m: Fields, key: seq<string>)
    ensures Scrubbed(fold, Scrubbed(fold, m, key), key) == Scrubbed(fold, m, key)
    decreases |key|
  {
    if key != [] {
      var once := Scrubbed(fold, m, key);
      var twice := Scrubbed(fold, once, key);
      forall k | k in once ensures k in twice && twice[k] == once[k] {
        if Matches(fold, key[0], k) { ScrubIsIdempotent(fold, m[k].fields, key[1..]); }
      }
      assert twice.Keys == once.Keys;
    }
  }

  /** `config show` conceals with several selectors one after the other. */
  function ScrubbedAll(fold: char -> char, m: Fields, keys: seq<seq<string>>): Fields {
    if keys == [] then m else ScrubbedAll(fold, Scrubbed(fold, m, keys[0]), keys[1..])
  }

  lemma {:induction false} ShowConcealsExactly(fold: char -> char, m: Fields, keys: seq<seq<string>>, path: seq<string>)
    requires path != []
    ensures LeafAt(Object(ScrubbedAll(fold, m, keys)), path) ==
      if exists i :: 0 <= i < |keys| && Covered(fold, path, keys[i]) then None else LeafAt(Object(m), path)
    decreases |keys|
  {
    if keys != [] {
      var rest := keys[1..];
      ScrubDropsCovered(fold, m, keys[0], path);
      ShowConcealsExactly(fold, Scrubbed(fold, m, keys[0]), rest, path);
      if exists i :: 0 <= i < |rest| && Covered(fold, path, rest[i]) {
        var i :| 0 <= i < |rest| && Covered(fold, path, rest[i]);
        assert keys[i + 1] == rest[i];
      }
      forall i | 0 < i < |keys| && Covered(fold, path, keys[i])
        ensures exists j :: 0 <= j < |rest| && Covered(fold, path, rest[j])
      {
        assert rest[i - 1] == keys[i];
      }
    }
  }

  /** `strings.Split(s, ".")`. */
  function Split(s: string): (r: seq<string>)
    ensures r != []
  {
    if s == "" then [""]
    else
      var r := Split(s[1..]);
      if s[0] == '.' then [""] + r else [[s[0]] + r[0]] + r[1..]
  }

  function Join(path: seq<string>): string
    requires path != []
  {
    if |path| == 1 then path[0] else path[0] + "." + Join(path[1..])
  }

  lemma {:induction false} SplitUndotted(a: string)
    requires '.' !in a
    ensures Split(a) == [a]
  {
    if a != "" {
      SplitUndotted(a[1..]);
      assert [a[0]] + a[1..] == a;
    }
  }

  lemma {:induction false} SplitFirst(a: string, rest: string)
    requires '.' !in a
    ensures Split(a + "." + rest) == [a] + Split(rest)
  {
    var s := a + "." + rest;
    if a == "" {
      assert s[0] == '.' && s[1..] == rest;
    } else {
      SplitFirst(a[1..], rest);
      assert s[0] == a[0] && s[1..] == a[1..] + "." + rest;
      assert [a[0]] + a[1..] == a;
    }
  }

  lemma {:induction false} SplitJoin(path: seq<string>)
    requires path != [] && Undotted(path)
    ensures Split(Join(path)) == path
  {
    if |path| == 1 {
      SplitUndotted(path[0]);
    } else {
      SplitFirst(path[0], Join(path[1..]));
      SplitJoin(path[1..]);
    }
  }

  method MatchesGlobPrefix(fold: char -> char, key: string, glob: seq<string>) returns (r: bool)
    ensures r <==> Covered(fold, Split(key), glob)
  {
    var k := Split(key);
    for i := 0 to |glob|
      invariant forall j :: 0 <= j < i && j < |k| ==> Matches(fold, glob[j], k[j])
    {
      if i >= |k| { break; }
      if glob[i] == "*" { continue; }
      if !EqualFold(fold, k[i], glob[i]) { return false; }
    }
    r := true;
  }

  ghost predicate Undotted(path: seq<string>) {
    forall i :: 0 <= i < |path| ==> '.' !in path[i]
  }

  /** A dot in a segment makes the split part at its place shorter than the segment. */
  lemma {:induction false} SplitAtFirstDot(path: seq<string>, i: nat)
    requires i < |path| && Undotted(path[..i]) && '.' in path[i]
    ensures i < |Split(Join(path))| && |Split(Join(path))[i]| < |path[i]|
    decreases i
  {
    if i == 0 {
      var n := FirstDot(path[0]);
      var rest := Join(path)[n + 1..];
      assert Join(path) == path[0][..n] + "." + rest;
      SplitFirst(path[0][..n], rest);
    } else {
      var tail := path[1..];
      assert path[..i][0] == path[0];
      assert tail[..i - 1] == path[..i][1..];
      SplitAtFirstDot(tail, i - 1);
      SplitFirst(path[0], Join(tail));
    }
  }

  lemma {:induction false} FirstDot(s: string) returns (n: nat)
    requires '.' in s
    ensures n < |s| && s[n] == '.' && '.' !in s[..n]
  {
    n := 0;
    while s[n] != '.'
      invariant n < |s| && '.' !in s[..n] && '.' in s[n..]
      decreases |s| - n
    {
      assert s[..n + 1] == s[..n] + [s[n]] && s[n..] == [s[n]] + s[n + 1..];
      n := n + 1;
    }
  }

  /** A path with a dotted segment, taken as a selector, covers itself but not its dotted form. */
  lemma DottedIsNotCovered(fold: char -> char, path: seq<string>)
    requires path != [] && !Undotted(path)
    ensures Covered(fold, path, path) && !Covered(fold, Split(Join(path)), path)
  {
    var i := FirstDotted(path);
    SplitAtFirstDot(path, i);
    assert !Matches(fold, path[i], Split(Join(path))[i]);
  }

  lemma FirstDotted(path: seq<string>) returns (i: nat)
    requires !Undotted(path)
    ensures i < |path| && '.' in path[i] && Undotted(path[..i])
  {
    i := 0;
    while '.' !in path[i]
      invariant i < |path| && Undotted(path[..i]) && !Undotted(path[i..])
      decreases |path| - i
    {
      assert path[i..] == [path[i]] + path[i + 1..];
      i := i + 1;
    }
  }

  /** A tree with a leaf at the given path. */
  function Nested(path: seq<string>): Value {
    if path == [] then Null else Object(map[path[0] := Nested(path[1..])])
  }

  lemma {:induction false} NestedHasLeaf(path: seq<string>)
    ensures LeafAt(Nested(path), path) == Some(Null)
    decreases |path|
  {
    if path != [] { NestedHasLeaf(path[1..]); }
  }

  /** For this tree and selector, the scrub treats the leaf at `path` as the matcher on dotted
      paths says. */
  ghost predicate Agree(fold: char -> char, m: Fields, key: seq<string>, path: seq<string>)
    requires path != []
  {
    LeafAt(Object(Scrubbed(fold, m, key)), path) ==
      if Covered(fold, Split(Join(path)), key) then None else LeafAt(Object(m), path)
  }

  /** The two ways of deciding agree on every tree and every selector exactly for the paths
      without dots in their segments. */
  lemma ScrubAgreesIffUndotted(fold: char -> char, path: seq<string>)
    requires path != []
    ensures (forall m, key :: Agree(fold, m, key, path)) <==> Undotted(path)
  {
    if Undotted(path) {
      SplitJoin(path);
      forall m, key ensures Agree(fold, m, key, path) { ScrubDropsCovered(fold, m, key, path); }
    } else {
      var m := Nested(path).fields;
      NestedHasLeaf(path);
      DottedIsNotCovered(fold, path);
      ScrubDropsCovered(fold, m, path, path);
      assert !Agree(fold, m, path, path);
    }
  }

  /** The same of the selectors alone: what covers a path covers its dotted form, and the
      other way round. */
  lemma CoverageAgreesIffUndotted(fold: char -> char, path: seq<string>)
    requires path != []
    ensures (forall key :: Covered(fold, path, key) <==> Covered(fold, Split(Join(path)), key)) <==> Undotted(path)
  {
    if Undotted(path) { SplitJoin(path); } else { DottedIsNotCovered(fold, path); }
  }

  /** An instance: scrubbing drops the key `a.b`, and its dotted path does not match it. */
  lemma DottedSegmentsDisagree()
    ensures LeafAt(Object(Scrubbed(c => c, map["a.b" := Null], ["a.b"])), ["a.b"]) == None
    ensures !Covered(c => c, Split(Join(["a.b"])), ["a.b"])
  {
    assert ["a.b"][0][1] == '.';
    DottedIsNotCovered(c => c, ["a.b"]);
    ScrubDropsCovered(c => c, map["a.b" := Null], ["a.b"], ["a.b"]);
  }
}
