/** The RPC client's file: a cursor kept over streaming `cat` responses. */
module ApiFile {
  import opened Wrappers
  import opened Cat

  const FORWARD_SEEK_LIMIT := 0x4000

  const SEEK_CURRENT := 1
  const SEEK_END := 2

  /** int64 addition of two int64 values. */
  function AddInt64(a: int, b: int): (r: int)
    requires -INT64_MAX - 1 <= a <= INT64_MAX && -INT64_MAX - 1 <= b <= INT64_MAX
    ensures -INT64_MAX - 1 <= r <= INT64_MAX
  {
    if a + b > INT64_MAX then a + b - UINT64_RANGE
    else if a + b < -INT64_MAX - 1 then a + b + UINT64_RANGE
    else a + b
  }

  class ApiFile {
    const content: Bytes
    var at: int
    var body: Option<Bytes>  // what the open response has still to deliver

    /** The open response holds exactly the content from the cursor on. */
    ghost predicate Valid()
      reads this
    {
      && |content| <= INT64_MAX && 0 <= at <= INT64_MAX
      && body == Some(Drop(content, at))
    }

    /** Open at offset zero, as `getFile` does. */
    constructor (content: Bytes)
      requires |content| <= INT64_MAX
      ensures this.content == content && at == 0 && body == None
    {
      this.content := content;
      at, body := 0, None;
    }

    /** Ask the server for the file from the cursor on; `answered` is whether the request gets
        through. */
    method Reset(answered: bool) returns (ok: bool)
      requires |content| <= INT64_MAX && at <= INT64_MAX
      modifies this`body
      ensures ok ==> Valid()
      ensures !ok ==> body == None
      ensures ok <==> answered && at >= 0
    {
      body := None;
      var res := Run([File(content, true)], at, None);
      OneFile(content);
      ok := answered && res.Ok?;
      if ok { body := Some(Output(res.readers)); }
    }

    /** Read up to `n` bytes; fewer may come, none only at the end. */
    method Read(n: nat) returns (data: Bytes, eof: bool)
      requires Valid()
      modifies this
      ensures Valid() && |data| <= n
      ensures data <= Drop(content, old(at)) && at == old(at) + |data|
      ensures eof <==> data == [] && n > 0
      ensures eof ==> old(at) >= |content|
    {
      var got: nat :| got <= n && got <= |body.value| && (got == 0 ==> n == 0 || |body.value| == 0);
      data := body.value[..got];
      eof := got == 0 && n > 0;
      body := Some(body.value[got..]);
      at := at + got;
    }

    /** Where a seek is to end up. */
    function Target(offset: int, whence: int): int
      requires |content| <= INT64_MAX && 0 <= at <= INT64_MAX && -INT64_MAX - 1 <= offset <= INT64_MAX
      reads this
    {
      if whence == SEEK_END then AddInt64(|content|, offset)
      else if whence == SEEK_CURRENT then AddInt64(at, offset)
      else offset
    }

    /** Move the cursor, by reading ahead for a short way forward and by a new request
        otherwise. */
    method Seek(offset: int, whence: int, answered: bool) returns (pos: int, ok: bool)
      requires Valid() && -INT64_MAX - 1 <= offset <= INT64_MAX
      modifies this
      ensures ok ==> Valid() && pos == at == old(Target(offset, whence))
      ensures old(Target(offset, whence)) < 0 ==> !ok
      ensures old(at) <= old(Target(offset, whence)) < old(at) + 0x4000 ==>
        Valid() && (ok <==> old(Target(offset, whence)) == old(at) || old(Target(offset, whence)) <= |content|)
      ensures !(old(at) <= old(Target(offset, whence)) < old(at) + 0x4000) ==>
        (ok <==> answered && old(Target(offset, whence)) >= 0)
      ensures !ok && body.Some? ==> at == pos == if old(at) < |content| then |content| else old(at)
    {
      var target := Target(offset, whence);
      if at == target { return target, true; }
      if at < target && target - at < FORWARD_SEEK_LIMIT {
        var want := target - at;
        var r := if want <= |body.value| then want else |body.value|;
        body := Some(body.value[r..]);
        at := at + r;
        return at, r == want;
      }
      at := target;
      pos := at;
      ok := Reset(answered);
    }

    /** Read at an absolute position with a request of its own. */
    method ReadAt(n: nat, off: int, answered: bool) returns (data: Bytes, eof: bool, ok: bool)
      requires |content| <= INT64_MAX && n <= INT64_MAX && off <= INT64_MAX
      ensures ok <==> answered && off >= 0
      ensures ok ==> data == Take(Drop(content, off), n)
      ensures ok ==> (eof <==> |data| < n)
      ensures !ok ==> data == []
    {
      var res := Run([File(content, true)], off, Some(n));
      OneFile(content);
      ok := answered && res.Ok?;
      data := if ok then Output(res.readers) else [];
      eof := ok && |data| < n;
    }
  }

  lemma OneFile(content: Bytes)
    ensures Concat([File(content, true)]) == content
  {
    var es := [File(content, true)];
    assert es[..0] == [];
  }

  /** `getFile`: the file is usable exactly if the first request is answered. */
  method GetFile(content: Bytes, answered: bool) returns (f: ApiFile, ok: bool)
    requires |content| <= INT64_MAX
    ensures fresh(f) && f.content == content && f.at == 0
    ensures (ok <==> answered) && (ok ==> f.Valid())
  {
    f := new ApiFile(content);
    ok := f.Reset(answered);
  }

  datatype Op = ReadOp(n: nat) | SeekOp(offset: int, whence: int, answered: bool)

  datatype Seen = Data(bytes: Bytes) | At(pos: int)

  predicate InRange(op: Op) {
    op.SeekOp? ==> -INT64_MAX - 1 <= op.offset <= INT64_MAX
  }

  /** What may be seen of a file of the given content through a cursor at `at`: reads give
      the bytes at the cursor and advance it, seeks place it. */
  ghost predicate CursorOver(content: Bytes, at: int, ops: seq<Op>, seen: seq<Seen>)
    decreases |seen|
  {
    |seen| <= |ops| && (seen != [] ==>
      match (ops[0], seen[0])
      case (ReadOp(n), Data(d)) =>
        d <= Drop(content, at) && |d| <= n && (d == [] ==> n == 0 || at >= |content|)
        && CursorOver(content, at + |d|, ops[1..], seen[1..])
      case (SeekOp(offset, whence, _), At(pos)) =>
        && pos == offset + (if whence == 2 then |content| else if whence == 1 then at else 0)
        && pos >= 0 && CursorOver(content, pos, ops[1..], seen[1..])
      case _ => false)
  }

  /** A call that cannot fail: a read, or an answered seek to a place inside the file. */
  predicate Harmless(content: Bytes, op: Op) {
    match op
    case ReadOp(_) => true
    case SeekOp(offset, whence, answered) =>
      answered && ((whence == 0 && 0 <= offset <= |content|) || (whence == 2 && -|content| <= offset <= 0))
  }

  /** Any sequence of calls, up to the first that fails, is indistinguishable from a cursor
      over the content, however each seek was carried out. */
  method Drive(f: ApiFile, ops: seq<Op>) returns (seen: seq<Seen>)
    requires f.Valid() && forall i :: 0 <= i < |ops| ==> InRange(ops[i])
    modifies f
    ensures CursorOver(f.content, old(f.at), ops, seen)
    ensures |seen| == |ops| ==> f.Valid()
    ensures (forall i :: 0 <= i < |ops| ==> Harmless(f.content, ops[i])) ==> |seen| == |ops|
    decreases |ops|
  {
    if ops == [] { return []; }
    match ops[0] {
      case ReadOp(n) =>
        var data, _ := f.Read(n);
        seen := Drive(f, ops[1..]);
        seen := [Data(data)] + seen;
      case SeekOp(offset, whence, answered) =>
        var pos, ok := f.Seek(offset, whence, answered);
        if !ok { return []; }
        seen := Drive(f, ops[1..]);
        seen := [At(pos)] + seen;
    }
  }
}
