/** `ipfs cat`: reading a byte range of the concatenation of several files, with the
    source's 64-bit arithmetic written out. */
module Cat {
  import opened Wrappers

  type Bytes = seq<bv8>

  const INT64_MAX := 0x7fff_ffff_ffff_ffff
  const UINT64_RANGE := 0x1_0000_0000_0000_0000

  datatype Error = NegativeOffset | NegativeLength | Unresolved | IsDirectory | NotSupported | SizeUnknown | NotSeekable

  /** What a path argument turns out to be. */
  datatype Entry = File(data: Bytes, seekable: bool) | Failing(error: Error)

  /** A file positioned at `from`, cut after `limit` bytes if there is a limit. */
  datatype Reader = Reader(data: Bytes, from: nat, limit: Option<int>)

  datatype Result = Ok(readers: seq<Reader>, length: uint64) | Err(error: Error)

  type uint64 = n: int | 0 <= n < UINT64_RANGE

  function AddUint64(a: uint64, b: uint64): (r: uint64)
    ensures r == a + b || r == a + b - 0x1_0000_0000_0000_0000
  {
    if a + b < UINT64_RANGE then a + b else a + b - UINT64_RANGE
  }

  function SubUint64(a: uint64, b: uint64): (r: uint64)
    ensures r == a - b || r == a - b + 0x1_0000_0000_0000_0000
  {
    if a >= b then a - b else a - b + UINT64_RANGE
  }

  /** Conversion to int64: the upper half of the range is negative. */
  function ToInt64(a: uint64): (r: int)
    ensures -0x8000_0000_0000_0000 <= r < 0x8000_0000_0000_0000
    ensures r == a || r == a - 0x1_0000_0000_0000_0000
  {
    if a <= INT64_MAX then a else a - UINT64_RANGE
  }

  function Drop(s: Bytes, n: int): Bytes {
    if n <= 0 then s else if n <= |s| then s[n..] else []
  }

  /** The first `n` bytes; everything if `n` is negative. */
  function Take(s: Bytes, n: int): Bytes {
    if 0 <= n < |s| then s[..n] else s
  }

  function Yield(r: Reader): Bytes {
    var rest := Drop(r.data, r.from);
    match r.limit
    case None => rest
    case Some(n) => if n <= 0 then [] else Take(rest, n)
  }

  /** Byte by byte: what is left after `n` bytes, and what of it comes within a limit. */
  lemma RangeByByte(s: Bytes, n: nat, max: int)
    ensures var r := Take(Drop(s, n), max);
      && |r| == (var rest := if n <= |s| then |s| - n else 0; if 0 <= max < rest then max else rest)
      && forall i :: 0 <= i < |r| ==> r[i] == s[n + i]
  {
  }

  /** A reader yields the bytes from where it was positioned, no more than its limit. */
  lemma YieldByByte(r: Reader)
    requires r.from <= |r.data|
    ensures var b, rest := Yield(r), |r.data| - r.from;
      && (r.limit.None? ==> |b| == rest)
      && (r.limit.Some? && r.limit.value >= 0 ==> |b| == if r.limit.value < rest then r.limit.value else rest)
      && forall i :: 0 <= i < |b| ==> b[i] == r.data[r.from + i]
  {
  }

  function Output(rs: seq<Reader>): Bytes {
    if rs == [] then [] else Output(rs[..|rs| - 1]) + Yield(rs[|rs| - 1])
  }

  function Data(e: Entry): (r: Bytes)
    ensures e.File? ==> r == e.data
  {
    if e.File? then e.data else []
  }

  function Concat(es: seq<Entry>): Bytes {
    if es == [] then [] else Concat(es[..|es| - 1]) + Data(es[|es| - 1])
  }

  /** The offset left when entry `i` is looked at. */
  function OffsetAt(es: seq<Entry>, offset: nat, i: nat): nat
    requires i <= |es|
  {
    var skipped := |Concat(es[..i])|;
    if offset <= skipped then 0 else offset - skipped
  }

  /** Entry `i` cannot be read: it is no file, or has to be positioned and cannot be. */
  function Fault(es: seq<Entry>, offset: nat, i: nat): Option<Error>
    requires i < |es|
  {
    if es[i].Failing? then Some(es[i].error)
    else if OffsetAt(es, offset, i) <= |es[i].data| && !es[i].seekable then Some(NotSeekable)
    else None
  }

  /** Entry `i` is looked at: the limit is not met by the entries before it. */
  predicate Reached(es: seq<Entry>, offset: nat, max: int, i: nat)
    requires i <= |es|
  {
    max != 0 && (max < 0 || |Drop(Concat(es[..i]), offset)| < max)
  }

  ghost predicate FirstFault(es: seq<Entry>, offset: nat, max: int, i: nat, e: Error) {
    && i < |es| && Reached(es, offset, max, i) && Fault(es, offset, i) == Some(e)
    && FaultFree(es, offset, i)
  }

  /** None of the first `n` entries is at fault. */
  ghost predicate FaultFree(es: seq<Entry>, offset: nat, n: nat)
    requires n <= |es|
  {
    n > 0 ==> FaultFree(es, offset, n - 1) && Fault(es, offset, n - 1).None?
  }

  lemma {:induction false} FaultFreeBelow(es: seq<Entry>, offset: nat, n: nat)
    requires n <= |es| && FaultFree(es, offset, n)
    ensures forall j :: 0 <= j < n ==> Fault(es, offset, j).None?
  {
    if n > 0 { FaultFreeBelow(es, offset, n - 1); }
  }

  predicate Sized(es: seq<Entry>) {
    forall i :: 0 <= i < |es| ==> |Data(es[i])| <= INT64_MAX
  }

  lemma DropConcat(a: Bytes, b: Bytes, offset: nat)
    ensures Drop(a + b, offset) == Drop(a, offset) + Drop(b, offset - |a|)
  {
  }

  lemma ConcatStep(es: seq<Entry>, offset: nat, i: nat)
    requires i < |es|
    ensures Concat(es[..i + 1]) == Concat(es[..i]) + Data(es[i])
    ensures Drop(Concat(es[..i + 1]), offset) ==
      Drop(Concat(es[..i]), offset) + Drop(Data(es[i]), OffsetAt(es, offset, i))
  {
    ConcatNext(es, i);
    DropConcat(Concat(es[..i]), Data(es[i]), offset);
  }

  lemma ConcatNext(es: seq<Entry>, i: nat)
    requires i < |es|
    ensures Concat(es[..i + 1]) == Concat(es[..i]) + Data(es[i])
  {
    assert es[..i + 1][..i] == es[..i];
  }

  lemma PrefixTrans(a: Bytes, b: Bytes, d: Bytes)
    requires a <= b
    ensures a <= b + d
  {
  }

  lemma SplitLast<T>(a: seq<T>, b: seq<T>)
    requires b != []
    ensures b == b[..|b| - 1] + [b[|b| - 1]] && a + b == (a + b[..|b| - 1]) + [b[|b| - 1]]
  {
  }

  lemma JoinAssoc(a: Bytes, b: Bytes, c: Bytes)
    ensures (a + b) + c == a + (b + c)
  {
  }

  /** Files come one after the other, each where it stands in the list. */
  lemma {:induction false} ConcatJoins(es: seq<Entry>, fs: seq<Entry>)
    ensures Concat(es + fs) == Concat(es) + Concat(fs)
    decreases |fs|
  {
    if fs == [] {
      assert es + fs == es;
    } else {
      var init, last := fs[..|fs| - 1], fs[|fs| - 1];
      ConcatJoins(es, init);
      ConcatAppend(es + init, last);
      ConcatAppend(init, last);
      SplitLast(es, fs);
      JoinAssoc(Concat(es), Concat(init), Data(last));
    }
  }

  lemma ConcatAppend(es: seq<Entry>, e: Entry)
    ensures Concat(es + [e]) == Concat(es) + Data(e)
  {
    assert (es + [e])[..|es|] == es;
  }

  lemma ConcatOne(data: Bytes, seekable: bool)
    ensures Concat([]) == [] && Concat([File(data, seekable)]) == data
  {
    ConcatAppend([], File(data, seekable));
    assert [] + [File(data, seekable)] == [File(data, seekable)];
  }

  /** So do readers. */
  lemma {:induction false} OutputJoins(rs: seq<Reader>, ts: seq<Reader>)
    ensures Output(rs + ts) == Output(rs) + Output(ts)
    decreases |ts|
  {
    if ts == [] {
      assert rs + ts == rs;
    } else {
      var init, last := ts[..|ts| - 1], ts[|ts| - 1];
      OutputJoins(rs, init);
      OutputAppend(rs + init, last);
      OutputAppend(init, last);
      SplitLast(rs, ts);
      JoinAssoc(Output(rs), Output(init), Yield(last));
    }
  }

  lemma {:induction false} ConcatExtends(es: seq<Entry>, i: nat, j: nat)
    requires i <= j <= |es|
    ensures Concat(es[..i]) <= Concat(es[..j])
    decreases j
  {
    if i < j {
      ConcatExtends(es, i, j - 1);
      ConcatNext(es, j - 1);
      PrefixTrans(Concat(es[..i]), Concat(es[..j - 1]), Data(es[j - 1]));
    }
  }

  /** Appending to bytes that already fill the limit changes nothing below it. */
  lemma AppendAfterLimit(a: Bytes, b: Bytes, offset: nat, max: int)
    requires a <= b && 0 < max <= |Drop(a, offset)|
    ensures Take(Drop(b, offset), max) == Take(Drop(a, offset), max) && |Drop(b, offset)| >= max
  {
    assert |Drop(a, offset)| == |a| - offset;
    assert b[offset..][..max] == a[offset..][..max];
  }

  /** Entries past one that fills the limit are not looked at and change nothing. */
  lemma FilledLimit(es: seq<Entry>, offset: nat, max: int, i: nat)
    requires i <= |es| && 0 < max <= |Drop(Concat(es[..i]), offset)|
    ensures Take(Drop(Concat(es), offset), max) == Take(Drop(Concat(es[..i]), offset), max)
    ensures forall j :: i <= j <= |es| ==> !Reached(es, offset, max, j)
  {
    forall j | i <= j <= |es| ensures !Reached(es, offset, max, j) {
      ConcatExtends(es, i, j);
      AppendAfterLimit(Concat(es[..i]), Concat(es[..j]), offset, max);
    }
    ConcatExtends(es, i, |es|);
    assert es[..|es|] == es;
    AppendAfterLimit(Concat(es[..i]), Concat(es), offset, max);
  }

  /** A limit met inside the second of two parts. */
  lemma TakeInto(a: Bytes, b: Bytes, max: int)
    requires |a| < max <= |a| + |b|
    ensures Take(a + b, max) == a + b[..max - |a|]
  {
  }

  lemma OutputAppend(rs: seq<Reader>, r: Reader)
    ensures Output(rs + [r]) == Output(rs) + Yield(r)
  {
    assert (rs + [r])[..|rs|] == rs;
  }

  /** Below a positive limit, no 64-bit operation of the loop wraps. */
  lemma LimitedNeverWraps(length: uint64, size: uint64, max: uint64)
    requires length < max <= INT64_MAX && size <= INT64_MAX
    ensures AddUint64(length, size) == length + size
    ensures length + size >= max ==> ToInt64(SubUint64(length + size, max)) == length + size - max
    ensures length + size >= max ==> 0 < size - (length + size - max) <= size
  {
  }

  lemma Wrapped(total: nat, length: uint64, laps: nat)
    requires total == length + laps * UINT64_RANGE
    ensures length == total % UINT64_RANGE
  {
  }

  /** The reader that meets the limit is cut to meet it exactly. */
  lemma LastReaderFits(es: seq<Entry>, offset: nat, max: int, i: nat, readers: seq<Reader>, count: nat, overshoot: nat,
                       r: Reader)
    requires i < |es| && es[i].File? && max > 0 && count == OffsetAt(es, offset, i) <= |es[i].data|
    requires Output(readers) == Drop(Concat(es[..i]), offset) && |Output(readers)| < max
    requires |Output(readers)| + |es[i].data| - count - max == overshoot
    requires r == Reader(es[i].data, count, if overshoot != 0 then Some(|es[i].data| - count - overshoot) else None)
    ensures Output(readers + [r]) == Take(Drop(Concat(es), offset), max)
    ensures |Output(readers + [r])| == max
    ensures forall j :: i < j <= |es| ==> !Reached(es, offset, max, j)
  {
    var a, b := Output(readers), Drop(es[i].data, count);
    OutputAppend(readers, r);
    ConcatStep(es, offset, i);
    TakeInto(a, b, max);
    assert Yield(r) == b[..max - |a|];
    FilledLimit(es, offset, max, i + 1);
  }

  /** `length` is the number of bytes so far, wrapped `laps` times, and below any limit. */
  ghost predicate Counted(readers: seq<Reader>, length: uint64, laps: nat, max: int) {
    |Output(readers)| == length + laps * UINT64_RANGE && (max > 0 ==> laps == 0 && length < max)
  }

  /** Position a file at `count` and append it, cut if it fills the limit. */
  method AddFile(es: seq<Entry>, offset: nat, max: int, i: nat, readers: seq<Reader>, length: uint64, count: nat,
                 ghost laps: nat)
    returns (readers': seq<Reader>, length': uint64, full: bool, ghost laps': nat)
    requires i < |es| && es[i].File? && |es[i].data| <= INT64_MAX && 0 != max <= INT64_MAX
    requires count == OffsetAt(es, offset, i) <= |es[i].data|
    requires Output(readers) == Drop(Concat(es[..i]), offset) && Counted(readers, length, laps, max)
    ensures !full ==> Output(readers') == Drop(Concat(es[..i + 1]), offset) && Counted(readers', length', laps', max)
    ensures full ==> Output(readers') == Take(Drop(Concat(es), offset), max) && |Output(readers')| == length' == max
    ensures full ==> forall j :: i < j <= |es| ==> !Reached(es, offset, max, j)
  {
    ConcatStep(es, offset, i);
    var size := |es[i].data| - count;
    laps' := if length + size >= UINT64_RANGE then laps + 1 else laps;
    if max > 0 { LimitedNeverWraps(length, size, max); }
    length' := AddUint64(length, size);
    if max > 0 && length' >= max {
      var overshoot := ToInt64(SubUint64(length', max));
      var r := Reader(es[i].data, count, if overshoot != 0 then Some(size - overshoot) else None);
      LastReaderFits(es, offset, max, i, readers, count, overshoot, r);
      return readers + [r], if overshoot != 0 then max else length', true, laps';
    }
    OutputAppend(readers, Reader(es[i].data, count, None));
    readers', full := readers + [Reader(es[i].data, count, None)], false;
  }

  /** The readers that together yield the requested range, and its size. */
  method Cat(es: seq<Entry>, offset: int, max: int) returns (res: Result)
    requires 0 <= offset <= INT64_MAX && max <= INT64_MAX && Sized(es)
    ensures res.Ok? ==> Output(res.readers) == Take(Drop(Concat(es), offset), max)
    ensures res.Ok? ==> res.length == |Output(res.readers)| % UINT64_RANGE
    ensures res.Ok? && max >= 0 ==> res.length == |Output(res.readers)|
    ensures res.Ok? <==> forall i :: 0 <= i < |es| && Reached(es, offset, max, i) ==> Fault(es, offset, i).None?
    ensures res.Err? ==> exists i :: FirstFault(es, offset, max, i, res.error)
  {
    if max == 0 { return Ok([], 0); }
    var readers: seq<Reader>, length: uint64, left: nat := [], 0, offset;
    ghost var laps: nat := 0;
    for i := 0 to |es|
      invariant left == OffsetAt(es, offset, i)
      invariant Output(readers) == Drop(Concat(es[..i]), offset)
      invariant Counted(readers, length, laps, max)
      invariant FaultFree(es, offset, i)
    {
      ConcatStep(es, offset, i);
      ghost var fault := Fault(es, offset, i);
      assert fault.Some? ==> FirstFault(es, offset, max, i, fault.value);
      if es[i].Failing? { return Err(es[i].error); }
      var fsize := |es[i].data|;
      if left > fsize {
        assert fault.None?;
        left := left - fsize;
      } else {
        if !es[i].seekable { return Err(NotSeekable); }
        assert fault.None?;
        var full;
        readers, length, full, laps := AddFile(es, offset, max, i, readers, length, left, laps);
        left := 0;
        if full {
          FaultFreeBelow(es, offset, i + 1);
          Wrapped(length, length, 0);
          return Ok(readers, length);
        }
      }
    }
    assert es[..|es|] == es;
    Wrapped(|Output(readers)|, length, laps);
    FaultFreeBelow(es, offset, |es|);
    res := Ok(readers, length);
  }

  /** The error is that of an entry, or some file cannot be positioned. */
  ghost predicate Blamed(es: seq<Entry>, e: Error) {
    Failing(e) in es || (e == NotSeekable && exists i :: 0 <= i < |es| && es[i].File? && !es[i].seekable)
  }

  lemma FaultIsBlamed(es: seq<Entry>, offset: nat, max: int, e: Error)
    requires exists i :: FirstFault(es, offset, max, i, e)
    ensures Blamed(es, e)
  {
    var i: nat :| FirstFault(es, offset, max, i, e);
    if es[i].Failing? { assert es[i] == Failing(e); }
  }

  predicate AllSeekable(es: seq<Entry>) {
    forall i :: 0 <= i < |es| ==> es[i].File? && es[i].seekable
  }

  /** The command: options are checked first, and no length means no limit. */
  method Run(es: seq<Entry>, offset: int, length: Option<int>) returns (res: Result)
    requires offset <= INT64_MAX && (length.Some? ==> length.value <= INT64_MAX) && Sized(es)
    ensures offset < 0 ==> res == Err(NegativeOffset)
    ensures offset >= 0 && length.Some? && length.value < 0 ==> res == Err(NegativeLength)
    ensures res.Ok? ==> Output(res.readers) == Take(Drop(Concat(es), offset), if length.Some? then length.value else -1)
    ensures res.Ok? ==> res.length == |Output(res.readers)| % 0x1_0000_0000_0000_0000
    ensures res.Ok? && length.Some? ==> res.length == |Output(res.readers)|
    ensures res.Err? && offset >= 0 && (length.Some? ==> length.value >= 0) ==> Blamed(es, res.error)
    ensures offset >= 0 && (length.Some? ==> length.value >= 0) && AllSeekable(es) ==> res.Ok?
  {
    if offset < 0 { return Err(NegativeOffset); }
    if length.Some? && length.value < 0 { return Err(NegativeLength); }
    res := Cat(es, offset, if length.Some? then length.value else -1);
    if res.Err? { FaultIsBlamed(es, offset, if length.Some? then length.value else -1, res.error); }
  }
}
