/** The reader of the per-thread trace ring (introspect.c, dfsch_get_trace):
    the evaluator records each application and evaluation in a circular
    buffer of `trace_depth + 1` slots, `trace_depth` being a mask 2^k - 1,
    and the reader walks it backwards from the newest slot. */
module Introspect {
  import opened Values
  import opened Bits

  /** One slot: its flags, whose low byte is the kind, and the two objects
      it records (procedure and arguments of an application, or expression
      and environment of an evaluation). */
  datatype TracePoint = TracePoint(flags: nat, a: Value, b: Value)

  /** The values of DFSCH_TRACEPOINT_KIND_INVALID, _APPLY and _EVAL.  The
      header that defines them is not part of this model. */
  datatype TraceKinds = TraceKinds(invalid: nat, apply: nat, eval: nat)

  /** `flags & 0xff`: the low byte of the flags. */
  function Kind(tp: TracePoint): (k: nat)
    ensures k == tp.flags % 256
  {
    ByteMask();
    AndMask(tp.flags, 0xff);
    BitAnd(tp.flags, 0xff)
  }

  /** The record a slot contributes: `(apply proc args)`, `(eval expr env)`,
      or, for any other kind, the flags as a fixnum. */
  function Record(tp: TracePoint, kinds: TraceKinds): Value
  {
    if Kind(tp) == kinds.apply then List([Sym("apply"), tp.a, tp.b])
    else if Kind(tp) == kinds.eval then List([Sym("eval"), tp.a, tp.b])
    else Int(tp.flags)
  }

  /** 256 = 2^8, so `& 0xff` keeps the low byte. */
  lemma ByteMask()
    ensures IsPow2(256)
  {
    assert IsPow2(2) && IsPow2(4) && IsPow2(8) && IsPow2(16);
    assert IsPow2(32) && IsPow2(64) && IsPow2(128);
  }

  /** `(i - 1) & trace_depth` on a C int: for `i == 0` the operand is -1,
      every bit set, so the result is the mask itself.  Either way it is a
      decrement modulo the ring size. */
  function Prev(i: nat, depth: nat): (r: nat)
    requires IsPow2(depth + 1) && i <= depth
    ensures r == (i - 1) % (depth + 1)
  {
    if i == 0 then
      ModUnique(-1, depth + 1, -1, depth);
      depth
    else
      AndMask(i - 1, depth);
      BitAnd(i - 1, depth)
  }

  /** The slot `j` backward steps from `ptr` in a ring of `n` slots. */
  function Back(ptr: nat, j: nat, n: nat): (i: nat)
    requires n > 0
    ensures i < n
  {
    (ptr - j) % n
  }

  /** The record of the slot `j` steps back from `ptr`. */
  function Slot(buf: seq<TracePoint>, ptr: nat, kinds: TraceKinds, j: nat): Value
    requires |buf| > 0
  {
    Record(buf[Back(ptr, j, |buf|)], kinds)
  }

  /** Whether the slot `j` steps back from `ptr` is INVALID. */
  predicate InvalidAt(buf: seq<TracePoint>, ptr: nat, kinds: TraceKinds, j: nat)
    requires |buf| > 0
  {
    Kind(buf[Back(ptr, j, |buf|)]) == kinds.invalid
  }

  /** The number of slots the walk records from `j` on: it stops before an
      INVALID slot, or when it is back at `ptr` after the whole ring. */
  function CountFrom(buf: seq<TracePoint>, ptr: nat, kinds: TraceKinds, j: nat): (m: nat)
    requires |buf| > 0 && j <= |buf|
    ensures j <= m <= |buf|
    decreases |buf| - j
  {
    if j == |buf| then j
    else if InvalidAt(buf, ptr, kinds, j) then j
    else CountFrom(buf, ptr, kinds, j + 1)
  }

  /** The records of the `m` newest slots, oldest first. */
  function Records(buf: seq<TracePoint>, ptr: nat, kinds: TraceKinds, m: nat): (rs: seq<Value>)
    requires |buf| > 0
    ensures |rs| == m
    ensures forall k :: 0 <= k < m ==> rs[k] == Slot(buf, ptr, kinds, m - 1 - k)
  {
    seq(m, k requires 0 <= k < m => Slot(buf, ptr, kinds, m - 1 - k))
  }

  /** The list dfsch_get_trace returns: the records of the walked slots,
      oldest first. */
  function Trace(buf: seq<TracePoint>, ptr: nat, kinds: TraceKinds): Value
    requires |buf| > 0
  {
    List(Records(buf, ptr, kinds, CountFrom(buf, ptr, kinds, 0)))
  }

  /** dfsch_get_trace over the ring `buffer` whose newest slot is `ptr`. */
  method GetTrace(buffer: array<TracePoint>, ptr: nat, kinds: TraceKinds) returns (list: Value)
    requires IsPow2(buffer.Length) && ptr < buffer.Length
    ensures list == Trace(buffer[..], ptr, kinds)
  {
    ByteMask();
    var depth := buffer.Length - 1;
    var i := ptr;
    list := Nil;
    ghost var buf := buffer[..];
    ghost var j: nat := 0;
    assert i == Back(ptr, 0, buffer.Length) by {
      ModUnique(ptr, buffer.Length, 0, ptr);
    }
    while true
      invariant j < buffer.Length && i == Back(ptr, j, buffer.Length)
      invariant forall k :: 0 <= k < j ==> !InvalidAt(buf, ptr, kinds, k)
      invariant list == List(Records(buf, ptr, kinds, j))
      decreases buffer.Length - j
    {
      AndMask(buffer[i].flags, 0xff);
      if BitAnd(buffer[i].flags, 0xff) == kinds.invalid {
        CountIs(buf, ptr, kinds, j);
        return;
      }
      var record;
      if BitAnd(buffer[i].flags, 0xff) == kinds.apply {
        record := List([Sym("apply"), buffer[i].a, buffer[i].b]);
      } else if BitAnd(buffer[i].flags, 0xff) == kinds.eval {
        record := List([Sym("eval"), buffer[i].a, buffer[i].b]);
      } else {
        record := Int(buffer[i].flags);
      }
      assert record == Slot(buf, ptr, kinds, j);
      RecordsConsed(buf, ptr, kinds, j);
      list := Pair(record, list);
      BackStep(ptr, j, depth);
      if i == 0 {
        i := depth;
      } else {
        AndMask(i - 1, depth);
        i := BitAnd(i - 1, depth);
      }
      j := j + 1;
      BackCycle(ptr, j, buffer.Length);
      if i == ptr {
        CountIs(buf, ptr, kinds, j);
        return;
      }
    }
  }

  /** One more step puts the record of the next older slot in front. */
  lemma RecordsConsed(buf: seq<TracePoint>, ptr: nat, kinds: TraceKinds, j: nat)
    requires |buf| > 0
    ensures List(Records(buf, ptr, kinds, j + 1)) == Pair(Slot(buf, ptr, kinds, j), List(Records(buf, ptr, kinds, j)))
  {
    var rs := Records(buf, ptr, kinds, j + 1);
    assert rs[1..] == Records(buf, ptr, kinds, j);
  }

  /** The walk stops after exactly `j` slots when the `j` before it are
      valid and it is then at an INVALID slot or has done the whole
      ring. */
  lemma CountIs(buf: seq<TracePoint>, ptr: nat, kinds: TraceKinds, j: nat)
    requires |buf| > 0 && j <= |buf|
    requires forall k :: 0 <= k < j ==> !InvalidAt(buf, ptr, kinds, k)
    requires j == |buf| || InvalidAt(buf, ptr, kinds, j)
    ensures CountFrom(buf, ptr, kinds, 0) == j
  {
    CountSkips(buf, ptr, kinds, j, 0);
  }

  lemma {:induction false} CountSkips(buf: seq<TracePoint>, ptr: nat, kinds: TraceKinds, j: nat, from: nat)
    requires |buf| > 0 && from <= j <= |buf|
    requires forall k :: from <= k < j ==> !InvalidAt(buf, ptr, kinds, k)
    requires j == |buf| || InvalidAt(buf, ptr, kinds, j)
    ensures CountFrom(buf, ptr, kinds, from) == j
    decreases j - from
  {
    if from < j {
      CountSkips(buf, ptr, kinds, j, from + 1);
    }
  }

  /** Decrementing modulo `n` commutes with reducing modulo `n`. */
  lemma ModDecrement(a: int, n: nat)
    requires n > 0
    ensures ((a % n) - 1) % n == (a - 1) % n
  {
    var q, r := a / n, a % n;
    assert a == n * q + r;
    if r >= 1 {
      ModUnique(a - 1, n, q, r - 1);
      ModUnique(r - 1, n, 0, r - 1);
    } else {
      assert a - 1 == n * (q - 1) + (n - 1) by {
        assert n * (q - 1) == n * q - n;
      }
      ModUnique(a - 1, n, q - 1, n - 1);
      ModUnique(-1, n, -1, n - 1);
    }
  }

  /** The bit operation of the walk takes it one slot further back. */
  lemma BackStep(ptr: nat, j: nat, depth: nat)
    requires IsPow2(depth + 1)
    ensures Prev(Back(ptr, j, depth + 1), depth) == Back(ptr, j + 1, depth + 1)
  {
    ModDecrement(ptr - j, depth + 1);
  }

  /** The walk is back at `ptr` after the whole ring and not before. */
  lemma BackCycle(ptr: nat, j: nat, n: nat)
    requires ptr < n && 0 < j <= n
    ensures Back(ptr, j, n) == ptr <==> j == n
  {
    if j == n {
      ModUnique(ptr - j, n, -1, ptr);
    } else if ptr >= j {
      ModUnique(ptr - j, n, 0, ptr - j);
    } else {
      ModUnique(ptr - j, n, -1, ptr - j + n);
    }
  }

  /** No slot is read twice in one walk. */
  lemma BackDistinct(ptr: nat, j1: nat, j2: nat, n: nat)
    requires j1 < j2 < n
    ensures Back(ptr, j1, n) != Back(ptr, j2, n)
  {
    var b, q := (ptr - j1) % n, (ptr - j1) / n;
    var d := j2 - j1;
    assert ptr - j1 == n * q + b;
    if b >= d {
      ModUnique(ptr - j2, n, q, b - d);
    } else {
      assert ptr - j2 == n * (q - 1) + (b - d + n) by {
        assert n * (q - 1) == n * q - n;
      }
      ModUnique(ptr - j2, n, q - 1, b - d + n);
    }
  }

  /** At most one record per slot. */
  lemma TraceBounded(buf: seq<TracePoint>, ptr: nat, kinds: TraceKinds)
    requires |buf| > 0
    ensures IsProperList(Trace(buf, ptr, kinds)) && |Elements(Trace(buf, ptr, kinds))| <= |buf|
  {
    ListRoundTrip(Records(buf, ptr, kinds, CountFrom(buf, ptr, kinds, 0)));
  }

  /** An INVALID newest slot gives the empty trace. */
  lemma TraceEmptyOnInvalid(buf: seq<TracePoint>, ptr: nat, kinds: TraceKinds)
    requires ptr < |buf| && Kind(buf[ptr]) == kinds.invalid
    ensures Trace(buf, ptr, kinds) == Nil
  {
    ModUnique(ptr, |buf|, 0, ptr);
    assert InvalidAt(buf, ptr, kinds, 0);
  }

  /** Otherwise the trace ends with the record of the newest slot, and the
      one before it is the record of the slot one step back, if any. */
  lemma TraceEndsAtPtr(buf: seq<TracePoint>, ptr: nat, kinds: TraceKinds)
    requires IsPow2(|buf|) && ptr < |buf| && Kind(buf[ptr]) != kinds.invalid
    ensures var xs := Elements(Trace(buf, ptr, kinds));
      |xs| >= 1 && xs[|xs| - 1] == Record(buf[ptr], kinds) &&
      (|xs| >= 2 ==> xs[|xs| - 2] == Record(buf[Prev(ptr, |buf| - 1)], kinds))
  {
    var m := CountFrom(buf, ptr, kinds, 0);
    ListRoundTrip(Records(buf, ptr, kinds, m));
    ModUnique(ptr, |buf|, 0, ptr);
    assert !InvalidAt(buf, ptr, kinds, 0);
    BackStep(ptr, 0, |buf| - 1);
  }

  /** Each record is the one of its slot's kind. */
  lemma RecordShape(tp: TracePoint, kinds: TraceKinds)
    requires kinds.apply != kinds.eval
    ensures Kind(tp) == kinds.apply ==> Elements(Record(tp, kinds)) == [Sym("apply"), tp.a, tp.b]
    ensures Kind(tp) == kinds.eval ==> Elements(Record(tp, kinds)) == [Sym("eval"), tp.a, tp.b]
    ensures Kind(tp) != kinds.apply && Kind(tp) != kinds.eval ==> Record(tp, kinds) == Int(tp.flags)
  {
    ListRoundTrip([Sym("apply"), tp.a, tp.b]);
    ListRoundTrip([Sym("eval"), tp.a, tp.b]);
  }
}
