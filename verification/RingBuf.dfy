/** The ring-buffer chardev: a power-of-two buffer with free-running counters that wrap at 2^64. */
module RingBuf {
  import opened Rings
  import opened Bits

  /** `size_t`. */
  const SIZE_MOD: nat := 0x1_0000_0000_0000_0000
  const DEFAULT_SIZE: nat := 65536

  /** The last n bytes of a stream, or all of it. */
  function Last<T>(s: seq<T>, n: nat): seq<T> {
    if |s| <= n then s else s[|s| - n..]
  }

  /** Unsigned subtraction. */
  function Minus(a: nat, b: nat): (d: nat)
    requires a < SIZE_MOD && b < SIZE_MOD
    ensures d < SIZE_MOD
  {
    (a - b) % SIZE_MOD
  }

  function Increment(a: nat): (r: nat)
    ensures r < SIZE_MOD
  {
    (a + 1) % SIZE_MOD
  }

  // ---------- Arithmetic of the counters

  lemma MinusIs(a: nat, b: nat)
    requires a < SIZE_MOD && b < SIZE_MOD
    ensures Minus(a, b) == if a < b then a - b + SIZE_MOD else a - b
  {
    var q := if a < b then -1 else 0;
    ModUnique(a - b, SIZE_MOD, q, a - b - SIZE_MOD * q);
  }

  lemma IncrementIs(a: nat)
    requires a < SIZE_MOD
    ensures Increment(a) == if a + 1 == SIZE_MOD then 0 else a + 1
  {
    var q := if a + 1 == SIZE_MOD then 1 else 0;
    ModUnique(a + 1, SIZE_MOD, q, a + 1 - SIZE_MOD * q);
  }

  /** A size below 2^64 that is a power of two divides 2^64. */
  lemma SizeDivides(k: nat)
    requires Pow2(k) < SIZE_MOD
    ensures k < 64 && SIZE_MOD == Pow2(k) * Pow2(64 - k)
  {
    Pow2Of64();
    Pow2Monotone(64, k);
    if k < 64 {
      Pow2Adds(k, 64 - k);
    }
  }

  lemma {:induction false} Pow2Monotone(a: nat, b: nat)
    ensures a <= b ==> Pow2(a) <= Pow2(b)
    decreases b
  {
    if a < b {
      Pow2Monotone(a, b - 1);
    }
  }

  lemma Pow2Of64()
    ensures Pow2(64) == SIZE_MOD
  {
    hide Pow2;
    Pow2Four();
    Pow2Adds(4, 4);
    Pow2Adds(8, 8);
    Pow2Adds(16, 16);
    Pow2Adds(32, 32);
  }

  lemma Pow2Four()
    ensures Pow2(4) == 16
  {
  }

  /** The slot that a counter stands for. */
  function SlotOf(c: nat, size: nat): (r: nat)
    requires size > 0
    ensures r < size
  {
    c % size
  }

  /** Masking a counter gives its slot, and the slot moves on by one when the counter is incremented,
      even where the counter wraps. */
  lemma CounterSlot(c: nat, size: nat)
    requires c < SIZE_MOD && 0 < size < SIZE_MOD && IsPow2(size)
    ensures BitAnd(c, size - 1) == SlotOf(c, size)
    ensures SlotOf(Increment(c), size) == Slot(SlotOf(c, size), 1, size)
  {
    var k: nat :| size == Pow2(k);
    MaskIsMod(c, k);
    WrapSlot(k);
    IncrementSlot(c, size);
  }

  lemma IncrementSlot(c: nat, size: nat)
    requires c < SIZE_MOD && 0 < size && SIZE_MOD % size == 0
    ensures SlotOf(Increment(c), size) == Slot(SlotOf(c, size), 1, size)
  {
    ModStep(c, size);
    if c + 1 == SIZE_MOD {
      ModUnique(c + 1, SIZE_MOD, 1, 0);
      ModUnique(0, size, 0, 0);
    } else {
      ModUnique(c + 1, SIZE_MOD, 0, c + 1);
    }
  }

  lemma WrapSlot(k: nat)
    requires Pow2(k) < SIZE_MOD
    ensures SIZE_MOD % Pow2(k) == 0
  {
    SizeDivides(k);
    ModUnique(SIZE_MOD, Pow2(k), Pow2(64 - k), 0);
  }

  /** Distances between counters, one counter advancing at a time. */
  lemma Distances(prod: nat, cons: nat)
    requires prod < SIZE_MOD && cons < SIZE_MOD
    ensures Minus(prod, cons) + 1 < SIZE_MOD ==> Minus(Increment(prod), cons) == Minus(prod, cons) + 1
    ensures prod != cons ==> Minus(prod, cons) > 0 && Minus(prod, Increment(cons)) == Minus(prod, cons) - 1
    ensures prod == cons ==> Minus(prod, cons) == 0
  {
    hide Minus, Increment;
    MinusIs(prod, cons);
    IncrementIs(prod);
    IncrementIs(cons);
    MinusIs(Increment(prod), cons);
    MinusIs(prod, Increment(cons));
  }

  // ---------- Reads and writes as operations on a sequence

  datatype Op = WriteOp(bytes: seq<bv8>) | ReadOp(len: nat)

  function AfterOp(c: seq<bv8>, op: Op, size: nat): seq<bv8> {
    match op
    case WriteOp(bytes) => Last(c + bytes, size)
    case ReadOp(len) => c[Min(len, |c|)..]
  }

  function Output(c: seq<bv8>, op: Op): seq<bv8> {
    match op
    case WriteOp(_) => []
    case ReadOp(len) => c[..Min(len, |c|)]
  }

  function After(c: seq<bv8>, ops: seq<Op>, size: nat): seq<bv8>
    decreases |ops|
  {
    if ops == [] then c else After(AfterOp(c, ops[0], size), ops[1..], size)
  }

  function Outputs(c: seq<bv8>, ops: seq<Op>, size: nat): seq<bv8>
    decreases |ops|
  {
    if ops == [] then [] else Output(c, ops[0]) + Outputs(AfterOp(c, ops[0], size), ops[1..], size)
  }

  function NewBytes(op: Op): seq<bv8> {
    if op.WriteOp? then op.bytes else []
  }

  function Written(ops: seq<Op>): seq<bv8>
    decreases |ops|
  {
    if ops == [] then [] else NewBytes(ops[0]) + Written(ops[1..])
  }

  // ---------- The driver

  datatype Option<+T> = None | Some(value: T)

  class RingBufDriver {
    const size: nat
    var prod: nat
    var cons: nat
    const cbuf: array<bv8>

    ghost predicate Valid()
      reads this
    {
      && 0 < size < SIZE_MOD && IsPow2(size) && cbuf.Length == size
      && prod < SIZE_MOD && cons < SIZE_MOD && Minus(prod, cons) <= size
      && SlotOf(prod, size) == Slot(SlotOf(cons, size), Minus(prod, cons), size)
    }

    ghost function Contents(): (s: seq<bv8>)
      requires Valid()
      reads this, cbuf
      ensures |s| == Minus(prod, cons)
    {
      Window(cbuf[..], SlotOf(cons, size), Minus(prod, cons))
    }

    constructor (size: nat)
      requires 0 < size < SIZE_MOD && IsPow2(size)
      ensures Valid() && this.size == size && Contents() == [] && fresh(cbuf)
    {
      this.size := size;
      prod, cons := 0, 0;
      cbuf := new bv8[size](_ => 0);
      new;
      ModUnique(0, size, 0, 0);
    }

    /** `qemu_chr_open_ringbuf`: the size defaults to 65536 and must be a power of two. */
    static method Open(requested: nat) returns (r: Option<RingBufDriver>)
      requires requested < SIZE_MOD
      ensures r.Some? <==> requested == 0 || IsPow2(requested)
      ensures r.Some? ==> r.value.Valid() && r.value.Contents() == [] && fresh(r.value) && fresh(r.value.cbuf)
                          && r.value.size == if requested == 0 then 65536 else requested
    {
      var size := requested;
      if size == 0 {
        size := DEFAULT_SIZE;
        DefaultIsPow2();
      }
      PowerOfTwoTest(size);
      if BitAnd(size, size - 1) != 0 {
        return None;
      }
      var d := new RingBufDriver(size);
      r := Some(d);
    }

    static lemma DefaultIsPow2()
      ensures IsPow2(DEFAULT_SIZE)
    {
      assert Pow2(8) == 256 by {
        assert Pow2(4) == 16;
        Pow2Adds(4, 4);
      }
      Pow2Adds(8, 8);
      assert DEFAULT_SIZE == Pow2(16);
    }

    /** `ringbuf_count`. */
    method Count() returns (n: nat)
      requires Valid()
      ensures n == |Contents()|
    {
      n := Minus(prod, cons);
    }

    /** Where the next byte goes, and where the counters stand once it is stored. */
    static lemma PutCounters(prod: nat, cons: nat, size: nat)
      requires 0 < size < SIZE_MOD && IsPow2(size) && prod < SIZE_MOD && cons < SIZE_MOD && Minus(prod, cons) <= size
      requires SlotOf(prod, size) == Slot(SlotOf(cons, size), Minus(prod, cons), size)
      ensures BitAnd(prod, size - 1) == Slot(SlotOf(cons, size), Minus(prod, cons), size)
      ensures Minus(Increment(prod), cons) == Minus(prod, cons) + 1
      ensures Minus(prod, cons) < size ==> SlotOf(Increment(prod), size) == Slot(SlotOf(cons, size), Minus(prod, cons) + 1, size)
      ensures Minus(prod, cons) == size ==>
        && Minus(Increment(prod), size) == Increment(cons) && Minus(Increment(prod), Increment(cons)) == size
        && SlotOf(Increment(cons), size) == Slot(SlotOf(cons, size), 1, size)
        && SlotOf(Increment(prod), size) == Slot(SlotOf(Increment(cons), size), size, size)
    {
      hide Minus, Increment, BitAnd, IsPow2, SlotOf;
      CounterSlot(prod, size);
      CounterSlot(cons, size);
      NotLargest(size);
      Distances(prod, cons);
      if Minus(prod, cons) == size {
        OneTooMany(Increment(prod), cons, size);
      }
    }

    static lemma NotLargest(size: nat)
      requires size < SIZE_MOD && IsPow2(size)
      ensures size + 1 < SIZE_MOD
    {
      var k: nat :| size == Pow2(k);
      SizeDivides(k);
      assert Pow2(64 - k) >= 2;
      MulMonotone(size, 2, Pow2(64 - k));
    }

    /** A full buffer and one more: the consumer moves on by one. */
    static lemma OneTooMany(prod: nat, cons: nat, size: nat)
      requires prod < SIZE_MOD && cons < SIZE_MOD && size < SIZE_MOD - 1 && Minus(prod, cons) == size + 1
      ensures Minus(prod, size) == Increment(cons) && Minus(prod, Increment(cons)) == size
    {
      hide Minus, Increment;
      MinusIs(prod, cons);
      IncrementIs(cons);
      MinusIs(prod, size);
      MinusIs(prod, Increment(cons));
    }

    /** One round of the write loop. */
    method PutByte(b: bv8)
      requires Valid()
      modifies `prod, `cons, cbuf
      ensures Valid() && Contents() == Last(old(Contents()) + [b], size)
    {
      hide Minus, Increment, BitAnd, IsPow2, Window, Slot, SlotOf, Last;
      ghost var n, start, ring := Minus(prod, cons), SlotOf(cons, size), cbuf[..];
      PutCounters(prod, cons, size);
      StoredWindow(ring, start, n, b);
      cbuf[BitAnd(prod, size - 1)] := b;
      assert cbuf[..] == ring[Slot(start, n, size) := b];
      prod := Increment(prod);
      if Minus(prod, cons) > size {
        cons := Minus(prod, size);
      }
    }

    /** Storing a byte behind a window of the ring, full or not. */
    static lemma StoredWindow(ring: seq<bv8>, start: nat, n: nat, b: bv8)
      requires start < |ring| && n <= |ring|
      ensures var stored, size := ring[Slot(start, n, |ring|) := b], |ring|;
              && (n < size ==> Window(stored, start, n + 1) == Last(Window(ring, start, n) + [b], size))
              && (n == size ==> Window(stored, Slot(start, 1, size), size) == Last(Window(ring, start, n) + [b], size))
    {
      if n < |ring| {
        PushBack(ring, start, n, b);
      } else {
        RollFull(ring, start, b);
      }
    }

    /** `ringbuf_chr_write`. */
    method Write(buf: array?<bv8>, len: int) returns (ret: int)
      requires Valid() && buf != cbuf && (buf != null ==> len <= buf.Length)
      modifies `prod, `cons, cbuf
      ensures Valid() && ret == if buf == null || len < 0 then -1 else 0
      ensures Contents() == if buf == null || len < 0 then old(Contents()) else Last(old(Contents()) + buf[..len], size)
    {
      if buf == null || len < 0 {
        return -1;
      }
      ghost var c := Contents();
      for i := 0 to len
        invariant Valid() && Contents() == Last(c + buf[..i], size)
      {
        LastMore(c + buf[..i], buf[i], size);
        assert (c + buf[..i]) + [buf[i]] == c + buf[..i + 1];
        PutByte(buf[i]);
      }
      ret := 0;
    }

    static lemma LastMore(s: seq<bv8>, b: bv8, n: nat)
      ensures Last(Last(s, n) + [b], n) == Last(s + [b], n)
    {
    }

    /** `ringbuf_chr_read`: the oldest bytes first. */
    method Read(buf: array<bv8>, len: int) returns (i: int)
      requires Valid() && buf != cbuf && len <= buf.Length
      modifies `cons, buf
      ensures Valid() && i == if len < 0 then 0 else Min(len, |old(Contents())|)
      ensures buf[..i] == old(Contents())[..i] && Contents() == old(Contents())[i..]
      ensures buf[i..] == old(buf[i..])
    {
      hide Minus, Increment, Window, Slot, SlotOf, IsPow2;
      ghost var c := Contents();
      i := 0;
      while i < len && cons != prod
        invariant 0 <= i <= |c| && (len < 0 || i <= len) && (i > 0 ==> i <= len)
        invariant Valid() && Contents() == c[i..]
        invariant i <= buf.Length && buf[..i] == c[..i] && buf[i..] == old(buf[..])[i..]
        decreases |c| - i
      {
        Distances(prod, cons);
        buf[i] := TakeByte();
        i := i + 1;
      }
      Distances(prod, cons);
    }

    /** One round of the read loop. */
    method TakeByte() returns (b: bv8)
      requires Valid() && cons != prod && Contents() != []
      modifies `cons
      ensures Valid() && b == old(Contents())[0] && Contents() == old(Contents())[1..]
    {
      CounterSlot(cons, size);
      Distances(prod, cons);
      PopFront(cbuf[..], SlotOf(cons, size), Minus(prod, cons));
      b := cbuf[BitAnd(cons, size - 1)];
      cons := Increment(cons);
    }

    /** One read or write with a buffer of its own. */
    method Do(op: Op) returns (out: seq<bv8>)
      requires Valid()
      modifies `prod, `cons, cbuf
      ensures Valid() && Contents() == AfterOp(old(Contents()), op, size) && out == Output(old(Contents()), op)
    {
      match op
      case WriteOp(bytes) =>
        var buf := new bv8[|bytes|](i requires 0 <= i < |bytes| => bytes[i]);
        assert buf[..|bytes|] == bytes;
        var ret := Write(buf, |bytes|);
        out := [];
      case ReadOp(len) =>
        var buf := new bv8[len](_ => 0);
        var n := Read(buf, len);
        out := buf[..n];
    }

    /** Any run of reads and writes: what comes out, and what is held in the end. */
    method DoAll(ops: seq<Op>) returns (out: seq<bv8>)
      requires Valid()
      modifies `prod, `cons, cbuf
      ensures Valid() && Contents() == After(old(Contents()), ops, size) && out == Outputs(old(Contents()), ops, size)
    {
      hide After, Outputs, AfterOp, Output, Minus, Window, IsPow2, Slot;
      ghost var c := Contents();
      out := [];
      StopHere(c, ops, size);
      for i := 0 to |ops|
        invariant Valid() && Contents() == After(c, ops[..i], size) && out == Outputs(c, ops[..i], size)
      {
        OneMoreOp(c, ops[..i], ops[i], size);
        assert ops[..i] + [ops[i]] == ops[..i + 1];
        var more := Do(ops[i]);
        out := out + more;
      }
      assert ops[..|ops|] == ops;
    }
  }

  lemma StopHere(c: seq<bv8>, ops: seq<Op>, size: nat)
    ensures After(c, ops[..0], size) == c && Outputs(c, ops[..0], size) == []
  {
  }

  lemma {:induction false} OneMoreOp(c: seq<bv8>, ops: seq<Op>, op: Op, size: nat)
    ensures After(c, ops + [op], size) == AfterOp(After(c, ops, size), op, size)
    ensures Outputs(c, ops + [op], size) == Outputs(c, ops, size) + Output(After(c, ops, size), op)
    decreases |ops|
  {
    hide AfterOp, Output;
    if ops == [] {
      assert [op][1..] == [] && ops + [op] == [op];
    } else {
      assert (ops + [op])[1..] == ops[1..] + [op];
      OneMoreOp(AfterOp(c, ops[0], size), ops[1..], op, size);
    }
  }

  // ---------- Runs

  /** Bytes overwritten before they were read. */
  function Lost(c: seq<bv8>, ops: seq<Op>, size: nat): nat
    decreases |ops|
  {
    if ops == [] then 0
    else
      (if ops[0].WriteOp? && |c| + |ops[0].bytes| > size then |c| + |ops[0].bytes| - size else 0)
      + Lost(AfterOp(c, ops[0], size), ops[1..], size)
  }

  /** Every byte is read, lost or still there, and the buffer never holds more than its size. */
  lemma {:induction false} EveryByteAccounted(c: seq<bv8>, ops: seq<Op>, size: nat)
    requires |c| <= size
    ensures |After(c, ops, size)| <= size
    ensures |Outputs(c, ops, size)| + |After(c, ops, size)| + Lost(c, ops, size) == |c| + |Written(ops)|
    decreases |ops|
  {
    if ops != [] {
      EveryByteAccounted(AfterOp(c, ops[0], size), ops[1..], size);
    }
  }

  /** Whatever is read and written, the buffer holds the last bytes written. */
  lemma {:induction false} HoldsTheLastBytes(c: seq<bv8>, ops: seq<Op>, size: nat)
    requires |c| <= size
    ensures After(c, ops, size) == Last(c + Written(ops), |After(c, ops, size)|)
    decreases |ops|
  {
    EveryByteAccounted(c, ops, size);
    if ops == [] {
      assert c + [] == c;
    } else {
      var c1 := AfterOp(c, ops[0], size);
      HoldsTheLastBytes(c1, ops[1..], size);
      EveryByteAccounted(c1, ops[1..], size);
      OpKeepsSuffix(c, ops[0], size);
      SuffixOfSuffix(c, NewBytes(ops[0]), c1, Written(ops[1..]), |After(c1, ops[1..], size)|);
    }
  }

  lemma OpKeepsSuffix(c: seq<bv8>, op: Op, size: nat)
    requires |c| <= size
    ensures AfterOp(c, op, size) == Last(c + NewBytes(op), |AfterOp(c, op, size)|)
  {
  }

  lemma SuffixOfSuffix(c: seq<bv8>, w: seq<bv8>, t: seq<bv8>, rest: seq<bv8>, n: nat)
    requires t == Last(c + w, |t|) && n <= |t| + |rest|
    ensures Last(c + (w + rest), n) == Last(t + rest, n)
  {
    var p := (c + w)[..|c + w| - |t|];
    assert c + w == p + t;
    assert c + (w + rest) == p + (t + rest);
    LastOfTail(p, t + rest, n);
  }

  lemma LastOfTail(p: seq<bv8>, x: seq<bv8>, n: nat)
    requires n <= |x|
    ensures Last(p + x, n) == Last(x, n)
  {
  }

  /** The reader sees exactly the written stream if and only if nothing is ever overwritten. */
  lemma StreamIffNothingLost(c: seq<bv8>, ops: seq<Op>, size: nat)
    requires |c| <= size
    ensures Outputs(c, ops, size) + After(c, ops, size) == c + Written(ops) <==> Lost(c, ops, size) == 0
  {
    EveryByteAccounted(c, ops, size);
    if Lost(c, ops, size) == 0 {
      NothingLost(c, ops, size);
    }
  }

  lemma {:induction false} NothingLost(c: seq<bv8>, ops: seq<Op>, size: nat)
    requires |c| <= size && Lost(c, ops, size) == 0
    ensures Outputs(c, ops, size) + After(c, ops, size) == c + Written(ops)
    decreases |ops|
  {
    if ops == [] {
      assert c + [] == c;
    } else {
      var c1 := AfterOp(c, ops[0], size);
      NothingLost(c1, ops[1..], size);
      assert Output(c, ops[0]) + c1 == c + NewBytes(ops[0]);
      JoinLedgers(Output(c, ops[0]), Outputs(c1, ops[1..], size), c, c1, After(c, ops, size),
                  NewBytes(ops[0]), Written(ops[1..]));
    }
  }
}
