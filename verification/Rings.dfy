/** Ring storage: a window of `n` consecutive slots of a cyclic buffer, read as a sequence.
    Every ring of the system (UART FIFOs, mux buffers, ring-buffer chardev, transmit page,
    CAN slots) is given its meaning by `Window`. */
module Rings {

  function Min(a: nat, b: nat): nat { if a < b then a else b }

  /** The slot `i` places after `start`, going round at `size`. */
  function Slot(start: nat, i: nat, size: nat): (r: nat)
    requires start < size && i <= size
    ensures r < size
  {
    if start + i < size then start + i else start + i - size
  }

  /** The `n` elements found from slot `start` on. */
  function Window<T>(s: seq<T>, start: nat, n: nat): (w: seq<T>)
    requires start < |s| && n <= |s|
    ensures |w| == n
    ensures forall i :: 0 <= i < n ==> w[i] == s[Slot(start, i, |s|)]
  {
    seq(n, i requires 0 <= i < n => s[Slot(start, i, |s|)])
  }

  /** Storing just past the window appends to it. */
  lemma PushBack<T>(s: seq<T>, start: nat, n: nat, x: T)
    requires start < |s| && n < |s|
    ensures Window(s[Slot(start, n, |s|) := x], start, n + 1) == Window(s, start, n) + [x]
  {
  }

  /** Stepping over the first slot drops the oldest element. */
  lemma PopFront<T>(s: seq<T>, start: nat, n: nat)
    requires start < |s| && 0 < n <= |s|
    ensures Window(s, start, n)[0] == s[start]
    ensures Window(s, Slot(start, 1, |s|), n - 1) == Window(s, start, n)[1..]
  {
  }

  /** Storing past a full window and moving its start on drops the oldest element. */
  lemma RollFull<T>(s: seq<T>, start: nat, x: T)
    requires start < |s|
    ensures Window(s[start := x], Slot(start, 1, |s|), |s|) == Window(s, start, |s|)[1..] + [x]
  {
  }

  /** Copying a block that does not cross the end of the storage appends the block. */
  lemma PushBlock<T>(s: seq<T>, t: seq<T>, start: nat, n: nat, block: seq<T>)
    requires start < |s| && n + |block| <= |s| && |t| == |s|
    requires Slot(start, n, |s|) + |block| <= |s|
    requires forall i :: 0 <= i < |block| ==> t[Slot(start, n, |s|) + i] == block[i]
    requires forall i :: 0 <= i < |s| && !(Slot(start, n, |s|) <= i < Slot(start, n, |s|) + |block|) ==> t[i] == s[i]
    ensures Window(t, start, n + |block|) == Window(s, start, n) + block
  {
    var head := Slot(start, n, |s|);
    forall i | 0 <= i < n + |block|
      ensures Window(t, start, n + |block|)[i] == (Window(s, start, n) + block)[i]
    {
      if i >= n && block != [] {
        assert t[head + (i - n)] == block[i - n];
      }
    }
  }

  /** `Slot` is the modulo of the C macros. */
  lemma SlotIsMod(start: nat, i: nat, size: nat)
    requires start < size && i <= size
    ensures Slot(start, i, size) == (start + i) % size
  {
    ModUnique(start + i, size, if start + i < size then 0 else 1, Slot(start, i, size));
  }

  /** A counter reduced modulo the size moves to the next slot when it is incremented. */
  lemma ModStep(c: nat, size: nat)
    requires size > 0
    ensures c % size < size && (c + 1) % size == Slot(c % size, 1, size)
  {
    var q, r := c / size, c % size;
    if r + 1 < size {
      ModUnique(c + 1, size, q, r + 1);
    } else {
      assert c + 1 == size * (q + 1);
      ModUnique(c + 1, size, q + 1, 0);
    }
  }

  lemma ModUnique(x: int, m: nat, q: int, r: nat)
    requires x == m * q + r && r < m
    ensures x % m == r && x / m == q
  {
    var d := q - x / m;
    assert m * d == x % m - r;
    MulMonotone(m, 1, d);
    MulMonotone(m, d, -1);
  }

  lemma MulMonotone(m: nat, a: int, b: int)
    ensures a <= b ==> m * a <= m * b
  {
    if a <= b {
      assert m * (b - a) >= 0;
      assert m * (b - a) == m * b - m * a;
    }
  }

  /** Two ledgers of a queue, one after the other: what left and what stays is what was there and
      what came. */
  lemma JoinLedgers<T>(out1: seq<T>, out2: seq<T>, start: seq<T>, mid: seq<T>, end: seq<T>, in1: seq<T>, in2: seq<T>)
    requires out1 + mid == start + in1 && out2 + end == mid + in2
    ensures (out1 + out2) + end == start + (in1 + in2)
  {
    assert (out1 + out2) + end == out1 + (out2 + end);
    assert out1 + (mid + in2) == (out1 + mid) + in2;
    assert (start + in1) + in2 == start + (in1 + in2);
  }
}
