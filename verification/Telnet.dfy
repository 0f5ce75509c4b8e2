/** The filter that takes telnet commands out of a TCP chardev's input, in place. */
module Telnet {
  import opened Escapes

  const IAC: bv8 := 255
  const IAC_BREAK: bv8 := 243

  /** Between commands, after an IAC, and after the command byte of a three-byte command. */
  datatype State = Plain | AfterIac | AfterCommand

  /** What filtering leaves: the new state, the data, and the number of break events. */
  datatype Filtered = Filtered(state: State, data: seq<bv8>, breaks: nat)

  function FilterByte(s: State, b: bv8): Filtered {
    match s
    case Plain => if b == IAC then Filtered(AfterIac, [], 0) else Filtered(Plain, [b], 0)
    case AfterIac =>
      if b == IAC then Filtered(Plain, [IAC], 0)
      else if b == IAC_BREAK then Filtered(Plain, [], 1)
      else Filtered(AfterCommand, [], 0)
    case AfterCommand => Filtered(Plain, [], 0)
  }

  function Filter(s: State, buf: seq<bv8>): Filtered
    decreases |buf|
  {
    if buf == [] then Filtered(s, [], 0)
    else
      var f := FilterByte(s, buf[0]);
      var g := Filter(f.state, buf[1..]);
      Filtered(g.state, f.data + g.data, f.breaks + g.breaks)
  }

  /** The data and the break events do not depend on how the stream is cut into buffers. */
  lemma {:induction false} FilterCut(s: State, a: seq<bv8>, b: seq<bv8>)
    ensures var f := Filter(s, a);
            var g := Filter(f.state, b);
            Filter(s, a + b) == Filtered(g.state, f.data + g.data, f.breaks + g.breaks)
    decreases |a|
  {
    if a == [] {
      assert a + b == b;
    } else {
      var f := FilterByte(s, a[0]);
      var r := Filter(f.state, a[1..]);
      var g := Filter(r.state, b);
      FilterCut(f.state, a[1..], b);
      assert (a + b)[1..] == a[1..] + b;
      Associates(f.data, r.data, g.data);
    }
  }

  lemma Associates(a: seq<bv8>, b: seq<bv8>, c: seq<bv8>)
    ensures a + (b + c) == (a + b) + c
  {
  }

  lemma FilterOne(s: State, b: bv8)
    ensures Filter(s, [b]) == FilterByte(s, b)
  {
    assert [b][1..] == [];
    assert FilterByte(s, b).data + [] == FilterByte(s, b).data;
  }

  /** Filtering buffer by buffer, as the reader does. */
  function FilterAll(s: State, bufs: seq<seq<bv8>>): Filtered
    decreases |bufs|
  {
    if bufs == [] then Filtered(s, [], 0)
    else
      var f := Filter(s, bufs[0]);
      var g := FilterAll(f.state, bufs[1..]);
      Filtered(g.state, f.data + g.data, f.breaks + g.breaks)
  }

  function Concat(bufs: seq<seq<bv8>>): seq<bv8>
    decreases |bufs|
  {
    if bufs == [] then [] else bufs[0] + Concat(bufs[1..])
  }

  lemma {:induction false} CutsDoNotMatter(s: State, bufs: seq<seq<bv8>>)
    ensures FilterAll(s, bufs) == Filter(s, Concat(bufs))
    decreases |bufs|
  {
    if bufs != [] {
      FilterCut(s, bufs[0], Concat(bufs[1..]));
      CutsDoNotMatter(Filter(s, bufs[0]).state, bufs[1..]);
    }
  }

  // ---------- What a telnet client sends

  /** A data byte, a break, or a three-byte command. */
  datatype Item = Byte(b: bv8) | Break | Command(verb: bv8, option: bv8)

  predicate Sendable(i: Item) {
    i.Command? ==> i.verb != IAC && i.verb != IAC_BREAK
  }

  function EncodeItem(i: Item): seq<bv8> {
    match i
    case Byte(b) => if b == IAC then [IAC, IAC] else [b]
    case Break => [IAC, IAC_BREAK]
    case Command(verb, option) => [IAC, verb, option]
  }

  function Encode(items: seq<Item>): seq<bv8>
    decreases |items|
  {
    if items == [] then [] else EncodeItem(items[0]) + Encode(items[1..])
  }

  function Payload(items: seq<Item>): seq<bv8>
    decreases |items|
  {
    if items == [] then [] else (if items[0].Byte? then [items[0].b] else []) + Payload(items[1..])
  }

  function Breaks(items: seq<Item>): nat
    decreases |items|
  {
    if items == [] then 0 else (if items[0].Break? then 1 else 0) + Breaks(items[1..])
  }

  lemma FilterItem(i: Item)
    requires Sendable(i)
    ensures Filter(Plain, EncodeItem(i)) == Filtered(Plain, if i.Byte? then [i.b] else [], if i.Break? then 1 else 0)
  {
    hide Filter;
    var e := EncodeItem(i);
    FilterOne(Plain, e[0]);
    if i.Byte? && i.b != IAC {
      assert e == [e[0]];
    } else {
      FilterOne(AfterIac, e[1]);
      FilterCut(Plain, [e[0]], [e[1]]);
      assert [e[0]] + [e[1]] == [e[0], e[1]];
      if i.Command? {
        FilterOne(AfterCommand, e[2]);
        FilterCut(Plain, [e[0], e[1]], [e[2]]);
        assert [e[0], e[1]] + [e[2]] == e;
      }
    }
  }

  /** The filter recovers exactly the data bytes and the number of breaks, whatever commands come
      in between. */
  lemma {:induction false} FilterDecodes(items: seq<Item>)
    requires forall i :: 0 <= i < |items| ==> Sendable(items[i])
    ensures Filter(Plain, Encode(items)) == Filtered(Plain, Payload(items), Breaks(items))
    decreases |items|
  {
    if items != [] {
      FilterItem(items[0]);
      FilterDecodes(items[1..]);
      FilterCut(Plain, EncodeItem(items[0]), Encode(items[1..]));
    }
  }

  /** In particular it undoes IAC doubling on every payload, with no break event. */
  lemma {:induction false} FilterUndoesDoubling(p: seq<bv8>)
    ensures Filter(Plain, Doubled(IAC, p)) == Filtered(Plain, p, 0)
    decreases |p|
  {
    if p != [] {
      FilterItem(Byte(p[0]));
      FilterUndoesDoubling(p[1..]);
      FilterCut(Plain, EncodeItem(Byte(p[0])), Doubled(IAC, p[1..]));
      assert [p[0]] + p[1..] == p;
    }
  }

  // ---------- Order of breaks and data

  /** What the frontend sees of one buffer: the breaks come while the buffer is filtered, the data after. */
  datatype Seen = SawBreak | SawByte(b: bv8)

  function Sight(f: Filtered): seq<Seen> {
    SeenBreaks(f.breaks) + SeenBytes(f.data)
  }

  function SeenBreaks(n: nat): seq<Seen> { seq(n, _ => SawBreak) }

  function SeenBytes(d: seq<bv8>): seq<Seen> { seq(|d|, i requires 0 <= i < |d| => SawByte(d[i])) }

  /** The place of a break among the data does depend on the cut: one buffer or two look the same exactly
      if the first holds no data or the second no break. */
  lemma BreakOrderIff(s: State, a: seq<bv8>, b: seq<bv8>)
    ensures var f := Filter(s, a);
            var g := Filter(f.state, b);
            Sight(Filter(s, a + b)) == Sight(f) + Sight(g) <==> (f.data == [] || g.breaks == 0)
  {
    FilterCut(s, a, b);
    var f := Filter(s, a);
    var g := Filter(f.state, b);
    SightOrder(f.breaks, f.data, g.breaks, g.data);
  }

  /** The letter A and then a break: in one buffer the break is seen first, in two the letter. */
  lemma CutMovesBreak()
    ensures var f := Filter(Plain, [65]);
            var g := Filter(f.state, [255, 243]);
            && Sight(Filter(Plain, [65, 255, 243])) == [SawBreak, SawByte(65)]
            && Sight(f) + Sight(g) == [SawByte(65), SawBreak]
  {
    FilterOne(Plain, 65);
    FilterItem(Break);
    FilterCut(Plain, [65], [IAC, IAC_BREAK]);
    assert [65] + [IAC, IAC_BREAK] == [65, IAC, IAC_BREAK];
    assert SeenBreaks(1) == [SawBreak] && SeenBytes([65]) == [SawByte(65)];
    assert SeenBreaks(0) == [] && SeenBytes([]) == [];
  }

  lemma SightOrder(m: nat, d: seq<bv8>, n: nat, e: seq<bv8>)
    ensures SeenBreaks(m + n) + SeenBytes(d + e) == (SeenBreaks(m) + SeenBytes(d)) + (SeenBreaks(n) + SeenBytes(e))
            <==> (d == [] || n == 0)
  {
    var one := SeenBreaks(m + n) + SeenBytes(d + e);
    var two := (SeenBreaks(m) + SeenBytes(d)) + (SeenBreaks(n) + SeenBytes(e));
    if d != [] && n > 0 {
      assert one[m] == SawBreak;
      assert two[m] == SawByte(d[0]);
    } else {
      assert |one| == |two| && forall i :: 0 <= i < |one| ==> one[i] == two[i];
    }
  }

  // ---------- The driver

  class TcpCharDriver {
    var doTelnetopt: int
    var breaks: nat

    ghost predicate Valid()
      reads this
    {
      1 <= doTelnetopt <= 3
    }

    ghost function FilterState(): State
      reads this
    {
      if doTelnetopt <= 1 then Plain else if doTelnetopt == 2 then AfterIac else AfterCommand
    }

    /** A connection with telnet processing switched on. */
    constructor ()
      ensures Valid() && FilterState() == Plain && breaks == 0
    {
      doTelnetopt, breaks := 1, 0;
    }

    /** `tcp_chr_process_IAC_bytes`: compacts the buffer in place. */
    method ProcessIacBytes(buf: array<bv8>, size: nat) returns (kept: nat)
      requires Valid() && size <= buf.Length
      modifies this, buf
      ensures Valid() && kept <= size && breaks >= old(breaks)
      ensures Filtered(FilterState(), buf[..kept], breaks - old(breaks)) == Filter(old(FilterState()), old(buf[..size]))
      ensures buf[size..] == old(buf[size..])
    {
      hide Filter, FilterByte, FilterState;
      ghost var input, s0 := buf[..size], FilterState();
      var j := 0;
      FilterNone(s0, input);
      for i := 0 to size
        invariant Valid() && j <= i && breaks >= old(breaks)
        invariant Filtered(FilterState(), buf[..j], breaks - old(breaks)) == Filter(s0, input[..i])
        invariant forall k :: i <= k < buf.Length ==> buf[k] == old(buf[k])
      {
        FilterOneMore(s0, input, i);
        assert buf[i] == input[i];
        j := ProcessByte(buf, i, j);
      }
      assert input[..size] == input;
      kept := j;
    }

    /** One round of the loop: byte i is kept at place j, or not at all. */
    method ProcessByte(buf: array<bv8>, i: nat, start: nat) returns (j: nat)
      requires Valid() && start <= i < buf.Length
      modifies this, buf
      ensures Valid() && start <= j <= i + 1 && breaks >= old(breaks)
      ensures var f := FilterByte(old(FilterState()), old(buf[i]));
              f.state == FilterState() && f.breaks == breaks - old(breaks) && buf[..j] == old(buf[..start]) + f.data
      ensures forall k :: i < k < buf.Length ==> buf[k] == old(buf[k])
    {
      j := start;
      if doTelnetopt > 1 {
        if buf[i] == IAC && doTelnetopt == 2 {
          j := Keep(buf, i, j);
          doTelnetopt := 1;
        } else {
          if buf[i] == IAC_BREAK && doTelnetopt == 2 {
            breaks := breaks + 1;
            doTelnetopt := doTelnetopt + 1;
          }
          doTelnetopt := doTelnetopt + 1;
        }
        if doTelnetopt >= 4 {
          doTelnetopt := 1;
        }
      } else {
        if buf[i] == IAC {
          doTelnetopt := 2;
        } else {
          j := Keep(buf, i, j);
        }
      }
    }

    static method Keep(buf: array<bv8>, i: nat, j: nat) returns (next: nat)
      requires j <= i < buf.Length
      modifies buf
      ensures next == j + 1 && buf[..next] == old(buf[..j]) + [old(buf[i])]
      ensures forall k :: i < k < buf.Length ==> buf[k] == old(buf[k])
    {
      if j != i {
        buf[j] := buf[i];
      }
      next := j + 1;
    }

    static lemma FilterNone(s: State, input: seq<bv8>)
      ensures Filter(s, input[..0]) == Filtered(s, [], 0)
    {
    }

    static lemma FilterOneMore(s: State, input: seq<bv8>, i: nat)
      requires i < |input|
      ensures var f := Filter(s, input[..i]);
              var g := FilterByte(f.state, input[i]);
              Filter(s, input[..i + 1]) == Filtered(g.state, f.data + g.data, f.breaks + g.breaks)
    {
      assert input[..i + 1] == input[..i] + [input[i]];
      FilterCut(s, input[..i], [input[i]]);
      assert [input[i]][1..] == [];
    }
  }
}
