/** The character mux: one backend shared by up to four frontends, with an escape character that
    switches between them and a small ring per frontend. */
module Mux {
  import opened Rings
  import opened Bits
  import opened Escapes

  const MAX_MUX: nat := 4
  const MUX_BUFFER_SIZE: nat := 32
  const READ_BUF_LEN: nat := 4096

  // ---------- The escape language

  /** What decides how input bytes are taken. `refused` says that the frontend which asked last was turned
      away, since the mux was full. */
  datatype Control = Control(escape: bv8, gotEscape: bool, focus: int, count: int, timestamps: bool, exited: bool,
                             refused: bool)

  /** What an escape command makes the emulator do. */
  datatype Action = PrintHelp | Exit | CommitAll

  /** What a frontend is told. */
  datatype Event = Break | MuxOut | MuxIn

  const NEXT_DEVICE: bv8 := 99  // 'c'
  const HELP: bv8 := 104  // 'h'
  const HELP2: bv8 := 63  // '?'
  const QUIT: bv8 := 120  // 'x'
  const COMMIT: bv8 := 115  // 's'
  const BREAK: bv8 := 98  // 'b'
  const TIMESTAMPS: bv8 := 116  // 't'

  /** A byte is data unless it is the escape character or follows one; doubled, it is data again. */
  predicate IsData(c: Control, ch: bv8) {
    if c.gotEscape then ch == c.escape else ch != c.escape
  }

  function NextFocus(c: Control): int {
    if c.focus + 1 >= c.count then 0 else c.focus + 1
  }

  function AfterByte(c: Control, ch: bv8): Control {
    if !c.gotEscape then c.(gotEscape := ch == c.escape)
    else if ch == c.escape then c.(gotEscape := false)
    else if ch == QUIT then c.(gotEscape := false, exited := true)
    else if ch == NEXT_DEVICE then c.(gotEscape := false, focus := NextFocus(c))
    else if ch == TIMESTAMPS then c.(gotEscape := false, timestamps := !c.timestamps)
    else c.(gotEscape := false)
  }

  function ActionsOf(c: Control, ch: bv8): seq<Action> {
    if !c.gotEscape || ch == c.escape then []
    else if ch == HELP || ch == HELP2 then [PrintHelp]
    else if ch == QUIT then [Exit]
    else if ch == COMMIT then [CommitAll]
    else []
  }

  /** What registered frontend i is told: a break goes to the frontend that asked to be registered last, a
      switch to the one that loses the focus and then to the one that gains it. */
  function EventsOf(c: Control, ch: bv8, i: int): seq<Event> {
    if !c.gotEscape || ch == c.escape then []
    else if ch == BREAK then (if i == c.count - 1 && !c.refused then [Break] else [])
    else if ch == NEXT_DEVICE then (if i == c.focus then [MuxOut] else []) + (if i == NextFocus(c) then [MuxIn] else [])
    else []
  }

  /** What a frontend is told that was turned away: it is not registered, but the break is its own. */
  function StrayEventsOf(c: Control, ch: bv8): seq<Event> {
    if c.gotEscape && ch != c.escape && ch == BREAK && c.refused then [Break] else []
  }

  /** What the commands that frontends hear of come to. */
  lemma CommandMeaning(c: Control, ch: bv8)
    ensures NextFocus(c) == NextFocus(c.(gotEscape := true))
    ensures c.gotEscape && ch != c.escape && ch == NEXT_DEVICE ==>
      && AfterByte(c, ch) == c.(gotEscape := false, focus := NextFocus(c)) && ActionsOf(c, ch) == [] && StrayEventsOf(c, ch) == []
      && forall i :: EventsOf(c, ch, i) == (if i == c.focus then [MuxOut] else []) + (if i == NextFocus(c) then [MuxIn] else [])
    ensures c.gotEscape && ch != c.escape && ch == BREAK ==>
      && AfterByte(c, ch) == c.(gotEscape := false) && ActionsOf(c, ch) == []
      && StrayEventsOf(c, ch) == (if c.refused then [Break] else [])
      && forall i :: EventsOf(c, ch, i) == if i == c.count - 1 && !c.refused then [Break] else []
    ensures ch != NEXT_DEVICE && ch != BREAK ==> StrayEventsOf(c, ch) == [] && forall i :: EventsOf(c, ch, i) == []
  {
  }

  /** Control after a stretch of input; nothing is processed after an exit. */
  function After(c: Control, buf: seq<bv8>): Control
    decreases |buf|
  {
    if buf == [] || c.exited then c else After(AfterByte(c, buf[0]), buf[1..])
  }

  /** The data bytes among the input. */
  function Data(c: Control, buf: seq<bv8>): seq<bv8>
    decreases |buf|
  {
    if buf == [] || c.exited then []
    else (if IsData(c, buf[0]) then [buf[0]] else []) + Data(AfterByte(c, buf[0]), buf[1..])
  }

  /** What frontend i is told along the input, and what the emulator is made to do. */
  function EventsIn(c: Control, buf: seq<bv8>, i: int): seq<Event>
    decreases |buf|
  {
    if buf == [] || c.exited then [] else EventsOf(c, buf[0], i) + EventsIn(AfterByte(c, buf[0]), buf[1..], i)
  }

  function ActionsIn(c: Control, buf: seq<bv8>): seq<Action>
    decreases |buf|
  {
    if buf == [] || c.exited then [] else ActionsOf(c, buf[0]) + ActionsIn(AfterByte(c, buf[0]), buf[1..])
  }

  lemma {:induction false} CutSeen(c: Control, a: seq<bv8>, b: seq<bv8>, i: int)
    ensures EventsIn(c, a + b, i) == EventsIn(c, a, i) + EventsIn(After(c, a), b, i)
    ensures ActionsIn(c, a + b) == ActionsIn(c, a) + ActionsIn(After(c, a), b)
    decreases |a|
  {
    hide AfterByte, EventsOf, ActionsOf;
    if a == [] {
      assert a + b == b;
    } else if !c.exited {
      assert (a + b)[0] == a[0] && (a + b)[1..] == a[1..] + b;
      CutSeen(AfterByte(c, a[0]), a[1..], b, i);
    }
  }

  /** One byte more: what it adds. */
  lemma OneMoreSeen(c: Control, buf: seq<bv8>, k: nat, i: int)
    requires k < |buf| && !After(c, buf[..k]).exited
    ensures EventsIn(c, buf[..k + 1], i) == EventsIn(c, buf[..k], i) + EventsOf(After(c, buf[..k]), buf[k], i)
    ensures ActionsIn(c, buf[..k + 1]) == ActionsIn(c, buf[..k]) + ActionsOf(After(c, buf[..k]), buf[k])
  {
    assert buf[..k + 1] == buf[..k] + [buf[k]];
    CutSeen(c, buf[..k], [buf[k]], i);
    SeenOfOne(After(c, buf[..k]), buf[k], i);
  }

  lemma SeenOfOne(c: Control, b: bv8, i: int)
    requires !c.exited
    ensures EventsIn(c, [b], i) == EventsOf(c, b, i) && ActionsIn(c, [b]) == ActionsOf(c, b)
  {
    assert [b][1..] == [];
  }

  /** Nothing is seen before the first byte, or after an exit. */
  lemma NothingSeen(c: Control, buf: seq<bv8>, k: nat, i: int)
    requires k <= |buf|
    ensures EventsIn(c, buf[..0], i) == [] && ActionsIn(c, buf[..0]) == []
    ensures k == |buf| || After(c, buf[..k]).exited ==>
      EventsIn(c, buf, i) == EventsIn(c, buf[..k], i) && ActionsIn(c, buf) == ActionsIn(c, buf[..k])
  {
    assert buf == buf[..k] + buf[k..];
    CutSeen(c, buf[..k], buf[k..], i);
  }

  lemma {:induction false} Cut(c: Control, a: seq<bv8>, b: seq<bv8>)
    ensures After(c, a + b) == After(After(c, a), b)
    ensures Data(c, a + b) == Data(c, a) + Data(After(c, a), b)
    decreases |a|
  {
    hide AfterByte, IsData;
    if a == [] {
      assert a + b == b;
    } else if c.exited {
      ExitedIsOver(c, b);
      ExitedIsOver(c, a + b);
    } else {
      assert (a + b)[0] == a[0] && (a + b)[1..] == a[1..] + b;
      Cut(AfterByte(c, a[0]), a[1..], b);
    }
  }

  lemma ExitedIsOver(c: Control, b: seq<bv8>)
    requires c.exited
    ensures After(c, b) == c && Data(c, b) == []
  {
  }

  lemma NoInput(c: Control, buf: seq<bv8>)
    ensures After(c, buf[..0]) == c && Data(c, buf[..0]) == []
  {
  }

  /** Input up to byte i, and byte i. */
  lemma OneMore(c: Control, buf: seq<bv8>, i: nat)
    requires i < |buf| && !After(c, buf[..i]).exited
    ensures After(c, buf[..i + 1]) == AfterByte(After(c, buf[..i]), buf[i])
    ensures Data(c, buf[..i + 1]) == Data(c, buf[..i]) + if IsData(After(c, buf[..i]), buf[i]) then [buf[i]] else []
  {
    assert buf[..i + 1] == buf[..i] + [buf[i]];
    Cut(c, buf[..i], [buf[i]]);
    OneByte(After(c, buf[..i]), buf[i]);
  }

  /** All of the input, or all of it up to an exit. */
  lemma NoMore(c: Control, buf: seq<bv8>, i: nat)
    requires i <= |buf| && (i == |buf| || After(c, buf[..i]).exited)
    ensures After(c, buf) == After(c, buf[..i]) && Data(c, buf) == Data(c, buf[..i])
  {
    assert buf == buf[..i] + buf[i..];
    Cut(c, buf[..i], buf[i..]);
    if i < |buf| {
      ExitedIsOver(After(c, buf[..i]), buf[i..]);
    }
  }

  lemma OneByte(c: Control, ch: bv8)
    requires !c.exited
    ensures After(c, [ch]) == AfterByte(c, ch) && Data(c, [ch]) == if IsData(c, ch) then [ch] else []
  {
    assert [ch][1..] == [];
  }

  /** Doubling sends any payload through the mux unharmed: it comes out as it was, and nothing else
      happens. */
  lemma {:induction false} DoublingIsTransparent(c: Control, p: seq<bv8>)
    requires !c.gotEscape && !c.exited
    ensures Data(c, Doubled(c.escape, p)) == p && After(c, Doubled(c.escape, p)) == c
    decreases |p|
  {
    if p != [] {
      hide After, Data;
      DoublingIsTransparent(c, p[1..]);
      DoubledByte(c, p[0]);
      Cut(c, Doubled(c.escape, [p[0]]), Doubled(c.escape, p[1..]));
      DoubledFirst(c.escape, p);
      assert p == [p[0]] + p[1..];
    } else {
      NoInput(c, []);
    }
  }

  lemma DoubledByte(c: Control, b: bv8)
    requires !c.gotEscape && !c.exited
    ensures Data(c, Doubled(c.escape, [b])) == [b] && After(c, Doubled(c.escape, [b])) == c
  {
    hide After, Data;
    DoubledFirst(c.escape, [b]);
    OneByte(c, b);
    if b == c.escape {
      OneByte(c.(gotEscape := true), b);
      Cut(c, [b], [b]);
      assert [b, b] == [b] + [b];
    }
  }

  lemma DoubledFirst(escape: bv8, p: seq<bv8>)
    requires p != []
    ensures Doubled(escape, [p[0]]) == if p[0] == escape then [escape, escape] else [p[0]]
    ensures Doubled(escape, p) == Doubled(escape, [p[0]]) + Doubled(escape, p[1..])
  {
    assert [p[0]][1..] == [];
    assert Doubled(escape, []) == [];
  }

  lemma Mask32(x: nat)
    ensures BitAnd(x, MUX_BUFFER_SIZE - 1) == x % MUX_BUFFER_SIZE
  {
    assert Pow2(5) == 32 by {
      assert Pow2(3) == 8;
    }
    MaskIsMod(x, 5);
  }

  // ---------- Frontends

  /** A device or monitor behind the mux. How much it can take is its own affair; what is known is
      that a byte, a break or the loss of focus lowers it by at most one. */
  class Frontend {
    const listens: bool
    var capacity: nat
    var delivered: seq<bv8>
    var events: seq<Event>

    constructor (listens: bool, capacity: nat)
      ensures this.listens == listens && this.capacity == capacity && delivered == [] && events == []
      ensures Room() == if listens then capacity else 0
    {
      this.listens := listens;
      this.capacity := capacity;
      delivered, events := [], [];
    }

    /** `chr_can_read`, 0 where there is none. */
    function Room(): nat
      reads this
    {
      if listens then capacity else 0
    }

    method Read(b: bv8)
      modifies this
      ensures delivered == old(delivered) + [b] && events == old(events)
      ensures Room() >= old(Room()) - 1
    {
      delivered := delivered + [b];
      var c: nat :| c >= capacity - 1;
      capacity := c;
    }

    /** The frontend takes or loses room of its own accord. */
    method SetRoom(c: nat)
      modifies `capacity
      ensures capacity == c
    {
      capacity := c;
    }

    method Notify(e: Event)
      modifies this
      ensures delivered == old(delivered) && events == old(events) + [e]
      ensures Room() >= old(Room()) - 1
      ensures e == MuxIn ==> Room() >= old(Room())
    {
      events := events + [e];
      var least := if e == MuxIn then capacity else capacity - 1;
      var c: nat :| c >= least;
      capacity := c;
    }
  }

  // ---------- Runs

  /** What happens to the mux from outside: a frontend registers, having got some bytes before; a frontend
      is turned away; the backend asks for room and is told a number, while so many bytes wait in the ring in
      focus and its frontend takes so many; input is read. */
  datatype Move = Joined(before: seq<bv8>) | TurnedAway | Told(size: nat, waiting: nat, room: nat) | Entered(buf: seq<bv8>)

  /** What the backend was told last. */
  function LastTold(h: seq<Move>): nat
    decreases |h|
  {
    if h == [] then 0 else if h[|h| - 1].Told? then h[|h| - 1].size else LastTold(h[..|h| - 1])
  }

  /** How much of its input the backend reads. */
  function Share(buf: seq<bv8>, told: nat): nat { Min(|buf|, Min(READ_BUF_LEN, told)) }

  function ControlOf(escape: bv8, h: seq<Move>): Control
    decreases |h|
  {
    if h == [] then Control(escape, false, -1, 0, false, false, false)
    else AfterMove(ControlOf(escape, h[..|h| - 1]), h[|h| - 1])
  }

  /** What a channel has got or will get: the bytes its frontend had before, and then all data of the
      reads that were entered with the focus on it. */
  function StreamOf(escape: bv8, h: seq<Move>, m: int): seq<bv8>
    decreases |h|
  {
    if h == [] then []
    else
      var pre := h[..|h| - 1];
      var c := ControlOf(escape, pre);
      match h[|h| - 1]
      case Joined(before) => if m == c.count then before else StreamOf(escape, pre, m)
      case TurnedAway => StreamOf(escape, pre, m)
      case Told(_, _, _) => StreamOf(escape, pre, m)
      case Entered(buf) => StreamOf(escape, pre, m) + (if m == c.focus then Data(c, buf) else [])
  }

  /** The same from the side of those who cause it. */
  datatype Input = Registers(f: Frontend) | NewRoom(m: nat, room: nat) | Accept | Poll | Send(buf: seq<bv8>)

  /** What one cause leaves on the record: a registration is granted or refused; a poll is answered, with 0
      exactly if there is no frontend, or its ring is full and it takes nothing; of what is sent just as much
      enters as the backend was told at its last poll, unless there is nobody to read it or the emulator has
      been left. */
  ghost predicate Records(escape: bv8, before: seq<Move>, input: Input, after: seq<Move>) {
    var c := ControlOf(escape, before);
    match input
    case Registers(_) => after != [] && after[..|after| - 1] == before && (after[|after| - 1].Joined? || after[|after| - 1].TurnedAway?)
    case NewRoom(_, _) => after == before
    case Accept => after == before
    case Poll => after != [] && after[..|after| - 1] == before && Answer(c, after[|after| - 1])
    case Send(buf) =>
      var n := Share(buf, LastTold(before));
      after == if c.count == 0 || c.exited || n == 0 then before else before + [Entered(buf[..n])]
  }

  /** The answer to a poll. */
  predicate Answer(c: Control, move: Move) {
    && move.Told? && move.waiting <= 32
    && (move.size == 0 <==> c.count == 0 || (move.waiting == 32 && move.room == 0))
    && (c.count > 0 && move.waiting == 32 ==> move.size == move.room)
    && (c.count > 0 && move.waiting < 32 ==> move.size == 1)
  }

  /** The record after a script: one step of it for each cause, in order. */
  ghost predicate Follows(escape: bv8, before: seq<Move>, script: seq<Input>, after: seq<Move>)
    decreases |script|
  {
    if script == [] then after == before
    else
      var n := |script| - 1;
      exists mid: seq<Move> :: Follows(escape, before, script[..n], mid) && Records(escape, mid, script[n], after)
  }

  lemma NoScript(escape: bv8, h: seq<Move>, script: seq<Input>)
    ensures Follows(escape, h, script[..0], h)
  {
  }

  lemma FollowsOne(escape: bv8, before: seq<Move>, script: seq<Input>, n: nat, mid: seq<Move>, after: seq<Move>)
    requires n < |script| && Follows(escape, before, script[..n], mid) && Records(escape, mid, script[n], after)
    ensures Follows(escape, before, script[..n + 1], after)
  {
    assert script[..n + 1][..n] == script[..n];
  }

  function AfterMove(c: Control, move: Move): Control {
    match move
    case Joined(_) => c.(focus := c.count, count := c.count + 1, refused := false)
    case TurnedAway => c.(refused := true)
    case Told(_, _, _) => c
    case Entered(buf) => After(c, buf)
  }

  lemma OneMove(escape: bv8, h: seq<Move>, move: Move, m: int)
    ensures ControlOf(escape, h + [move]) == AfterMove(ControlOf(escape, h), move)
    ensures var c := ControlOf(escape, h);
            StreamOf(escape, h + [move], m) ==
              match move
              case Joined(before) => (if m == c.count then before else StreamOf(escape, h, m))
              case TurnedAway => StreamOf(escape, h, m)
              case Told(_, _, _) => StreamOf(escape, h, m)
              case Entered(buf) => StreamOf(escape, h, m) + (if m == c.focus then Data(c, buf) else [])
    ensures LastTold(h + [move]) == if move.Told? then move.size else LastTold(h)
  {
    assert (h + [move])[..|h|] == h;
  }

  // ---------- The driver

  class MuxDriver {
    const escape: bv8
    var frontends: seq<Frontend>
    var focus: int
    var muxCnt: int
    var gotEscape: bool
    var timestamps: bool
    var exited: bool
    var actions: seq<Action>
    const buffer: array<bv8>
    const prod: array<int>
    const cons: array<int>

    /** Who hears of an escape break: the frontend that called last, registered or not. */
    var listener: Frontend?
    /** The backend's `max_size`: what it was told at its last poll. */
    var maxSize: nat
    /** What has happened so far. */
    ghost var history: seq<Move>

    ghost predicate Shape()
      reads `frontends, `focus, `muxCnt, `listener
    {
      && buffer.Length == MAX_MUX * MUX_BUFFER_SIZE && prod.Length == MAX_MUX && cons.Length == MAX_MUX
      && prod != cons
      && |frontends| == muxCnt && muxCnt <= MAX_MUX
      && (forall i, j :: 0 <= i < j < |frontends| ==> frontends[i] != frontends[j])
      && (if muxCnt == 0 then focus == -1 && listener == null else 0 <= focus < muxCnt && listener != null)
      && (muxCnt > 0 && listener != frontends[muxCnt - 1] ==> listener !in frontends)
    }

    /** No ring holds more than its 32 bytes, and a ring without a frontend holds none. */
    ghost predicate Sound()
      reads `frontends, `focus, `muxCnt, `listener, prod, cons
    {
      && Shape()
      && (forall m :: 0 <= m < MAX_MUX ==> 0 <= cons[m] && 0 <= prod[m] - cons[m] <= MUX_BUFFER_SIZE)
      && (forall m :: muxCnt <= m < MAX_MUX ==> prod[m] == cons[m])
    }

    ghost function Ctl(): Control
      reads this
    {
      Control(escape, gotEscape, focus, muxCnt, timestamps, exited,
              0 < muxCnt == |frontends| && listener != frontends[muxCnt - 1])
    }

    /** Between two calls the whole past is accounted for: every stream is what its frontend had before it
        registered, followed by all data of the reads entered with the focus on it. */
    ghost predicate Valid()
      reads this, buffer, prod, cons, frontends`delivered
    {
      && Sound() && Ctl() == ControlOf(escape, history) && maxSize == LastTold(history)
      && forall m :: 0 <= m < muxCnt ==> Stream(m) == StreamOf(escape, history, m)
    }

    /** The bytes waiting for frontend m. */
    ghost function Buffered(m: nat): seq<bv8>
      requires Sound() && m < MAX_MUX
      reads `frontends, `focus, `muxCnt, `listener, buffer, prod, cons
    {
      Window(Row(m), cons[m] % MUX_BUFFER_SIZE, prod[m] - cons[m])
    }

    ghost function Row(m: nat): (row: seq<bv8>)
      requires buffer.Length == MAX_MUX * MUX_BUFFER_SIZE && m < MAX_MUX
      reads buffer
      ensures |row| == MUX_BUFFER_SIZE
    {
      buffer[m * MUX_BUFFER_SIZE..(m + 1) * MUX_BUFFER_SIZE]
    }

    /** Everything frontend m has got or will get, in order. */
    ghost function Stream(m: nat): seq<bv8>
      requires Sound() && m < |frontends|
      reads `frontends, `focus, `muxCnt, `listener, buffer, prod, cons, frontends`delivered
    {
      frontends[m].delivered + Buffered(m)
    }

    constructor (escape: bv8)
      ensures Valid() && muxCnt == 0 && !exited && history == [] && this.escape == escape
      ensures forall m :: 0 <= m < MAX_MUX ==> Buffered(m) == []
      ensures fresh(buffer) && fresh(prod) && fresh(cons)
    {
      this.escape := escape;
      frontends, focus, muxCnt := [], -1, 0;
      gotEscape, timestamps, exited := false, false, false;
      actions, listener, history := [], null, [];
      maxSize := 0;
      buffer := new bv8[MAX_MUX * MUX_BUFFER_SIZE](_ => 0);
      prod := new int[MAX_MUX](_ => 0);
      cons := new int[MAX_MUX](_ => 0);
    }

    /** `mux_chr_can_read`. */
    method CanRead() returns (k: nat)
      requires Sound() && muxCnt > 0
      ensures k == Allowance()
      ensures k == 0 <==> prod[focus] - cons[focus] == 32 && frontends[focus].Room() == 0
      ensures prod[focus] - cons[focus] == 32 ==> k == frontends[focus].Room()
      ensures prod[focus] - cons[focus] < 32 ==> k == 1
    {
      var m := focus;
      if prod[m] - cons[m] < MUX_BUFFER_SIZE {
        k := 1;
      } else {
        k := frontends[m].Room();
      }
    }

    ghost function Allowance(): nat
      requires Sound() && muxCnt > 0
      reads this, prod, cons, frontends
    {
      if prod[focus] - cons[focus] < MUX_BUFFER_SIZE then 1 else frontends[focus].Room()
    }

    /** `fd_chr_read_poll`. A mux without a frontend has set no handlers, which counts as no room. */
    method Poll()
      requires Valid()
      modifies `maxSize, `history
      ensures Valid() && maxSize == (if muxCnt > 0 then Allowance() else 0) && Trusted()
      ensures Records(escape, old(history), Input.Poll, history)
      ensures muxCnt > 0 ==>
        history == old(history) + [Told(maxSize, prod[focus] - cons[focus], frontends[focus].Room())]
    {
      hide Window, Slot, StreamOf, ControlOf, After, Data, LastTold, MuxDriver.Stream;
      ghost var move := Told(0, 0, 0);
      maxSize := 0;
      if muxCnt > 0 {
        maxSize := CanRead();
        move := Told(maxSize, prod[focus] - cons[focus], frontends[focus].Room());
      }
      Record(move);
    }

    /** What can be read before the ring in focus overflows, at worst: its free places, and what the
        frontend takes. */
    ghost function Free(): nat
      requires Sound() && muxCnt > 0
      reads this, prod, cons, frontends
    {
      MUX_BUFFER_SIZE - (prod[focus] - cons[focus]) + frontends[focus].Room()
    }

    /** The backend may send what it was told it may. */
    ghost predicate Trusted()
      requires Sound()
      reads this, prod, cons, frontends
    {
      muxCnt > 0 ==> maxSize <= Free()
    }

    /** Takes the oldest byte out of ring m. */
    method Pop(m: nat) returns (b: bv8)
      requires Sound() && m < MAX_MUX && prod[m] != cons[m]
      modifies cons
      ensures Sound() && Buffered(m) == old(Buffered(m))[1..] && b == old(Buffered(m))[0]
      ensures forall i :: 0 <= i < MAX_MUX && i != m ==> cons[i] == old(cons[i])
      ensures cons[m] == old(cons[m]) + 1
    {
      Mask32(cons[m]);
      ModStep(cons[m], MUX_BUFFER_SIZE);
      PopFront(Row(m), cons[m] % MUX_BUFFER_SIZE, prod[m] - cons[m]);
      b := buffer[m * MUX_BUFFER_SIZE + BitAnd(cons[m], MUX_BUFFER_SIZE - 1)];
      cons[m] := cons[m] + 1;
    }

    /** Puts a byte into ring m. */
    method Push(m: nat, b: bv8)
      requires Sound() && m < muxCnt && prod[m] - cons[m] < MUX_BUFFER_SIZE
      modifies buffer, prod
      ensures Sound() && Buffered(m) == old(Buffered(m)) + [b]
      ensures forall i :: 0 <= i < MAX_MUX && i != m ==> prod[i] == old(prod[i]) && Buffered(i) == old(Buffered(i))
      ensures prod[m] == old(prod[m]) + 1
    {
      ghost var row := Row(m);
      ghost var start, n := cons[m] % MUX_BUFFER_SIZE, prod[m] - cons[m];
      Mask32(prod[m]);
      SlotOfCounter(cons[m], n);
      PushBack(row, start, n, b);
      var k := BitAnd(prod[m], MUX_BUFFER_SIZE - 1);
      buffer[m * MUX_BUFFER_SIZE + k] := b;
      assert Row(m) == row[k := b];
      forall i | 0 <= i < MAX_MUX && i != m
        ensures Row(i) == old(Row(i))
      {
      }
      prod[m] := prod[m] + 1;
    }

    static lemma SlotOfCounter(c: nat, n: nat)
      requires n <= MUX_BUFFER_SIZE
      ensures (c + n) % MUX_BUFFER_SIZE == Slot(c % MUX_BUFFER_SIZE, n, MUX_BUFFER_SIZE)
    {
    }

    /** `mux_chr_accept_input`: hands buffered bytes to the frontend in focus while it takes them. */
    method AcceptInput()
      requires Sound() && muxCnt > 0
      modifies cons, frontends
      ensures Sound() && forall i :: 0 <= i < muxCnt ==> Stream(i) == old(Stream(i))
      ensures old(Valid()) ==> Valid()
      ensures prod[focus] == cons[focus] || frontends[focus].Room() == 0
      ensures forall i :: 0 <= i < muxCnt ==> frontends[i].events == old(frontends[i].events)
      ensures frontends[focus].Room() + cons[focus] >= old(frontends[focus].Room() + cons[focus]) && Free() >= old(Free())
    {
      hide Window, Slot, StreamOf, ControlOf;
      var m: nat := focus;
      while prod[m] != cons[m] && frontends[m].Room() != 0
        invariant Sound() && forall i :: 0 <= i < muxCnt ==> Stream(i) == old(Stream(i))
        invariant frontends[m].Room() + cons[m] >= old(frontends[m].Room() + cons[m])
        invariant forall i :: 0 <= i < muxCnt ==> frontends[i].events == old(frontends[i].events)
        decreases prod[m] - cons[m]
      {
        AcceptByte(m);
      }
    }

    /** One round of that loop. */
    method AcceptByte(m: nat)
      requires Sound() && m < muxCnt && prod[m] != cons[m]
      modifies cons, frontends
      ensures Sound() && forall i :: 0 <= i < muxCnt ==> Stream(i) == old(Stream(i))
      ensures frontends[m].Room() + cons[m] >= old(frontends[m].Room() + cons[m]) && cons[m] == old(cons[m]) + 1
      ensures forall i :: 0 <= i < muxCnt ==> frontends[i].events == old(frontends[i].events)
    {
      hide Slot, StreamOf, ControlOf;
      var b := Pop(m);
      frontends[m].Read(b);
    }

    /** `mux_proc_byte`: true if the byte is data. */
    method ProcByte(ch: bv8) returns (data: bool)
      requires Sound() && muxCnt > 0 && !exited
      modifies `gotEscape, `focus, `timestamps, `exited, `actions, frontends, listener
      ensures Sound() && Ctl() == AfterByte(old(Ctl()), ch) && data == IsData(old(Ctl()), ch)
      ensures forall i :: 0 <= i < muxCnt ==> frontends[i].delivered == old(frontends[i].delivered)
      ensures forall i :: 0 <= i < muxCnt ==> frontends[i].Room() >= old(frontends[i].Room()) - 1
      ensures data ==> forall i :: 0 <= i < muxCnt ==> frontends[i].Room() == old(frontends[i].Room())
      ensures actions == old(actions) + ActionsOf(old(Ctl()), ch)
      ensures forall i :: 0 <= i < muxCnt ==> frontends[i].events == old(frontends[i].events) + EventsOf(old(Ctl()), ch, i)
      ensures listener !in frontends ==> listener.events == old(listener.events) + StrayEventsOf(old(Ctl()), ch)
    {
      hide Window, Slot, NextFocus;
      data := false;
      if gotEscape {
        gotEscape := false;
        if ch == escape {
          data := true;
        } else {
          Command(ch);
        }
      } else if ch == escape {
        gotEscape := true;
      } else {
        data := true;
      }
    }

    /** The command that follows the escape character. */
    method Command(ch: bv8)
      requires Sound() && muxCnt > 0 && !exited && !gotEscape && ch != escape
      modifies `focus, `timestamps, `exited, `actions, frontends, listener
      ensures Sound() && Ctl() == AfterByte(old(Ctl()).(gotEscape := true), ch)
      ensures forall i :: 0 <= i < muxCnt ==> frontends[i].delivered == old(frontends[i].delivered)
      ensures forall i :: 0 <= i < muxCnt ==> frontends[i].Room() >= old(frontends[i].Room()) - 1
      ensures actions == old(actions) + ActionsOf(old(Ctl()).(gotEscape := true), ch)
      ensures forall i :: 0 <= i < muxCnt ==>
        frontends[i].events == old(frontends[i].events) + EventsOf(old(Ctl()).(gotEscape := true), ch, i)
      ensures listener !in frontends ==>
        listener.events == old(listener.events) + StrayEventsOf(old(Ctl()).(gotEscape := true), ch)
    {
      hide Window, Slot, AfterByte, ActionsOf, EventsOf, StrayEventsOf, NextFocus;
      CommandMeaning(Ctl(), ch);
      CommandMeaning(Ctl().(gotEscape := true), ch);
      if ch == NEXT_DEVICE {
        SwitchFocus();
      } else if ch == BREAK {
        SendBreak();
      } else {
        PlainCommand(ch);
      }
    }

    /** The commands that no frontend hears of. */
    method PlainCommand(ch: bv8)
      requires Sound() && !exited && !gotEscape && ch != escape && ch != NEXT_DEVICE && ch != BREAK
      modifies `timestamps, `exited, `actions
      ensures Sound() && Ctl() == AfterByte(old(Ctl()).(gotEscape := true), ch)
      ensures actions == old(actions) + ActionsOf(old(Ctl()).(gotEscape := true), ch)
    {
      hide Window, Slot;
      if ch == HELP || ch == HELP2 {
        actions := actions + [PrintHelp];
      } else if ch == QUIT {
        actions := actions + [Exit];
        exited := true;
      } else if ch == COMMIT {
        actions := actions + [CommitAll];
      } else if ch == TIMESTAMPS {
        timestamps := !timestamps;
      }
    }

    /** The frontend that called last hears of a break. */
    method SendBreak()
      requires Sound() && muxCnt > 0
      modifies listener
      ensures Sound() && Ctl() == old(Ctl())
      ensures listener.events == old(listener.events) + [Break]
      ensures listener.delivered == old(listener.delivered) && listener.Room() >= old(listener.Room()) - 1
    {
      listener.Notify(Break);
    }

    /** The next registered frontend gets the focus. */
    method SwitchFocus()
      requires Sound() && muxCnt > 0
      modifies `focus, frontends
      ensures Sound() && focus == NextFocus(old(Ctl()))
      ensures forall i :: 0 <= i < muxCnt ==>
        frontends[i].events == old(frontends[i].events) + (if i == old(focus) then [MuxOut] else []) + (if i == focus then [MuxIn] else [])
      ensures forall i :: 0 <= i < muxCnt ==> frontends[i].delivered == old(frontends[i].delivered)
      ensures forall i :: 0 <= i < muxCnt ==> frontends[i].Room() >= old(frontends[i].Room()) - 1
    {
      hide Window, Slot;
      frontends[focus].Notify(MuxOut);
      focus := focus + 1;
      if focus >= muxCnt {
        focus := 0;
      }
      frontends[focus].Notify(MuxIn);
    }

    /** `mux_chr_read`, for input that fits. The data bytes all join the stream of the frontend that had the
        focus on entry. */
    method ChrRead(buf: seq<bv8>)
      requires Valid() && muxCnt > 0 && !exited && |buf| <= Free()
      modifies `gotEscape, `focus, `timestamps, `exited, `actions, buffer, prod, cons, frontends, listener, `history
      ensures Valid() && history == old(history) + [Entered(buf)]
      ensures Ctl() == After(old(Ctl()), buf)
      ensures Stream(old(focus)) == old(Stream(focus)) + Data(old(Ctl()), buf)
      ensures forall i :: 0 <= i < muxCnt && i != old(focus) ==> Stream(i) == old(Stream(i))
      ensures forall i :: 0 <= i < muxCnt ==> frontends[i].events == old(frontends[i].events) + EventsIn(old(Ctl()), buf, i)
      ensures actions == old(actions) + ActionsIn(old(Ctl()), buf)
    {
      hide Window, Slot, After, Data, StreamOf, ControlOf, EventsIn, ActionsIn, LastTold, MuxDriver.Stream, MuxDriver.Free;
      ghost var m := focus;
      TakeIn(buf);
      OneMove(escape, history, Entered(buf), m);
      forall i | 0 <= i < muxCnt
        ensures Stream(i) == StreamOf(escape, history + [Entered(buf)], i)
      {
        OneMove(escape, history, Entered(buf), i);
      }
      history := history + [Entered(buf)];
    }

    /** All that it does, apart from the record. */
    method TakeIn(buf: seq<bv8>)
      requires Sound() && muxCnt > 0 && !exited && |buf| <= Free()
      modifies `gotEscape, `focus, `timestamps, `exited, `actions, buffer, prod, cons, frontends, listener
      ensures Sound() && Ctl() == After(old(Ctl()), buf)
      ensures Stream(old(focus)) == old(Stream(focus)) + Data(old(Ctl()), buf)
      ensures forall i :: 0 <= i < muxCnt && i != old(focus) ==> Stream(i) == old(Stream(i))
      ensures forall i :: 0 <= i < muxCnt ==> frontends[i].events == old(frontends[i].events) + EventsIn(old(Ctl()), buf, i)
      ensures actions == old(actions) + ActionsIn(old(Ctl()), buf)
    {
      hide Window, Slot, After, Data, StreamOf, ControlOf, Stream, EventsIn, ActionsIn;
      var m := focus;
      AcceptInput();
      TakeAll(m, buf);
    }

    /** The loop of `mux_chr_read`. */
    method TakeAll(m: nat, buf: seq<bv8>)
      requires Sound() && m < muxCnt && !exited && Fits(m, |buf|)
      modifies `gotEscape, `focus, `timestamps, `exited, `actions, buffer, prod, frontends, listener
      ensures Sound() && Ctl() == After(old(Ctl()), buf)
      ensures Stream(m) == old(Stream(m)) + Data(old(Ctl()), buf)
      ensures forall i :: 0 <= i < muxCnt && i != m ==> Stream(i) == old(Stream(i))
      ensures forall i :: 0 <= i < muxCnt ==> frontends[i].events == old(frontends[i].events) + EventsIn(old(Ctl()), buf, i)
      ensures actions == old(actions) + ActionsIn(old(Ctl()), buf)
    {
      hide Window, Slot, After, Data, AfterByte, IsData, EventsIn, ActionsIn, EventsOf, ActionsOf, MuxDriver.Seen, MuxDriver.Stream, MuxDriver.Fits, MuxDriver.Events;
      ghost var c0, acts := Ctl(), actions;
      ghost var ev := Events();
      var i := 0;
      NoInput(c0, buf);
      SeenNone(c0, buf, ev, acts);
      while i < |buf| && !exited
        invariant 0 <= i <= |buf| && Sound() && Ctl() == After(c0, buf[..i])
        invariant Stream(m) == old(Stream(m)) + Data(c0, buf[..i])
        invariant forall k :: 0 <= k < muxCnt && k != m ==> Stream(k) == old(Stream(k))
        invariant Fits(m, |buf| - i)
        invariant Seen(c0, buf[..i], ev, acts)
      {
        OneMore(c0, buf, i);
        TakeNext(m, c0, buf, i, ev, acts);
        i := i + 1;
      }
      NoMore(c0, buf, i);
      SeenAll(c0, buf, i, ev, acts);
    }

    ghost function Events(): (ev: seq<seq<Event>>)
      reads this, frontends
      ensures |ev| == |frontends| && forall i :: 0 <= i < |ev| ==> ev[i] == frontends[i].events
    {
      seq(|frontends|, i requires 0 <= i < |frontends| reads this, frontends => frontends[i].events)
    }

    /** What frontends were told and the emulator was made to do since it stood at ev and acts. */
    ghost predicate Seen(c: Control, buf: seq<bv8>, ev: seq<seq<Event>>, acts: seq<Action>)
      reads this, frontends
    {
      && |ev| == muxCnt == |frontends| && actions == acts + ActionsIn(c, buf)
      && forall i :: 0 <= i < muxCnt ==> frontends[i].events == ev[i] + EventsIn(c, buf, i)
    }

    lemma SeenNone(c: Control, buf: seq<bv8>, ev: seq<seq<Event>>, acts: seq<Action>)
      requires |ev| == muxCnt == |frontends| && acts == actions
      requires forall i :: 0 <= i < muxCnt ==> frontends[i].events == ev[i]
      ensures Seen(c, buf[..0], ev, acts)
    {
      NothingSeen(c, buf, 0, 0);
      forall i
        ensures EventsIn(c, buf[..0], i) == []
      {
        NothingSeen(c, buf, 0, i);
      }
    }

    lemma SeenAll(c: Control, buf: seq<bv8>, k: nat, ev: seq<seq<Event>>, acts: seq<Action>)
      requires k <= |buf| && (k == |buf| || After(c, buf[..k]).exited) && Seen(c, buf[..k], ev, acts)
      ensures actions == acts + ActionsIn(c, buf)
      ensures forall i :: 0 <= i < muxCnt ==> frontends[i].events == ev[i] + EventsIn(c, buf, i)
    {
      hide EventsIn, ActionsIn, After;
      NothingSeen(c, buf, k, 0);
      forall i
        ensures EventsIn(c, buf, i) == EventsIn(c, buf[..k], i)
      {
        NothingSeen(c, buf, k, i);
      }
    }

    /** The next round, on the same account. */
    method TakeNext(m: nat, ghost c: Control, buf: seq<bv8>, i: nat, ghost ev: seq<seq<Event>>, ghost acts: seq<Action>)
      requires Sound() && m < muxCnt && !exited && i < |buf| && Fits(m, |buf| - i)
      requires Ctl() == After(c, buf[..i]) && Seen(c, buf[..i], ev, acts)
      modifies `gotEscape, `focus, `timestamps, `exited, `actions, buffer, prod, frontends, listener
      ensures Sound() && Ctl() == AfterByte(old(Ctl()), buf[i]) && Fits(m, |buf| - i - 1)
      ensures Stream(m) == old(Stream(m)) + if IsData(old(Ctl()), buf[i]) then [buf[i]] else []
      ensures forall k :: 0 <= k < muxCnt && k != m ==> Stream(k) == old(Stream(k))
      ensures Seen(c, buf[..i + 1], ev, acts)
    {
      hide Window, Slot, After, AfterByte, IsData, EventsIn, ActionsIn, EventsOf, ActionsOf, MuxDriver.Stream, MuxDriver.Fits;
      OneMoreSeen(c, buf, i, 0);
      forall k
        ensures EventsIn(c, buf[..i + 1], k) == EventsIn(c, buf[..i], k) + EventsOf(After(c, buf[..i]), buf[i], k)
      {
        OneMoreSeen(c, buf, i, k);
      }
      TakeByte(m, buf[i], |buf| - i);
    }

    /** There is room for r more bytes: in the ring, or past an empty ring in the frontend. */
    ghost predicate Fits(m: nat, r: nat)
      requires Sound() && m < muxCnt
      reads this, prod, cons, frontends
    {
      && r <= MUX_BUFFER_SIZE + frontends[m].Room()
      && (prod[m] != cons[m] ==> prod[m] - cons[m] + r <= MUX_BUFFER_SIZE)
    }

    /** One round of that loop. */
    method TakeByte(m: nat, ch: bv8, ghost r: nat)
      requires Sound() && m < muxCnt && !exited && r > 0 && Fits(m, r)
      modifies `gotEscape, `focus, `timestamps, `exited, `actions, buffer, prod, frontends, listener
      ensures Sound() && Ctl() == AfterByte(old(Ctl()), ch) && Fits(m, r - 1)
      ensures Stream(m) == old(Stream(m)) + if IsData(old(Ctl()), ch) then [ch] else []
      ensures forall k :: 0 <= k < muxCnt && k != m ==> Stream(k) == old(Stream(k))
      ensures forall k :: 0 <= k < muxCnt ==> frontends[k].events == old(frontends[k].events) + EventsOf(old(Ctl()), ch, k)
      ensures actions == old(actions) + ActionsOf(old(Ctl()), ch)
    {
      hide Window, Slot, AfterByte, IsData, ActionsOf, EventsOf, StrayEventsOf;
      var data := ProcByte(ch);
      assert forall k :: 0 <= k < muxCnt ==> Stream(k) == old(Stream(k));
      if data {
        TakeData(m, ch);
      }
    }

    /** One data byte for frontend m: straight through if nothing waits and it listens, else into its
        ring. */
    method TakeData(m: nat, b: bv8)
      requires Sound() && m < muxCnt
      requires prod[m] - cons[m] < MUX_BUFFER_SIZE
      modifies buffer, prod, frontends
      ensures Sound() && Stream(m) == old(Stream(m)) + [b]
      ensures forall i :: 0 <= i < muxCnt ==> frontends[i].events == old(frontends[i].events)
      ensures forall i :: 0 <= i < muxCnt && i != m ==> Stream(i) == old(Stream(i))
      ensures frontends[m].Room() >= old(frontends[m].Room()) - 1
      ensures if old(prod[m] == cons[m] && frontends[m].Room() != 0) then prod[m] == cons[m]
              else prod[m] == old(prod[m]) + 1 && frontends[m].Room() == old(frontends[m].Room())
    {
      if prod[m] == cons[m] && frontends[m].Room() != 0 {
        frontends[m].Read(b);
      } else {
        Push(m, b);
      }
    }

    /** `qemu_chr_add_handlers` with `mux_chr_update_read_handler`: a frontend registers and gets the
        focus. A fifth is refused, but has by then taken over the break event. */
    method Register(f: Frontend)
      requires Valid() && f !in frontends
      modifies `frontends, `focus, `muxCnt, `listener, `history, frontends, f
      ensures Valid() && listener == f
      ensures history == old(history) + [if old(muxCnt) < 4 then Joined(f.delivered) else TurnedAway]
      ensures f.delivered == old(f.delivered)
      ensures old(muxCnt) >= 4 ==> unchanged(`frontends) && unchanged(`focus) && unchanged(`muxCnt) && unchanged(f)
      ensures forall i :: 0 <= i < old(muxCnt) ==> Stream(i) == old(Stream(i))
      ensures old(muxCnt) < 4 ==>
        && frontends == old(frontends) + [f] && focus == old(muxCnt) && muxCnt == old(muxCnt) + 1
        && Stream(focus) == f.delivered && f.events == old(f.events) + [MuxIn]
      ensures forall i :: 0 <= i < old(muxCnt) ==>
        old(frontends)[i].events
          == old(frontends[i].events) + if i == old(focus) && old(muxCnt) < 4 then [MuxOut] else []
    {
      hide Window, Slot, StreamOf, ControlOf, After, Data;
      ghost var move := if muxCnt < MAX_MUX then Joined(f.delivered) else TurnedAway;
      if muxCnt < MAX_MUX {
        Join(f);
      } else {
        listener := f;
      }
      Record(move);
    }

    /** The record of a registration or a poll, once it has happened. */
    ghost method Record(move: Move)
      requires Sound() && !move.Entered? && maxSize == (if move.Told? then move.size else LastTold(history)) && Ctl() == AfterMove(ControlOf(escape, history), move)
      requires forall i :: 0 <= i < muxCnt ==>
        Stream(i) == if move.Joined? && i == ControlOf(escape, history).count then move.before else StreamOf(escape, history, i)
      modifies `history
      ensures Valid() && history == old(history) + [move]
    {
      hide Window, Slot, StreamOf, ControlOf, After, Data;
      forall i | 0 <= i < muxCnt
        ensures Stream(i) == StreamOf(escape, history + [move], i)
      {
        OneMove(escape, history, move, i);
      }
      OneMove(escape, history, move, 0);
      history := history + [move];
    }

    /** A frontend finds a free place. */
    method Join(f: Frontend)
      requires Sound() && f !in frontends && muxCnt < MAX_MUX
      modifies `frontends, `focus, `muxCnt, `listener, frontends, f
      ensures Sound() && listener == f && f.delivered == old(f.delivered)
      ensures frontends == old(frontends) + [f] && focus == old(muxCnt) && muxCnt == old(muxCnt) + 1
      ensures Stream(focus) == f.delivered && f.events == old(f.events) + [MuxIn]
      ensures forall i :: 0 <= i < old(muxCnt) ==> Stream(i) == old(Stream(i))
      ensures forall i :: 0 <= i < old(muxCnt) ==>
        old(frontends)[i].events == old(frontends[i].events) + if i == old(focus) then [MuxOut] else []
    {
      hide Slot;
      listener := f;
      if focus != -1 {
        frontends[focus].Notify(MuxOut);
      }
      frontends := frontends + [f];
      focus := muxCnt;
      muxCnt := muxCnt + 1;
      f.Notify(MuxIn);
      assert Buffered(focus) == [];
    }

    /** Any sequence of what can happen from outside, up to the first read that does not fit. The past is
        accounted for throughout. A read that follows its poll with nothing but accept-inputs in between
        always fits. */
    method DoAll(script: seq<Input>) returns (n: nat)
      requires Valid()
      requires forall i :: 0 <= i < |script| && script[i].Registers? ==> script[i].f !in frontends
      requires forall i, j :: 0 <= i < j < |script| && script[i].Registers? && script[j].Registers? ==> script[i].f != script[j].f
      modifies this, buffer, prod, cons, frontends, listener, Newcomers(script)
      ensures n <= |script| && Valid() && Follows(escape, old(history), script[..n], history)
      ensures n < |script| ==> !Fitting(script[n]) && !Prompt(script, n)
      ensures forall m :: 0 <= m < muxCnt ==>
        && frontends[m].delivered + Buffered(m) == StreamOf(escape, history, m)
        && |Buffered(m)| == prod[m] - cons[m] <= MUX_BUFFER_SIZE
    {
      hide Records, StreamOf, ControlOf, Window, Slot, MuxDriver.Fitting, Follows, MuxDriver.Trusted, MuxDriver.Stream, LastTold;
      assert Follows(escape, history, script[..0], history) by { NoScript(escape, history, script); }
      n := 0;
      var fits := true;
      while n < |script| && fits
        invariant n <= |script| && Valid() && Follows(escape, old(history), script[..n], history)
        invariant forall f :: f in frontends ==> f in old(frontends) || exists i :: 0 <= i < n && script[i].Registers? && script[i].f == f
        invariant forall f :: f in frontends ==> f in old(frontends) || f in Newcomers(script)
        invariant listener == null || listener == old(listener) || listener in Newcomers(script)
        invariant Prompt(script, n) ==> Trusted()
        invariant !fits ==> n < |script| && !Fitting(script[n]) && !Prompt(script, n)
        decreases |script| - n, fits
      {
        assert script[n].Registers? ==> script[n].f in Newcomers(script);
        ghost var mid := history;
        fits := DoOne(script[n]);
        if fits {
          FollowsOne(escape, old(history), script, n, mid, history);
          n := n + 1;
        }
      }
      forall m | 0 <= m < muxCnt
        ensures frontends[m].delivered + Buffered(m) == StreamOf(escape, history, m)
        ensures |Buffered(m)| == prod[m] - cons[m] <= MUX_BUFFER_SIZE
      {
        Conservation(m);
      }
    }

    /** The n-th input follows a poll, with nothing in between but accept-inputs. */
    static ghost predicate Prompt(script: seq<Input>, n: nat)
      requires n <= |script|
    {
      exists j :: 0 <= j < n && script[j].Poll? && forall i :: j < i < n ==> script[i].Accept?
    }

    /** A read finds room for all of it. */
    ghost predicate Fitting(input: Input)
      requires Sound()
      reads this, prod, cons, frontends
    {
      input.Send? && muxCnt > 0 && !exited ==> Share(input.buf, maxSize) <= Free()
    }

    static ghost function Newcomers(script: seq<Input>): set<Frontend> {
      set i | 0 <= i < |script| && script[i].Registers? :: script[i].f
    }

    method DoOne(input: Input) returns (fits: bool)
      requires Valid() && (input.Registers? ==> input.f !in frontends)
      modifies this, buffer, prod, cons, frontends, listener, if input.Registers? then {input.f} else {}
      ensures Valid() && fits == old(Fitting(input))
      ensures fits ==> Records(escape, old(history), input, history)
      ensures !fits ==> history == old(history) && !Fitting(input) && !old(Trusted())
      ensures input.Poll? || (input.Accept? && old(Trusted())) ==> Trusted()
      ensures if input.Registers? then frontends == old(frontends) || frontends == old(frontends) + [input.f] else frontends == old(frontends)
      ensures listener == if input.Registers? then input.f else old(listener)
    {
      hide Window, Slot, StreamOf, ControlOf, After, Data;
      fits := true;
      match input
      case Registers(f) => Register(f);
      case NewRoom(m, room) =>
        if m < muxCnt {
          frontends[m].SetRoom(room);
        }
      case Accept =>
        if muxCnt > 0 {
          AcceptInput();
        }
      case Poll => Poll();
      case Send(buf) => fits := FdRead(buf);
    }

    /** `fd_chr_read`: passes on no more than the backend was told at its last poll, if that still fits. */
    method FdRead(buf: seq<bv8>) returns (fits: bool)
      requires Valid()
      modifies `gotEscape, `focus, `timestamps, `exited, `actions, buffer, prod, cons, frontends, listener, `history
      ensures Valid() && fits == old(Fitting(Send(buf)))
      ensures fits ==> Records(escape, old(history), Send(buf), history)
      ensures fits && old(muxCnt > 0 && !exited && Share(buf, maxSize) > 0) ==> history == old(history) + [Entered(buf[..old(Share(buf, maxSize))])]
      ensures !fits ==> unchanged(this) && unchanged(prod) && unchanged(cons) && unchanged(frontends)
    {
      hide Window, Slot, StreamOf, ControlOf, After, Data;
      fits := true;
      if muxCnt > 0 && !exited {
        var n := Share(buf, maxSize);
        var space := MUX_BUFFER_SIZE - (prod[focus] - cons[focus]) + frontends[focus].Room();
        if n > space {
          fits := false;
        } else if n > 0 {
          ChrRead(buf[..n]);
        }
      }
    }

    /** Conservation: what frontend m has got, followed by what waits for it, is its share of the past; and
        no ring ever holds more than its 32 bytes. */
    lemma Conservation(m: nat)
      requires Valid() && m < muxCnt
      ensures frontends[m].delivered + Buffered(m) == StreamOf(escape, history, m)
      ensures 0 <= prod[m] - cons[m] <= 32 && |Buffered(m)| == prod[m] - cons[m]
    {
      assert Stream(m) == StreamOf(escape, history, m);
    }
  }

  // ---------- Input gets in

  /** After a poll, with nothing but accept-inputs since, the answer is last on the record. */
  lemma {:induction false} AnswerIsLast(escape: bv8, before: seq<Move>, script: seq<Input>, n: nat, h: seq<Move>)
    requires n <= |script| && Follows(escape, before, script[..n], h) && MuxDriver.Prompt(script, n)
    ensures h != [] && Answer(ControlOf(escape, h[..|h| - 1]), h[|h| - 1])
    decreases n
  {
    hide ControlOf, Answer;
    var j :| 0 <= j < n && script[j].Poll? && forall i :: j < i < n ==> script[i].Accept?;
    assert script[..n][..n - 1] == script[..n - 1];
    var mid: seq<Move> :| Follows(escape, before, script[..n - 1], mid) && Records(escape, mid, script[n - 1], h);
    if j < n - 1 {
      AnswerIsLast(escape, before, script, n - 1, mid);
    }
  }

  /** Over every run: of a non-empty send that follows a poll with nothing but accept-inputs in between at
      least one byte enters, and all that the answer to the poll and the backend's 4096 allow, unless there is no frontend, the emulator has been left, or at the poll the ring
      in focus was full and its frontend took nothing. */
  lemma PromptSendEnters(escape: bv8, before: seq<Move>, script: seq<Input>, n: nat, after: seq<Move>)
    requires n < |script| && Follows(escape, before, script[..n + 1], after)
    requires MuxDriver.Prompt(script, n) && script[n].Send? && script[n].buf != []
    ensures exists h: seq<Move> :: Follows(escape, before, script[..n], h) && Admits(escape, h, script[n].buf, after)
  {
    hide ControlOf, Follows;
    var h := FollowsBack(escape, before, script, n, after);
    AnswerIsLast(escape, before, script, n, h);
    assert h == h[..|h| - 1] + [h[|h| - 1]];
    OneMove(escape, h[..|h| - 1], h[|h| - 1], 0);
    assert Admits(escape, h, script[n].buf, after);
  }

  /** From record h, which ends with the answer to a poll, to the record after a send. */
  ghost predicate Admits(escape: bv8, h: seq<Move>, buf: seq<bv8>, after: seq<Move>) {
    var c := ControlOf(escape, h);
    && h != [] && h[|h| - 1].Told?
    && var told := h[|h| - 1];
       if c.count == 0 || c.exited || (told.waiting == 32 && told.room == 0) then after == h
       else
         && |after| == |h| + 1 && after[..|h|] == h && after[|h|].Entered? && [] != after[|h|].buf <= buf
         && var n := |after[|h|].buf|;
            n <= told.size && n <= 4096 && (n == |buf| || n == told.size || n == 4096)
  }

  lemma FollowsBack(escape: bv8, before: seq<Move>, script: seq<Input>, n: nat, after: seq<Move>) returns (mid: seq<Move>)
    requires n < |script| && Follows(escape, before, script[..n + 1], after)
    ensures Follows(escape, before, script[..n], mid) && Records(escape, mid, script[n], after)
  {
    assert script[..n + 1][..n] == script[..n];
    mid :| Follows(escape, before, script[..n], mid) && Records(escape, mid, script[n], after);
  }

  // ---------- When a ring overflows

  /** Data bytes for a ring that holds w bytes and a frontend with room for r, which falls by one with each
      byte: the number that waits in the end. */
  function Waiting(w: nat, r: nat, bytes: nat): nat
    decreases bytes
  {
    if bytes == 0 then w else if w == 0 && r > 0 then Waiting(0, r - 1, bytes - 1) else Waiting(w + 1, r, bytes - 1)
  }

  /** A read of data bytes, accepted input first: such a frontend's ring stays within its 32 bytes exactly if
      the read was within what was free. */
  lemma {:induction false} OverflowIff(w: nat, r: nat, bytes: nat)
    requires w <= MUX_BUFFER_SIZE
    ensures var k := Min(w, r);
            Waiting(w - k, r - k, bytes) <= MUX_BUFFER_SIZE <==> bytes <= MUX_BUFFER_SIZE - w + r
  {
    WaitingIs(w - Min(w, r), r - Min(w, r), bytes);
  }

  lemma {:induction false} WaitingIs(w: nat, r: nat, bytes: nat)
    requires w == 0 || r == 0
    ensures Waiting(w, r, bytes) == if bytes + w <= r then 0 else w + bytes - r
    decreases bytes
  {
    if bytes > 0 {
      if w == 0 && r > 0 {
        WaitingIs(0, r - 1, bytes - 1);
      } else {
        WaitingIs(w + 1, 0, bytes - 1);
      }
    }
  }

  /** A full ring and a frontend that takes 5: the backend is told 5. By the time it reads, the frontend takes
      2, and the ring ends up with 35 bytes in 32 places. */
  lemma StalePoll()
    ensures Waiting(32 - Min(32, 5), 5 - Min(32, 5), 5) == 32 && Waiting(32 - Min(32, 2), 2 - Min(32, 2), 5) == 35
  {
    WaitingIs(27, 0, 5);
    WaitingIs(30, 0, 5);
  }

  // ---------- How input is cut into reads

  /** The bytes a read routes to channel ch. */
  function Routed(c: Control, buf: seq<bv8>, ch: int): seq<bv8> {
    if ch == c.focus then Data(c, buf) else []
  }

  /** Whether it matters that a stretch of input arrives as one read or as two: it does exactly if the
      focus moved in the first part and the second part holds data. */
  lemma CutMattersIff(c: Control, a: seq<bv8>, b: seq<bv8>)
    requires !c.exited
    ensures (forall ch :: Routed(c, a + b, ch) == Routed(c, a, ch) + Routed(After(c, a), b, ch))
            <==> (After(c, a).focus == c.focus || Data(After(c, a), b) == [])
  {
    Cut(c, a, b);
    var c1 := After(c, a);
    if c1.focus != c.focus && Data(c1, b) != [] {
      assert Routed(c, a + b, c.focus) == Data(c, a) + Data(c1, b);
      assert Routed(c, a, c.focus) + Routed(c1, b, c.focus) == Data(c, a);
      assert |Data(c, a) + Data(c1, b)| > |Data(c, a)|;
    }
  }

  /** Two frontends, escape character 1, then the bytes 1 and 99 and 65: in one read the last byte goes to
      channel 0, in a read of its own to channel 1. */
  lemma CutMovesByte()
    ensures var c := Control(1, false, 0, 2, false, false, false);
            var c1 := After(c, [1, NEXT_DEVICE]);
            && Routed(c, [1, NEXT_DEVICE, 65], 0) == [65] && Routed(c, [1, NEXT_DEVICE, 65], 1) == []
            && Routed(c, [1, NEXT_DEVICE], 0) == [] && Routed(c1, [65], 0) == [] && Routed(c1, [65], 1) == [65]
  {
    var c := Control(1, false, 0, 2, false, false, false);
    var c0 := c.(gotEscape := true);
    var c1 := c.(focus := 1);
    OneByte(c, 1);
    OneByte(c0, NEXT_DEVICE);
    OneByte(c1, 65);
    Cut(c, [1], [NEXT_DEVICE]);
    assert [1] + [NEXT_DEVICE] == [1, NEXT_DEVICE];
    Cut(c, [1, NEXT_DEVICE], [65]);
    assert [1, NEXT_DEVICE] + [65] == [1, NEXT_DEVICE, 65];
  }
}
