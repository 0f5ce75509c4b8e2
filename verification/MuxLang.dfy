/** The escape language of the mux, read off what a user types: data bytes and commands, each with its own
    meaning, whatever the state machine that takes them apart. */
module MuxLang {
  import opened Rings
  import opened Escapes
  import opened Mux

  // ---------- What a user types

  /** A byte for the frontend; the keys c, b, h, ?, x, s, t after the escape character; any other key. */
  datatype Item = Typed(b: bv8) | Next | SendBreak | Help | HelpToo | Quit | Commit | Stamps | Other(key: bv8)

  function Key(item: Item): bv8 {
    match item
    case Typed(b) => b
    case Next => 99
    case SendBreak => 98
    case Help => 104
    case HelpToo => 63
    case Quit => 120
    case Commit => 115
    case Stamps => 116
    case Other(key) => key
  }

  /** A command key is not the escape character, and another key is none of the command keys. */
  predicate Sendable(escape: bv8, item: Item) {
    && (!item.Typed? ==> Key(item) != escape)
    && (item.Other? ==> item.key !in {99, 98, 104, 63, 120, 115, 116})
  }

  function EncodeItem(escape: bv8, item: Item): seq<bv8> {
    if item.Typed? && item.b != escape then [item.b] else [escape, Key(item)]
  }

  function Encode(escape: bv8, items: seq<Item>): seq<bv8>
    decreases |items|
  {
    if items == [] then [] else EncodeItem(escape, items[0]) + Encode(escape, items[1..])
  }

  // ---------- What it means

  /** The items up to and with the first that quits. */
  function Heard(items: seq<Item>): seq<Item>
    decreases |items|
  {
    if items == [] then [] else if items[0].Quit? then [items[0]] else [items[0]] + Heard(items[1..])
  }

  function Bytes(items: seq<Item>): seq<bv8>
    decreases |items|
  {
    if items == [] then [] else (if items[0].Typed? then [items[0].b] else []) + Bytes(items[1..])
  }

  /** How often an item occurs. */
  function Count(items: seq<Item>, item: Item): nat
    decreases |items|
  {
    if items == [] then 0 else (if items[0] == item then 1 else 0) + Count(items[1..], item)
  }

  function Commands(items: seq<Item>): seq<Action>
    decreases |items|
  {
    if items == [] then []
    else
      (match items[0]
       case Help => [PrintHelp]
       case HelpToo => [PrintHelp]
       case Quit => [Exit]
       case Commit => [CommitAll]
       case _ => [])
      + Commands(items[1..])
  }

  /** What frontend i of n hears, the focus being on f: a break if it is the one that asked last, the loss of
      the focus, and then its gain. */
  function Hears(items: seq<Item>, f: nat, n: nat, breaks: bool, i: int): seq<Event>
    requires n > 0
    decreases |items|
  {
    if items == [] then []
    else if items[0].Next? then
      (if i == f then [MuxOut] else []) + (if i == (f + 1) % n then [MuxIn] else []) + Hears(items[1..], (f + 1) % n, n, breaks, i)
    else (if items[0].SendBreak? && breaks then [Break] else []) + Hears(items[1..], f, n, breaks, i)
  }

  // ---------- One item

  predicate Ready(c: Control) {
    !c.gotEscape && !c.exited && 0 <= c.focus < c.count
  }

  /** The control state after one item, in its own terms. */
  function Did(c: Control, item: Item): Control
    requires c.count > 0
  {
    match item
    case Next => c.(focus := (c.focus + 1) % c.count)
    case Quit => c.(exited := true)
    case Stamps => c.(timestamps := !c.timestamps)
    case _ => c
  }

  lemma NextIsMod(c: Control)
    requires 0 <= c.focus < c.count
    ensures NextFocus(c) == (c.focus + 1) % c.count
  {
    ModUnique(c.focus + 1, c.count, if c.focus + 1 == c.count then 1 else 0, if c.focus + 1 == c.count then 0 else c.focus + 1);
  }

  lemma ItemMeans(c: Control, item: Item, i: int)
    requires Ready(c) && Sendable(c.escape, item)
    ensures After(c, EncodeItem(c.escape, item)) == Did(c, item)
    ensures Data(c, EncodeItem(c.escape, item)) == Bytes([item]) && ActionsIn(c, EncodeItem(c.escape, item)) == Commands([item])
    ensures EventsIn(c, EncodeItem(c.escape, item), i) == Hears([item], c.focus, c.count, i == c.count - 1 && !c.refused, i)
  {
    hide After, Data, EventsIn, ActionsIn, Bytes, Commands, Hears, Did;
    var e := EncodeItem(c.escape, item);
    if |e| == 2 {
      TwoByteItem(c, item, i);
    } else {
      OneByteItem(c, item, i);
    }
  }

  lemma OneByteItem(c: Control, item: Item, i: int)
    requires Ready(c) && item.Typed? && item.b != c.escape
    ensures After(c, [item.b]) == Did(c, item)
    ensures Data(c, [item.b]) == Bytes([item]) && ActionsIn(c, [item.b]) == Commands([item])
    ensures EventsIn(c, [item.b], i) == Hears([item], c.focus, c.count, i == c.count - 1 && !c.refused, i)
  {
    hide After, Data, EventsIn, ActionsIn;
    OneItem(item);
    OneByte(c, item.b);
    SeenOfOne(c, item.b, i);
    assert [item][1..] == [];
  }

  /** The escape character and a key. */
  lemma TwoByteItem(c: Control, item: Item, i: int)
    requires Ready(c) && Sendable(c.escape, item) && EncodeItem(c.escape, item) == [c.escape, Key(item)]
    ensures var e := [c.escape, Key(item)];
            && After(c, e) == Did(c, item) && Data(c, e) == Bytes([item]) && ActionsIn(c, e) == Commands([item])
            && EventsIn(c, e, i) == Hears([item], c.focus, c.count, i == c.count - 1 && !c.refused, i)
  {
    hide After, Data, EventsIn, ActionsIn, AfterByte, IsData, ActionsOf, EventsOf, Bytes, Commands, Hears, Did;
    var c1 := c.(gotEscape := true);
    EscapeByte(c, i);
    KeyByte(c, item, i);
    OneByte(c, c.escape);
    SeenOfOne(c, c.escape, i);
    OneByte(c1, Key(item));
    SeenOfOne(c1, Key(item), i);
    assert [c.escape] + [Key(item)] == [c.escape, Key(item)];
    Cut(c, [c.escape], [Key(item)]);
    CutSeen(c, [c.escape], [Key(item)], i);
  }

  lemma EscapeByte(c: Control, i: int)
    requires Ready(c)
    ensures AfterByte(c, c.escape) == c.(gotEscape := true) && !IsData(c, c.escape)
    ensures ActionsOf(c, c.escape) == [] && EventsOf(c, c.escape, i) == []
  {
  }

  lemma KeyByte(c: Control, item: Item, i: int)
    requires Ready(c) && Sendable(c.escape, item) && (item.Typed? ==> item.b == c.escape)
    ensures var c1 := c.(gotEscape := true);
            && AfterByte(c1, Key(item)) == Did(c, item)
            && (if IsData(c1, Key(item)) then [Key(item)] else []) == Bytes([item]) && ActionsOf(c1, Key(item)) == Commands([item])
            && EventsOf(c1, Key(item), i) == Hears([item], c.focus, c.count, i == c.count - 1 && !c.refused, i)
  {
    hide NextFocus;
    NextIsMod(c);
    NextIsMod(c.(gotEscape := true));
    OneItem(item);
    assert [item][1..] == [];
  }

  lemma OneItem(item: Item)
    ensures Bytes([item]) == (if item.Typed? then [item.b] else [])
    ensures Commands([item]) ==
      match item
      case Help => [PrintHelp]
      case HelpToo => [PrintHelp]
      case Quit => [Exit]
      case Commit => [CommitAll]
      case _ => []
  {
    assert [item][1..] == [];
  }

  // ---------- All of it

  /** What is heard first, and the rest of it. */
  lemma HeardFirst(items: seq<Item>)
    requires items != []
    ensures var item := items[0]; var rest := if item.Quit? then [] else Heard(items[1..]);
            && Heard(items) == [item] + rest
            && Bytes(Heard(items)) == Bytes([item]) + Bytes(rest) && Commands(Heard(items)) == Commands([item]) + Commands(rest)
            && forall x :: Count(Heard(items), x) == (if item == x then 1 else 0) + Count(rest, x)
    ensures Bytes([]) == [] && Commands([]) == []
  {
    hide Bytes, Commands, Count;
    var rest := if items[0].Quit? then [] else Heard(items[1..]);
    assert Heard(items) == [items[0]] + rest;
    Cons(items[0], rest);
  }

  lemma Cons(item: Item, rest: seq<Item>)
    ensures Bytes([item] + rest) == Bytes([item]) + Bytes(rest) && Commands([item] + rest) == Commands([item]) + Commands(rest)
    ensures forall x :: Count([item] + rest, x) == (if item == x then 1 else 0) + Count(rest, x)
    ensures Bytes([]) == [] && Commands([]) == []
  {
    assert ([item] + rest)[1..] == rest && ([item] + rest)[0] == item;
    OneItem(item);
  }

  lemma NoneOf(x: Item)
    ensures Count([], x) == 0
  {
  }

  /** Whatever is typed is understood: the bytes typed reach the data, doubled escapes as one; the focus has
      gone round the frontends once for each c; the emulator did the other commands, in order; and nothing
      is heard after x. */
  lemma {:induction false} TypedIsUnderstood(c: Control, items: seq<Item>)
    requires Ready(c) && forall k :: 0 <= k < |items| ==> Sendable(c.escape, items[k])
    ensures After(c, Encode(c.escape, items)) == DidAll(c, Heard(items))
    ensures Data(c, Encode(c.escape, items)) == Bytes(Heard(items))
    ensures ActionsIn(c, Encode(c.escape, items)) == Commands(Heard(items))
    decreases |items|
  {
    hide After, Data, ActionsIn, Heard, Bytes, Commands, Count, EncodeItem, Sendable, DidAll, Did;
    if items == [] {
      Nothing(c);
    } else {
      var item := items[0];
      var e, rest := EncodeItem(c.escape, item), Encode(c.escape, items[1..]);
      var d := Did(c, item);
      ItemMeans(c, item, 0);
      Cut(c, e, rest);
      CutSeen(c, e, rest, 0);
      HeardFirst(items);
      StillReady(c, item);
      if item.Quit? {
        AfterExit(d, rest, 0);
        DidLast(c, items);
      } else {
        TypedIsUnderstood(d, items[1..]);
        DidMore(c, items);
      }
    }
  }

  /** What the commands come to, by their numbers. */
  function DidAll(c: Control, heard: seq<Item>): Control
    requires c.count > 0
  {
    c.(focus := (c.focus + Count(heard, Next)) % c.count, exited := c.exited || Count(heard, Quit) > 0,
       timestamps := c.timestamps != (Count(heard, Stamps) % 2 == 1))
  }

  lemma StillReady(c: Control, item: Item)
    requires Ready(c)
    ensures var d := Did(c, item); d.escape == c.escape && d.count == c.count && (item.Quit? ==> d.exited) && (!item.Quit? ==> Ready(d))
  {
  }

  lemma DidLast(c: Control, items: seq<Item>)
    requires Ready(c) && items != [] && items[0].Quit?
    ensures DidAll(c, Heard(items)) == Did(c, items[0])
  {
    hide Count, Heard;
    HeardFirst(items);
    NoneOf(Next);
    NoneOf(Quit);
    NoneOf(Stamps);
    ModUnique(c.focus, c.count, 0, c.focus);
  }

  lemma DidMore(c: Control, items: seq<Item>)
    requires Ready(c) && items != [] && !items[0].Quit?
    ensures DidAll(c, Heard(items)) == DidAll(Did(c, items[0]), Heard(items[1..]))
  {
    hide Count, Heard;
    HeardFirst(items);
    var rest := Heard(items[1..]);
    DidOneMore(c, items[0], Count(rest, Next), Count(rest, Quit), Count(rest, Stamps));
  }

  /** The same on the numbers alone. */
  lemma DidOneMore(c: Control, item: Item, next: nat, quit: nat, stamps: nat)
    requires Ready(c) && !item.Quit?
    ensures var d := Did(c, item);
            && c.(focus := (c.focus + (if item.Next? then 1 else 0) + next) % c.count, exited := c.exited || quit > 0,
                  timestamps := c.timestamps != (((if item.Stamps? then 1 else 0) + stamps) % 2 == 1))
            == d.(focus := (d.focus + next) % d.count, exited := d.exited || quit > 0,
                  timestamps := d.timestamps != (stamps % 2 == 1))
  {
    Steps(c, item, next);
  }

  lemma Nothing(c: Control)
    requires Ready(c)
    ensures After(c, []) == c == DidAll(c, Heard([])) && Data(c, []) == Bytes(Heard([])) && ActionsIn(c, []) == Commands(Heard([]))
  {
    ModUnique(c.focus, c.count, 0, c.focus);
  }

  lemma AfterExit(c: Control, rest: seq<bv8>, i: int)
    requires c.exited
    ensures After(c, rest) == c && Data(c, rest) == [] && ActionsIn(c, rest) == [] && EventsIn(c, rest, i) == []
  {
  }

  /** A focus that has moved on by one, and by k more. */
  lemma Steps(c: Control, item: Item, k: nat)
    requires Ready(c)
    ensures (Did(c, item).focus + k) % c.count == (c.focus + (if item.Next? then 1 else 0) + k) % c.count
  {
    if item.Next? {
      AddMod(c.focus + 1, k, c.count);
    }
  }

  lemma AddMod(a: nat, k: nat, n: nat)
    requires n > 0
    ensures (a % n + k) % n == (a + k) % n
  {
    var q, r := a / n, (a % n + k) % n;
    var p := (a % n + k) / n;
    assert a == n * q + a % n && a % n + k == n * p + r;
    assert a + k == n * (q + p) + r;
    ModUnique(a + k, n, q + p, r);
  }

  /** And every frontend hears what the commands mean for it. */
  lemma {:induction false} CommandsAreHeard(c: Control, items: seq<Item>, i: int)
    requires Ready(c) && forall k :: 0 <= k < |items| ==> Sendable(c.escape, items[k])
    ensures EventsIn(c, Encode(c.escape, items), i)
         == Hears(Heard(items), c.focus, c.count, i == c.count - 1 && !c.refused, i)
    decreases |items|
  {
    hide After, Data, EventsIn, ActionsIn, EncodeItem, Sendable, Did, Commands, Bytes, Count;
    if items == [] {
      assert EventsIn(c, [], i) == [] by { SeenOfNone(c, i); }
    } else {
      var e, rest := EncodeItem(c.escape, items[0]), Encode(c.escape, items[1..]);
      ItemMeans(c, items[0], i);
      CutSeen(c, e, rest, i);
      if items[0].Quit? {
        StillReady(c, items[0]);
        AfterExit(Did(c, items[0]), rest, i);
      } else {
        StillReady(c, items[0]);
        CommandsAreHeard(Did(c, items[0]), items[1..], i);
        HearsFirst(c, items[0], Heard(items[1..]), i);
      }
    }
  }

  lemma HearsFirst(c: Control, item: Item, rest: seq<Item>, i: int)
    requires Ready(c)
    ensures var d := Did(c, item);
            d.count > 0 && d.focus >= 0 && forall breaks ::
              Hears([item] + rest, c.focus, c.count, breaks, i) == Hears([item], c.focus, c.count, breaks, i) + Hears(rest, d.focus, d.count, breaks, i)
    ensures Did(c, item).refused == c.refused && Did(c, item).count == c.count
  {
    assert ([item] + rest)[1..] == rest && [item][1..] == [];
  }

  lemma SeenOfNone(c: Control, i: int)
    ensures EventsIn(c, [], i) == []
  {
  }

  // ---------- Round the frontends

  function Switches(escape: bv8, k: nat): seq<bv8> { Encode(escape, seq(k, _ => Next)) }

  lemma {:induction false} AllNext(k: nat)
    ensures var items := seq(k, _ => Next);
            Heard(items) == items && Count(items, Next) == k && Count(items, Quit) == 0 && Count(items, Stamps) == 0 && Bytes(items) == []
    decreases k
  {
    if k > 0 {
      AllNext(k - 1);
      assert seq(k, _ => Next)[1..] == seq(k - 1, _ => Next);
      assert [Next] + seq(k - 1, _ => Next) == seq(k, _ => Next);
    }
  }

  /** From focus f of n frontends, k switches lead to (f + k) mod n and do nothing else. */
  lemma SwitchesGoRound(c: Control, k: nat)
    requires Ready(c) && c.escape != 99
    ensures After(c, Switches(c.escape, k)) == c.(focus := (c.focus + k) % c.count) && Data(c, Switches(c.escape, k)) == []
  {
    var items := seq(k, _ => Next);
    AllNext(k);
    TypedIsUnderstood(c, items);
  }

  /** So every frontend has the focus after just one number of switches below n, and after n it is back. */
  lemma EveryoneHasATurn(c: Control, m: nat)
    requires Ready(c) && c.escape != 99 && m < c.count
    ensures exists k :: 0 <= k < c.count && After(c, Switches(c.escape, k)).focus == m
    ensures forall k, l :: 0 <= k < l < c.count ==>
      After(c, Switches(c.escape, k)).focus != After(c, Switches(c.escape, l)).focus
    ensures After(c, Switches(c.escape, c.count)) == c
  {
    hide After, Switches;
    TurnComes(c, m, if m >= c.focus then m - c.focus else m - c.focus + c.count);
    forall k, l | 0 <= k < l < c.count
      ensures After(c, Switches(c.escape, k)).focus != After(c, Switches(c.escape, l)).focus
    {
      TurnsDiffer(c, k, l);
    }
    BackAgain(c);
  }

  lemma BackAgain(c: Control)
    requires Ready(c) && c.escape != 99
    ensures After(c, Switches(c.escape, c.count)) == c
  {
    hide After, Switches;
    SwitchesGoRound(c, c.count);
    ModUnique(c.focus + c.count, c.count, 1, c.focus);
  }

  lemma TurnComes(c: Control, m: nat, k: nat)
    requires Ready(c) && c.escape != 99 && m < c.count && k == (if m >= c.focus then m - c.focus else m - c.focus + c.count)
    ensures k < c.count && After(c, Switches(c.escape, k)).focus == m
  {
    hide After, Switches;
    SwitchesGoRound(c, k);
    ModUnique(c.focus + k, c.count, if m >= c.focus then 0 else 1, m);
  }

  lemma TurnsDiffer(c: Control, k: nat, l: nat)
    requires Ready(c) && c.escape != 99 && k < l < c.count
    ensures After(c, Switches(c.escape, k)).focus != After(c, Switches(c.escape, l)).focus
  {
    hide After, Switches;
    SwitchesGoRound(c, k);
    SwitchesGoRound(c, l);
    DistinctMod(c.focus + k, c.focus + l, c.count);
  }

  lemma DistinctMod(a: nat, b: nat, n: nat)
    requires 0 < b - a < n
    ensures a % n != b % n
  {
    if a % n == b % n {
      ModUnique(b - a, n, b / n - a / n, 0);
      ModUnique(b - a, n, 0, b - a);
    }
  }

  // ---------- Who has the focus

  function FocusEvents(ev: seq<Event>): seq<Event>
    decreases |ev|
  {
    if ev == [] then [] else (if ev[0].Break? then [] else [ev[0]]) + FocusEvents(ev[1..])
  }

  /** Gains and losses in turn, from whether the focus is held to whether it is in the end. */
  predicate Alternates(ev: seq<Event>, held: bool, after: bool)
    decreases |ev|
  {
    if ev == [] then held == after else ev[0] == (if held then MuxOut else MuxIn) && Alternates(ev[1..], !held, after)
  }

  /** Whatever comes in, command or not: each frontend is told of gaining and losing the focus in turn, and
      knows in the end whether it has it. */
  lemma {:induction false} EveryoneKnows(c: Control, buf: seq<bv8>, i: nat)
    requires 0 <= c.focus < c.count && i < c.count
    ensures var d := After(c, buf);
            0 <= d.focus < d.count == c.count && Alternates(FocusEvents(EventsIn(c, buf, i)), i == c.focus, i == d.focus)
    decreases |buf|
  {
    if buf != [] && !c.exited {
      hide After, EventsIn, EventsOf, AfterByte;
      assert buf == [buf[0]] + buf[1..];
      var c1 := AfterByte(c, buf[0]);
      OneByte(c, buf[0]);
      SeenOfOne(c, buf[0], i);
      Cut(c, [buf[0]], buf[1..]);
      CutSeen(c, [buf[0]], buf[1..], i);
      TurnOfByte(c, buf[0], i);
      EveryoneKnows(c1, buf[1..], i);
      FocusEventsJoin(EventsOf(c, buf[0], i), EventsIn(c1, buf[1..], i));
      AlternatesJoin(FocusEvents(EventsOf(c, buf[0], i)), FocusEvents(EventsIn(c1, buf[1..], i)), i == c.focus, i == c1.focus,
                     i == After(c1, buf[1..]).focus);
    }
  }

  lemma TurnOfByte(c: Control, b: bv8, i: nat)
    requires 0 <= c.focus < c.count && i < c.count
    ensures var d := AfterByte(c, b);
            0 <= d.focus < d.count == c.count && Alternates(FocusEvents(EventsOf(c, b, i)), i == c.focus, i == d.focus)
  {
    FewEvents();
  }

  lemma FewEvents()
    ensures FocusEvents([]) == [] && FocusEvents([Break]) == [] && FocusEvents([MuxOut]) == [MuxOut]
    ensures FocusEvents([MuxIn]) == [MuxIn] && FocusEvents([MuxOut, MuxIn]) == [MuxOut, MuxIn]
    ensures Alternates([], true, true) && Alternates([], false, false)
    ensures Alternates([MuxOut], true, false) && Alternates([MuxIn], false, true)
    ensures Alternates([MuxOut, MuxIn], true, true)
    ensures [] + [MuxIn] == [MuxIn] && [MuxOut] + [] == [MuxOut] && [MuxOut] + [MuxIn] == [MuxOut, MuxIn]
  {
    assert [Break][1..] == [] && [MuxOut][1..] == [] && [MuxIn][1..] == [] && [MuxOut, MuxIn][1..] == [MuxIn];
  }

  lemma {:induction false} FocusEventsJoin(a: seq<Event>, b: seq<Event>)
    ensures FocusEvents(a + b) == FocusEvents(a) + FocusEvents(b)
    decreases |a|
  {
    if a == [] {
      assert a + b == b;
    } else {
      assert (a + b)[1..] == a[1..] + b;
      FocusEventsJoin(a[1..], b);
    }
  }

  lemma {:induction false} AlternatesJoin(a: seq<Event>, b: seq<Event>, held: bool, mid: bool, after: bool)
    requires Alternates(a, held, mid) && Alternates(b, mid, after)
    ensures Alternates(a + b, held, after)
    decreases |a|
  {
    if a == [] {
      assert a + b == b;
    } else {
      assert (a + b)[1..] == a[1..] + b;
      AlternatesJoin(a[1..], b, !held, mid, after);
    }
  }
}
