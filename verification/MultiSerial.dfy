/** The multi-port PCI card: several UARTs behind one interrupt line. */
module MultiSerial {
  import opened UartSpec
  import opened Serial
  import opened UartRuns

  const PCI_SERIAL_MAX_PORTS: nat := 4

  ghost predicate Separate(ports: seq<SerialState>) {
    forall i, j :: 0 <= i < j < |ports| ==> ports[i].Repr() !! ports[j].Repr()
  }

  lemma StartIsQuiet(port: SerialState)
    requires port.Valid() && port.Abs() == START
    ensures !port.irq
  {
    LineFollowsSources(port);
  }

  class PciMultiSerial {
    const ports: seq<SerialState>
    const level: array<nat>
    var irq: bool

    ghost predicate AnyLevel()
      requires level.Length == |ports|
      reads level
    {
      exists i :: 0 <= i < |ports| && level[i] != 0
    }

    ghost predicate Shape()
      reads this, level
    {
      && 0 < |ports| <= PCI_SERIAL_MAX_PORTS && level.Length == |ports|
      && Separate(ports)
      && forall i :: 0 <= i < |ports| ==> this !in ports[i].Repr() && level !in ports[i].Repr()
    }

    /** Every port is in a state between two steps, its level is its line, and the card's line is
        the OR of the levels. */
    ghost predicate Valid()
      reads this, level, set i, o | 0 <= i < |ports| && o in ports[i].Repr() :: o
    {
      && Shape()
      && (forall i :: 0 <= i < |ports| ==> ports[i].Valid())
      && (forall i :: 0 <= i < |ports| ==> (level[i] != 0 <==> ports[i].irq))
      && irq == AnyLevel()
    }

    /** Ports fresh from reset and a zeroed level array. */
    constructor (ports: seq<SerialState>)
      requires 0 < |ports| <= PCI_SERIAL_MAX_PORTS && Separate(ports)
      requires forall i :: 0 <= i < |ports| ==> ports[i].Valid() && ports[i].Abs() == START
      ensures Valid() && this.ports == ports && !irq
    {
      hide SerialState.Valid, SerialState.Abs;
      forall i | 0 <= i < |ports|
        ensures !ports[i].irq
      {
        StartIsQuiet(ports[i]);
      }
      this.ports := ports;
      level := new nat[|ports|](_ => 0);
      irq := false;
      new;
      assert Shape();
      assert forall i :: 0 <= i < |ports| ==> ports[i].Valid();
      assert !AnyLevel();
    }

    /** `multi_serial_irq_mux`. */
    method IrqMux(n: nat, newLevel: nat)
      requires n < |ports| && level.Length == |ports|
      modifies this, level
      ensures level[n] == newLevel && forall i :: 0 <= i < |ports| && i != n ==> level[i] == old(level[i])
      ensures irq == AnyLevel()
    {
      var pending := false;
      level[n] := newLevel;
      for i := 0 to |ports|
        invariant level[n] == newLevel && forall k :: 0 <= k < |ports| && k != n ==> level[k] == old(level[k])
        invariant pending <==> exists k :: 0 <= k < i && level[k] != 0
      {
        if level[i] != 0 {
          pending := true;
        }
      }
      irq := pending;
    }

    /** Some port makes a step, and its line is passed on. The frame says that the other ports keep
        their state. */
    method Do(n: nat, s: Step) returns (ret: bv8)
      requires Valid() && n < |ports| && Possible(s)
      modifies this, level, ports[n].Repr()
      ensures Valid() && ports[n].Abs() == Next(old(ports[n].Abs()), s)
    {
      hide SerialState.Valid, SerialState.Abs, Next;
      ret := PortDo(n, s);
      PassOn(n);
    }

    method PassOn(n: nat)
      requires Shape() && n < |ports| && forall i :: 0 <= i < |ports| ==> ports[i].Valid()
      requires forall i :: 0 <= i < |ports| && i != n ==> (level[i] != 0 <==> ports[i].irq)
      modifies this, level
      ensures Valid()
    {
      hide SerialState.Valid, SerialState.Abs;
      IrqMux(n, if ports[n].irq then 1 else 0);
    }

    method PortDo(n: nat, s: Step) returns (ret: bv8)
      requires Shape() && n < |ports| && Possible(s) && ports[n].Valid()
      requires forall i :: 0 <= i < |ports| ==> ports[i].Valid()
      modifies ports[n].Repr()
      ensures ports[n].Valid() && ports[n].Abs() == Next(old(ports[n].Abs()), s)
      ensures forall i :: 0 <= i < |ports| ==> ports[i].Valid()
      ensures forall i :: 0 <= i < |ports| && i != n ==> ports[i].irq == old(ports[i].irq)
    {
      hide SerialState.Valid, SerialState.Abs, Next, Possible;
      forall i | 0 <= i < |ports| && i != n
        ensures ports[i].Repr() !! ports[n].Repr()
      {
        assert if i < n then ports[i].Repr() !! ports[n].Repr() else ports[n].Repr() !! ports[i].Repr();
      }
      ret := ports[n].Do(s);
    }
  }

  /** The card's line is raised exactly when some port has an enabled source pending. */
  lemma CardLineIsOr(card: PciMultiSerial)
    requires card.Valid()
    ensures card.irq <==> exists i, x :: 0 <= i < |card.ports| && Asserted(card.ports[i].Abs(), x)
  {
    forall i | 0 <= i < |card.ports|
      ensures card.level[i] != 0 <==> exists x :: Asserted(card.ports[i].Abs(), x)
    {
      LineFollowsSources(card.ports[i]);
    }
    if i, x :| 0 <= i < |card.ports| && Asserted(card.ports[i].Abs(), x) {
      assert card.level[i] != 0;
    }
  }
}
