/** Sharing an interrupt among serial ports: a hash of interrupt lines, each with a circular list
    threaded through the ports themselves, and the handler that serves the ring. */
module IrqChain {
  import opened Rings

  const NR_IRQ_HASH: nat := 32
  const PASS_LIMIT: nat := 512
  const ENOMEM: int := 12

  class Port {
    const irq: nat
    var next: Port?
    var prev: Port?

    constructor (irq: nat)
      ensures this.irq == irq && next == null && prev == null
    {
      this.irq := irq;
      next, prev := null, null;
    }
  }

  class IrqInfo {
    const irq: nat
    var head: Port?

    constructor (irq: nat)
      ensures this.irq == irq && head == null
    {
      this.irq := irq;
      head := null;
    }
  }

  // ---------- Circular lists

  function Succ(k: nat, n: nat): nat
    requires k < n
  {
    if k + 1 == n then 0 else k + 1
  }

  ghost predicate Distinct(r: seq<Port>) {
    forall i, j :: 0 <= i < j < |r| ==> r[i] != r[j]
  }

  /** The ports of r, in this order, form a circular doubly linked list. */
  ghost predicate Circular(r: seq<Port>)
    reads r`next, r`prev
  {
    && r != [] && Distinct(r)
    && forall k :: 0 <= k < |r| ==> r[k].next == r[Succ(k, |r|)] && r[Succ(k, |r|)].prev == r[k]
  }

  /** Following `next` n times. */
  ghost function Walk(r: seq<Port>, p: Port, n: nat): Port
    requires Circular(r) && p in r
    reads r
  {
    if n == 0 then p
    else
      var k :| 0 <= k < |r| && r[k] == p;
      assert p.next == r[Succ(k, |r|)];
      Walk(r, p.next, n - 1)
  }

  /** From any port of the ring, n steps lead round it in order: every port is met exactly once in
      one round, which ends where it began. */
  lemma {:induction false} WalkGoesRound(r: seq<Port>, k: nat, n: nat)
    requires Circular(r) && k < |r| && n <= |r|
    ensures Walk(r, r[k], n) == r[if k + n < |r| then k + n else k + n - |r|]
    decreases n
  {
    if n > 0 {
      assert r[k].next == r[Succ(k, |r|)];
      WalkGoesRound(r, Succ(k, |r|), n - 1);
    }
  }

  /** `list_add`: a new port goes right behind the head. */
  method ListAdd(up: Port, head: Port, ghost r: seq<Port>)
    requires Circular(r) && r[0] == head && up !in r && head.next != null
    modifies up`next, up`prev, head`next, head.next`prev
    ensures Circular([head, up] + r[1..])
  {
    ghost var s := [head, up] + r[1..];
    assert head.next == r[Succ(0, |r|)];
    var next := head.next;
    next.prev := up;
    up.next := next;
    up.prev := head;
    head.next := up;
    assert Distinct(s);
    forall k | 0 <= k < |s|
      ensures s[k].next == s[Succ(k, |s|)] && s[Succ(k, |s|)].prev == s[k]
    {
      if k >= 2 {
        assert s[k] == r[k - 1] && s[Succ(k, |s|)] == r[Succ(k - 1, |r|)];
      }
    }
  }

  /** A ring without its k-th port. */
  function Without(r: seq<Port>, k: nat): (s: seq<Port>)
    requires k < |r|
    ensures |s| == |r| - 1 && forall j :: 0 <= j < |s| ==> s[j] == r[Skip(j, k)]
  {
    r[..k] + r[k + 1..]
  }

  function Skip(j: nat, k: nat): nat { if j < k then j else j + 1 }

  lemma WithoutDistinct(r: seq<Port>, k: nat)
    requires k < |r| && Distinct(r)
    ensures Distinct(Without(r, k)) && r[k] !in Without(r, k)
  {
    var s := Without(r, k);
    forall i, j | 0 <= i < j < |s|
      ensures s[i] != s[j]
    {
      assert r[Skip(i, k)] != r[Skip(j, k)];
    }
    forall j | 0 <= j < |s|
      ensures s[j] != r[k]
    {
      assert s[j] == r[Skip(j, k)];
    }
  }

  /** `list_del`. */
  method ListDel(entry: Port, ghost r: seq<Port>, ghost k: nat)
    requires Circular(r) && k < |r| && r[k] == entry && |r| > 1
    requires entry.next != null && entry.prev != null
    modifies entry`next, entry`prev, entry.next`prev, entry.prev`next
    ensures Circular(Without(r, k))
  {
    ghost var s := Without(r, k);
    ghost var n := |r|;
    ghost var before := if k == 0 then n - 1 else k - 1;
    assert Succ(before, n) == k;
    assert entry.prev == r[before] && entry.next == r[Succ(k, n)];
    entry.next.prev := entry.prev;
    entry.prev.next := entry.next;
    entry.next, entry.prev := null, null;
    WithoutDistinct(r, k);
    forall j | 0 <= j < |s|
      ensures s[j].next == s[Succ(j, |s|)] && s[Succ(j, |s|)].prev == s[j]
    {
      var i, m := Skip(j, k), Skip(Succ(j, |s|), k);
      assert s[j] == r[i] && s[Succ(j, |s|)] == r[m];
      assert if Succ(i, n) == k then i == before && m == Succ(k, n) else m == Succ(i, n);
    }
  }

  // ---------- The kernel's side

  /** Calls to `request_irq` (granted or not) and `free_irq`. */
  datatype Call = RequestIrq(irq: nat, granted: bool) | FreeIrq(irq: nat)

  /** The lines that have a handler after these calls. */
  function Handled(calls: seq<Call>): set<nat>
    decreases |calls|
  {
    if calls == [] then {}
    else
      var before, last := Handled(calls[..|calls| - 1]), calls[|calls| - 1];
      match last
      case RequestIrq(irq, granted) => if granted then before + {irq} else before
      case FreeIrq(irq) => before - {irq}
  }

  /** A line is only requested while it has no handler, and only freed while it has one. */
  predicate Disciplined(calls: seq<Call>)
    decreases |calls|
  {
    calls == [] ||
    var before, last := Handled(calls[..|calls| - 1]), calls[|calls| - 1];
    Disciplined(calls[..|calls| - 1]) && (last.RequestIrq? <==> last.irq !in before)
  }

  lemma OneMoreCall(calls: seq<Call>, c: Call)
    requires Disciplined(calls) && (c.RequestIrq? <==> c.irq !in Handled(calls))
    ensures Disciplined(calls + [c])
    ensures Handled(calls + [c]) ==
      if c.FreeIrq? then Handled(calls) - {c.irq} else if c.granted then Handled(calls) + {c.irq} else Handled(calls)
  {
    assert (calls + [c])[..|calls|] == calls;
  }

  // ---------- The table

  /** The buckets hold exactly the nodes, each once and in its place. */
  ghost predicate Hashing(buckets: seq<seq<IrqInfo>>, nodes: map<nat, IrqInfo>) {
    && |buckets| == NR_IRQ_HASH
    && (forall b, k :: 0 <= b < NR_IRQ_HASH && 0 <= k < |buckets[b]| ==>
          && buckets[b][k].irq % NR_IRQ_HASH == b
          && buckets[b][k].irq in nodes && nodes[buckets[b][k].irq] == buckets[b][k])
    && (forall irq :: irq in nodes ==> nodes[irq].irq == irq && nodes[irq] in buckets[irq % NR_IRQ_HASH])
    && (forall b, k, l :: 0 <= b < NR_IRQ_HASH && 0 <= k < l < |buckets[b]| ==> buckets[b][k] != buckets[b][l])
  }

  /** A new node goes to the front of its bucket. */
  lemma HashAdd(buckets: seq<seq<IrqInfo>>, nodes: map<nat, IrqInfo>, i: IrqInfo)
    requires Hashing(buckets, nodes) && i.irq !in nodes
    ensures var b := i.irq % NR_IRQ_HASH;
            Hashing(buckets[b := [i] + buckets[b]], nodes[i.irq := i])
  {
    var b := i.irq % NR_IRQ_HASH;
    var after := buckets[b := [i] + buckets[b]];
    forall irq | irq in nodes
      ensures nodes[irq] in after[irq % NR_IRQ_HASH]
    {
      var k :| 0 <= k < |buckets[irq % NR_IRQ_HASH]| && buckets[irq % NR_IRQ_HASH][k] == nodes[irq];
      assert after[irq % NR_IRQ_HASH][if irq % NR_IRQ_HASH == b then k + 1 else k] == nodes[irq];
    }
    assert after[b][0] == i;
    assert i !in buckets[b];
  }

  lemma HashRemove(buckets: seq<seq<IrqInfo>>, nodes: map<nat, IrqInfo>, irq: nat, k: nat)
    requires Hashing(buckets, nodes) && irq in nodes
    requires k < |buckets[irq % NR_IRQ_HASH]| && buckets[irq % NR_IRQ_HASH][k] == nodes[irq]
    ensures var b := irq % NR_IRQ_HASH;
            Hashing(buckets[b := buckets[b][..k] + buckets[b][k + 1..]], nodes - {irq})
  {
    var b := irq % NR_IRQ_HASH;
    var h := buckets[b];
    var g := h[..k] + h[k + 1..];
    var after := buckets[b := g];
    BucketRemove(h, k);
    forall other | other in nodes && other != irq
      ensures nodes[other] in after[other % NR_IRQ_HASH]
    {
      assert nodes[other].irq == other && nodes[other] != h[k];
    }
  }

  /** A bucket loses its k-th node and keeps every other one. */
  lemma BucketRemove(h: seq<IrqInfo>, k: nat)
    requires k < |h| && forall j, l :: 0 <= j < l < |h| ==> h[j] != h[l]
    ensures var g := h[..k] + h[k + 1..];
            && (forall j :: 0 <= j < |g| ==> g[j] in h && g[j] != h[k])
            && (forall j, l :: 0 <= j < l < |g| ==> g[j] != g[l])
            && (forall x :: x in h && x != h[k] ==> x in g)
  {
    var g := h[..k] + h[k + 1..];
    forall j, l | 0 <= j < l < |g|
      ensures g[j] != g[l]
    {
      assert h[Skip(j, k)] != h[Skip(l, k)];
    }
    forall j | 0 <= j < |g|
      ensures g[j] in h && g[j] != h[k]
    {
      assert g[j] == h[Skip(j, k)];
    }
    forall x | x in h && x != h[k]
      ensures x in g
    {
      var m :| 0 <= m < |h| && h[m] == x;
      assert g[if m < k then m else m - 1] == x;
    }
  }

  /** Some ports, sorted into chains by their line. */
  ghost predicate Partition(linked: set<Port>, chains: map<nat, seq<Port>>) {
    && (forall p :: p in linked ==> p.irq in chains && p in chains[p.irq])
    && (forall irq, k :: irq in chains && 0 <= k < |chains[irq]| ==> chains[irq][k].irq == irq && chains[irq][k] in linked)
  }

  /** The chains after a port was linked: behind the head of its line's chain, or in a chain of its own. */
  function WithPort(chains: map<nat, seq<Port>>, up: Port): map<nat, seq<Port>> {
    if up.irq in chains && chains[up.irq] != []
    then chains[up.irq := [chains[up.irq][0], up] + chains[up.irq][1..]]
    else chains[up.irq := [up]]
  }

  ghost function Position(r: seq<Port>, p: Port): (k: nat)
    requires p in r
    ensures k < |r| && r[k] == p
  {
    var k :| 0 <= k < |r| && r[k] == p;
    k
  }

  /** The chains after a port was unlinked; the last port of a line takes the line's chain with it. */
  ghost function WithoutPort(chains: map<nat, seq<Port>>, up: Port): map<nat, seq<Port>>
    requires up.irq in chains && up in chains[up.irq]
  {
    var r := chains[up.irq];
    if |r| == 1 then chains - {up.irq} else chains[up.irq := Without(r, Position(r, up))]
  }

  lemma UnlinkPartition(linked: set<Port>, chains: map<nat, seq<Port>>, up: Port)
    requires Partition(linked, chains) && up in linked && Distinct(chains[up.irq])
    ensures Partition(linked - {up}, WithoutPort(chains, up))
  {
    var r := chains[up.irq];
    var k := Position(r, up);
    var after: map<nat, seq<Port>> := WithoutPort(chains, up);
    WithoutDistinct(r, k);
    forall p | p in linked - {up}
      ensures p.irq in after && p in after[p.irq]
    {
      if p.irq == up.irq {
        var j := Position(r, p);
        assert Without(r, k)[if j < k then j else j - 1] == p;
      }
    }
    forall irq: nat, j: nat | irq in after && j < |after[irq]|
      ensures after[irq][j].irq == irq && after[irq][j] in linked - {up}
    {
      if irq == up.irq {
        assert after[irq][j] == r[Skip(j, k)];
      }
    }
  }

  /** Linking behind a head leaves every head in place. */
  lemma LinkHeads(nodes: map<nat, IrqInfo>, chains: map<nat, seq<Port>>, up: Port)
    requires Heads(nodes, chains) && up.irq in chains
    ensures Heads(nodes, WithPort(chains, up)) && WithPort(chains, up).Keys == chains.Keys
  {
  }

  lemma LinkPartition(linked: set<Port>, chains: map<nat, seq<Port>>, up: Port)
    requires Partition(linked, chains)
    ensures Partition(linked + {up}, WithPort(chains, up))
  {
    var after := WithPort(chains, up);
    forall p | p in linked + {up}
      ensures p.irq in after && p in after[p.irq]
    {
      if p.irq == up.irq {
        if up.irq in chains && chains[up.irq] != [] {
          var r := chains[up.irq];
          assert r == [r[0]] + r[1..];
          assert after[up.irq][1] == up;
        }
      }
    }
    forall irq, k | irq in after && 0 <= k < |after[irq]|
      ensures after[irq][k].irq == irq && after[irq][k] in linked + {up}
    {
      if irq == up.irq && up.irq in chains && chains[irq] != [] {
        assert chains[irq][if k == 0 then 0 else k - 1].irq == irq;
      }
    }
  }

  class IrqTable {
    /** Hash buckets: the nodes of each, newest first. */
    const lists: array<seq<IrqInfo>>
    var calls: seq<Call>
    ghost var nodes: map<nat, IrqInfo>
    ghost var chains: map<nat, seq<Port>>
    /** The ports linked and not unlinked since. */
    ghost var linked: set<Port>

    ghost predicate Hashed()
      reads `nodes, lists
    {
      lists.Length == NR_IRQ_HASH && Hashing(lists[..], nodes)
    }

    /** The rings hold exactly the linked ports, each in the ring of its own line. */
    ghost predicate Complete()
      reads `chains, `linked
    {
      Partition(linked, chains)
    }

    /** Every node has a circular list, headed by its head. */
    ghost predicate Chained()
      requires Complete()
      reads `nodes, `chains, `linked, nodes.Values`head, linked`next, linked`prev
    {
      AllCircular(chains) && Heads(nodes, chains)
    }

    ghost predicate Sound()
      reads `nodes, `chains, `linked, lists, nodes.Values`head, linked`next, linked`prev
    {
      Hashed() && Complete() && Chained()
    }

    ghost predicate Valid()
      reads this, lists, nodes.Values`head, linked`next, linked`prev
    {
      Sound() && Disciplined(calls) && Handled(calls) == chains.Keys
    }

    constructor ()
      ensures Valid() && chains == map[] && linked == {} && calls == []
    {
      lists := new seq<IrqInfo>[NR_IRQ_HASH](_ => []);
      calls := [];
      nodes, chains, linked := map[], map[], {};
    }

    /** The hash search: the node of a line, if there is one. */
    method Find(irq: nat) returns (i: IrqInfo?, k: nat)
      requires Hashed()
      ensures i == null <==> irq !in nodes
      ensures i != null ==> i == nodes[irq] && k < |lists[irq % NR_IRQ_HASH]| && lists[irq % NR_IRQ_HASH][k] == i
    {
      var h := lists[irq % NR_IRQ_HASH];
      i := null;
      for j := 0 to |h|
        invariant i == null && forall m :: 0 <= m < j ==> h[m].irq != irq
      {
        if h[j].irq == irq {
          return h[j], j;
        }
      }
      k := 0;
    }

    /** What a sound table says of one line. */
    lemma Facts(line: nat)
      requires Sound()
      ensures ByLine(chains) && chains.Keys == nodes.Keys
      ensures forall irq :: irq in nodes ==> nodes[irq].irq == irq
      ensures line in chains ==> chains[line] != [] && nodes[line].head == chains[line][0]
      ensures line in chains ==> Circular(chains[line]) && Distinct(chains[line])
      ensures line in chains ==> forall p :: p in chains[line] ==> p in linked
      ensures forall p :: p in linked && p.irq == line ==> line in chains && p in chains[line]
    {
    }

    /** In every state between calls, a line has a node exactly if some linked port uses it, and then the
        ring from the node's head holds exactly those ports, each once; and exactly these lines have
        their interrupt requested. */
    lemma LineIffPorts(line: nat)
      requires Valid()
      ensures line in nodes <==> exists p :: p in linked && p.irq == line
      ensures line in nodes ==> Circular(chains[line]) && nodes[line].head == chains[line][0]
      ensures line in nodes ==> forall p :: p in chains[line] <==> p in linked && p.irq == line
      ensures line in nodes <==> line in Handled(calls)
    {
      if line in nodes {
        assert chains[line][0] in linked && chains[line][0].irq == line;
      }
    }

    /** The handler of a line that has one, on the table's own ring: it only asks ports linked to that
        line, and unless it gives up, every one of them was asked among its last calls and had nothing
        to do. */
    method Serve(i: IrqInfo, work: nat -> bool) returns (handled: bool, tooMuch: bool, visited: seq<Port>)
      requires Valid() && i.irq in nodes && nodes[i.irq] == i
      ensures handled <==> SomeWork(work, |visited|)
      ensures forall k :: 0 <= k < |visited| ==> visited[k] in linked && visited[k].irq == i.irq
      ensures !tooMuch ==> forall p :: p in linked && p.irq == i.irq ==> AskedLast(p, work, visited, |chains[i.irq]|)
      ensures tooMuch <==> |visited| == 514 * |chains[i.irq]|
    {
      ghost var r := chains[i.irq];
      LineIffPorts(i.irq);
      handled, tooMuch, visited := Interrupt(i, work, r);
      forall k | 0 <= k < |visited|
        ensures visited[k] in r
      {
        assert visited[k] == r[k % |r|];
      }
      if !tooMuch {
        forall p | p in r
          ensures AskedLast(p, work, visited, |r|)
        {
          RoundCovers(r, visited, |visited|, p);
        }
      }
    }

    /** A further port on a line that has a handler. */
    method LinkBehind(i: IrqInfo, up: Port)
      requires Sound() && up !in linked && up.irq in nodes && nodes[up.irq] == i && i.head != null
      modifies `chains, `linked, up`next, up`prev, linked`next, linked`prev
      ensures Sound() && linked == old(linked) + {up}
      ensures chains == WithPort(old(chains), up) && chains.Keys == old(chains.Keys)
    {
      hide Hashing, Partition, AllCircular, Circular, Distinct, Heads, WithPort, ByLine;
      Facts(up.irq);
      LinkPartition(linked, chains, up);
      LinkHeads(nodes, chains, up);
      ghost var before := chains;
      chains := WithPort(chains, up);
      linked := linked + {up};
      Splice(i.head, up, before);
    }

    /** `serial_do_unlink` where other ports remain: the head moves on if it is the one that goes. */
    method UnlinkOne(i: IrqInfo, up: Port)
      requires Sound() && up in linked && nodes[up.irq] == i && |chains[up.irq]| > 1
      modifies `chains, `linked, i`head, linked`next, linked`prev
      ensures Sound() && linked == old(linked) - {up} && chains == WithoutPort(old(chains), up)
    {
      hide Hashing, Partition, AllCircular, Circular, Distinct, Heads, WithoutPort, ByLine;
      Facts(up.irq);
      ghost var before := chains;
      UnlinkPartition(linked, chains, up);
      chains := WithoutPort(chains, up);
      linked := linked - {up};
      TakeOut(i, up, nodes, before);
    }

    /** `serial_do_unlink` of the last port of a line: the node leaves the hash. */
    method UnlinkLast(i: IrqInfo, up: Port)
      requires Sound() && up in linked && nodes[up.irq] == i && |chains[up.irq]| == 1
      modifies `chains, `linked, `nodes, i`head, lists
      ensures Sound() && linked == old(linked) - {up} && chains == WithoutPort(old(chains), up)
    {
      hide Hashing, Partition, AllCircular, Circular, Distinct, Heads, ByLine, WithoutPort;
      Facts(up.irq);
      UnlinkPartition(linked, chains, up);
      EndRing(i, up, nodes, chains);
      chains := WithoutPort(chains, up);
      linked := linked - {up};
      RemoveNode(i);
    }

    /** `hlist_del`. */
    method RemoveNode(i: IrqInfo)
      requires Hashed() && i.irq in nodes && nodes[i.irq] == i
      modifies `nodes, lists
      ensures Hashed() && nodes == old(nodes) - {i.irq}
    {
      var b := i.irq % NR_IRQ_HASH;
      var found, k := Find(i.irq);
      ghost var buckets := lists[..];
      HashRemove(buckets, nodes, i.irq, k);
      lists[b] := lists[b][..k] + lists[b][k + 1..];
      nodes := nodes - {i.irq};
      assert lists[..] == buckets[b := buckets[b][..k] + buckets[b][k + 1..]];
    }

    /** `serial_do_unlink`. */
    method DoUnlink(i: IrqInfo, up: Port)
      requires Sound() && up in linked && nodes[up.irq] == i
      modifies `chains, `linked, `nodes, i`head, lists, linked`next, linked`prev
      ensures Sound() && linked == old(linked) - {up} && chains == WithoutPort(old(chains), up)
    {
      ghost var r := chains[up.irq];
      assert r[0].next == r[Succ(0, |r|)];
      if i.head.next != i.head {
        UnlinkOne(i, up);
      } else {
        assert i.head == up;  // the code's BUG_ON does not fire
        UnlinkLast(i, up);
      }
    }

    /** `serial_link_irq_chain`. The first port of a line allocates the line's node and requests the
        interrupt; if that is refused, everything is as before. */
    method Link(up: Port, memory: bool, granted: bool, refusal: int) returns (ret: int)
      requires Valid() && up !in linked && refusal < 0
      modifies this, lists, up`next, up`prev, linked`next, linked`prev
      ensures Valid()
      ensures old(up.irq in chains) ==>
        ret == 0 && chains == WithPort(old(chains), up) && linked == old(linked) + {up} && calls == old(calls)
      ensures old(up.irq !in chains) && !memory ==>
        ret == -ENOMEM && chains == old(chains) && linked == old(linked) && calls == old(calls)
      ensures old(up.irq !in chains) && memory && granted ==>
        ret == 0 && chains == old(chains)[up.irq := [up]] && linked == old(linked) + {up}
        && calls == old(calls) + [RequestIrq(up.irq, true)]
      ensures old(up.irq !in chains) && memory && !granted ==>
        ret == refusal && chains == old(chains) && linked == old(linked) && calls == old(calls) + [RequestIrq(up.irq, false)]
    {
      hide Hashing, Circular, Partition, Disciplined, Handled, AllCircular, Heads, Distinct, WithPort;
      Facts(up.irq);
      var i, k := Find(up.irq);
      if i != null {
        LinkBehind(i, up);
        return 0;
      }
      if !memory {
        return -ENOMEM;
      }
      var ok := LinkNewLine(up, granted);
      ret := if ok then 0 else refusal;
    }

    /** The first port of a line, with the rollback if the kernel refuses the interrupt. */
    method LinkNewLine(up: Port, granted: bool) returns (ok: bool)
      requires Valid() && up !in linked && up.irq !in chains
      modifies `chains, `linked, `nodes, `calls, lists, up`next, up`prev, linked`next, linked`prev
      ensures Valid() && ok == granted && calls == old(calls) + [RequestIrq(up.irq, granted)]
      ensures granted ==> chains == old(chains)[up.irq := [up]] && linked == old(linked) + {up}
      ensures !granted ==> chains == old(chains) && linked == old(linked)
    {
      hide Sound, Disciplined, Handled;
      ghost var before := chains;
      var i := LinkFirst(up);
      ok := Request(up.irq, granted);
      if !ok {
        RollBack(i, up);
        assert chains == before;
      }
    }

    /** `request_irq`. */
    method Request(irq: nat, granted: bool) returns (ok: bool)
      requires Disciplined(calls) && irq !in Handled(calls)
      modifies `calls
      ensures ok == granted && calls == old(calls) + [RequestIrq(irq, granted)] && Disciplined(calls)
      ensures Handled(calls) == if granted then old(Handled(calls)) + {irq} else old(Handled(calls))
    {
      OneMoreCall(calls, RequestIrq(irq, granted));
      calls := calls + [RequestIrq(irq, granted)];
      ok := granted;
    }

    /** `free_irq`. */
    method Free(irq: nat)
      requires Disciplined(calls) && irq in Handled(calls)
      modifies `calls
      ensures calls == old(calls) + [FreeIrq(irq)] && Disciplined(calls) && Handled(calls) == old(Handled(calls)) - {irq}
    {
      OneMoreCall(calls, FreeIrq(irq));
      calls := calls + [FreeIrq(irq)];
    }

    /** Takes out the one port of a line again. */
    method RollBack(i: IrqInfo, up: Port)
      requires Sound() && up in linked && nodes[up.irq] == i && chains[up.irq] == [up]
      modifies `chains, `linked, `nodes, i`head, lists, linked`next, linked`prev
      ensures Sound() && linked == old(linked) - {up} && chains == old(chains) - {up.irq}
    {
      DoUnlink(i, up);
    }

    /** A new node with a ring of one port. */
    method LinkFirst(up: Port) returns (i: IrqInfo)
      requires Sound() && up !in linked && up.irq !in chains
      modifies `chains, `linked, `nodes, lists, up`next, up`prev
      ensures Sound() && linked == old(linked) + {up} && chains == old(chains)[up.irq := [up]]
      ensures fresh(i) && nodes[up.irq] == i
    {
      hide Hashing, Partition, AllCircular, Circular, Heads, ByLine;
      Facts(up.irq);
      LinkPartition(linked, chains, up);
      assert WithPort(chains, up) == chains[up.irq := [up]];
      ghost var before, rings := nodes, chains;
      chains := chains[up.irq := [up]];
      linked := linked + {up};
      i := AddNode(up.irq);
      StartRing(i, up, before, rings);
    }

    /** `kzalloc` and `hlist_add_head`. */
    method AddNode(irq: nat) returns (i: IrqInfo)
      requires Hashed() && irq !in nodes
      modifies `nodes, lists
      ensures Hashed() && fresh(i) && i.irq == irq && nodes == old(nodes)[irq := i]
    {
      i := new IrqInfo(irq);
      var b := irq % NR_IRQ_HASH;
      ghost var buckets := lists[..];
      HashAdd(buckets, nodes, i);
      lists[b] := [i] + lists[b];
      nodes := nodes[irq := i];
      assert lists[..] == buckets[b := [i] + buckets[b]];
    }

    /** `serial_unlink_irq_chain`: the last port of a line frees the interrupt. */
    method Unlink(up: Port)
      requires Valid() && up in linked
      modifies this, lists, linked`next, linked`prev, nodes.Values`head
      ensures Valid() && linked == old(linked) - {up} && chains == WithoutPort(old(chains), up)
      ensures calls == if |old(chains[up.irq])| == 1 then old(calls) + [FreeIrq(up.irq)] else old(calls)
    {
      hide Hashing, Partition, Disciplined, Handled, AllCircular, Heads, Distinct;
      Facts(up.irq);
      var i, k := Find(up.irq);
      assert i != null && i.head != null;  // the code's BUG_ONs do not fire
      ghost var r := chains[up.irq];
      assert r[0].next == r[Succ(0, |r|)];
      if i.head.next == i.head {
        Free(up.irq);
      }
      DoUnlink(i, up);
    }
  }

  /** Every node's head is the first port of its line's chain. */
  ghost predicate Heads(nodes: map<nat, IrqInfo>, chains: map<nat, seq<Port>>)
    reads nodes.Values`head
  {
    chains.Keys == nodes.Keys && forall irq :: irq in nodes ==> chains[irq] != [] && nodes[irq].head == chains[irq][0]
  }

  /** If the head is the port that goes, the next one becomes the head. */
  method MoveHead(i: IrqInfo, up: Port, ghost nodes: map<nat, IrqInfo>, ghost chains: map<nat, seq<Port>>)
    requires Heads(nodes, chains)
    requires up.irq in chains && up in chains[up.irq] && nodes[up.irq] == i
    requires Circular(chains[up.irq]) && |chains[up.irq]| > 1
    requires forall irq :: irq in nodes ==> nodes[irq].irq == irq
    modifies i`head
    ensures Heads(nodes, WithoutPort(chains, up))
  {
    ghost var r := chains[up.irq];
    assert r[0].next == r[Succ(0, |r|)] && r[Position(r, up)] == up;
    if i.head == up {
      i.head := up.next;
    }
  }

  /** Takes a port out of its ring and keeps the heads right. */
  method TakeOut(i: IrqInfo, up: Port, ghost nodes: map<nat, IrqInfo>, ghost chains: map<nat, seq<Port>>)
    requires Heads(nodes, chains) && AllCircular(chains) && ByLine(chains)
    requires up.irq in chains && up in chains[up.irq] && nodes[up.irq] == i && |chains[up.irq]| > 1
    requires forall irq :: irq in nodes ==> nodes[irq].irq == irq
    modifies i`head, chains[up.irq]`next, chains[up.irq]`prev
    ensures AllCircular(WithoutPort(chains, up)) && Heads(nodes, WithoutPort(chains, up))
  {
    MoveHead(i, up, nodes, chains);
    Unsplice(up, chains);
  }

  ghost predicate AllCircular(chains: map<nat, seq<Port>>)
    reads (set irq, k | irq in chains && 0 <= k < |chains[irq]| :: chains[irq][k])`next,
    (set irq, k | irq in chains && 0 <= k < |chains[irq]| :: chains[irq][k])`prev
  {
    forall irq :: irq in chains ==> Circular(chains[irq])
  }

  /** Rings of different lines share no port. */
  ghost predicate ByLine(chains: map<nat, seq<Port>>) {
    forall irq, k :: irq in chains && 0 <= k < |chains[irq]| ==> chains[irq][k].irq == irq
  }

  /** A new node is given a ring of one port. */
  method StartRing(i: IrqInfo, up: Port, ghost nodes: map<nat, IrqInfo>, ghost chains: map<nat, seq<Port>>)
    requires Heads(nodes, chains) && AllCircular(chains) && ByLine(chains)
    requires up.irq !in chains && i !in nodes.Values
    modifies i`head, up`next, up`prev
    ensures AllCircular(chains[up.irq := [up]]) && Heads(nodes[up.irq := i], chains[up.irq := [up]])
  {
    SelfLink(up, chains);
    i.head := up;
  }

  /** The node of a line whose last port goes loses its head. */
  method EndRing(i: IrqInfo, up: Port, ghost nodes: map<nat, IrqInfo>, ghost chains: map<nat, seq<Port>>)
    requires Heads(nodes, chains) && AllCircular(chains)
    requires up.irq in chains && |chains[up.irq]| == 1 && chains[up.irq][0] == up && nodes[up.irq] == i
    requires forall irq :: irq in nodes ==> nodes[irq].irq == irq
    modifies i`head
    ensures AllCircular(WithoutPort(chains, up)) && Heads(nodes - {up.irq}, WithoutPort(chains, up))
  {
    i.head := null;
  }

  /** `INIT_LIST_HEAD`: a ring of one. */
  method SelfLink(up: Port, ghost chains: map<nat, seq<Port>>)
    requires AllCircular(chains) && ByLine(chains) && up.irq !in chains
    modifies up`next, up`prev
    ensures AllCircular(chains[up.irq := [up]])
  {
    up.next, up.prev := up, up;
    forall irq | irq in chains
      ensures Circular(chains[irq])
    {
    }
  }

  /** The list surgery of linking behind a head; the other rings are not touched. */
  method Splice(head: Port, up: Port, ghost chains: map<nat, seq<Port>>)
    requires AllCircular(chains) && ByLine(chains) && up.irq in chains && chains[up.irq][0] == head
    requires up !in chains[up.irq]
    modifies up`next, up`prev, chains[up.irq]`next, chains[up.irq]`prev
    ensures AllCircular(WithPort(chains, up))
  {
    ghost var r := chains[up.irq];
    assert head.next == r[Succ(0, |r|)];
    ListAdd(up, head, r);
    forall irq | irq in chains && irq != up.irq
      ensures Circular(chains[irq])
    {
    }
  }

  /** The list surgery of unlinking; the other rings are not touched. */
  method Unsplice(up: Port, ghost chains: map<nat, seq<Port>>)
    requires AllCircular(chains) && ByLine(chains) && up.irq in chains && up in chains[up.irq] && |chains[up.irq]| > 1
    modifies chains[up.irq]`next, chains[up.irq]`prev
    ensures AllCircular(WithoutPort(chains, up))
  {
    ghost var r := chains[up.irq];
    ghost var k := Position(r, up);
    ghost var b := if k == 0 then |r| - 1 else k - 1;
    assert Succ(b, |r|) == k;
    assert up.next == r[Succ(k, |r|)] && up.prev == r[b];
    ListDel(up, r, k);
    forall irq | irq in chains && irq != up.irq
      ensures Circular(chains[irq])
    {
    }
  }

  // ---------- The interrupt handler

  /** The n calls before call c report no work. */
  predicate QuietRound(work: nat -> bool, c: int, n: nat) {
    n <= c && forall k :: c - n <= k < c ==> !work(k)
  }

  /** Exactly the last q of the first c calls are quiet. */
  predicate Streak(work: nat -> bool, c: nat, q: nat) {
    q <= c && QuietRound(work, c, q) && (q < c ==> work(c - q - 1))
  }

  lemma NextStreak(work: nat -> bool, c: nat, q: nat, n: nat)
    requires Streak(work, c, q) && q < n
    ensures Streak(work, c + 1, if work(c) then 0 else q + 1)
    ensures !QuietRound(work, c, n)
  {
    if n <= c {
      assert work(c - q - 1);
    }
  }

  /** Among the last n calls one went to the port, and it reported no work. */
  ghost predicate AskedLast(p: Port, work: nat -> bool, visited: seq<Port>, n: nat) {
    exists k :: 0 <= k < |visited| && |visited| - n <= k && visited[k] == p && !work(k)
  }

  predicate SomeWork(work: nat -> bool, c: nat) {
    exists k :: 0 <= k < c && work(k)
  }

  lemma MoreWork(work: nat -> bool, c: nat)
    ensures SomeWork(work, c + 1) <==> SomeWork(work, c) || work(c)
  {
    if SomeWork(work, c) {
      var k :| 0 <= k < c && work(k);
      assert work(k);
    }
  }

  /** `serial8250_interrupt`: serves the ring of a line until a whole round was quiet. work(k) is what
      the k-th handler call of this run reports. */
  method Interrupt(i: IrqInfo, work: nat -> bool, ghost r: seq<Port>)
    returns (handled: bool, tooMuch: bool, visited: seq<Port>)
    requires Circular(r) && i.head == r[0]
    ensures InRounds(r, visited)
    ensures handled <==> SomeWork(work, |visited|)
    ensures |r| <= |visited| <= 514 * |r|
    ensures tooMuch <==> |visited| == 514 * |r|
    ensures !tooMuch ==> QuietRound(work, |visited|, |r|)
    ensures forall c :: 0 <= c < |visited| ==> !QuietRound(work, c, |r|)
  {
    hide Circular, Streak, QuietRound, SomeWork, InRounds, Back;
    ghost var n := |r|;
    ghost var pos, base, quiet := 0, 0, 0;
    var end: Port? := null;
    var passCounter := 0;
    var l := i.head;
    handled, tooMuch, visited := false, false, [];
    StartStreak(r, work);
    while true
      invariant 0 <= pos < n && l == r[pos] && |visited| == base + pos
      invariant 0 <= passCounter <= PASS_LIMIT + 1 && base == n * passCounter
      invariant InRounds(r, visited)
      invariant handled <==> SomeWork(work, |visited|)
      invariant !tooMuch && quiet < n && Streak(work, |visited|, quiet)
      invariant end == if quiet == 0 then null else r[Back(pos, quiet, n)]
      invariant forall c :: 0 <= c < |visited| ==> !QuietRound(work, c, n)
      decreases PASS_LIMIT + 1 - passCounter, n - pos
    {
      NextStreak(work, |visited|, quiet, n);
      MoreWork(work, |visited|);
      NextCall(r, visited, base, pos, passCounter);
      BackStep(pos, quiet, n);
      RingStep(r, pos, if work(|visited|) then 0 else quiet + 1);
      var worked := work(|visited|);
      visited := visited + [l];
      if worked {
        handled := true;
        end := null;
      } else if end == null {
        end := l;
      }
      quiet := if worked then 0 else quiet + 1;
      l := l.next;
      pos := Succ(pos, n);
      base := if pos == 0 then base + n else base;
      if l == i.head {
        passCounter := passCounter + 1;
        if passCounter - 1 > PASS_LIMIT {
          tooMuch := true;
          break;
        }
      }
      if l == end {
        MulMonotone(n, passCounter, PASS_LIMIT + 1);
        break;
      }
    }
  }

  /** The calls so far go round the ring in order. */
  ghost predicate InRounds(r: seq<Port>, visited: seq<Port>) {
    r != [] && forall k :: 0 <= k < |visited| ==> visited[k] == r[k % |r|]
  }

  lemma NextCall(r: seq<Port>, visited: seq<Port>, base: nat, pos: nat, pass: nat)
    requires InRounds(r, visited) && pos < |r| && |visited| == base + pos && base == |r| * pass
    ensures InRounds(r, visited + [r[pos]])
    ensures base + |r| == |r| * (pass + 1)
  {
    ModUnique(base + pos, |r|, pass, pos);
  }

  lemma StartStreak(r: seq<Port>, work: nat -> bool)
    requires Circular(r)
    ensures InRounds(r, []) && |r| > 0 && Streak(work, 0, 0) && !SomeWork(work, 0)
  {
  }

  /** The place q steps before pos on a ring of n. */
  function Back(pos: nat, q: nat, n: nat): (b: nat)
    requires pos < n && q <= n
    ensures b < n && (b == pos <==> q == 0 || q == n)
  {
    if q <= pos then pos - q else pos - q + n
  }

  lemma BackStep(pos: nat, q: nat, n: nat)
    requires pos < n && q < n
    ensures Back(Succ(pos, n), q + 1, n) == Back(pos, q, n)
    ensures Back(pos, 0, n) == pos
  {
  }

  lemma RingStep(r: seq<Port>, k: nat, q: nat)
    requires Circular(r) && k < |r| && q <= |r|
    ensures r[k].next == r[Succ(k, |r|)]
    ensures r[0] == r[Succ(k, |r|)] <==> Succ(k, |r|) == 0
    ensures r[Back(Succ(k, |r|), q, |r|)] == r[Succ(k, |r|)] <==> q == 0 || q == |r|
  {
  }

  /** Any n calls in a row meet every port of the ring. */
  lemma RoundCovers(r: seq<Port>, visited: seq<Port>, c: nat, p: Port)
    requires p in r && |r| <= c <= |visited|
    requires InRounds(r, visited)
    ensures exists k :: c - |r| <= k < c && visited[k] == p
  {
    var n := |r|;
    var j := Position(r, p);
    var q, s := c / n, c % n;
    var k := if j < s then n * q + j else n * (q - 1) + j;
    ModUnique(k, n, if j < s then q else q - 1, j);
    assert visited[k] == p;
  }

  /** Any n calls in a row meet no port twice. */
  lemma RoundRepeatsNone(r: seq<Port>, visited: seq<Port>, k: nat, l: nat)
    requires Distinct(r) && k < l < |visited| && l - k < |r|
    requires InRounds(r, visited)
    ensures visited[k] != visited[l]
  {
    var n := |r|;
    if k % n == l % n {
      ModUnique(l - k, n, l / n - k / n, 0);
      ModUnique(l - k, n, 0, l - k);
    }
  }
}
