/** One interrupt line with several ports starting up and shutting down at once. A startup is three
    sections with gaps between them: the search of the hash, the list, and the request for the interrupt. */
module IrqRaces {
  import opened IrqChain

  /** Where a port stands: not linked; holding the line's node after the search; head of the list with its
      request pending; unlinked after a refusal with the node still to look at; linked. */
  datatype Phase = Off | Found | Asking | Dropping | On

  /** `node` says whether the line's node exists, `chain` is the list from its head. */
  datatype Line = Line(node: bool, chain: seq<nat>, phases: map<nat, Phase>, calls: seq<Call>)

  const IRQ: nat := 4
  const START := Line(false, [], map[], [])

  datatype Step =
    | Find(p: nat, memory: bool)
    | Enter(p: nat)
    | Answer(p: nat, granted: bool)
    | Drop(p: nat)
    | Unlink(p: nat)

  function PhaseOf(s: Line, p: nat): Phase {
    if p in s.phases then s.phases[p] else Off
  }

  function To(s: Line, p: nat, phase: Phase): Line {
    s.(phases := s.phases[p := phase])
  }

  function Remove(chain: seq<nat>, p: nat): (r: seq<nat>)
    ensures p !in chain ==> r == chain
  {
    if chain == [] then [] else if chain[0] == p then chain[1..] else [chain[0]] + Remove(chain[1..], p)
  }

  /** The section under the node's lock: behind the head, or as the head of an empty list, whose port then
      asks for the interrupt. */
  function AfterEnter(s: Line, p: nat): Line {
    if s.chain == [] then To(s.(chain := [p]), p, Asking)
    else To(s.(chain := [s.chain[0], p] + s.chain[1..]), p, On)
  }

  /** `serial_unlink_irq_chain`, which holds the hash mutex throughout: the last port frees the interrupt, and
      then the node. It is one step: only a startup that already has the node can come in between, and if
      the node is then freed the run is not a guarded one in any case. */
  function AfterUnlink(s: Line, p: nat): Line {
    var rest := Remove(s.chain, p);
    To(s.(chain := rest, node := s.node && rest != [],
          calls := if |s.chain| == 1 then s.calls + [FreeIrq(IRQ)] else s.calls), p, Off)
  }

  /** A step that does not fit where the port stands does nothing. */
  function Next(s: Line, step: Step): Line {
    match step
    case Find(p, memory) =>
      if PhaseOf(s, p).Off? && (s.node || memory) then To(s.(node := true), p, Found) else s
    case Enter(p) => if PhaseOf(s, p).Found? then AfterEnter(s, p) else s
    case Answer(p, granted) =>
      if !PhaseOf(s, p).Asking? then s
      else
        var t := s.(calls := s.calls + [RequestIrq(IRQ, granted)]);
        if granted then To(t, p, On) else To(t.(chain := Remove(s.chain, p)), p, Dropping)
    case Drop(p) => if PhaseOf(s, p).Dropping? then To(s.(node := s.node && s.chain != []), p, Off) else s
    case Unlink(p) => if PhaseOf(s, p).On? then AfterUnlink(s, p) else s
  }

  function Run(s: Line, run: seq<Step>): Line
    decreases |run|
  {
    if run == [] then s else Run(Next(s, run[0]), run[1..])
  }

  predicate HasHandler(s: Line) { IRQ in Handled(s.calls) }

  /** The port has a pointer to the node but is in no list. */
  predicate Holds(s: Line, p: nat) { PhaseOf(s, p).Found? || PhaseOf(s, p).Dropping? }

  // ---------- What can go wrong

  /** The node is there for all that point to it, and the linked ports have a handler or one of them is just
      asking for it. */
  ghost predicate Sound(s: Line) {
    && ((exists p :: Holds(s, p)) || s.chain != [] ==> s.node)
    && (s.chain != [] ==> HasHandler(s) || exists p :: PhaseOf(s, p).Asking?)
  }

  /** The node is freed while another port points to it. */
  ghost predicate FreesInUse(s: Line, step: Step) {
    && ((step.Drop? && PhaseOf(s, step.p).Dropping? && s.chain == [])
        || (step.Unlink? && PhaseOf(s, step.p).On? && s.chain == [step.p]))
    && exists q :: q != step.p && Holds(s, q)
  }

  /** The interrupt is refused after others have linked behind the port that asked. */
  predicate RefusedTooLate(s: Line, step: Step) {
    step.Answer? && !step.granted && PhaseOf(s, step.p).Asking? && s.chain != [step.p]
  }

  ghost predicate Guarded(s: Line, step: Step) { !FreesInUse(s, step) && !RefusedTooLate(s, step) }

  ghost predicate AllGuarded(s: Line, run: seq<Step>)
    decreases |run|
  {
    run == [] || (Guarded(s, run[0]) && AllGuarded(Next(s, run[0]), run[1..]))
  }

  ghost predicate AlwaysSound(s: Line, run: seq<Step>)
    decreases |run|
  {
    Sound(s) && (run == [] || AlwaysSound(Next(s, run[0]), run[1..]))
  }

  // ---------- What guarded steps keep

  ghost predicate NoRepeats(chain: seq<nat>) {
    forall i, j :: 0 <= i < j < |chain| ==> chain[i] != chain[j]
  }

  /** The list holds the linked ports and the one that asks, each once. Exactly while a port is linked and
      none asks there is a handler, and exactly while somebody points to it there is a node. */
  ghost predicate Inv(s: Line) {
    && Listed(s)
    && (s.node <==> s.chain != [] || exists p :: Holds(s, p))
    && Disciplined(s.calls)
    && (HasHandler(s) <==> s.chain != [] && forall p :: !PhaseOf(s, p).Asking?)
  }

  ghost predicate Listed(s: Line) {
    && NoRepeats(s.chain)
    && (forall p :: p in s.chain <==> PhaseOf(s, p).Asking? || PhaseOf(s, p).On?)
    && (forall p, q :: PhaseOf(s, p).Asking? && PhaseOf(s, q).Asking? ==> p == q)
  }

  lemma {:induction false} RemoveKeeps(chain: seq<nat>, p: nat)
    requires NoRepeats(chain)
    ensures var r := Remove(chain, p);
            && NoRepeats(r) && (forall q :: q in r <==> q in chain && q != p)
            && (p in chain ==> (r == [] <==> chain == [p]) && |r| == |chain| - 1)
  {
    if chain != [] && chain[0] != p {
      var rest := chain[1..];
      assert forall i, j :: 0 <= i < j < |rest| ==> rest[i] == chain[i + 1] && rest[j] == chain[j + 1];
      RemoveKeeps(rest, p);
      assert chain[0] !in rest;
    }
  }

  lemma FindKeepsInv(s: Line, p: nat, memory: bool)
    requires Inv(s)
    ensures Inv(Next(s, Find(p, memory)))
  {
    var t := Next(s, Find(p, memory));
    assert forall q :: q != p ==> PhaseOf(t, q) == PhaseOf(s, q);
    if t != s {
      assert Holds(t, p);
    }
  }

  lemma EnterKeepsInv(s: Line, p: nat)
    requires Inv(s)
    ensures Inv(Next(s, Enter(p)))
  {
    var t := Next(s, Enter(p));
    assert forall q :: q != p ==> PhaseOf(t, q) == PhaseOf(s, q);
    if PhaseOf(s, p).Found? {
      assert Holds(s, p) && s.node;
      assert p !in s.chain;
      if s.chain != [] {
        assert s.chain == [s.chain[0]] + s.chain[1..];
        assert t.chain[1] == p;
        assert forall q :: PhaseOf(t, q).Asking? == PhaseOf(s, q).Asking?;
      } else {
        assert PhaseOf(t, p).Asking?;
      }
    }
  }

  lemma AnswerKeepsInv(s: Line, p: nat, granted: bool)
    requires Inv(s) && Guarded(s, Answer(p, granted))
    ensures Inv(Next(s, Answer(p, granted)))
  {
    var t := Next(s, Answer(p, granted));
    assert forall q :: q != p ==> PhaseOf(t, q) == PhaseOf(s, q);
    if PhaseOf(s, p).Asking? {
      OneMoreCall(s.calls, RequestIrq(IRQ, granted));
      assert p in s.chain;
      if granted {
        assert forall q :: Holds(t, q) == Holds(s, q);
      } else {
        assert t.chain == [];
        assert Holds(t, p);
      }
    }
  }

  lemma DropKeepsInv(s: Line, p: nat)
    requires Inv(s) && Guarded(s, Drop(p))
    ensures Inv(Next(s, Drop(p)))
  {
    var t := Next(s, Drop(p));
    assert forall q :: q != p ==> PhaseOf(t, q) == PhaseOf(s, q);
    assert forall q :: q != p ==> Holds(t, q) == Holds(s, q);
  }

  lemma UnlinkKeepsInv(s: Line, p: nat)
    requires Inv(s) && Guarded(s, Unlink(p))
    ensures Inv(Next(s, Unlink(p)))
  {
    var t := Next(s, Unlink(p));
    assert forall q :: q != p ==> PhaseOf(t, q) == PhaseOf(s, q);
    if PhaseOf(s, p).On? {
      RemoveKeeps(s.chain, p);
      assert p in s.chain;
      assert forall q :: Holds(t, q) == Holds(s, q);
      if |s.chain| == 1 {
        assert s.chain == [p];
        assert forall q :: PhaseOf(s, q).Asking? ==> q in s.chain;
        OneMoreCall(s.calls, FreeIrq(IRQ));
      }
    }
  }

  lemma NextKeepsInv(s: Line, step: Step)
    requires Inv(s) && Guarded(s, step)
    ensures Inv(Next(s, step))
  {
    hide Inv, Next, Guarded;
    match step {
      case Find(p, memory) => FindKeepsInv(s, p, memory);
      case Enter(p) => EnterKeepsInv(s, p);
      case Answer(p, granted) => AnswerKeepsInv(s, p, granted);
      case Drop(p) => DropKeepsInv(s, p);
      case Unlink(p) => UnlinkKeepsInv(s, p);
    }
  }

  lemma InvIsSound(s: Line)
    requires Inv(s)
    ensures Sound(s)
  {
  }

  lemma UnguardedShows(s: Line, step: Step)
    requires Inv(s) && !Guarded(s, step)
    ensures !Sound(Next(s, step))
  {
    var t := Next(s, step);
    assert forall q :: q != step.p ==> PhaseOf(t, q) == PhaseOf(s, q);
    assert forall q :: q != step.p ==> Holds(t, q) == Holds(s, q);
    RemoveKeeps(s.chain, step.p);
    if RefusedTooLate(s, step) {
      OneMoreCall(s.calls, RequestIrq(IRQ, false));
      assert step.p in s.chain;
      assert forall q :: !PhaseOf(t, q).Asking?;
    }
  }

  /** However the sections of startups and shutdowns interleave: nobody points to a freed node, and no port is
      left linked without a handler, exactly if no node is freed while another port points to it and no
      interrupt is refused after another port has linked behind the one that asked. */
  lemma {:induction false} SoundIffGuarded(s: Line, run: seq<Step>)
    requires Inv(s)
    ensures AlwaysSound(s, run) <==> AllGuarded(s, run)
    ensures AllGuarded(s, run) ==> Inv(Run(s, run))
    decreases |run|
  {
    hide Inv, Sound, Guarded, Next;
    InvIsSound(s);
    if run != [] {
      if Guarded(s, run[0]) {
        NextKeepsInv(s, run[0]);
        SoundIffGuarded(Next(s, run[0]), run[1..]);
      } else {
        UnguardedShows(s, run[0]);
      }
    }
  }

  /** Between startups and shutdowns a guarded line is as it should be: a node and a handler exactly if some
      port is linked, the list exactly the linked ports, each once, and every request and free in its
      turn. */
  lemma QuietLine(s: Line, run: seq<Step>)
    requires Inv(s) && AllGuarded(s, run)
    requires forall p :: PhaseOf(Run(s, run), p).Off? || PhaseOf(Run(s, run), p).On?
    ensures var t := Run(s, run);
            && (t.node <==> exists p :: PhaseOf(t, p).On?) && (HasHandler(t) <==> exists p :: PhaseOf(t, p).On?)
            && NoRepeats(t.chain) && (forall p :: p in t.chain <==> PhaseOf(t, p).On?)
            && Disciplined(t.calls)
  {
    hide Run, AllGuarded, Disciplined, HasHandler;
    SoundIffGuarded(s, run);
    var t := Run(s, run);
    if t.chain != [] {
      assert t.chain[0] in t.chain;
    }
  }

  // ---------- Calls one at a time

  /** No other port is in the middle of a call. */
  ghost predicate Alone(s: Line, step: Step) {
    forall q :: q != step.p ==> PhaseOf(s, q).Off? || PhaseOf(s, q).On?
  }

  ghost predicate OneAtATime(s: Line, run: seq<Step>)
    decreases |run|
  {
    run == [] || (Alone(s, run[0]) && OneAtATime(Next(s, run[0]), run[1..]))
  }

  /** A port that asks is alone in the list. */
  ghost predicate AsksAlone(s: Line) {
    forall p: nat :: PhaseOf(s, p).Asking? ==> s.chain == [p]
  }

  lemma AloneIsGuarded(s: Line, step: Step)
    requires Inv(s) && AsksAlone(s) && Alone(s, step)
    ensures Guarded(s, step) && AsksAlone(Next(s, step))
  {
    var t := Next(s, step);
    assert forall q :: q != step.p ==> PhaseOf(t, q) == PhaseOf(s, q);
  }

  /** If no two calls overlap on a line, nothing goes wrong. */
  lemma {:induction false} OneAtATimeIsSound(s: Line, run: seq<Step>)
    requires Inv(s) && AsksAlone(s) && OneAtATime(s, run)
    ensures AllGuarded(s, run) && AlwaysSound(s, run) && Inv(Run(s, run))
    decreases |run|
  {
    hide Inv, AsksAlone, Alone, Guarded, Next, Sound;
    if run != [] {
      AloneIsGuarded(s, run[0]);
      NextKeepsInv(s, run[0]);
      OneAtATimeIsSound(Next(s, run[0]), run[1..]);
    }
    SoundIffGuarded(s, run);
  }

  lemma StartInv()
    ensures Inv(START) && AsksAlone(START)
  {
    assert forall p :: PhaseOf(START, p).Off?;
  }

  // ---------- A run in which it goes wrong

  /** Port 2 links behind port 1, whose request is then refused: port 2 is linked without a handler. When it
      shuts down it frees an interrupt that was never granted. */
  lemma RefusedBehind()
    ensures var run := [Find(1, true), Enter(1), Find(2, true), Enter(2), Answer(1, false), Drop(1)];
            var s := Run(START, run);
            && s.chain == [2] && PhaseOf(s, 2).On? && !HasHandler(s) && !AllGuarded(START, run)
            && Next(s, Unlink(2)).calls == [RequestIrq(IRQ, false), FreeIrq(IRQ)] && !Disciplined(Next(s, Unlink(2)).calls)
  {
    hide Run, AllGuarded, Next, Handled, Disciplined, FreesInUse, RefusedTooLate, PhaseOf;
    var s1, s2, s3, s4 := Startups();
    var s5, s6 := RefusalAndAfter(s4);
    Unfold(START, Find(1, true), [Enter(1), Find(2, true), Enter(2), Answer(1, false), Drop(1)]);
    Unfold(s1, Enter(1), [Find(2, true), Enter(2), Answer(1, false), Drop(1)]);
    Unfold(s2, Find(2, true), [Enter(2), Answer(1, false), Drop(1)]);
    Unfold(s3, Enter(2), [Answer(1, false), Drop(1)]);
    Unfold(s4, Answer(1, false), [Drop(1)]);
    Unfold(s5, Drop(1), []);
    assert [Drop(1)] + [] == [Drop(1)];
    assert [Answer(1, false)] + [Drop(1)] == [Answer(1, false), Drop(1)];
    assert [Enter(2)] + [Answer(1, false), Drop(1)] == [Enter(2), Answer(1, false), Drop(1)];
    assert [Find(2, true)] + [Enter(2), Answer(1, false), Drop(1)] == [Find(2, true), Enter(2), Answer(1, false), Drop(1)];
    assert [Enter(1)] + [Find(2, true), Enter(2), Answer(1, false), Drop(1)]
        == [Enter(1), Find(2, true), Enter(2), Answer(1, false), Drop(1)];
    assert [Find(1, true)] + [Enter(1), Find(2, true), Enter(2), Answer(1, false), Drop(1)]
        == [Find(1, true), Enter(1), Find(2, true), Enter(2), Answer(1, false), Drop(1)];
  }

  lemma Startups() returns (s1: Line, s2: Line, s3: Line, s4: Line)
    ensures Next(START, Find(1, true)) == s1 && Next(s1, Enter(1)) == s2
    ensures Next(s2, Find(2, true)) == s3 && Next(s3, Enter(2)) == s4
    ensures s4 == Line(true, [1, 2], map[1 := Asking, 2 := On], [])
  {
    s1 := Line(true, [], map[1 := Found], []);
    s2 := Line(true, [1], map[1 := Asking], []);
    s3 := Line(true, [1], map[1 := Asking, 2 := Found], []);
    s4 := Line(true, [1, 2], map[1 := Asking, 2 := On], []);
  }

  lemma RefusalAndAfter(s4: Line) returns (s5: Line, s6: Line)
    requires s4 == Line(true, [1, 2], map[1 := Asking, 2 := On], [])
    ensures Next(s4, Answer(1, false)) == s5 && RefusedTooLate(s4, Answer(1, false))
    ensures Next(s5, Drop(1)) == s6 && s6.chain == [2] && PhaseOf(s6, 2).On? && !HasHandler(s6)
    ensures var calls := Next(s6, Unlink(2)).calls; calls == [RequestIrq(IRQ, false), FreeIrq(IRQ)] && !Disciplined(calls)
  {
    var refused := RequestIrq(IRQ, false);
    s5 := Line(true, [2], map[1 := Dropping, 2 := On], [refused]);
    s6 := Line(true, [2], map[1 := Off, 2 := On], [refused]);
    assert [refused][..0] == [] && [refused, FreeIrq(IRQ)][..1] == [refused];
    assert Handled([]) == {} && Handled([refused]) == {};
  }

  /** Port 2 has found the node when port 1, the last one linked, shuts down and frees it. */
  lemma FreedBehind()
    ensures var run := [Find(1, true), Enter(1), Answer(1, true), Find(2, true), Unlink(1)];
            var s := Run(START, run);
            PhaseOf(s, 2).Found? && !s.node && !AllGuarded(START, run)
  {
    hide Run, AllGuarded, Next, PhaseOf, FreesInUse, RefusedTooLate;
    var s1, s2, s3, s4, s5 := LastOneLeaves();
    Unfold(START, Find(1, true), [Enter(1), Answer(1, true), Find(2, true), Unlink(1)]);
    Unfold(s1, Enter(1), [Answer(1, true), Find(2, true), Unlink(1)]);
    Unfold(s2, Answer(1, true), [Find(2, true), Unlink(1)]);
    Unfold(s3, Find(2, true), [Unlink(1)]);
    Unfold(s4, Unlink(1), []);
    assert [Unlink(1)] + [] == [Unlink(1)];
    assert [Find(2, true)] + [Unlink(1)] == [Find(2, true), Unlink(1)];
    assert [Answer(1, true)] + [Find(2, true), Unlink(1)] == [Answer(1, true), Find(2, true), Unlink(1)];
    assert [Enter(1)] + [Answer(1, true), Find(2, true), Unlink(1)] == [Enter(1), Answer(1, true), Find(2, true), Unlink(1)];
    assert [Find(1, true)] + [Enter(1), Answer(1, true), Find(2, true), Unlink(1)]
        == [Find(1, true), Enter(1), Answer(1, true), Find(2, true), Unlink(1)];
  }

  lemma LastOneLeaves() returns (s1: Line, s2: Line, s3: Line, s4: Line, s5: Line)
    ensures Next(START, Find(1, true)) == s1 && Next(s1, Enter(1)) == s2 && Next(s2, Answer(1, true)) == s3
    ensures Next(s3, Find(2, true)) == s4 && Next(s4, Unlink(1)) == s5
    ensures FreesInUse(s4, Unlink(1)) && PhaseOf(s5, 2).Found? && !s5.node
  {
    var granted := RequestIrq(IRQ, true);
    s1 := Line(true, [], map[1 := Found], []);
    s2 := Line(true, [1], map[1 := Asking], []);
    s3 := Line(true, [1], map[1 := On], [granted]);
    s4 := Line(true, [1], map[1 := On, 2 := Found], [granted]);
    s5 := Line(false, [], map[1 := Off, 2 := Found], [granted, FreeIrq(IRQ)]);
    assert Holds(s4, 2);
  }

  lemma Unfold(s: Line, step: Step, rest: seq<Step>)
    ensures Run(s, [step] + rest) == Run(Next(s, step), rest)
    ensures AllGuarded(s, [step] + rest) <==> Guarded(s, step) && AllGuarded(Next(s, step), rest)
    ensures Run(Next(s, step), []) == Next(s, step)
  {
    assert ([step] + rest)[1..] == rest;
  }
}
