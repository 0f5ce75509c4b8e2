/** The message queues of the two CAN drivers, as queues: what each system call, each interrupt and
    the controller itself do to them. */
module QueueSpec {
  import opened Latches
  import opened Rings
  import opened CanCodec

  /** What a driver does with a received frame when its queue is full. */
  datatype Mode = PeliCan | BasicCan

  /** The controller: transmit buffer released (TBS), pending transmit interrupt, data overrun, the
      frames in its receive FIFO, and the frames it was asked to transmit, oldest first. */
  datatype Chip = Chip(tbs: bool, ti: bool, doi: bool, fifo: seq<Frame>, sent: seq<Frame>)

  /** A `device_write` that has filled its slot and read the status register, and what it saw there: the
      transmit buffer released or not. */
  datatype Call = Idle | Writing(can: Frame, free: bool)

  datatype Can = Can(tx: seq<Frame>, rx: seq<Frame>, call: Call, chip: Chip)

  /** No lock is held and no interrupt disabled during a write, so it is two steps, between which the
      controller and the handler may come in. */
  datatype Step =
    | Begin(can: Frame, count: nat)
    | End
    | Read(count: nat)
    | Interrupt
    | TransmitDone
    | Arrive(can: Frame)
    | Overrun

  /** `send_message`: the transmission request locks the transmit buffer. */
  function Send(c: Chip, can: Frame): Chip { c.(sent := c.sent + [can], tbs := false) }

  function WriteResult(s: Can, count: nat): int {
    if count != SIZEOF_CAN_FRAME then -EINVAL else if |s.tx| == BUFFERSIZE then -EFBIG else count
  }

  function ReadResult(s: Can, count: nat): int {
    if count != SIZEOF_CAN_FRAME then -EINVAL else if s.rx == [] then 0 else count
  }

  /** `device_write` up to the status read. Callers take turns: while one is at it no other begins. */
  function AfterBegin(s: Can, can: Frame, count: nat): Can {
    if s.call.Writing? || WriteResult(s, count) < 0 then s else s.(call := Writing(can, s.chip.tbs))
  }

  /** The rest of it: the frame goes out or joins the queue, as the status read earlier said. */
  function AfterEnd(s: Can): Can {
    match s.call
    case Idle => s
    case Writing(can, free) =>
      if free then s.(call := Idle, chip := Send(s.chip, can)) else s.(call := Idle, tx := s.tx + [can])
  }

  /** A write that nothing interrupts. */
  function AfterWrite(s: Can, can: Frame, count: nat): Can { AfterEnd(AfterBegin(s, can, count)) }

  function AfterRead(s: Can, count: nat): Can {
    if ReadResult(s, count) <= 0 then s else s.(rx := s.rx[1..])
  }

  /** The transmit part of the handler. */
  function AfterTi(s: Can): Can {
    var t := s.(chip := s.chip.(ti := false));
    if s.chip.ti && s.tx != [] then t.(tx := s.tx[1..], chip := Send(t.chip, s.tx[0])) else t
  }

  /** The receive part. With a full queue the PeliCAN driver leaves the frame in the controller, the
      BasicCAN driver releases it unread; both return before they look at the overrun. */
  function AfterRi(s: Can, mode: Mode): Can {
    if s.chip.fifo == [] then s.(chip := s.chip.(doi := false))
    else if |s.rx| < BUFFERSIZE then
      s.(rx := s.rx + [s.chip.fifo[0]], chip := s.chip.(fifo := s.chip.fifo[1..], doi := false))
    else if mode.BasicCan? then s.(chip := s.chip.(fifo := s.chip.fifo[1..]))
    else s
  }

  function Next(s: Can, step: Step, mode: Mode): Can {
    match step
    case Begin(can, count) => AfterBegin(s, can, count)
    case End => AfterEnd(s)
    case Read(count) => AfterRead(s, count)
    case Interrupt => AfterRi(AfterTi(s), mode)
    case TransmitDone => if s.chip.tbs then s else s.(chip := s.chip.(tbs := true, ti := true))
    case Arrive(can) => s.(chip := s.chip.(fifo := s.chip.fifo + [can]))
    case Overrun => s.(chip := s.chip.(doi := true))
  }

  function Run(s: Can, run: seq<Step>, mode: Mode): Can
    decreases |run|
  {
    if run == [] then s else Run(Next(s, run[0], mode), run[1..], mode)
  }

  const START := Can([], [], Idle, Chip(true, false, false, [], []))

  // ---------- Transmitting

  /** The frame that a step accepts. */
  function Taken(s: Can, step: Step): seq<Frame> {
    if step.Begin? && s.call.Idle? && WriteResult(s, step.count) > 0 then [step.can] else []
  }

  /** The frames that `device_write` accepts, in order. */
  function Accepted(s: Can, run: seq<Step>, mode: Mode): seq<Frame>
    decreases |run|
  {
    if run == [] then [] else Taken(s, run[0]) + Accepted(Next(s, run[0], mode), run[1..], mode)
  }

  /** All frames not yet in the queue or sent: the one of the write in progress. */
  function InHand(s: Can): seq<Frame> {
    if s.call.Writing? then [s.call.can] else []
  }

  /** Frames sent and to be sent, in order. */
  function Outgoing(s: Can): seq<Frame> { s.chip.sent + s.tx + InHand(s) }

  /** The guard of a harmless write, which a caller can check beforehand: no transmit interrupt is
      pending, or the frame goes straight into a released buffer past an empty queue, or the queue is
      full and the frame refused. */
  predicate SafeWrite(s: Can) {
    !s.chip.ti || (s.tx == [] && s.chip.tbs) || |s.tx| == BUFFERSIZE
  }

  /** A step begins the write of a frame without that guard. */
  predicate Unguarded(s: Can, step: Step) {
    step.Begin? && step.count == SIZEOF_CAN_FRAME && s.call.Idle? && !SafeWrite(s)
  }

  /** A transmit interrupt meets an empty queue while a write is about to queue its frame. */
  predicate Misses(s: Can, step: Step) {
    step.Interrupt? && s.chip.ti && s.tx == [] && s.call.Writing? && !s.call.free
  }

  predicate SafeStep(s: Can, step: Step) {
    !Unguarded(s, step) && !Misses(s, step)
  }

  /** Every write of the run begins with its guard, and no interrupt misses its frame. */
  predicate Undisturbed(s: Can, run: seq<Step>, mode: Mode)
    decreases |run|
  {
    run == [] || (SafeStep(s, run[0]) && Undisturbed(Next(s, run[0], mode), run[1..], mode))
  }

  /** A waiting frame has a transmission or a transmit interrupt ahead of it, and the interrupt that will
      fetch it finds the transmit buffer released; the same will hold when the write in progress ends. */
  predicate TxInv(s: Can) {
    && (s.tx != [] ==> !s.chip.tbs || s.chip.ti)
    && (s.tx != [] && s.chip.ti ==> s.chip.tbs)
    && |s.tx| <= BUFFERSIZE && |s.rx| <= BUFFERSIZE
    && (s.call.Writing? ==> if s.call.free then s.tx == [] && s.chip.tbs
                            else |s.tx| < BUFFERSIZE && s.chip.tbs == s.chip.ti)
  }

  /** The transmission request of a step, if there is one, finds the transmit buffer released. */
  predicate SendsWhenFree(s: Can, step: Step, mode: Mode) {
    Next(s, step, mode).chip.sent != s.chip.sent ==> s.chip.tbs
  }

  /** A write requests the transmission of its frame while others wait. */
  predicate Overtakes(s: Can, step: Step, mode: Mode) {
    step.End? && s.tx != [] && Next(s, step, mode).chip.sent != s.chip.sent
  }

  /** Frames wait, and there is neither a transmission nor an interrupt that would fetch them. */
  predicate Stranded(s: Can) { s.tx != [] && s.chip.tbs && !s.chip.ti }

  lemma StepKeepsTxInv(s: Can, step: Step, mode: Mode)
    requires TxInv(s) && SafeStep(s, step)
    ensures TxInv(Next(s, step, mode)) && SendsWhenFree(s, step, mode) && !Overtakes(s, step, mode)
    ensures !Stranded(Next(s, step, mode))
  {
  }

  /** What a step transmits and what then waits is what waited and what the step accepted. */
  lemma StepInOrder(s: Can, step: Step, mode: Mode)
    requires TxInv(s) && SafeStep(s, step)
    ensures Outgoing(Next(s, step, mode)) == Outgoing(s) + Taken(s, step)
  {
    hide AfterEnd, AfterTi, AfterRi, TxInv, ReadResult, SafeStep;
    if step.End? {
      EndInOrder(s);
    } else if step.Interrupt? {
      ReceivingSendsNothing(AfterTi(s), mode);
      FetchInOrder(s);
    }
  }

  lemma EndInOrder(s: Can)
    requires TxInv(s)
    ensures Outgoing(AfterEnd(s)) == Outgoing(s)
  {
  }

  lemma FetchInOrder(s: Can)
    ensures Outgoing(AfterTi(s)) == Outgoing(s)
  {
    if s.chip.ti && s.tx != [] {
      assert s.tx == [s.tx[0]] + s.tx[1..];
      assert s.chip.sent + [s.tx[0]] + s.tx[1..] == s.chip.sent + s.tx;
    }
  }

  lemma ReceivingSendsNothing(s: Can, mode: Mode)
    ensures var t := AfterRi(s, mode); t.tx == s.tx && t.call == s.call && t.chip.(doi := s.chip.doi, fifo := s.chip.fifo) == s.chip
  {
  }

  /** Nothing is wrong at this point, nor would be if the write in progress now ended and an interrupt
      then came: no frame is stranded or overtaken, and a request finds the buffer released. */
  predicate Sane(s: Can, mode: Mode) {
    var t := AfterEnd(s);
    && !Stranded(s) && !Stranded(t) && !Overtakes(s, End, mode)
    && SendsWhenFree(s, End, mode) && SendsWhenFree(t, Interrupt, mode)
  }

  /** At no point of the run does a write overtake, or a transmission request find the buffer locked, or a
      frame have nothing ahead to fetch it. */
  predicate AlwaysClean(s: Can, run: seq<Step>, mode: Mode)
    decreases |run|
  {
    && Sane(s, mode)
    && (run == [] || (SendsWhenFree(s, run[0], mode) && AlwaysClean(Next(s, run[0], mode), run[1..], mode)))
  }

  lemma InvIsSane(s: Can, mode: Mode)
    requires TxInv(s)
    ensures Sane(s, mode)
  {
    StepKeepsTxInv(s, End, mode);
    assert AfterEnd(s).call.Idle?;
    StepKeepsTxInv(AfterEnd(s), Interrupt, mode);
  }

  /** An unsafe step shows as soon as the write ends. */
  lemma UnsafeStepShows(s: Can, step: Step, mode: Mode)
    requires TxInv(s) && !SafeStep(s, step)
    ensures !Sane(Next(s, step, mode), mode)
  {
  }

  /** Exactly the undisturbed runs are clean throughout. */
  lemma {:induction false} CleanIffUndisturbed(s: Can, run: seq<Step>, mode: Mode)
    requires TxInv(s)
    ensures AlwaysClean(s, run, mode) <==> Undisturbed(s, run, mode)
    decreases |run|
  {
    InvIsSane(s, mode);
    if run != [] {
      if SafeStep(s, run[0]) {
        StepKeepsTxInv(s, run[0], mode);
        CleanIffUndisturbed(Next(s, run[0], mode), run[1..], mode);
      } else {
        UnsafeStepShows(s, run[0], mode);
      }
    }
  }

  /** In an undisturbed run frames leave in the order in which they were accepted, each from a buffer
      of its own, and no accepted frame gets lost; a non-empty queue then means that the transmit buffer
      is locked, unless the interrupt is just pending. */
  lemma {:induction false} FramesLeaveInOrder(s: Can, run: seq<Step>, mode: Mode)
    requires TxInv(s) && Undisturbed(s, run, mode)
    ensures var t := Run(s, run, mode);
            TxInv(t) && Outgoing(t) == Outgoing(s) + Accepted(s, run, mode)
    ensures AlwaysClean(s, run, mode)
    decreases |run|
  {
    hide Next, TxInv, Outgoing, Taken, SafeStep, AlwaysClean;
    CleanIffUndisturbed(s, run, mode);
    if run != [] {
      InOrderStep(s, run, mode);
      FramesLeaveInOrder(Next(s, run[0], mode), run[1..], mode);
    }
  }

  lemma InOrderStep(s: Can, run: seq<Step>, mode: Mode)
    requires TxInv(s) && run != [] && Undisturbed(s, run, mode)
    ensures var mid := Next(s, run[0], mode);
            && TxInv(mid) && Undisturbed(mid, run[1..], mode) && Run(s, run, mode) == Run(mid, run[1..], mode)
            && Outgoing(mid) == Outgoing(s) + Taken(s, run[0])
            && Accepted(s, run, mode) == Taken(s, run[0]) + Accepted(mid, run[1..], mode)
  {
    hide Next, TxInv, WriteResult, SafeStep, Outgoing, Taken;
    StepKeepsTxInv(s, run[0], mode);
    StepInOrder(s, run[0], mode);
  }

  /** A stranded frame stays where it is until somebody writes another, however often the controller
      interrupts, and that other frame goes first. */
  lemma {:induction false} StrandedStays(s: Can, run: seq<Step>, mode: Mode)
    requires Stranded(s) && s.call.Idle? && forall i :: 0 <= i < |run| ==> !run[i].Begin?
    ensures var t := Run(s, run, mode); Stranded(t) && t.call.Idle? && t.tx == s.tx && t.chip.sent == s.chip.sent
    ensures |s.tx| < BUFFERSIZE ==> forall can :: Overtakes(AfterBegin(Run(s, run, mode), can, SIZEOF_CAN_FRAME), End, mode)
    decreases |run|
  {
    if run != [] {
      StrandedStays(Next(s, run[0], mode), run[1..], mode);
    }
  }

  // ---------- Between the status read and the end of a write

  /** No interrupt of the run misses a frame. */
  predicate NeverMisses(s: Can, run: seq<Step>, mode: Mode)
    decreases |run|
  {
    run == [] || (!Misses(s, run[0]) && NeverMisses(Next(s, run[0], mode), run[1..], mode))
  }

  /** Whatever comes between the two halves of a guarded write: what the first half set up holds after
      the second exactly if no transmit interrupt met an empty queue while the frame was to be queued. */
  lemma WindowIff(s: Can, can: Frame, window: seq<Step>, mode: Mode)
    requires TxInv(s) && s.call.Idle? && SafeWrite(s) && |s.tx| < BUFFERSIZE
    requires forall i :: 0 <= i < |window| ==> !window[i].End?
    ensures var u := AfterBegin(s, can, SIZEOF_CAN_FRAME); var t := AfterEnd(Run(u, window, mode));
            && (TxInv(t) <==> NeverMisses(u, window, mode))
            && (Stranded(t) <==> !NeverMisses(u, window, mode))
  {
    StepKeepsTxInv(s, Begin(can, SIZEOF_CAN_FRAME), mode);
    WindowRun(AfterBegin(s, can, SIZEOF_CAN_FRAME), window, mode);
  }

  /** The frame in hand is to be queued, and nothing is left that could fetch it. */
  predicate Missed(s: Can) {
    s.call.Writing? && !s.call.free && s.tx == [] && s.chip.tbs && !s.chip.ti
  }

  lemma {:induction false} WindowRun(u: Can, window: seq<Step>, mode: Mode)
    requires TxInv(u) && u.call.Writing? && forall i :: 0 <= i < |window| ==> !window[i].End?
    ensures var v := Run(u, window, mode); var t := AfterEnd(v);
            && (TxInv(t) <==> NeverMisses(u, window, mode)) && (Stranded(t) <==> !NeverMisses(u, window, mode))
    decreases |window|
  {
    if window == [] {
      StepKeepsTxInv(u, End, mode);
    } else if Misses(u, window[0]) {
      MissedStays(Next(u, window[0], mode), window[1..], mode);
    } else {
      StepKeepsTxInv(u, window[0], mode);
      WindowRun(Next(u, window[0], mode), window[1..], mode);
    }
  }

  lemma {:induction false} MissedStays(u: Can, window: seq<Step>, mode: Mode)
    requires Missed(u) && forall i :: 0 <= i < |window| ==> !window[i].End?
    ensures Missed(Run(u, window, mode))
    decreases |window|
  {
    if window != [] {
      MissedStays(Next(u, window[0], mode), window[1..], mode);
    }
  }

  /** The end of a transmission and its interrupt handler taken as one. */
  predicate Paired(run: seq<Step>) {
    run == [] ||
    if run[0].TransmitDone? then |run| > 1 && run[1].Interrupt? && Paired(run[2..]) else Paired(run[1..])
  }

  /** If every completion is handled at once, the guard of a write always holds, and the one thing that can
      go wrong is that an interrupt misses the frame of the write it interrupts. */
  lemma {:induction false} PairedIff(s: Can, run: seq<Step>, mode: Mode)
    requires TxInv(s) && !s.chip.ti && Paired(run)
    ensures Undisturbed(s, run, mode) <==> NeverMisses(s, run, mode)
    ensures NeverMisses(s, run, mode) ==> var t := Run(s, run, mode); !t.chip.ti && (t.tx != [] ==> !t.chip.tbs)
    decreases |run|
  {
    hide Next, TxInv, SafeStep, Misses;
    if run == [] {
      QuietMeansLocked(s);
    } else if run[0].TransmitDone? {
      var t := Next(s, run[0], mode);
      PairOfSteps(s, mode);
      assert run[1..][0] == run[1] && run[1..][1..] == run[2..];
      if !Misses(t, run[1]) {
        PairedIff(Next(t, run[1], mode), run[2..], mode);
      }
    } else {
      QuietStep(s, run[0], mode);
      PairedIff(Next(s, run[0], mode), run[1..], mode);
    }
  }

  lemma QuietMeansLocked(s: Can)
    requires TxInv(s) && !s.chip.ti
    ensures s.tx != [] ==> !s.chip.tbs
  {
  }

  lemma QuietStep(s: Can, step: Step, mode: Mode)
    requires TxInv(s) && !s.chip.ti && !step.TransmitDone?
    ensures SafeStep(s, step) && !Misses(s, step)
    ensures var t := Next(s, step, mode); TxInv(t) && !t.chip.ti
  {
    StepKeepsTxInv(s, step, mode);
  }

  lemma PairOfSteps(s: Can, mode: Mode)
    requires TxInv(s) && !s.chip.ti
    ensures SafeStep(s, TransmitDone) && !Misses(s, TransmitDone)
    ensures var t := Next(s, TransmitDone, mode);
            && (SafeStep(t, Interrupt) <==> !Misses(t, Interrupt))
            && (!Misses(t, Interrupt) ==> var u := Next(t, Interrupt, mode); TxInv(u) && !u.chip.ti)
  {
    var t := Next(s, TransmitDone, mode);
    StepKeepsTxInv(s, TransmitDone, mode);
    if !Misses(t, Interrupt) {
      StepKeepsTxInv(t, Interrupt, mode);
    }
  }

  /** Every write runs to its end undivided. */
  predicate Whole(run: seq<Step>) {
    run == [] ||
    if run[0].Begin? then |run| > 1 && run[1].End? && Whole(run[2..]) else Whole(run[1..])
  }

  /** Undivided writes can lose no frame to an interrupt; with completions handled at once as well nothing
      at all goes wrong. */
  lemma {:induction false} WholeNeverMisses(s: Can, run: seq<Step>, mode: Mode)
    requires s.call.Idle? && Whole(run)
    ensures NeverMisses(s, run, mode) && Run(s, run, mode).call.Idle?
    decreases |run|
  {
    if run != [] {
      var t := Next(s, run[0], mode);
      if run[0].Begin? {
        assert run[1..][1..] == run[2..];
        WholeNeverMisses(Next(t, run[1], mode), run[2..], mode);
      } else {
        WholeNeverMisses(t, run[1..], mode);
      }
    }
  }

  lemma PairedAndWhole(s: Can, run: seq<Step>, mode: Mode)
    requires TxInv(s) && !s.chip.ti && s.call.Idle? && Paired(run) && Whole(run)
    ensures Undisturbed(s, run, mode) && AlwaysClean(s, run, mode)
    ensures var t := Run(s, run, mode); t.tx != [] ==> !t.chip.tbs
  {
    hide Paired, Whole, Undisturbed, AlwaysClean, NeverMisses, Run, TxInv;
    WholeNeverMisses(s, run, mode);
    PairedIff(s, run, mode);
    CleanIffUndisturbed(s, run, mode);
  }

  // ---------- Writes at one go

  /** The order of requests and queue is kept by a write that nothing interrupts, whatever the frame,
      exactly if the queue is empty or the transmit buffer is locked (or the queue is full, and the frame
      refused). */
  lemma WriteInOrderIff(s: Can)
    requires s.call.Idle? && |s.tx| <= BUFFERSIZE
    ensures (forall can :: InOrder(s, can)) <==> s.tx == [] || !s.chip.tbs || |s.tx| == BUFFERSIZE
  {
    if s.tx != [] && s.chip.tbs && |s.tx| < BUFFERSIZE {
      var other := Frame(s.tx[0].id, s.tx[0].dlc + 1, s.tx[0].data);
      var t := AfterWrite(s, other, SIZEOF_CAN_FRAME);
      var k := |s.chip.sent|;
      assert (t.chip.sent + t.tx)[k] == other;
      assert (s.chip.sent + s.tx + [other])[k] == s.tx[0];
      assert !InOrder(s, other);
    } else {
      forall can
        ensures InOrder(s, can)
      {
      }
    }
  }

  predicate InOrder(s: Can, can: Frame) {
    var t := AfterWrite(s, can, SIZEOF_CAN_FRAME);
    t.chip.sent + t.tx == s.chip.sent + s.tx + (if WriteResult(s, SIZEOF_CAN_FRAME) > 0 then [can] else [])
  }

  /** Such a write is safe exactly if, whatever the frame, it keeps the order and an interrupt right after
      it finds a released buffer for what it sends. */
  lemma SafeWriteIff(s: Can, mode: Mode)
    requires TxInv(s) && s.call.Idle?
    ensures SafeWrite(s) <==>
      forall can :: InOrder(s, can) && SendsWhenFree(AfterWrite(s, can, SIZEOF_CAN_FRAME), Interrupt, mode)
  {
    hide Next, AfterWrite, AfterBegin, AfterEnd;
    WriteInOrderIff(s);
    forall can
      ensures SafeWrite(s) ==> SendsWhenFree(AfterWrite(s, can, SIZEOF_CAN_FRAME), Interrupt, mode)
      ensures !SafeWrite(s) && s.tx == [] ==> !SendsWhenFree(AfterWrite(s, can, SIZEOF_CAN_FRAME), Interrupt, mode)
    {
      InterruptAfterWrite(s, can, mode);
    }
    assert !SendsWhenFree(AfterWrite(s, Frame(0, 0, NO_DATA), SIZEOF_CAN_FRAME), Interrupt, mode) || SafeWrite(s) || s.tx != [];
  }

  lemma InterruptAfterWrite(s: Can, can: Frame, mode: Mode)
    requires TxInv(s) && s.call.Idle?
    ensures var t := AfterWrite(s, can, SIZEOF_CAN_FRAME);
            && (SafeWrite(s) ==> SendsWhenFree(t, Interrupt, mode))
            && (!SafeWrite(s) && s.tx == [] ==> !SendsWhenFree(t, Interrupt, mode))
  {
  }

  // ---------- Runs in which something goes wrong

  /** An undivided write of a frame. */
  function Put(can: Frame): seq<Step> { [Begin(can, SIZEOF_CAN_FRAME), End] }

  /** The stranding run meets the guard at every write, and every completion is handled at once. But the
      transmission of a ends, with its interrupt, after the write of b has seen the transmit buffer locked.
      b is queued with nothing ahead to fetch it, and c overtakes it. */
  lemma StrandingRun(a: Frame, b: Frame, c: Frame, mode: Mode)
    ensures var late := Put(a) + [Begin(b, SIZEOF_CAN_FRAME), TransmitDone, Interrupt, End];
            var s, t := Run(START, late, mode), Run(START, late + Put(c), mode);
            && Paired(late + Put(c)) && Accepted(START, late + Put(c), mode) == [a, b, c]
            && Stranded(s) && SafeWrite(s) && s.tx == [b] && !TxInv(s)
            && t.chip.sent == [a, c] && t.tx == [b]
  {
    hide Run, Accepted, Undisturbed, AfterRi;
    var late := [Begin(b, SIZEOF_CAN_FRAME), TransmitDone, Interrupt, End];
    PutRun(START, a, mode);
    var s1 := AfterWrite(START, a, SIZEOF_CAN_FRAME);
    LateInterrupt(s1, b, mode);
    var s2 := Run(s1, late, mode);
    PutRun(s2, c, mode);
    Join(START, Put(a), late, mode);
    Join(START, Put(a) + late, Put(c), mode);
    assert Put(a) + late + Put(c) == [Begin(a, SIZEOF_CAN_FRAME), End, Begin(b, SIZEOF_CAN_FRAME), TransmitDone, Interrupt, End,
                                      Begin(c, SIZEOF_CAN_FRAME), End];
    StrandingIsPaired(a, b, c);
  }

  lemma StrandingIsPaired(a: Frame, b: Frame, c: Frame)
    ensures Paired([Begin(a, SIZEOF_CAN_FRAME), End, Begin(b, SIZEOF_CAN_FRAME), TransmitDone, Interrupt, End,
                    Begin(c, SIZEOF_CAN_FRAME), End])
  {
    hide Paired;
    assert Put(c) + [] == Put(c);
    NoPairs([Begin(c, SIZEOF_CAN_FRAME), End], []);
    NoPairs([End], Put(c));
    OnePair([End] + Put(c));
    NoPairs([Begin(a, SIZEOF_CAN_FRAME), End, Begin(b, SIZEOF_CAN_FRAME)], [TransmitDone, Interrupt] + ([End] + Put(c)));
    assert [Begin(a, SIZEOF_CAN_FRAME), End, Begin(b, SIZEOF_CAN_FRAME)] + ([TransmitDone, Interrupt] + ([End] + Put(c)))
        == [Begin(a, SIZEOF_CAN_FRAME), End, Begin(b, SIZEOF_CAN_FRAME), TransmitDone, Interrupt, End, Begin(c, SIZEOF_CAN_FRAME), End];
  }

  lemma {:induction false} NoPairs(run: seq<Step>, rest: seq<Step>)
    requires (rest == [] || Paired(rest)) && forall i :: 0 <= i < |run| ==> !run[i].TransmitDone?
    ensures Paired(run + rest)
    decreases |run|
  {
    if run == [] {
      assert run + rest == rest;
    } else {
      assert (run + rest)[1..] == run[1..] + rest;
      NoPairs(run[1..], rest);
    }
  }

  lemma OnePair(rest: seq<Step>)
    requires Paired(rest)
    ensures Paired([TransmitDone, Interrupt] + rest)
  {
    assert ([TransmitDone, Interrupt] + rest)[2..] == rest;
  }

  /** The completion and its interrupt in the middle of a write. */
  lemma LateInterrupt(s: Can, b: Frame, mode: Mode)
    requires s.call.Idle? && s.tx == [] && !s.chip.tbs
    ensures var late := [Begin(b, SIZEOF_CAN_FRAME), TransmitDone, Interrupt, End]; var t := Run(s, late, mode);
            && t.tx == [b] && t.chip.tbs && !t.chip.ti && t.call.Idle? && t.chip.sent == s.chip.sent
            && Accepted(s, late, mode) == [b]
  {
    hide Run, Accepted, Undisturbed, AfterRi;
    var s1 := Next(s, Begin(b, SIZEOF_CAN_FRAME), mode);
    var s2 := Next(s1, TransmitDone, mode);
    var s3 := Next(s2, Interrupt, mode);
    ReceivingSendsNothing(AfterTi(s2), mode);
    Unfold(s, Begin(b, SIZEOF_CAN_FRAME), [TransmitDone, Interrupt, End], mode);
    Unfold(s1, TransmitDone, [Interrupt, End], mode);
    Unfold(s2, Interrupt, [End], mode);
    Single(s3, End, mode);
    assert [Begin(b, SIZEOF_CAN_FRAME)] + [TransmitDone, Interrupt, End] == [Begin(b, SIZEOF_CAN_FRAME), TransmitDone, Interrupt, End];
    assert [TransmitDone] + [Interrupt, End] == [TransmitDone, Interrupt, End];
    assert [Interrupt] + [End] == [Interrupt, End];
  }

  /** The overtaking run: frame b waits, the transmission of a ends, c is written before the interrupt is
      handled. Then c overtakes b, and b is put into the transmit buffer while c still occupies it. */
  lemma OvertakingRun(a: Frame, b: Frame, c: Frame, mode: Mode)
    ensures var run := Put(a) + Put(b) + [TransmitDone] + Put(c);
            var s := Run(START, run, mode);
            && Accepted(START, run, mode) == [a, b, c] && !Undisturbed(START, run, mode)
            && s.chip.sent + s.tx == [a, c, b] && !s.chip.tbs
            && !SendsWhenFree(s, Interrupt, mode)
  {
    hide Run, Accepted, Undisturbed, AfterRi;
    var s1 := AfterWrite(START, a, SIZEOF_CAN_FRAME);
    var s2 := AfterWrite(s1, b, SIZEOF_CAN_FRAME);
    var s3 := Next(s2, TransmitDone, mode);
    PutRun(START, a, mode);
    PutRun(s1, b, mode);
    Single(s2, TransmitDone, mode);
    PutRun(s3, c, mode);
    FourPieces(START, Put(a), Put(b), [TransmitDone], Put(c), mode);
    var s4 := AfterWrite(s3, c, SIZEOF_CAN_FRAME);
    assert s4.chip.sent == [a, c] && s4.tx == [b];
    ReceivingSendsNothing(AfterTi(s4), mode);
  }

  /** The clobbering run keeps the order of requests at every write: the transmission of a ends, b goes
      straight out and c is queued, both before the interrupt is handled. The interrupt then puts c into
      the transmit buffer while b still occupies it. */
  lemma ClobberingRun(a: Frame, b: Frame, c: Frame, mode: Mode)
    ensures var run := Put(a) + [TransmitDone] + Put(b) + Put(c);
            var s := Run(START, run, mode);
            && Accepted(START, run, mode) == [a, b, c] && !Undisturbed(START, run, mode)
            && Next(s, Interrupt, mode).chip.sent == [a, b, c]
            && !SendsWhenFree(s, Interrupt, mode)
  {
    hide Run, Accepted, Undisturbed, AfterRi;
    var s1 := AfterWrite(START, a, SIZEOF_CAN_FRAME);
    var s2 := Next(s1, TransmitDone, mode);
    var s3 := AfterWrite(s2, b, SIZEOF_CAN_FRAME);
    PutRun(START, a, mode);
    Single(s1, TransmitDone, mode);
    PutRun(s2, b, mode);
    PutRun(s3, c, mode);
    FourPieces(START, Put(a), [TransmitDone], Put(b), Put(c), mode);
    var s4 := AfterWrite(s3, c, SIZEOF_CAN_FRAME);
    assert s4.chip.sent == [a, b] && s4.tx == [c];
    ReceivingSendsNothing(AfterTi(s4), mode);
  }

  /** A run of two pieces, seen by all that is defined along runs. */
  lemma {:induction false} Join(s: Can, run: seq<Step>, more: seq<Step>, mode: Mode)
    ensures var mid := Run(s, run, mode);
            && Run(s, run + more, mode) == Run(mid, more, mode)
            && Accepted(s, run + more, mode) == Accepted(s, run, mode) + Accepted(mid, more, mode)
            && (Undisturbed(s, run + more, mode) <==> Undisturbed(s, run, mode) && Undisturbed(mid, more, mode))
    decreases |run|
  {
    hide Next, Taken, SafeStep;
    if run == [] {
      assert run + more == more;
    } else {
      assert (run + more)[1..] == run[1..] + more;
      Join(Next(s, run[0], mode), run[1..], more, mode);
    }
  }

  lemma FourPieces(s: Can, w1: seq<Step>, w2: seq<Step>, w3: seq<Step>, w4: seq<Step>, mode: Mode)
    ensures var s1 := Run(s, w1, mode); var s2 := Run(s1, w2, mode); var s3 := Run(s2, w3, mode);
            var run := w1 + w2 + w3 + w4;
            && Run(s, run, mode) == Run(s3, w4, mode)
            && Accepted(s, run, mode) == Accepted(s, w1, mode) + Accepted(s1, w2, mode) + Accepted(s2, w3, mode) + Accepted(s3, w4, mode)
            && (Undisturbed(s, run, mode) ==> Undisturbed(s1, w2, mode) && Undisturbed(s2, w3, mode) && Undisturbed(s3, w4, mode))
  {
    hide Run, Accepted, Undisturbed;
    Join(s, w1, w2, mode);
    Join(s, w1 + w2, w3, mode);
    Join(s, w1 + w2 + w3, w4, mode);
  }

  /** The first step of a run. */
  lemma Unfold(s: Can, step: Step, rest: seq<Step>, mode: Mode)
    ensures Run(s, [step] + rest, mode) == Run(Next(s, step, mode), rest, mode)
    ensures Accepted(s, [step] + rest, mode) == Taken(s, step) + Accepted(Next(s, step, mode), rest, mode)
    ensures Undisturbed(s, [step] + rest, mode) <==> SafeStep(s, step) && Undisturbed(Next(s, step, mode), rest, mode)
  {
    assert ([step] + rest)[1..] == rest;
  }

  lemma Single(s: Can, step: Step, mode: Mode)
    ensures Run(s, [step], mode) == Next(s, step, mode) && Accepted(s, [step], mode) == Taken(s, step)
    ensures Undisturbed(s, [step], mode) <==> SafeStep(s, step)
  {
    assert [step] + [] == [step];
    Unfold(s, step, [], mode);
  }

  lemma PutRun(s: Can, can: Frame, mode: Mode)
    requires s.call.Idle?
    ensures Run(s, Put(can), mode) == AfterWrite(s, can, SIZEOF_CAN_FRAME)
    ensures Accepted(s, Put(can), mode) == Taken(s, Begin(can, SIZEOF_CAN_FRAME))
    ensures Undisturbed(s, Put(can), mode) ==> SafeWrite(s)
  {
    hide Run, Accepted, Undisturbed;
    assert [Begin(can, SIZEOF_CAN_FRAME)] + [End] == Put(can);
    Unfold(s, Begin(can, SIZEOF_CAN_FRAME), [End], mode);
    Single(AfterBegin(s, can, SIZEOF_CAN_FRAME), End, mode);
  }

  // ---------- Emptying the queue

  /** Each end of a transmission with its interrupt fetches the next frame; so many rounds empty the
      queue, in order, also in the middle of a write. */
  lemma {:induction false} QueueDrains(s: Can, mode: Mode)
    requires TxInv(s) && !s.chip.ti
    ensures var t := Run(s, Rounds(|s.tx|), mode); t.tx == [] && t.chip.sent == s.chip.sent + s.tx
    decreases |s.tx|
  {
    if s.tx != [] {
      hide Run, Accepted, Undisturbed, Next, TxInv, Rounds, WriteResult, Taken, SafeStep;
      RoundsFirst(|s.tx|);
      var t := Next(s, TransmitDone, mode);
      var u := Next(t, Interrupt, mode);
      OneRound(s, mode);
      var rest := Rounds(|s.tx| - 1);
      Unfold(s, TransmitDone, [Interrupt] + rest, mode);
      Unfold(t, Interrupt, rest, mode);
      QueueDrains(u, mode);
      FirstThenRest(s.chip.sent, s.tx);
    } else {
      assert Run(s, [], mode) == s && s.chip.sent + [] == s.chip.sent;
    }
  }

  lemma FirstThenRest(sent: seq<Frame>, tx: seq<Frame>)
    requires tx != []
    ensures sent + [tx[0]] + tx[1..] == sent + tx
  {
  }

  function Rounds(n: nat): seq<Step> {
    if n == 0 then [] else [TransmitDone, Interrupt] + Rounds(n - 1)
  }

  lemma RoundsFirst(n: nat)
    requires n > 0
    ensures Rounds(n) == [TransmitDone] + ([Interrupt] + Rounds(n - 1))
  {
  }

  lemma OneRound(s: Can, mode: Mode)
    requires TxInv(s) && !s.chip.ti && s.tx != []
    ensures var u := Next(Next(s, TransmitDone, mode), Interrupt, mode);
            TxInv(u) && !u.chip.ti && u.tx == s.tx[1..] && u.chip.sent == s.chip.sent + [s.tx[0]]
  {
  }

  // ---------- What the calls return

  /** In numbers: 16 bytes or an error of -22; six places in each queue; a full one answers -27, an empty one
      0. */
  lemma Results(s: Can, count: nat)
    ensures WriteResult(s, count) == (if count != 16 then -22 else if |s.tx| == 6 then -27 else 16)
    ensures ReadResult(s, count) == (if count != 16 then -22 else if |s.rx| == 0 then 0 else 16)
    ensures count == 16 ==> (WriteResult(s, count) > 0 <==> |s.tx| != 6)
  {
  }

  // ---------- Overruns

  ghost function At(s: Can, run: seq<Step>, mode: Mode, i: nat): Can
    requires i <= |run|
  {
    Run(s, run[..i], mode)
  }

  /** An interrupt that gets as far as the overrun: there is nothing to receive, or room for it. */
  predicate ServesOverrun(s: Can, step: Step) {
    step.Interrupt? && (s.chip.fifo == [] || |s.rx| < 6)
  }

  ghost predicate OverrunAt(run: seq<Step>, i: nat)
    requires i < |run|
  {
    run[i].Overrun?
  }

  ghost predicate ServedAt(s: Can, run: seq<Step>, mode: Mode, i: nat)
    requires i < |run|
  {
    ServesOverrun(At(s, run, mode, i), run[i])
  }

  ghost predicate OverrunSince(s: Can, run: seq<Step>, mode: Mode, i: nat) {
    i < |run| && OverrunAt(run, i) && forall k :: i < k < |run| ==> !ServedAt(s, run, mode, k)
  }

  /** Over every run: a data overrun is pending exactly if one came and no interrupt since then found its
      receive queue with room, or nothing to receive. */
  lemma OverrunIff(s: Can, run: seq<Step>, mode: Mode)
    requires !s.chip.doi
    ensures Run(s, run, mode).chip.doi <==> exists i :: OverrunSince(s, run, mode, i)
  {
    hide Run, Next;
    var n := |run|;
    var flag := seq(n + 1, i requires 0 <= i <= n => At(s, run, mode, i).chip.doi);
    var up := seq(n, i requires 0 <= i < n => OverrunAt(run, i));
    var down := seq(n, i requires 0 <= i < n => ServedAt(s, run, mode, i));
    forall i | 0 <= i < n
      ensures flag[i + 1] <==> up[i] || (flag[i] && !down[i])
    {
      AtNext(s, run, mode, i);
      OverrunStep(At(s, run, mode, i), run[i], mode);
    }
    AtEnds(s, run, mode);
    SetIff(flag, up, down);
    assert forall i :: 0 <= i < n ==> up[i] == OverrunAt(run, i);
    assert forall i :: 0 <= i < n ==> down[i] == ServedAt(s, run, mode, i);
    forall i: nat | i < n
      ensures SetSince(up, down, i) <==> OverrunSince(s, run, mode, i)
    {
    }
  }

  lemma OverrunStep(s: Can, step: Step, mode: Mode)
    ensures Next(s, step, mode).chip.doi <==> step.Overrun? || (s.chip.doi && !ServesOverrun(s, step))
  {
  }

  lemma AtNext(s: Can, run: seq<Step>, mode: Mode, i: nat)
    requires i < |run|
    ensures At(s, run, mode, i + 1) == Next(At(s, run, mode, i), run[i], mode)
  {
    hide Next;
    assert run[..i + 1] == run[..i] + [run[i]];
    Join(s, run[..i], [run[i]], mode);
    Single(At(s, run, mode, i), run[i], mode);
  }

  lemma AtEnds(s: Can, run: seq<Step>, mode: Mode)
    ensures At(s, run, mode, 0) == s && At(s, run, mode, |run|) == Run(s, run, mode)
  {
    assert run[..0] == [] && run[..|run|] == run;
  }

  // ---------- What need not be divided

  /** What a call has checked stays true until it goes on, whatever comes in between: the oldest received
      frame until it is read, room in the queue until the write joins it. So a read, and the first half of
      a write, come to the same as one step taken at their end. */
  lemma ChecksHold(s: Can, step: Step, count: nat, mode: Mode)
    ensures ReadResult(s, count) > 0 && !step.Read? ==>
      var t := Next(s, step, mode); ReadResult(t, count) == ReadResult(s, count) && t.rx[0] == s.rx[0]
    ensures WriteResult(s, count) > 0 && |s.tx| <= BUFFERSIZE && !step.End? ==>
      WriteResult(Next(s, step, mode), count) == WriteResult(s, count)
  {
  }

  // ---------- Receiving

  function Arrived(run: seq<Step>): seq<Frame> {
    if run == [] then [] else (if run[0].Arrive? then [run[0].can] else []) + Arrived(run[1..])
  }

  /** The frame that a step hands to a reader. */
  function Returns(s: Can, step: Step): seq<Frame> {
    if step.Read? && ReadResult(s, step.count) > 0 then [s.rx[0]] else []
  }

  /** The frames that `device_read` hands out, in order. */
  function Returned(s: Can, run: seq<Step>, mode: Mode): seq<Frame>
    decreases |run|
  {
    if run == [] then [] else Returns(s, run[0]) + Returned(Next(s, run[0], mode), run[1..], mode)
  }

  /** A frame taken out of the controller, and whether the queue had room for it. */
  datatype Pop = Pop(can: Frame, kept: bool)

  function Popped(s: Can, step: Step, mode: Mode): seq<Pop> {
    if step.Interrupt? && s.chip.fifo != [] && (|s.rx| < BUFFERSIZE || mode.BasicCan?)
    then [Pop(s.chip.fifo[0], |s.rx| < BUFFERSIZE)] else []
  }

  function History(s: Can, run: seq<Step>, mode: Mode): seq<Pop>
    decreases |run|
  {
    if run == [] then [] else Popped(s, run[0], mode) + History(Next(s, run[0], mode), run[1..], mode)
  }

  function Frames(h: seq<Pop>): seq<Frame> {
    if h == [] then [] else [h[0].can] + Frames(h[1..])
  }

  function Kept(h: seq<Pop>): seq<Frame> {
    if h == [] then [] else (if h[0].kept then [h[0].can] else []) + Kept(h[1..])
  }

  lemma OneMorePop(p: seq<Pop>, h: seq<Pop>)
    requires |p| <= 1
    ensures Frames(p + h) == Frames(p) + Frames(h) && Kept(p + h) == Kept(p) + Kept(h)
  {
    if p == [] {
      assert p + h == h;
    } else {
      assert (p + h)[1..] == h && p[1..] == [];
    }
  }

  /** One step: what the controller holds and gives up, and what the queue holds and gives up. */
  lemma StepReceives(s: Can, step: Step, mode: Mode)
    ensures var t := Next(s, step, mode);
            && Frames(Popped(s, step, mode)) + t.chip.fifo == s.chip.fifo + (if step.Arrive? then [step.can] else [])
            && Returns(s, step) + t.rx
                 == s.rx + Kept(Popped(s, step, mode))
  {
    var p, t := Popped(s, step, mode), Next(s, step, mode);
    if p != [] {
      assert p[1..] == [];
      assert s.chip.fifo == [s.chip.fifo[0]] + s.chip.fifo[1..];
      assert Frames(p) == [s.chip.fifo[0]] && Kept(p) == if |s.rx| < BUFFERSIZE then [s.chip.fifo[0]] else [];
    }
    if step.Read? && ReadResult(s, step.count) > 0 {
      assert s.rx == [s.rx[0]] + s.rx[1..];
    }
  }

  /** Over a whole run the controller's frames come out in the order of their arrival, and the reads
      return, in that order, exactly those that found room in the queue. */
  lemma {:induction false} ReceptionLedger(s: Can, run: seq<Step>, mode: Mode)
    ensures var t := Run(s, run, mode);
            && Frames(History(s, run, mode)) + t.chip.fifo == s.chip.fifo + Arrived(run)
            && Returned(s, run, mode) + t.rx == s.rx + Kept(History(s, run, mode))
    decreases |run|
  {
    if run != [] {
      var mid := Next(s, run[0], mode);
      var end := Run(s, run, mode);
      StepReceives(s, run[0], mode);
      ReceptionLedger(mid, run[1..], mode);
      var p, h := Popped(s, run[0], mode), History(mid, run[1..], mode);
      OneMorePop(p, h);
      JoinLedgers(Frames(p), Frames(h), s.chip.fifo, mid.chip.fifo, end.chip.fifo,
                  if run[0].Arrive? then [run[0].can] else [], Arrived(run[1..]));
      JoinLedgers(Returns(s, run[0]), Returned(mid, run[1..], mode),
                  s.rx, mid.rx, end.rx, Kept(p), Kept(h));
    }
  }

  lemma {:induction false} AllKept(h: seq<Pop>)
    requires forall k :: 0 <= k < |h| ==> h[k].kept
    ensures Kept(h) == Frames(h)
  {
    if h != [] {
      AllKept(h[1..]);
    }
  }

  lemma {:induction false} PeliCanKeepsAll(s: Can, run: seq<Step>)
    ensures forall k :: 0 <= k < |History(s, run, PeliCan)| ==> History(s, run, PeliCan)[k].kept
    decreases |run|
  {
    if run != [] {
      PeliCanKeepsAll(Next(s, run[0], PeliCan), run[1..]);
    }
  }

  /** The PeliCAN driver loses no received frame: what was read, what is queued and what still waits in
      the controller are the frames that arrived, in order. */
  lemma PeliCanLosesNothing(s: Can, run: seq<Step>)
    ensures var t := Run(s, run, PeliCan);
            Returned(s, run, PeliCan) + t.rx + t.chip.fifo == s.rx + s.chip.fifo + Arrived(run)
  {
    hide Run, History, Returned, Arrived, Kept, Frames, Next;
    var t, h := Run(s, run, PeliCan), History(s, run, PeliCan);
    ReceptionLedger(s, run, PeliCan);
    PeliCanKeepsAll(s, run);
    AllKept(h);
    LedgerLoss(Returned(s, run, PeliCan), t.rx, t.chip.fifo, s.rx, s.chip.fifo, Kept(h), Frames(h), Arrived(run), 0);
  }

  function Lost(h: seq<Pop>): nat {
    if h == [] then 0 else (if h[0].kept then 0 else 1) + Lost(h[1..])
  }

  lemma {:induction false} LostCounts(h: seq<Pop>)
    ensures |Kept(h)| + Lost(h) == |Frames(h)|
  {
    if h != [] {
      LostCounts(h[1..]);
    }
  }

  lemma {:induction false} NoneLost(h: seq<Pop>)
    ensures Lost(h) == 0 <==> forall k :: 0 <= k < |h| ==> h[k].kept
  {
    if h != [] {
      NoneLost(h[1..]);
      assert forall k :: 0 < k < |h| ==> h[k] == h[1..][k - 1];
    }
  }

  /** The BasicCAN driver loses nothing exactly if no interrupt finds a frame waiting and the queue
      full; in any case the number lost is the number of such interrupts. */
  lemma BasicCanLosesNothingIff(s: Can, run: seq<Step>)
    ensures var t, h := Run(s, run, BasicCan), History(s, run, BasicCan);
            && |Returned(s, run, BasicCan) + t.rx + t.chip.fifo| + Lost(h) == |s.rx + s.chip.fifo + Arrived(run)|
            && (Returned(s, run, BasicCan) + t.rx + t.chip.fifo == s.rx + s.chip.fifo + Arrived(run)
                <==> forall k :: 0 <= k < |h| ==> h[k].kept)
  {
    hide Run, History, Returned, Arrived, Kept, Frames, Lost, Next;
    var t, h := Run(s, run, BasicCan), History(s, run, BasicCan);
    ReceptionLedger(s, run, BasicCan);
    LostCounts(h);
    NoneLost(h);
    if Lost(h) == 0 {
      AllKept(h);
    }
    LedgerLoss(Returned(s, run, BasicCan), t.rx, t.chip.fifo, s.rx, s.chip.fifo, Kept(h), Frames(h), Arrived(run), Lost(h));
  }

  /** Two ledgers that share what was taken, of which some is lost between them. */
  lemma LedgerLoss(read: seq<Frame>, rx: seq<Frame>, fifo: seq<Frame>, rx0: seq<Frame>, fifo0: seq<Frame>,
                   kept: seq<Frame>, taken: seq<Frame>, arrived: seq<Frame>, lost: nat)
    requires read + rx == rx0 + kept && taken + fifo == fifo0 + arrived
    requires |kept| + lost == |taken| && (lost == 0 ==> kept == taken)
    ensures |read + rx + fifo| + lost == |rx0 + fifo0 + arrived|
    ensures read + rx + fifo == rx0 + fifo0 + arrived <==> lost == 0
  {
    assert |taken + fifo| == |fifo0 + arrived|;
    assert |read + rx| == |rx0 + kept|;
    if lost == 0 {
      assert read + rx + fifo == rx0 + (taken + fifo);
      assert rx0 + (fifo0 + arrived) == rx0 + fifo0 + arrived;
    }
  }
}
