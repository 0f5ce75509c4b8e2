# Serial and CAN drivers, and the devices they drive

A Dafny model of the byte-moving code of this repository, from both sides of the bus: the QEMU devices and
character backends, and the Linux drivers that talk to them. Four systems are modelled, each as the classes
whose fields the C code updates, proved against value-level machines, about which the theorems are then
proved over whole runs.

* **The 16550A UART** (`UartSpec`, `Serial`, `UartRuns`, `RegRuns`, `LsrRuns`, `ModemRuns`, `TimerRuns`,
  `FlagRuns`, `RbrRuns`, `MultiSerial`). `Serial.SerialState`
  has the fields of the C struct; each handler is a method. `UartSpec` is the same machine with the
  interrupt line, the low nibble of IIR and the transmitter-empty bits removed: they are functions of the
  rest. That every handler keeps the two in step is what makes the line right although an IER write calls
  `serial_update_irq` only if THRE is set: THRE always is, because the transmit FIFO never keeps a byte and
  `tsr_retry` never becomes positive.
* **Character backends** (`Mux`, `MuxLang`, `RingBuf`, `Telnet`, `MemChar`, with `Escapes`). The 4-way mux with its
  escape commands and rings, the ring buffer with wrapping 64-bit counters, the in-place telnet filter and
  the growing memory buffer, each against a sequence.
* **The 8250 driver with the serial core** (`TxSpec`, `TxRuns`, `UartTx`, `IrqChain`, `IrqRaces`, `Divisor`). The
  transmit circular buffer and the THRI discipline, the shared-interrupt table with its intrusive circular
  lists and the service loop, startups and shutdowns that overlap on one line, and the baud divisor down to the latch of the emulated chip.
* **SJA1000 CAN** (`CanCodec`, `CanLayout`, `CanPort`, `CanEmulator`, `QueueSpec`, `CanQueue`). The PeliCAN and BasicCAN
  frame codecs, the emulated card with the driver written for it, and the six-slot queues of the two real
  drivers.

`Rings`, `Bits`, `Departures` and `Latches` hold what several of these share: a window of a ring read as a
sequence, masks as remainders, a record of how bytes leave a queue, and flags that steps set and clear.

What the value machines compute is stated in numbers beside them: register values, trigger levels and codes in
`RegRuns` and `LsrRuns`, register layouts in `CanLayout`, what a user types to the mux in `MuxLang`.

The run theorems are stated about the value machines and, through a `DoAll` method of each class (and, for
the mux, a record of the past that its invariant accounts for), about the objects themselves.

Conventions. What runs under a lock is one step, and where a call gives the lock up, or has none, it is
several, with anything possible in between: a CAN write is divided after its status read, the startup of a
port into the search of the hash, the list section and the answer to its request, the mux backend's poll and
its read are apart, and so may be the two halves of `uart_write`. What the outside decides (a backend that accepts a
byte or not, an ioctl that succeeds or is not supported, an allocation, the kernel's answer to
`request_irq`, what LSR reads, the interrupt reports of the ports) is a parameter of the step, so that a
theorem over all steps is a theorem over all such answers. Bytes are `bv8`, registers bit vectors of their
width, array indices naturals; 32- and 64-bit wrap-around is written out where the code can reach it
(`Divisor`, `RingBuf`).

Where the code differs from what its comments or its purpose suggest, the model follows the code, and lemmas
say exactly when the difference shows and give an input at which it does:

* The PeliCAN encoder masks the low identifier byte of a standard frame with `0x03`, so identifier bit 2 is
  lost (`CanCodec.ExactIff`, `CanCodec.BitTwoIsLost`).
* A CAN write between the end of a transmission and its interrupt can overtake the queue, or lead the
  interrupt to put a frame into a transmit buffer that is in use; and an interrupt between the status read of a
  write and its end can leave the frame queued with nothing to fetch it (`QueueSpec.CleanIffUndisturbed`,
  `QueueSpec.SafeWriteIff`, `QueueSpec.WindowIff`, `QueueSpec.PairedIff`, with `QueueSpec.OvertakingRun`,
  `QueueSpec.ClobberingRun`, `QueueSpec.StrandingRun`).
* A reset clears the FIFO bits of IIR but leaves FCR, so the FIFOs can be on while IIR says they are off, and
  writing the same FCR again does not help (`FlagRuns.FifoBitsRightIff`, `FlagRuns.ResetHidesFifos`).
* A break pushes its null byte without arming the character timeout, so it can wait below the trigger level
  unannounced (`FlagRuns.StuckIff`, `FlagRuns.BreakSticks`, `FlagRuns.LevelSticks`).
* Switching the FIFOs off leaves DR set, so the guest can read old contents of RBR as data
  (`RbrRuns.RbrReadsIff`, `RbrRuns.PhantomRead`).
* A reset leaves a pending character timeout, although it empties the FIFO (`TimerRuns.TimerIff`,
  `TimerRuns.TimeoutOutlivesReset`), and a break on the line, although it clears LCR (`RegRuns.BreakIff`,
  `RegRuns.BreakOutlivesReset`).
* With the FIFOs off a break overwrites an unread byte without an overrun (`LsrRuns.LsrReadReports`,
  `LsrRuns.BreakLosesQuietly`).
* At exactly the trigger level the UART advertises no room, above it one byte (`RegRuns.RoomMeans`).
* TERI is cleared by any later change that is polled while the old RI is low
  (`ModemRuns.RingDeltaMeansLastFall`, `ModemRuns.RingDeltaCanBeLost`).
* A rate equal to the minimum passes the range test but its divisor may need more than 16 bits
  (`Divisor.MinimumFitsIff`, `Divisor.MinimumOverflows`); the clip target avoids the minimum
  (`Divisor.ClippedFits`). For clocks near 2^32 the rounding sum wraps and the divisor is 0
  (`Divisor.ClosestIff`, `Divisor.WrapGivesZero`).
* Where a break falls among the data of a telnet stream depends on how the stream is cut into buffers
  (`Telnet.BreakOrderIff`, `Telnet.CutMovesBreak`), and which mux channel gets a byte depends on how the input
  is cut into reads (`Mux.CutMattersIff`, `Mux.CutMovesByte`).
* A fifth mux frontend is refused, but has by then taken over the break event (`Mux.MuxDriver.Register`,
  `Mux.MuxDriver.ProcByte`).
* The mux may be sent more than its ring has places for if the frontend's room falls between the backend's
  poll and its read (`Mux.OverflowIff`, `Mux.StalePoll`, `UartRuns.LevelCutsRoom`).
* A port can link behind one whose interrupt is then refused, and a node can be freed that another startup
  has found (`IrqRaces.SoundIffGuarded`, `IrqRaces.RefusedBehind`, `IrqRaces.FreedBehind`).
* `uart_put_char` alone does not enable the transmit interrupt (`TxSpec.PutCharAloneIff`,
  `TxSpec.PutCharStalls`).

## Model

| member | source | states |
|---|---|---|
| Serial.SerialFifo.Put | backup/qemu_linux0/QEMU/serial.c:118-137 | a byte joins the bounded queue of 16; a full receive FIFO keeps its contents and reports the overrun |
| Serial.SerialFifo.Get | backup/qemu_linux0/QEMU/serial.c:139-153 | the oldest byte leaves; an empty FIFO gives 0 and stays empty |
| Serial.SerialFifo.Clear | backup/qemu_linux0/QEMU/serial.c:109-116 | empties the queue and keeps the trigger level |
| Serial.SerialState.constructor | backup/qemu_linux0/QEMU/serial.c:649-675 | zeroed memory followed by a reset is a valid state, the machine's start state |
| Serial.SerialState.Reset | backup/qemu_linux0/QEMU/serial.c:649-675 | from any state that registers and FIFOs can be in (an enabled FIFO has a legal trigger level, the transmit timer is not armed), back to a valid one: registers to their defaults, FIFOs empty, line low; FCR, trigger level and pending timeout stay |
| Serial.SerialState.PendingCode | backup/qemu_linux0/QEMU/serial.c:157-174 | the chain of tests yields the identification of the abstract machine |
| Serial.SerialState.UpdateIrq | backup/qemu_linux0/QEMU/serial.c:155-183 | makes line and IIR fit whatever state it finds |
| Serial.SerialState.UpdateMsl | backup/qemu_linux0/QEMU/serial.c:224-257 | one modem poll: new lines, deltas or-ed in, TERI only on a fall, polling off if unsupported, line and IIR right again |
| Serial.SerialState.Xmit | backup/qemu_linux0/QEMU/serial.c:259-304 | the one byte in the transmitter is looped back or offered once, THRE and TEMT are set again and the transmit interrupt is pending, whatever the backend answers |
| Serial.SerialState.WriteThrReg | backup/qemu_linux0/QEMU/serial.c:317-333 | a THR write ends with the byte handed over and the transmitter idle |
| Serial.SerialState.WriteIerReg | backup/qemu_linux0/QEMU/serial.c:338-359 | an IER write always re-evaluates the line, since THRE is always set |
| Serial.SerialState.WriteFcrReg | backup/qemu_linux0/QEMU/serial.c:360-410 | flushes on an enable change or RFR, sets the trigger level, keeps the bits of mask 0xC9 |
| Serial.SerialState.WriteLcrReg | backup/qemu_linux0/QEMU/serial.c:411-423 | a break ioctl exactly when bit 6 changes |
| Serial.SerialState.WriteMcrReg | backup/qemu_linux0/QEMU/serial.c:424-449 | the lines are passed on if MCR changed, polling is supported and loopback is off |
| Serial.SerialState.ReadRbrReg | backup/qemu_linux0/QEMU/serial.c:461-483 | FIFO or RBR read with its effects on DR, BI and the timeout, and the backend told to go on |
| Serial.SerialState.ReadIirReg | backup/qemu_linux0/QEMU/serial.c:491-497 | returns IIR; reading THRI takes that interrupt back |
| Serial.SerialState.ReadLsrReg | backup/qemu_linux0/QEMU/serial.c:504-511 | returns LSR, then overrun and break are clear |
| Serial.SerialState.ReadMsrReg | backup/qemu_linux0/QEMU/serial.c:512-530 | loopback or polled lines; outside loopback the deltas are clear afterwards |
| Serial.SerialState.ReceiveBreak | backup/qemu_linux0/QEMU/serial.c:553-560 | a zero byte is pushed, BI and DR are set, line right again |
| Serial.SerialState.FifoTimeoutInt | backup/qemu_linux0/QEMU/serial.c:563-569 | a timeout is pending exactly if the FIFO holds data |
| Serial.SerialState.Receive1 | backup/qemu_linux0/QEMU/serial.c:577-599 | what fits is appended in order, the overrun bit tells if something did not, line right again |
| Serial.SerialState.CanReceive | backup/qemu_linux0/QEMU/serial.c:538-551 | the advertised room |
| Serial.SerialState.IoportWrite | backup/qemu_linux0/QEMU/serial.c:307-452 | every register write refines the abstract step and keeps the invariant |
| Serial.SerialState.IoportRead | backup/qemu_linux0/QEMU/serial.c:454-536 | every register read refines the abstract step, keeps the invariant and returns the abstract value |
| Serial.SerialState.Do | backup/qemu_linux0/QEMU/serial.c:307-675 | any step of guest, backend or timer takes a valid state to a valid state, as the abstract machine does |
| UartSpec.NextKeepsInv | backup/qemu_linux0/QEMU/serial.c:307-599 | every step keeps: at most 16 bytes, DR while the enabled FIFO holds data, a legal trigger level, no TERI while RI is high |
| UartRuns.IdentIsHighest | backup/qemu_linux0/QEMU/serial.c:155-174 | a code identifies the highest-priority enabled source if and only if it is the one computed |
| UartRuns.LineFollowsSources | backup/qemu_linux0/QEMU/serial.c:155-183 | between steps the line is up iff some enabled source is pending, and the low nibble of IIR names the first one |
| UartRuns.SentAreThrWrites | backup/qemu_linux0/QEMU/serial.c:259-333 | over every run the bytes offered or looped back are exactly the guest's non-DLAB THR writes, in order, once each |
| UartRuns.DoAll | backup/qemu_linux0/QEMU/serial.c:307-675 | on the device: any run ends in the state of the machine's run, what was handed over is exactly the guest's non-DLAB THR writes, and every read returned what the state at that point says |
| UartRuns.SameForAnyBackend | backup/qemu_linux0/QEMU/serial.c:278-292 | on two devices in the same state: whatever the backends answer to any of the writes of a run, the guest reads the same values and line, IIR and state end up the same |
| UartRuns.FifoStep | backup/qemu_linux0/QEMU/serial.c:109-153 | every step acts on the receive FIFO as on a bounded queue |
| UartRuns.FifoLedger | backup/qemu_linux0/QEMU/serial.c:118-153 | over every run: bytes that left, then bytes inside, equal bytes at the start, then bytes that entered |
| UartRuns.ReadsAreDepartures | backup/qemu_linux0/QEMU/serial.c:466-473 | the values RBR reads return are exactly the bytes that left by a read |
| UartRuns.ReadsInOrder | backup/qemu_linux0/QEMU/serial.c:359-404 | in a run without a flush the guest reads exactly what entered, in order |
| UartRuns.OverrunIffLost | backup/qemu_linux0/QEMU/serial.c:577-599 | a delivery keeps all earlier bytes, and sets OE exactly if some new byte did not fit |
| UartRuns.PoliteBackendNeverOverruns | backup/qemu_linux0/QEMU/serial.c:538-551 | a backend that respects the advertised room causes no overrun and loses nothing, in any run without break and loopback |
| UartRuns.RoomFallsByAtMostOne | backup/qemu_linux0/QEMU/serial.c:538-551 | one byte or one break lowers the room by at most one, as the mux assumes |
| UartRuns.LevelCutsRoom | backup/qemu_linux0/QEMU/serial.c:380-398 | an FCR write that lowers the trigger level cuts the room from 14 to 1 at once |
| UartRuns.BackpressureIsNeverSilent | backup/qemu_linux0/QEMU/serial.c:155-183 | no room and RDI enabled means that the line is up |
| UartRuns.ReadReopens | backup/qemu_linux0/QEMU/serial.c:461-483 | reading RBR out of a full receiver makes room and tells the backend |
| UartRuns.ThrEmptyHandshake | backup/qemu_linux0/QEMU/serial.c:491-497 | the transmit interrupt is pending iff a THR or IER write came after the last reset and the last IIR read that reported it |
| RegRuns.ReadsBack | backup/qemu_linux0/QEMU/serial.c:307-452 | over every run LCR, MCR, SCR, IER and the two divisor bytes read as the accesses, read off alone, have left them: MCR modulo 32, IER modulo 16, ports 0 and 1 switched by bit 7 of LCR |
| RegRuns.ResetReads | backup/qemu_linux0/QEMU/serial.c:649-675 | what every register reads after a reset |
| RegRuns.IirNumber | backup/qemu_linux0/QEMU/serial.c:155-183 | IIR in numbers: 6, 12, 4, 2, 0 for the first pending source that IER enables, 1 for none, and 192 for enabled FIFOs |
| RegRuns.RaisedAtLevel | backup/qemu_linux0/QEMU/serial.c:384-397 | over every run the data interrupt is raised from 1, 4, 8 or 14 bytes on, by the top two bits of FCR |
| RegRuns.FcrFlushes | backup/qemu_linux0/QEMU/serial.c:362-378 | which FCR writes empty the receive FIFO, and when the FIFOs are on afterwards |
| RegRuns.EmptyFifoReadsZero | backup/qemu_linux0/QEMU/serial.c:139-153 | RBR over an empty FIFO reads 0 |
| RegRuns.RoomMeans | backup/qemu_linux0/QEMU/serial.c:538-551 | the room leads just up to the trigger level, is 0 there, 1 above and 0 when full |
| RegRuns.AcceptsAreReads | backup/qemu_linux0/QEMU/serial.c:479-482 | over every run the backend is told to go on once for each RBR read outside loopback |
| RegRuns.MsrShowsLines | backup/qemu_linux0/QEMU/serial.c:512-529 | the top half of an MSR read: the lines just polled or last known, or the modem outputs in loopback |
| RegRuns.LineStep | backup/qemu_linux0/QEMU/serial.c:224-257 | the lines known after a step are those of its poll |
| RegRuns.PollFollowsIer | backup/qemu_linux0/QEMU/serial.c:340-350 | over every run polling is on, with its timer armed, exactly while modem interrupts are enabled, unless the backend knows no lines |
| RegRuns.IoctlStep | backup/qemu_linux0/QEMU/serial.c:411-449 | which writes tell the backend of a break or of RTS and DTR, and with what values |
| RegRuns.BreakIff | backup/qemu_linux0/QEMU/serial.c:411-423 | over every run the backend holds a break iff bit 6 of LCR is set, or a reset has left one that no write has asked for again |
| RegRuns.BreakOutlivesReset | backup/qemu_linux0/QEMU/serial.c:649-675 | a break, a reset and a clear LCR: the backend still holds the break |
| LsrRuns.LsrBits | backup/qemu_linux0/QEMU/serial.c:504-505 | the bits of an LSR read: 0x60 always, 0x8C never, and one bit each for data, overrun and break |
| LsrRuns.LsrReadReports | backup/qemu_linux0/QEMU/serial.c:504-511 | over every run: bit 0 iff a byte arrived since the last reset and the last read that left nothing unread, bit 1 iff more came than there was room for since the last reset and LSR read, bit 4 iff a break came since the last reset, LSR read and such a data read |
| LsrRuns.DataBitMeansData | backup/qemu_linux0/QEMU/serial.c:504-505 | over every run bit 0 is set while an enabled FIFO holds a byte, and with the FIFOs off iff RBR holds an unread one or DR was left set by the switch |
| LsrRuns.LsrValues | backup/qemu_linux0/QEMU/serial.c:504-505 | LSR reads 0x60, 0x61, 0x63 and 0x71 after nothing, a byte, two and a byte with a break |
| LsrRuns.BreakLosesQuietly | backup/qemu_linux0/QEMU/serial.c:553-560 | with the FIFOs off a break overwrites an unread byte without an overrun |
| TimerRuns.TimerIff | backup/qemu_linux0/QEMU/serial.c:224-257 | over every run: when the character timer and the modem poll timer are armed, and the timeout flagged, by the last step that set or cleared them |
| TimerRuns.TimeoutOutlivesReset | backup/qemu_linux0/QEMU/serial.c:649-675 | after a reset IIR can report a timeout of data that is gone |
| ModemRuns.ModemStep | backup/qemu_linux0/QEMU/serial.c:224-257 | the modem state changes by polls and clears only |
| ModemRuns.DeltaMeansChange | backup/qemu_linux0/QEMU/serial.c:236-250 | DCTS, DDSR and DDCD are set iff some poll since the last clear saw that line change |
| ModemRuns.RingDeltaMeansLastFall | backup/qemu_linux0/QEMU/serial.c:245-249 | TERI is set iff the last poll that saw any change since the last clear saw RI fall |
| ModemRuns.MsrReadReports | backup/qemu_linux0/QEMU/serial.c:512-529 | what the delta bits of an MSR read say about all polls since the last one, its own included |
| ModemRuns.MsrReadReportsRing | backup/qemu_linux0/QEMU/serial.c:512-529 | what the TERI bit of an MSR read says: of the read's own poll if that sees a change, else of the last poll that did |
| ModemRuns.RingDeltaCanBeLost | backup/qemu_linux0/QEMU/serial.c:245-249 | a three-poll run in which TERI is set and then lost unread |
| FlagRuns.FifoBitsRightIff | backup/qemu_linux0/QEMU/serial.c:649-675 | over every run: IIR shows the FIFOs as they are iff no reset met enabled FIFOs since the last FCR write that was not a repetition |
| FlagRuns.IirShowsFifoId | backup/qemu_linux0/QEMU/serial.c:491-497 | the top bits of an IIR read are both set or both clear, as that flag says |
| FlagRuns.ResetHidesFifos | backup/qemu_linux0/QEMU/serial.c:360-364 | FIFOs on, reset, the same FCR write again: the FIFOs are on and IIR still says they are off |
| FlagRuns.UntimedStep | backup/qemu_linux0/QEMU/serial.c:553-569 | which steps leave bytes in the FIFO with neither timeout nor timer, and which end that |
| FlagRuns.UntimedIff | backup/qemu_linux0/QEMU/serial.c:553-569 | over every run: bytes are in the FIFO with neither timeout nor timer iff a break came while there was neither, and no data, read, expiry, flush or reset followed |
| FlagRuns.StuckIsSilent | backup/qemu_linux0/QEMU/serial.c:157-174 | with data interrupts enabled, bytes are stuck iff no timer runs and neither the level nor the timeout announces them |
| FlagRuns.StuckIff | backup/qemu_linux0/QEMU/serial.c:553-569 | over every run: bytes wait unannounced below the trigger level iff they are fewer than the level, a break came while no timer and no timeout was pending, and no data, read, expiry, flush or reset followed |
| FlagRuns.LevelDecides | backup/qemu_linux0/QEMU/serial.c:380-398 | for such bytes an FCR write that flushes nothing decides by its level whether they are stuck |
| FlagRuns.NoBreakNeverStuck | backup/qemu_linux0/QEMU/serial.c:577-599 | without breaks no received byte is ever left below the trigger level without timeout or timer |
| FlagRuns.BreakSticks | backup/qemu_linux0/QEMU/serial.c:553-560 | a break at a trigger level of 14: its byte waits, data interrupts are enabled, and the line is low with no timer running |
| FlagRuns.LevelSticks | backup/qemu_linux0/QEMU/serial.c:380-398 | at a level of 1 the byte of a break is announced as data ready; raising the level to 14 silences it, lowering it announces it again |
| RbrRuns.RbrLedger | backup/qemu_linux0/QEMU/serial.c:591-597 | over every run with the FIFOs off: bytes that left RBR, then the unread one, equal those that came; an unread byte is in RBR with DR set |
| RbrRuns.RbrReadsIff | backup/qemu_linux0/QEMU/serial.c:474-477 | over every run: reads with DR set and the FIFOs off return exactly the bytes that came to RBR and were not lost, in order, iff no read is the first to settle a DR left set by switching the FIFOs off |
| RbrRuns.PhantomIff | backup/qemu_linux0/QEMU/serial.c:365-375 | DR stands for no byte iff the FIFOs were switched off over a set DR, and no read, new byte, reset or switch followed |
| RbrRuns.PhantomRead | backup/qemu_linux0/QEMU/serial.c:474-477 | a run in which one byte comes to RBR and the guest reads it twice |
| MultiSerial.PciMultiSerial.IrqMux | backup/qemu_linux0/QEMU/serial-pci.c:64-76 | one level is stored and the card's line is the OR of all levels |
| MultiSerial.PciMultiSerial.Do | backup/qemu_linux0/QEMU/serial-pci.c:64-76 | any step of any port keeps: all ports valid, each level its port's line, the card's line their OR |
| MultiSerial.CardLineIsOr | backup/qemu_linux0/QEMU/serial-pci.c:64-76 | the card's line is up iff some port has an enabled source pending |
| Mux.Cut | backup/qemu_linux4/qemu-char.c:477-522 | escape processing of two stretches of input is that of their concatenation |
| Mux.DoublingIsTransparent | backup/qemu_linux4/qemu-char.c:477-522 | doubling the escape character sends any payload through unharmed and without side effect |
| Mux.CutMattersIff | backup/qemu_linux4/qemu-char.c:550-568 | splitting a read in two changes the routing iff the focus moved in the first part and data follows |
| Mux.CutMovesByte | backup/qemu_linux4/qemu-char.c:550-568 | escape, c and a letter: in one read the letter goes to channel 0, in two to channel 1 |
| MuxLang.TypedIsUnderstood | backup/qemu_linux4/qemu-char.c:477-522 | any sequence of bytes and commands as typed: the bytes come out, the focus has moved on by the number of c modulo the number of frontends, timestamps have toggled with each t, help, commit and quit were done in order, and nothing is heard after x |
| MuxLang.CommandsAreHeard | backup/qemu_linux4/qemu-char.c:495-511 | what each frontend hears of them: breaks if it asked last, the loss and the gain of the focus |
| MuxLang.SwitchesGoRound | backup/qemu_linux4/qemu-char.c:503-507 | from focus f of n frontends k switches lead to (f + k) mod n |
| MuxLang.EveryoneHasATurn | backup/qemu_linux4/qemu-char.c:503-507 | n switches visit every frontend once and return |
| MuxLang.EveryoneKnows | backup/qemu_linux4/qemu-char.c:477-522 | whatever comes in, each frontend hears of gaining and losing the focus in turn, and last of what is so |
| Mux.MuxDriver.ProcByte | backup/qemu_linux4/qemu-char.c:477-522 | data or not, new control state, actions, the events of each registered frontend and of one that was turned away, as the escape language says |
| Mux.MuxDriver.SwitchFocus | backup/qemu_linux4/qemu-char.c:503-509 | focus moves round the registered frontends; the loser and then the winner are told, nobody else |
| Mux.MuxDriver.AcceptInput | backup/qemu_linux4/qemu-char.c:524-535 | no stream changes; afterwards the focused ring is empty or its frontend takes no more |
| Mux.MuxDriver.CanRead | backup/qemu_linux4/qemu-char.c:537-548 | 1 while the ring in focus has a free place, its frontend's room when it is full; 0 iff it is full and the frontend takes nothing |
| Mux.MuxDriver.ChrRead | backup/qemu_linux4/qemu-char.c:550-568 | of input no longer than the free places plus the frontend's room: delivered-then-buffered bytes of the frontend focused on entry grow by exactly the data bytes, all other streams stay, no ring exceeds 32, every frontend hears what the commands mean for it, and the read joins the record of the past that every stream is accounted by |
| Mux.MuxDriver.Poll | backup/qemu_linux4/qemu-char.c:695-702 | what the backend is told fits at that moment |
| Mux.MuxDriver.FdRead | backup/qemu_linux4/qemu-char.c:704-725 | at most what the last poll allowed enters, unless it no longer fits |
| Mux.OverflowIff | backup/qemu_linux4/qemu-char.c:524-568 | a frontend whose room falls by one with each byte: after the accepted input a read of n data bytes keeps the ring within 32 iff n is at most free places plus room |
| Mux.StalePoll | backup/qemu_linux4/qemu-char.c:695-713 | told 5, room for 2 by the time of the read: 35 bytes in 32 places |
| Mux.MuxDriver.Push | backup/qemu_linux4/qemu-char.c:566 | a byte joins ring m; the other rings keep their contents |
| Mux.MuxDriver.Pop | backup/qemu_linux4/qemu-char.c:532-533 | the oldest byte of ring m leaves; the other rings keep their contents |
| Mux.MuxDriver.Register | backup/qemu_linux4/qemu-char.c:331-346 | a frontend joins with what it had as its stream, takes the focus and leaves all other streams as they are; a fifth joins nothing but takes over the break event |
| Mux.MuxDriver.constructor | backup/qemu_linux4/qemu-char.c:606-628 | a new mux holds nothing on any channel and has no past |
| Mux.MuxDriver.Conservation | backup/qemu_linux4/qemu-char.c:477-568 | between any two calls: what a frontend has got, then what waits for it, is what it had before it registered, then all data of the reads entered with the focus on it; and 0 <= prod - cons <= 32 |
| Mux.MuxDriver.DoAll | backup/qemu_linux4/qemu-char.c:477-713 | over any sequence of registrations, polls, reads, accept-inputs and changes of room up to the first read that does not fit: the record follows the sequence, conservation and the bound hold; a read that follows its poll with only accept-inputs in between always fits |
| Mux.PromptSendEnters | backup/qemu_linux4/qemu-char.c:695-713 | over every run: of a non-empty send that follows its poll promptly as much enters as the answer and 4096 allow, at least one byte, unless there is no frontend, the emulator was left, or at the poll the ring was full and the frontend took nothing |
| RingBuf.RingBufDriver.Open | backup/qemu_linux4/qemu-char.c:2846-2875 | accepted sizes are exactly 0 (meaning 65536) and the powers of two |
| RingBuf.RingBufDriver.Count | backup/qemu_linux4/qemu-char.c:2799-2804 | the wrapping difference of the counters is the number of unread bytes |
| RingBuf.RingBufDriver.Write | backup/qemu_linux4/qemu-char.c:2806-2823 | contents become the last `size` bytes of old contents and new bytes; errors change nothing |
| RingBuf.RingBufDriver.Read | backup/qemu_linux4/qemu-char.c:2825-2835 | the oldest bytes come out in order and the rest stays |
| RingBuf.RingBufDriver.PutByte | backup/qemu_linux4/qemu-char.c:2815-2820 | one byte, also where a 64-bit counter wraps and where the oldest byte is overwritten |
| RingBuf.RingBufDriver.DoAll | backup/qemu_linux4/qemu-char.c:2806-2835 | on the device: any reads and writes leave the contents and produce the output of the sequence operations |
| RingBuf.EveryByteAccounted | backup/qemu_linux4/qemu-char.c:2806-2835 | over any reads and writes: read, held and overwritten bytes add up, and never more than `size` are held |
| RingBuf.HoldsTheLastBytes | backup/qemu_linux4/qemu-char.c:2806-2835 | over any reads and writes the contents are the last bytes written |
| RingBuf.StreamIffNothingLost | backup/qemu_linux4/qemu-char.c:2806-2835 | the reader sees the written stream iff nothing was overwritten unread |
| Bits.PowerOfTwoTest | backup/qemu_linux4/qemu-char.c:2859-2863 | `s & (s - 1)` is 0 iff s is a power of two |
| Bits.MaskIsMod | backup/qemu_linux4/qemu-char.c:2816 | masking with 2^k - 1 is reduction modulo 2^k |
| RingBuf.CounterSlot | backup/qemu_linux4/qemu-char.c:2816 | masking a 64-bit counter yields its slot, also across the wrap of the counter |
| Telnet.FilterCut | backup/qemu_linux4/qemu-char.c:2321-2367 | filtering two buffers in turn gives the data, breaks and state of filtering them joined |
| Telnet.CutsDoNotMatter | backup/qemu_linux4/qemu-char.c:2321-2367 | the same for any number of buffers |
| Telnet.FilterDecodes | backup/qemu_linux4/qemu-char.c:2321-2367 | from the plain state exactly the data bytes and breaks of any sequence of bytes, breaks and three-byte commands are recovered |
| Telnet.FilterUndoesDoubling | backup/qemu_linux4/qemu-char.c:2339-2344 | IAC doubling is undone on any payload, with no break |
| Telnet.BreakOrderIff | backup/qemu_linux4/qemu-char.c:2346-2350 | breaks keep their place among the data under a cut iff the first part has no data or the second no break |
| Telnet.CutMovesBreak | backup/qemu_linux4/qemu-char.c:2346-2350 | a letter and a break: in one buffer the break is seen first, in two the letter |
| Telnet.TcpCharDriver.ProcessIacBytes | backup/qemu_linux4/qemu-char.c:2321-2367 | the in-place compaction is the three-state filter: kept bytes, state and break count; bytes past the input are untouched |
| MemChar.MemoryDriver.Write | backup/qemu_linux4/qemu-char.c:2733-2752 | the buffer is the concatenation of all writes, within capacity, and all reallocations together copied at most twice its size |
| TxSpec.NoLostWakeup | backup/qemu_linux0/8250/serial_core.c:92-111 | over every run a live port with bytes waiting has THRI set and the transmitter on, except between a put_char and its flush |
| TxSpec.StepKeepsDraining | backup/qemu_linux0/8250/8250.c:1258-1309 | every step but put_char keeps that promise, and write, flush_chars, start and CRTSCTS-off restore it |
| TxSpec.WriteInTwoParts | backup/qemu_linux0/8250/serial_core.c:518-534 | filling the ring, any steps, then starting is a run of puts, those steps and a flush; with no steps in between it is the write |
| TxSpec.DrainingAfterWrite | backup/qemu_linux0/8250/serial_core.c:518-534 | whatever comes between the two halves of a write, the draining promise holds at its end |
| TxSpec.PutCharAloneIff | backup/qemu_linux0/8250/serial_core.c:464-493 | put_char alone keeps it iff the port is held up or already draining |
| TxSpec.PutCharStalls | backup/qemu_linux0/8250/serial_core.c:464-493 | a port just started accepts a byte and nothing will send it |
| TxSpec.InterruptsDrain | backup/qemu_linux0/8250/8250.c:1445-1482 | n waiting bytes of a live port are gone after n + 1 transmit interrupts |
| TxSpec.BytesConserved | backup/qemu_linux0/8250/serial_core.c:519-535 | over every run: bytes that left the ring, then ring contents, equal old contents, then accepted bytes; those not flushed are exactly the data put in UART_TX, in order |
| TxSpec.NothingDropped | backup/qemu_linux0/8250/8250.c:1466-1481 | without a buffer flush, transmitted data followed by the ring equals all accepted bytes |
| TxRuns.HeldStepSendsNoData | backup/qemu_linux0/8250/8250.c:1457-1460 | a step that ends with the tty stopped or hw_stopped puts no data into UART_TX and takes nothing out of the ring, but for a flush |
| TxRuns.HeldUpSendsNoData | backup/qemu_linux0/8250/8250.c:1457-1460 | over every run of a port that is held up no data goes out, and what was accepted waits behind what was there |
| TxRuns.InterruptWhileHeld | backup/qemu_linux0/8250/8250.c:1445-1460 | an interrupt of such a port sends a priority character, or switches THRI off, and the transmitter where it can |
| TxRuns.StoppingIsQuiet | backup/qemu_linux0/8250/8250.c:1266-1280 | stopping leaves THRI clear, and TXDIS set on a 16C950 |
| TxRuns.InterruptsSend | backup/qemu_linux0/8250/8250.c:1466-1473 | k interrupts of a live port send exactly the first k * max(1, tx_loadsz) bytes, or all |
| TxRuns.InterruptKeepsThriIff | backup/qemu_linux0/8250/8250.c:1457-1481 | after an interrupt THRI stays on iff it was, the port is live and more waits than this interrupt sent |
| TxRuns.StartSends | backup/qemu_linux0/8250/8250.c:1282-1308 | starting sends something only for the TXEN workaround, and then what an interrupt would |
| TxRuns.WriteTakes | backup/qemu_linux0/8250/serial_core.c:518-531 | a write takes a first part, and less than all only if that fills the ring to 4095 |
| TxRuns.XCharsGoOut | backup/qemu_linux0/8250/8250.c:1451-1456 | over every run priority characters go out once each in order, held up or not, but for one that waits |
| TxRuns.HeldIff | backup/qemu_linux0/8250/serial_core.c:2494-2515 | over every run a port is held up by software, or by hardware, iff some step stopped it so and no later one released it |
| UartTx.SpaceFacts | backup/qemu_linux0/8250/serial_core.c:520-523 | the circ_buf macros: free space is 4095 less the contents, and the space to the end is 0 only if there is none |
| UartTx.UartPort.Write | backup/qemu_linux0/8250/serial_core.c:495-536 | accepts exactly min(count, free) across the wrap, in order, then starts the transmitter |
| UartTx.UartPort.FillRing | backup/qemu_linux0/8250/serial_core.c:519-530 | the copying loop ends and appends the first min(count, free) bytes |
| UartTx.UartPort.PutChar | backup/qemu_linux0/8250/serial_core.c:464-488 | one byte if there is room |
| UartTx.UartPort.FlushBuffer | backup/qemu_linux0/8250/serial_core.c:562-586 | the ring is empty and nothing else changes |
| UartTx.UartPort.SendXchar | backup/qemu_linux0/8250/serial_core.c:592-608 | the priority character is noted and the transmitter started; 0 only clears it |
| UartTx.UartPort.StopTty | backup/qemu_linux0/8250/serial_core.c:81-90 | THRI off and, on a 16C950, the transmitter off |
| UartTx.UartPort.StartTty | backup/qemu_linux0/8250/serial_core.c:102-111 | a live port with bytes waiting is started |
| UartTx.UartPort.HandleCtsChange | backup/qemu_linux0/8250/serial_core.c:2494-2515 | CTS stops and restarts the transmitter under flow control and is ignored otherwise |
| UartTx.UartPort.SetCrtscts | backup/qemu_linux0/8250/serial_core.c:1229-1245 | switching CRTSCTS off restarts, switching it on without CTS stops |
| UartTx.UartPort.DoAll | backup/qemu_linux0/8250/serial_core.c:92-111 | on the port: any run from a draining state conserves bytes in ring and chip, and leaves THRI set in shadow and chip for a live non-empty ring, except between a put_char and its flush |
| UartTx.UartPort.Start8250Tx | backup/qemu_linux0/8250/8250.c:1282-1308 | THRI on, with the TXEN-bug kick if it was off, and a disabled 16C950 transmitter on again |
| UartTx.UartPort.Stop8250Tx | backup/qemu_linux0/8250/8250.c:1266-1280 | THRI off in shadow and chip, TXDIS on a 16C950 |
| UartTx.UartPort.TxInterrupt | backup/qemu_linux0/8250/8250.c:1445-1482 | priority character first; a stopped or empty port is disabled; otherwise min(tx_loadsz, pending) bytes go out and an emptied ring disables THRI |
| UartTx.UartPort.LoadChip | backup/qemu_linux0/8250/8250.c:1466-1473 | the do-while loop moves exactly min(tx_loadsz, pending) bytes, and one if tx_loadsz is 0 |
| UartTx.ShadowIer | backup/qemu_linux0/8250/8250.c:1282-1308 | in a draining state the shadow IER and the chip's IER both have THRI for a live non-empty port |
| IrqChain.ListAdd | backup/qemu_linux0/8250/8250.c:1659 | inserting behind the head of a circular list gives the circular list with the new port second |
| IrqChain.ListDel | backup/qemu_linux0/8250/8250.c:1616 | deleting any port of a circular list leaves the circular list of the others, in order |
| IrqChain.WalkGoesRound | backup/qemu_linux0/8250/8250.c:1587 | following `next` from any port of a ring goes round it in order |
| IrqChain.IrqTable.Find | backup/qemu_linux0/8250/8250.c:1637-1643 | the bucket search finds the line's node iff there is one |
| IrqChain.IrqTable.Link | backup/qemu_linux0/8250/8250.c:1629-1677 | a further port goes behind the head with no kernel call; a first one requests the interrupt once; out of memory or refused, everything is as before |
| IrqChain.IrqTable.LinkNewLine | backup/qemu_linux0/8250/8250.c:1662-1673 | a refused request is rolled back completely |
| IrqChain.IrqTable.DoUnlink | backup/qemu_linux0/8250/8250.c:1609-1627 | the port leaves its ring, the head moves on if it was the head, and the last port takes the node out of the hash |
| IrqChain.IrqTable.Unlink | backup/qemu_linux0/8250/8250.c:1679-1701 | the interrupt is freed exactly when the last port of the line goes |
| IrqChain.IrqTable.LineIffPorts | backup/qemu_linux0/8250/8250.c:1609-1701 | between calls a line has a node iff some linked port uses it, its ring holds exactly those ports once each, and exactly these lines have a handler |
| IrqChain.OneMoreCall | backup/qemu_linux0/8250/8250.c:1669-1698 | one more request without a handler, or free with one, keeps the record of calls disciplined; the table's invariant carries this through every Link and Unlink |
| IrqChain.Interrupt | backup/qemu_linux0/8250/8250.c:1561-1600 | calls go round the ring in order, at most 514 rounds; the loop ends at the first call that completes a quiet round, or gives up at exactly 514; `handled` iff some call reported work |
| IrqChain.RoundCovers | backup/qemu_linux0/8250/8250.c:1554-1559 | any n calls in a row meet every port of a ring of n |
| IrqChain.RoundRepeatsNone | backup/qemu_linux0/8250/8250.c:1574-1596 | and meet none twice |
| IrqChain.IrqTable.Serve | backup/qemu_linux0/8250/8250.c:1554-1600 | on the table: only ports of the line are asked, and unless the handler gives up each of them was asked among the last calls and had nothing to do |
| IrqRaces.SoundIffGuarded | backup/qemu_linux0/8250/8250.c:1609-1701 | over every interleaving of search, list section, answer and node removal of startups with shutdowns on a line: nobody points to a freed node and no linked port lacks a handler, iff no node is freed while another port points to it and no interrupt is refused after another port has linked |
| IrqRaces.NextKeepsInv | backup/qemu_linux0/8250/8250.c:1609-1701 | such a guarded step keeps: the list is the linked ports and the one that asks, each once; handler and node are there exactly when needed; requests and frees alternate |
| IrqRaces.QuietLine | backup/qemu_linux0/8250/8250.c:1609-1701 | when no call is under way after a guarded run: node and handler exist iff some port is linked, and the list is the linked ports |
| IrqRaces.OneAtATimeIsSound | backup/qemu_linux0/8250/8250.c:1629-1701 | if no two calls overlap on a line, every step is guarded |
| IrqRaces.RefusedBehind | backup/qemu_linux0/8250/8250.c:1658-1673 | a run after which a port is linked without a handler, and its shutdown frees an interrupt never granted |
| IrqRaces.FreedBehind | backup/qemu_linux0/8250/8250.c:1609-1627 | a run in which a node is freed that another startup has found |
| Divisor.ClosestIff | backup/qemu_linux0/8250/serial_core.c:413-427 | for every rate above the minimum and up to the maximum, 16 * baud * quot misses the clock by at most 8 * baud iff the 32-bit sum does not wrap, and quot is 0 iff it does |
| Divisor.WrapGivesZero | backup/qemu_linux0/8250/serial_core.c:424 | a clock of 2^32 - 1 Hz at 115200: the rate is in range and the divisor is 0 |
| Divisor.DivisorIsNearest | backup/qemu_linux0/8250/serial_core.c:424 | without a wrap no divisor comes closer to the clock |
| Divisor.DivisorFits | backup/qemu_linux0/8250/8250.c:2271-2280 | in that range the divisor fits 16 bits, also after the low-byte correction for Oxford chips |
| Divisor.RangeHasNoMagic | backup/qemu_linux0/8250/8250.c:2211-2229 | in that range the magic divisors of SMSC chips are never chosen |
| Divisor.MinimumFitsIff | backup/qemu_linux0/8250/8250.c:2271-2274 | at the minimum itself the divisor fits iff the clock is below 1048568 times the rate (or the sum wraps) |
| Divisor.MinimumOverflows | backup/qemu_linux0/8250/8250.c:2271-2274 | with a 1843200 Hz clock the minimum rate asks for divisor 115200 |
| Divisor.ClippedFits | backup/qemu_linux0/8250/serial_core.c:385-398 | a rate clipped to min + 1 or max - 1 always fits |
| Divisor.ClipIsNearest | backup/qemu_linux0/8250/serial_core.c:385-398 | of the rates strictly between the limits the clipped one is nearest to the request |
| Divisor.CorrectedMeans | backup/qemu_linux0/8250/8250.c:2279-2280 | a corrected divisor has a non-zero low byte and differs by at most one, from a zero low byte only |
| Divisor.SpecialRates | backup/qemu_linux0/8250/8250.c:2211-2229 | the magic divisors of a quarter and an eighth of the clock, and the custom divisor at 38400 |
| Divisor.LatchTakesDivisor | backup/qemu_linux0/8250/8250.c:491-495 | the driver's four register writes leave the emulated UART with the low 16 bits as divisor, LCR restored, and nothing transmitted |
| Divisor.LatchExactIff | backup/qemu_linux0/8250/8250.c:491-495 | the latched divisor is the computed one iff that is at most 0xffff |
| CanCodec.RoundTrip | source/linux_driver/pelican_mode/can_pci.c:8-89 | for every frame with dlc <= 8, any buffer that starts with its encoding decodes to the carried frame: all 29 bits, RTR, dlc and data of an extended frame, all but identifier bit 2 of a standard one, data past the length zeroed |
| CanCodec.ExactIff | source/linux_driver/pelican_mode/can_pci.c:33-41 | a well-formed frame gets across whole iff it is extended or its identifier bit 2 is clear |
| CanCodec.BitTwoIsLost | source/linux_driver/pelican_mode/can_pci.c:40 | identifier 0x124 arrives as 0x120 |
| CanCodec.BasicRoundTrip | source/linux_driver/basiccan_mode/can_pci.c:7-53 | BasicCAN keeps all 11 identifier bits, RTR, dlc and data of every frame |
| CanCodec.BasicExactIff | source/linux_driver/basiccan_mode/can_pci.c:7-53 | a well-formed frame gets across whole iff it is a standard frame |
| CanPort.SendMessage | source/linux_driver/pelican_mode/can_pci.c:8-53 | the encoding stands in registers 16 to 28 at most, the request bit is set, no other register is touched |
| CanPort.ReceiveMessage | source/linux_driver/pelican_mode/can_pci.c:56-89 | returns the decoding of registers 16 to 28 and writes nothing but the release command |
| CanPort.BasicSendMessage | source/linux_driver/basiccan_mode/can_pci.c:7-27 | the encoding stands in registers 10 to 19 at most, the request bit is set, no other register is touched |
| CanPort.BasicReceiveMessage | source/linux_driver/basiccan_mode/can_pci.c:30-53 | returns the decoding of registers 20 to 29 and writes nothing but the release command |
| CanLayout.ExtendedRegisters | source/linux_driver/pelican_mode/can_pci.c:11-48 | the registers of an extended frame: length plus 64 plus 128, the four bytes that make 8 times the identifier, the data |
| CanLayout.StandardRegisters | source/linux_driver/pelican_mode/can_pci.c:33-48 | of a standard frame: the two bytes that make 32 times the identifier without its bit 2, the data |
| CanLayout.BasicRegisters | source/linux_driver/basiccan_mode/can_pci.c:7-27 | of a BasicCAN frame: two bytes that make 32 times the identifier, plus 16 for a remote frame, plus the length |
| CanLayout.DecodedFrom | source/linux_driver/pelican_mode/can_pci.c:56-89 | for every receive buffer, the emulator's too: length, format, identifier as that number divided by 8 or 32 with the flags added, data |
| CanLayout.BasicDecodedFrom | source/linux_driver/basiccan_mode/can_pci.c:30-53 | the same for BasicCAN |
| CanLayout.IdentifierOne | source/linux_driver/pelican_mode/can_pci.c:21-31 | extended identifier 1 is sent as 00 00 00 08, and 08 00 00 00 is received as 0x1000000 |
| CanEmulator.ModeBits | backup/qemu_linux4/can-pci.c:82-140 | the mode register keeps five bits, bit 0 being reset mode |
| CanEmulator.CanState.constructor | backup/qemu_linux4/can-pci.c:11-15 | the card starts in reset mode with its transmit buffer reported free |
| CanEmulator.CanState.Buff2Frame | backup/qemu_linux4/can-pci.c:53-79 | the emulator's decoder, which masks nothing, agrees with the driver's on every buffer with dlc <= 8 |
| CanEmulator.CanState.MemWrite | backup/qemu_linux4/can-pci.c:82-140 | mode, buffer window (acceptance registers in reset mode), transmit request and acknowledgement, and nothing for any other address |
| CanEmulator.CanState.MemRead | backup/qemu_linux4/can-pci.c:142-172 | mode and status; 0xff elsewhere, 0 past the region |
| CanEmulator.TestDriver.DeviceOpen | backup/qemu_linux4/qemu_test/qemu_test_pci.c:20-57 | from any mode the handshake succeeds within its three shared retries and leaves operation mode, with nothing sent |
| CanEmulator.TestDriver.Transmit | backup/qemu_linux4/qemu_test/qemu_test_pci.c:113-153 | end to end through the registers: in operation mode the backend gets the carried frame and the interrupt is raised; in reset mode it gets the old buffer |
| CanEmulator.TestDriver.DeviceWrite | backup/qemu_linux4/qemu_test/qemu_test_pci.c:86-156 | size errors change nothing; otherwise the frame is transmitted within the call and 0 is returned |
| CanEmulator.TestDriver.IrqHandler | backup/qemu_linux4/qemu_test/qemu_test_pci.c:10-17 | the acknowledgement lowers the interrupt and nothing else happens |
| QueueSpec.StepKeepsTxInv | source/linux_driver/pelican_mode/can_pci.c:93-130 | every step but an unguarded begin of a write and an interrupt that misses its frame keeps: a waiting frame has a transmission or its interrupt ahead, that interrupt finds the buffer released, and so it will be when the write in progress ends; the step neither overtakes nor requests into a locked buffer |
| QueueSpec.SafeWriteIff | source/linux_driver/pelican_mode/can_pci.c:236-267 | a write that nothing interrupts keeps the order and leaves a released buffer for what an interrupt then sends, whatever the frame, iff its guard holds: no transmit interrupt pending, or queue empty and buffer released, or queue full |
| QueueSpec.CleanIffUndisturbed | source/linux_driver/pelican_mode/can_pci.c:93-267 | over every run, interrupts inside writes included: no write overtakes, no request finds the buffer locked and no frame is stranded, at any point or if the write in progress then ended, iff every write began with that guard and no transmit interrupt met an empty queue between a status read that found the buffer locked and the queueing |
| QueueSpec.WindowIff | source/linux_driver/pelican_mode/can_pci.c:254-261 | whatever comes between the halves of a guarded write: the invariant holds at its end iff no transmit interrupt met an empty queue while the frame was to be queued; otherwise the frame is stranded |
| QueueSpec.StrandedStays | source/linux_driver/pelican_mode/can_pci.c:254-264 | a stranded frame stays, however the controller interrupts, until another is written, which overtakes it |
| QueueSpec.FramesLeaveInOrder | source/linux_driver/pelican_mode/can_pci.c:236-267 | over every run without such writes and interrupts, frames sent, queued and in hand equal those before, then those accepted, in order, and every request found the buffer released |
| QueueSpec.PairedIff | source/linux_driver/basiccan_mode/can_pci.c:56-95 | with every completion handled at once the guard always holds, and what remains is that no interrupt misses the frame of a write it interrupts |
| QueueSpec.WholeNeverMisses | source/linux_driver/basiccan_mode/can_pci.c:194-225 | with undivided writes no interrupt misses a frame |
| QueueSpec.PairedAndWhole | source/linux_driver/basiccan_mode/can_pci.c:56-95 | with both, nothing goes wrong in any run, and a non-empty queue means a locked transmit buffer |
| QueueSpec.ChecksHold | source/linux_driver/basiccan_mode/can_pci.c:171-215 | what a read or the first half of a write has checked stays true until the call goes on, so neither need be divided |
| QueueSpec.WriteInOrderIff | source/linux_driver/basiccan_mode/can_pci.c:194-225 | of a single write that nothing interrupts: requests and queue stay in order, whatever the frame, iff the queue is empty or full or the transmit buffer locked |
| QueueSpec.OvertakingRun | source/linux_driver/pelican_mode/can_pci.c:254-264 | a run in which a write before the interrupt overtakes a queued frame, which is then put into a locked buffer |
| QueueSpec.ClobberingRun | source/linux_driver/pelican_mode/can_pci.c:254-264 | a run that keeps the order of requests at every write, and whose interrupt puts a frame into a locked buffer |
| QueueSpec.StrandingRun | source/linux_driver/pelican_mode/can_pci.c:254-264 | a run that meets the guard at every write and handles every completion at once, in which a frame is stranded and the next overtakes it |
| QueueSpec.QueueDrains | source/linux_driver/pelican_mode/can_pci.c:99-108 | n queued frames have left, in order, after n completions with their interrupts, also in the middle of a write |
| QueueSpec.ReceptionLedger | source/linux_driver/pelican_mode/can_pci.c:110-122 | over every run: frames leave the controller in order of arrival, and reads return in that order exactly those that found room |
| QueueSpec.PeliCanLosesNothing | source/linux_driver/pelican_mode/can_pci.c:110-122 | read, queued and waiting frames are all that arrived, in order |
| QueueSpec.BasicCanLosesNothingIff | source/linux_driver/basiccan_mode/can_pci.c:71-87 | nothing is lost iff no interrupt finds a frame and a full queue; otherwise one frame per such interrupt |
| QueueSpec.OverrunIff | source/linux_driver/pelican_mode/can_pci.c:124-127 | over every run an overrun is pending iff one came and no interrupt since found room for a frame, or none |
| QueueSpec.Results | source/linux_driver/pelican_mode/can_pci.c:211-252 | what the calls return, in numbers |
| CanQueue.CanDev.DeviceWrite | source/linux_driver/pelican_mode/can_pci.c:236-267 | uninterrupted: size error, full queue, direct transmission or queueing, with the result and the whole new state |
| CanQueue.CanDev.BeginWrite | source/linux_driver/pelican_mode/can_pci.c:245-255 | the checks, the frame in the slot behind the queue, and the status as read |
| CanQueue.CanDev.EndWrite | source/linux_driver/pelican_mode/can_pci.c:256-264 | the slot, untouched since by any interrupt, is sent or joins the queue as that status said |
| CanQueue.CanDev.DeviceRead | source/linux_driver/basiccan_mode/can_pci.c:171-192 | the oldest frame, 0 if there is none, or a size error |
| CanQueue.CanDev.IrqHandler | source/linux_driver/basiccan_mode/can_pci.c:56-95 | transmit, receive and overrun handling under both full-queue policies, with the whole new state |
| CanQueue.CanDev.DoAll | source/linux_driver/pelican_mode/can_pci.c:93-267 | on driver and controller: any run, interrupts between the halves of a write included, ends in the state of the queue machine and reads what that reads |
| CanQueue.CanDev.DoAllSafely | source/linux_driver/pelican_mode/can_pci.c:93-267 | from an empty driver, undisturbed: frames sent, queued and in hand are those accepted, read and queued frames are those kept, and with PeliCAN read, queued and waiting frames are all that arrived, in order |
| CanQueue.CanDev.InIsOutPlusCount | source/linux_driver/pelican_mode/can_pci.c:93-130 | `in == (out + count) % 6` for both queues |
| CanQueue.CanDev.constructor | source/linux_driver/pelican_mode/can_pci.c:187-194 | opening the device leaves both queues empty |

## Left out

- Serial.SerialState.IoportWrite: does not model `serial_update_parameters` and the character time, because they only set deadlines and backend parameters; timers are armed or not, and fire as steps.
- Serial.SerialState.ReadRbrReg: does not model that `qemu_chr_accept_input` may deliver at once from inside the read; such a delivery is the step that follows.
- Serial.SerialState.Do: does not model wakeup requests, save and restore, or accesses wider than a byte; after a restore the invariant need not hold.
- MultiSerial.PciMultiSerial.Do: does not model that a port may change its line more than once within a step; the level is passed on once, after the step.
- Mux.MuxDriver.ChrRead: does not model the output side (timestamps, help text, the exit message), commands run by a frontend during its callbacks, or 32-bit overflow of the counters; it assumes what the flow control rests on: a byte, a break or the loss of focus lowers a frontend's room by at most one.
- Mux.MuxDriver.DoAll: stops at a read that does not fit; what an overflowing ring then delivers is not modelled, only when it overflows; nor are break and open events that come from the backend, which go to all registered frontends and touch no stream.
- Mux.MuxDriver.Register: does not model the registration of the same frontend twice.
- RingBuf.RingBufDriver.Open: does not model option parsing and allocation failure.
- Telnet.TcpCharDriver.ProcessIacBytes: does not model sockets, or commands other than by the code's own three-byte rule.
- MemChar.MemoryDriver.Write: does not model a `size_t` overflow of the doubled capacity, or a negative length.
- UartTx.UartPort.Write: does not model a missing driver state (the code warns and returns an error), or the wakeups of writers, which change no modelled state.
- UartTx.UartPort.Start8250Tx: does not model saved LSR flags or the difference between the THRE and TEMT answers; whether the transmitter is idle is a parameter.
- IrqChain.IrqTable.Link: does not model interrupt flags and locks; a call is one step, and `IrqRaces` has the interleavings.
- IrqChain.IrqTable.LineIffPorts: speaks of calls that do not overlap, as `IrqRaces.OneAtATimeIsSound` says they then may.
- IrqRaces.SoundIffGuarded: is about one line, on values, since the lists themselves are in `IrqChain`; that the removal of a node from its bucket without the hash mutex can clash with a search of the same bucket for another line is not modelled.
- IrqChain.Interrupt: does not model what the port handlers do; what each call reports is a parameter, and the ring does not change during a run since its lock is held.
- Divisor.ClippedFits: does not model `uart_get_baud_rate` as a whole, which rests on tty functions; only its clip targets.
- Divisor.ClosestIff: does not model the error that the low-byte correction of Oxford chips adds, nor a baud of 0.
- CanCodec.RoundTrip: requires a dlc of at most 8, the largest a frame can have.
- CanPort.SendMessage: does not model the order of the register writes on the real controller; the emulated card, where the order matters, is driven register by register in `CanEmulator.TestDriver.Transmit`.
- CanEmulator.CanState.Buff2Frame: takes the identifier as 0 on entry, since the caller leaves it unset, and a length code of at most 8.
- CanEmulator.TestDriver.DeviceOpen: does not model a card that ignores mode writes; on the emulated one every write takes effect.
- CanQueue.CanDev.DeviceWrite: does not model failures of the copy from user space.
- CanQueue.CanDev.BeginWrite: requires that no other write is in progress; two callers inside `device_write` at once, who would share a slot, are not modelled.
- CanQueue.CanDev.Do: does not model a second processor; a handler runs to its end, and changing a counter is one step.
- CanQueue.CanDev.IrqHandler: does not model the controller's own FIFO limit; an overrun there is a step that sets the overrun flag.
- Serial.SerialFifo.Put: requires room in the transmit FIFO; the code would overwrite its oldest byte, in a state that no handler leaves behind.
- CanPort.ReceiveMessage: requires a length code of at most 8 in the buffer, as a frame carries at most eight data bytes.
- CanPort.BasicReceiveMessage: requires a length code of at most 8 in the buffer, as a frame carries at most eight data bytes.
- CanEmulator.CanState.MemWrite: requires a length code of at most 8 in the buffer when a transmission is requested.
- QueueSpec.PeliCanLosesNothing: counts the frames that the controller stored; those it loses itself, with an overrun, are not among the arrivals.
- PCI and PnP probing, chip detection, board tables and power management: they depend on hardware and are mostly tables.
- Sockets, ptys, parallel ports, Windows backends, option parsing and QMP: I/O over libraries that are not part of this model.
- The receive path, modem status and console code of the 8250 driver: input to the tty layer and console output are not part of this model.
