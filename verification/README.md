# Verified models of two LCOM drivers

This project models two subsystems of the repository in Dafny and proves what they guarantee.

**The mouse gesture recogniser (lab4).** Interrupt bytes are assembled into three-byte PS/2 packets, decoded, and fed to
a seven-phase machine that accepts an inverted V drawn with the left and then the right button.

- `Bytes`, `MousePacket`: bits, the packet decoder, and the encoding it inverts.
- `PacketFraming`: the packet assembly of the event loops.
- `Gesture`: one event of the recogniser as a function, and the machine as a class with the fields of the C globals.
  Accumulators can be unbounded integers or 32-bit words (`Width`); the class uses 32-bit words.
- `GestureHistory`, `GestureRuns`: what the accumulators mean, as sums over the motions since the last reset; sessions,
  that is, runs from what `init_data` leaves, in whatever phase and with whatever slope window.
- `GestureTheorems`, `GestureCompleteness`, `GestureBounds`: geometry of an accepted stroke, an exact law for every phase
  change in terms of whole histories, soundness and completeness of whole gestures, bounds, and independence of word width.
- `MouseDriver`: the event loops, and the pipeline from bytes to recognised gesture.
- `GestureSessions`: what a session can be trusted for when an earlier one has left a phase and a slope window behind.

**The serial link and the two-player handshake (labuart).**

- `ByteQueue`: the linked byte queue with explicit release of its items. Reading, linking and releasing an item each
  require it to be live, so every verified operation uses no released item and releases none twice.
- `Uart`: the receive path, the direct transmit path and the interrupt handler, over an arbitrary sequence of line states.
- `Handshake`, `NetworkPeer`: one `uart_sync` as a function, and the driver code that computes it.
- `GreedyMatch`: what the letter index of a waiting or a linked peer means, and what it answers.
- `NetworkPair`: two endpoints whose lines carry what the other one sends, as a run of the two-peer system.
- `HandshakeSystem`, `HandshakeCompletion`, `HandshakeStall`, `HandshakePowerOn`: two peers and two wires, over all
  interleavings.
- `PacketCodec`: the three-byte player packet.

Inputs from outside are parameters: the outcome of each mouse interrupt, what each look at the line status shows, what the
transmitter shows, the interrupt id, and the order in which the two peers act. A run is any sequence of these.

Three results say where the code falls short of what one would expect of it, and exactly when:

- A session should end in EXIT only after a gesture drawn in it. `init_data` restores neither the phase nor the slope
  window, so this depends on what an earlier session left behind, for instance one given up when `driver_receive` failed.
  `SoundFromPhase`: the starting phase guarantees it exactly when it is INITIAL, whatever window is left.
  `SoundFromLeftover`: outside DRAW_LEFT it holds exactly from INITIAL, and from DRAW_RIGHT with a window of 19 packets that
  no next motion can save; `ExitsWithoutLeftStroke` has the exits from everywhere else. `SoundFromLeftStroke`: from DRAW_LEFT
  it holds with an empty window or one that no motion can save, and fails where one motion that is no stroke is accepted
  on top of the window, as it is on every rising one of fewer than 19 packets (`RisingWindowSteals`). `LeftBehind`: first sessions leave such states.
- Two peers that power up should get connected. `PowerOn`: as long as nothing is lost and nobody times out, they go through
  the 23 deliveries of the handshake exactly when the second cleanup takes the first join request; otherwise both requests
  are on the wire at once, and nobody ever links. `StartIsReachable` and `CrossingIsReachable` are a run of each kind.
- `uart_ih` should send when the interrupt id says that the transmitter is empty. It tests the last byte it received
  instead. `SendsAsIdAsks`: the decision is the one the id asks for exactly when no byte was taken or the last one has the
  same bit 1. `ReceiveInterruptAsksToSend` and `SendOnReceive` are an interrupt that only announces data and sends a byte.

One name promises more than its function does: `empty_transmit_queue` only asks whether the queue is empty, and so does
`Port.EmptyTransmitQueue`.

The slope tests divide two integers in double precision. `Quotient` gives them the values IEEE 754-2008 prescribes
(sections 5.11, 7.2 and 7.3): a zero divisor yields an infinity or NaN, and NaN fails every comparison. Finite quotients
are compared exactly, which agrees with the rounded comparison: a quotient of two 32-bit integers that is not 1 differs
from 1 by more than the rounding step.

## Model

| member | source | states |
|---|---|---|
| MousePacket.Int9ToInt16 | lab4/kbc.c:333-342 | the result is the nine-bit two's complement value: in -256..255, congruent to the low byte, negative exactly when the sign bit is set |
| MousePacket.FieldsByDivision | lab4/kbc.c:344-368 | every button, overflow flag and delta of a decoded packet, as a quotient of the bytes |
| MousePacket.DecodeInvertsEncode | lab4/kbc.c:344-368 | every report with deltas in -256..255 comes back from its wire form |
| MousePacket.EncodeInvertsDecode | lab4/kbc.c:344-368 | a triple is the wire form of what it decodes to exactly when its first byte has the sync bit |
| PacketFraming.Assembler.Feed | lab4/lab4.c:224-241 | one interrupt outcome handled by the loop body: the stored bytes and the packet, if any, are those of the assembly model |
| PacketFraming.FramingIsSound | lab4/lab4.c:68-91 | for every stream of outcomes the packets are ordered, disjoint, contiguous triples of valid bytes led by a byte with bit 3 |
| PacketFraming.InvalidResynchronises | lab4/lab4.c:71-74 | an invalid byte cuts the stream into two parts that are framed independently |
| PacketFraming.JunkIsSkipped | lab4/lab4.c:76-78 | a valid byte without the sync bit that finds nothing stored is skipped, and the rest is framed as if it had not come |
| PacketFraming.SyncByDivision | lab4/i8042.h:81 | a packet begins with a byte whose quotient by 8 is odd |
| PacketFraming.FramingRoundTrip | lab4/lab4.c:76-91 | a concatenation of well-formed packets comes back exactly, with nothing stored |
| MouseDriver.MouseTestPacket | lab4/lab4.c:58-99 | prints exactly the packets decoded so far and stops at the interrupt that completes packet number cnt |
| Gesture.SlopeTests | lab4/mouse_state.c:68-201 | the four slope tests of the source as inequalities between the two displacements, for every sign and for a divisor of zero |
| Gesture.WrapsAround | lab4/mouse_state.h:27-41 | a 32-bit accumulator holds the value in its range that differs from the exact one by a multiple of 2^32 |
| GestureHistory.QuotientsDecide | lab4/mouse_state.c:66-88 | the slope tests of either side decide whether the motions go over the diagonal, stated on net dx and net dy alone |
| Gesture.Machine.InitData | lab4/mouse_state.c:10-17 | resets buttons, displacement and tolerance sums, and leaves phase, slope window and packet count |
| Gesture.Machine.ResetData | lab4/mouse_state.c:19-27 | clears displacement, tolerance sums, slope window and packet count, and keeps phase and buttons |
| Gesture.Machine.PacketToEvent | lab4/mouse_state.c:29-112 | new state and event are those of the event model in 32-bit arithmetic |
| Gesture.Machine.HandleMouseEvent | lab4/mouse_state.c:114-213 | new state is one step of the model in 32-bit arithmetic; the phase is returned |
| GestureRuns.StrokeMotion | lab4/mouse_state.c:50-91 | on a stroke the incremental tolerance and window tests fail exactly when the whole history is not within tolerance; otherwise the state is the summary of the longer history |
| GestureRuns.IdleMotion | lab4/mouse_state.c:93-110 | outside a stroke a motion only adds up; the event is TOL_FAIL exactly at a vertex that is not still, and otherwise LINE_C exactly when net dx since the reset is at least x_len |
| GestureRuns.HeldIsTracked | lab4/mouse_state.c:31-46 | the tracked buttons depend on the packets alone: at most one change per packet, the left one first |
| GestureRuns.AccumulatorsRefineHistory | lab4/mouse_state.c:19-102 | in every session, from its first reset on or from its start if it finds no slope window, every accumulator is the stated sum over the motions since the last reset, and the window covers exactly the last packet_count of them |
| GestureTheorems.StrokeGeometry | lab4/mouse_state.c:50-91 | an accepted stroke has net dx at least x_len, backward motion and motion against it at most tol, and is at least as steep as a diagonal up to tol, on either side |
| GestureTheorems.StrokeAcceptance | lab4/mouse_state.c:128-141 | in every session, once the slope window holds nothing from before it, a stroke is declared done at exactly the packet that completes an accepted history |
| GestureTheorems.PhaseFollowsHistory | lab4/mouse_state.c:114-213 | in every session, once the slope window holds nothing from before it, every phase change follows from the phase, the buttons and the whole history, without the accumulators |
| GestureTheorems.ResetsFollowHistory | lab4/mouse_state.c:118-208 | in such a session data are reset exactly at a change of phase, or when a drawn stroke is spoilt or long enough but not accepted |
| GestureTheorems.GestureSoundness | lab4/mouse_state.c:114-213 | a session that starts in INITIAL, in DRAW_LEFT with no slope window left, or while drawing with its first reset leading to INITIAL or DRAW_LEFT, and reaches EXIT contains, in order and with no other phase between, an accepted left stroke, a left release, a vertex phase within tol, a right press, an accepted right stroke and a right release |
| GestureCompleteness.StrokeCompletes | lab4/mouse_state.c:50-141 | a freshly started stroke drawn acceptably is declared done at its last packet |
| GestureCompleteness.GestureCompletes | lab4/mouse_state.c:114-213 | from the initial phase every gesture drawn in one go reaches EXIT |
| GestureCompleteness.GestureExists | lab4/mouse_state.c:114-213 | every tolerance and length has such a gesture, of eight packets with deltas in the nine-bit range and the bytes a device sends for them |
| GestureBounds.ButtonsMatchPhase | lab4/mouse_state.c:118-208 | in every state of every session whose first one does, such as a first session, the drawing, done and vertex phases agree with the tracked buttons |
| GestureBounds.GestureStaysWithin | lab4/mouse_state.c:55-110 | from the first reset on, or from the start if it finds no slope window, packet_count is below 20, both tolerance sums are at most tol, and x_desl is bounded while drawing and at the vertex |
| GestureBounds.StaysSteady | lab4/mouse_state.c:50-110 | in every session, whatever slope window of fewer than 20 packets it finds, packet_count stays below 20 on a stroke, the tolerance sums at most tol, and x_desl bounded while drawing |
| GestureBounds.LeftoverFits | lab4/mouse_state.c:10-17 | what a session of the 32-bit machine leaves is such a window, if it found one |
| GestureBounds.EverySession | lab4/lab4.c:187-254 | in every session of every process, each with its own arguments, the bounds hold and the word width does not matter |
| GestureBounds.WidthDoesNotMatter | lab4/mouse_state.h:27-41 | in sessions of any length, whatever slope window of fewer than 20 packets they find, the 32-bit machine goes through the same phases, buttons, counts and tolerance sums as one with unbounded integers |
| GestureBounds.NoOverflow | lab4/mouse_state.c:50-53 | fed by decoded packets, the states are equal as long as the slope window found, at most b away from zero, and 256 for each motion since the last reset fit 31 bits |
| GestureBounds.TolerancesStaySmall | lab4/mouse_state.c:61-64 | fed by decoded packets, the tolerance sums never exceed 511, even before the test |
| GestureBounds.MachineAcceptsOnlyGestures | lab4/mouse_state.c:114-213 | when the 32-bit machine reaches EXIT in a session from INITIAL, from DRAW_LEFT with no slope window left, or while drawing with a window that no motion can save, a gesture with the geometry of an inverted V has been drawn |
| MouseDriver.OnInterrupt | lab4/lab4.c:221-247 | one interrupt extends the run by the packet it completes, if any |
| MouseDriver.MouseTestGesture | lab4/lab4.c:206-254 | handles exactly the decoded packets, never one after EXIT, stops before the input ends only at EXIT, and from INITIAL, or DRAW_LEFT with no slope window left, ends there only after an inverted V |
| MouseDriver.MachineAcceptsGestures | lab4/mouse_state.c:114-213 | in any session of the 32-bit machine every gesture drawn in one go from INITIAL reaches EXIT |
| MouseDriver.WireRoundTrip | lab4/lab4.c:221-247 | assembly and decoding give back every sequence of reports from its byte stream |
| MouseDriver.DrawnGestureIsRecognised | lab4/lab4.c:206-254 | the bytes of a gesture drawn in one go from INITIAL drive a session to EXIT |
| MouseDriver.EveryConfigCanExit | lab4/lab4.c:187-254 | for every tolerance and length there is a byte stream that drives a first session to EXIT |
| GestureSessions.SessionIsSound | lab4/lab4.c:206-254 | every session from INITIAL, whatever slope window it finds, and every one while drawing that finds a harmless one (none in DRAW_LEFT, or one that no motion can save), ends in EXIT only after an inverted V |
| GestureSessions.ExitsWithoutLeftStroke | lab4/mouse_state.c:10-17 | for every tolerance and length, from every other phase with any window, in DRAW_RIGHT with any that some motion saves, some byte stream leads to EXIT without a left stroke |
| GestureSessions.StolenStroke | lab4/mouse_state.c:132-141 | from DRAW_LEFT, wherever one motion that is long enough but not steep is accepted on top of the window found, some byte stream leads to EXIT without a gesture |
| GestureSessions.RisingWindowSteals | lab4/mouse_state.c:132-141 | for every tolerance and length the motion (255, 255) is such a motion when the window has fewer than 19 packets and -255 < dx < dy |
| GestureSessions.SoundFromLeftover | lab4/mouse_state.c:10-17 | outside DRAW_LEFT, and for any window in DRAW_RIGHT that a process can leave, EXIT means an inverted V in every session exactly from INITIAL, and from DRAW_RIGHT when the window is one packet short of full and no motion can save it |
| GestureSessions.SoundFromLeftStroke | lab4/mouse_state.c:10-17 | from DRAW_LEFT it does with an empty window or one that no motion can save, and does not where one motion steals |
| GestureSessions.SoundFromPhase | lab4/mouse_state.c:10-17 | EXIT means an inverted V in every session that starts in a phase exactly when that phase is INITIAL |
| GestureSessions.LeftBehind | lab4/lab4.c:206-210 | for every phase, a first session given up after some packet leaves it, with the slope window used for DRAW_LEFT above |
| ByteQueue.Queue.Push | labuart/queue.c:24-37 | the byte is appended; only live items are touched, although back may dangle |
| ByteQueue.Queue.Front | labuart/queue.c:39-42 | the first byte, or 0 when empty |
| ByteQueue.Queue.Pop | labuart/queue.c:44-50 | the first byte is removed and its item released; nothing happens to an empty queue |
| ByteQueue.Queue.Empty | labuart/queue.c:52-54 | whether the contents are empty |
| ByteQueue.Queue.Clean | labuart/queue.c:64-68 | ends with an empty queue and every item ever allocated released |
| ByteQueue.Queue.Delete | labuart/queue.c:56-62 | every item ever allocated is released, and the queue cannot be used again |
| ByteQueue.Replay | labuart/queue.c:15-68 | under every sequence of operations, from creation to deletion, the linked queue answers like a sequence, and as many items are released in the end as bytes were pushed, none of them live |
| ByteQueue.FirstInFirstOut | labuart/queue.c:24-68 | what left the queue followed by what remains is what was pushed, in order |
| Uart.Port.ReceiveByte | labuart/uart.c:138-167 | up to fifteen looks, ended by the first that is not quiet; the result tells byte, line error and nothing apart |
| Uart.LookByShape | labuart/uart.c:142-163 | which looks take a byte, which receive one and which only use up a try, for every outcome of the status and buffer reads |
| Uart.Port.RecvFront | labuart/uart.c:169-177 | hands over the oldest queued byte; receive order is kept |
| Uart.Port.SendByte | labuart/uart.c:109-124 | up to fifteen looks, ended by the first that finds the holding register empty; the byte is written exactly when the last one does |
| Uart.DrainOn | labuart/uart.c:201-205 | each receive of a drain either continues it or ends it at the first fifteen quiet looks in a row |
| Uart.Port.DrainIntoFifo | labuart/uart.c:199-206 | terminates at the first fifteen quiet looks in a row with exactly the bytes received in good order appended to the queue |
| Uart.Port.InterruptHandler | labuart/uart.c:191-218 | queues what arrived in good order, keeps receive order, and exactly when bit 1 of the last byte taken, or else of the interrupt id, is set sends one queued byte, or sets can_send if there is none |
| Uart.InterruptBits | labuart/rs232.h:21-22 | the two bits of the interrupt id, as quotients by 2 and 4 |
| Uart.TransmitInterrupt | labuart/uart.c:208-216 | with an id that announces no data, exactly the first queued byte is sent when its quotient by 2 is odd, and nothing otherwise |
| Uart.SendsAsIdAsks | labuart/uart.c:193-208 | the transmit decision is the one the interrupt id asks for exactly when no byte was taken or the last one taken has the same bit 1 |
| Uart.ReceiveInterruptAsksToSend | labuart/uart.c:199-208 | with id 4, which only announces data, and a single byte J received, the drain takes sixteen looks and the decision is to send |
| NetworkPeer.Serve | labuart/uart.c:138-218 | under every sequence of interrupts, reads and uart_sync calls from power on, what was handed over and what is queued are the bytes received in good order, in order of arrival; only a letter index past its string ends the sequence |
| Uart.SendOnReceive | labuart/uart.c:191-218 | on that interrupt a queued byte is sent |
| NetworkPeer.Endpoint.SyncLink | labuart/networking.c:21-60 | one byte, if any, is read and handled as the waiting-state model says |
| NetworkPeer.Endpoint.SyncConnect | labuart/networking.c:62-99 | one byte, if any, is read and handled as the linked-state model says |
| NetworkPeer.Endpoint.ResetSync | labuart/networking.c:103-106 | the peer is about to clean up, at index 0 |
| NetworkPeer.Endpoint.DiscardArriving | labuart/networking.c:119 | the direct reads of a cleanup keep receive order because the queue is empty, and end at the first fifteen quiet looks in a row |
| NetworkPeer.Endpoint.CleanUp | labuart/networking.c:116-123 | the nested drain loops terminate for every finite input, with an empty queue and 225 quiet looks in a row |
| NetworkPeer.Endpoint.UartSync | labuart/networking.c:108-153 | state, index, tries, queue and bytes sent are those of the model, fall-through included, and receive order is kept |
| Handshake.SyncReads | labuart/networking.c:132-152 | with bytes queued one is read, and the first two when the first links a waiting peer; tries is 0 after a read, and 1 when linking emptied the queue |
| Handshake.SyncIdles | labuart/networking.c:132-152 | with nothing queued nothing is sent, and the sixty-first such call in a row returns the peer to cleanup at index 0 |
| Handshake.SyncCleansUp | labuart/networking.c:113-142 | a cleanup sends a join request and ends waiting, with an empty queue and one try used |
| Handshake.AckSpells | labuart/networking.c:28-39 | an acknowledgement is answered with the next letter of START or BEGIN, and after the last one with P or the connected state |
| Handshake.SyncConserves | labuart/networking.c:108-153 | one call keeps index and tries in bounds, sends only known bytes, and sends at most one byte per byte read plus the join request of a cleanup |
| Handshake.IdlePolls | labuart/networking.c:132-152 | idle polls only count until one more than sixty in a row returns the peer to cleanup |
| Handshake.ConnectedIsFinal | labuart/networking.c:108-153 | a connected peer reads nothing, sends nothing and stays connected |
| Handshake.NulBreaksTheBound | labuart/networking.c:47-57 | the index leaves its string exactly when a NUL is read after a complete word, and then it is 6 and the NUL is acknowledged |
| GreedyMatch.GreedyIsMaximal | labuart/networking.c:21-99 | for either word, from any index and on every stream without acknowledgements, the index is the end of the longest part of the word that is a subsequence of the bytes since it was last started over, by J at index 0 or by P at index 1, and the word is complete exactly when the rest of it has been seen |
| GreedyMatch.GreedyAnswers | labuart/networking.c:40-96 | on such a stream a J is answered with O and a P with B, wherever they are read, every advance with O, and nothing else is answered |
| HandshakeSystem.ClosedSystem | labuart/networking.c:21-153 | in every two-peer run with losses, timeouts and restarts only known bytes travel, no index leaves its string, tries stay at most 60, and no more bytes are in flight than join requests were made |
| HandshakeSystem.PollAlwaysPossible | labuart/networking.c:47-86 | in every reachable net a poll reads no string past its end |
| HandshakeCompletion.HandshakeCompletes | labuart/networking.c:21-153 | from one join request to a peer that waits at any index, without losses and timeouts, in every interleaving the number of deliveries alone determines where both peers are and which byte is in flight |
| HandshakeCompletion.HandshakeAgreement | labuart/networking.c:21-153 | from there one byte is in flight until delivery 23, both peers are connected exactly then, and nobody is connected while the other still waits |
| HandshakeCompletion.MessagesSpell | labuart/networking.h:44-49 | the 23 messages are the characters of JOSOTOAOROTOPBOEOGOIONO |
| HandshakeCompletion.DeliveryIsPossible | labuart/networking.c:108-153 | until then a delivery is at most two steps away |
| HandshakeCompletion.StartIsReachable | labuart/networking.c:113-130 | a run of two steps from power on after which only the join request of the second peer is in flight |
| HandshakeStall.CrossedJoinsStall | labuart/networking.c:21-60 | with both join requests in flight no interleaving without a timeout links anybody |
| HandshakeStall.CrossingIsReachable | labuart/networking.c:113-130 | a run of two steps from power on after which both join requests are in flight |
| HandshakePowerOn.SecondCleanup | labuart/networking.c:113-130 | in every run from power on without losses and returns to cleanup, once both peers have cleaned up, one of them did so while the other waited with nothing to read, and nothing had been read before |
| HandshakePowerOn.PowerOn | labuart/networking.c:21-153 | from then on the number of deliveries determines both peers and the byte in flight, as in the script of 23, exactly when that cleanup took the first join request; otherwise, and only then, both peers wait |
| HandshakePowerOn.ConnectedAfterPowerOn | labuart/networking.c:21-153 | both peers are connected exactly after 23 deliveries that follow such a cleanup |
| NetworkPair.Interrupted | labuart/uart.c:191-218 | an interrupt at one of two endpoints that have come to the end of a two-peer run continues that run, when the bytes it receives are the next ones on the wire, less losses |
| NetworkPair.Polled | labuart/networking.c:108-153 | so does a call of uart_sync, cleanup included; the wire always holds the last bytes the other endpoint has offered |
| PacketCodec.DecodeInvertsEncode | labuart/networking.c:167-214 | a packet comes back, but for its health, exactly when its gun is 0 to 3 and its mouse sign 0 or 1 |
| PacketCodec.FrameByWeights | labuart/networking.c:167-186 | the bytes of a frame as sums: a weight for each key, and 168 plus the weight of the gun |
| PacketCodec.FieldsByDivision | labuart/networking.c:197-214 | every field of a decoded packet, as a quotient of the bytes |
| PacketCodec.EncodeInvertsDecode | labuart/networking.c:167-214 | a frame is what its packet encodes to exactly when its third byte is the confirm marker and at most one gun bit |
| PacketCodec.EncodeData | labuart/networking.c:167-186 | the buffer holds the encoding of the packet |

## Left out

- The MINIX calls and the course framework, printing and delays: they are foreign input and output.
- The keyboard-controller commands and their retries in lab3 and lab4: bounded retries over hardware that is not shown.
- Timers, lab2, lab3 scan loops and labrtc: single-register bit packing and one-bit scan-code machines.
- `mouse_test_async` and `mouse_test_remote`: the same packet assembly with other loop ends.
- GestureSessions.SoundFromLeftStroke: between the windows that no motion can save and those on which one motion steals the stroke, whether several motions can steal it depends on window, tolerance and length together.
- Uart.Port.InterruptHandler: the port holds the contents of its two queues as sequences; that the linked queue has such contents is proved in ByteQueue, and the two are not composed in one heap.
- PacketCodec.EncodeData: C leaves the shift for gun 0 and guns above 31 undefined; the model has what i386 does, a count modulo 32.
- NetworkPeer.Endpoint.CleanUp: only finitely much input is considered; a line that never falls quiet would keep the source's loops running.
- Agreement of the two peers after a lost byte or a timeout: a lost last acknowledgement leaves one peer connected and the other starting over.
- Memory exhaustion: `malloc` is taken to succeed, as the source takes it.
- Signed overflow, undefined in C, is modelled as two's complement wrap-around; no decision ever depends on it.
- The transmit queue of the demo loops, `uart_send_data`, `encode_packet`, `decode_packet` and the game sources: stubs, mixed send paths, or code that is not part of this model.
