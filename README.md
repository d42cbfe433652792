# Game Boy link-cable firmware: link layer

This project models the link layer of a Game Boy link-cable adapter on an
STM32F411, as implemented in `src/gb-link.c`. The firmware sits on the
cable's clock and two data lines and talks to a host over a serial port.
The host picks one of three sessions with a single command byte:

- **sniff** (`'s'`): on every rising clock edge the firmware samples both data
  lines into two 8-bit shift registers. After eight edges it sends the two
  reconstructed bytes to the host.
- **slave** (`'b'`): the firmware acts as the clocked side of the link. On a
  rising edge it drives bit 7 of the byte it is presenting (`gb_sin`). On a
  falling edge it shifts in the master's bit (`gb_sout`). After eight bits it
  sends the received byte to the host and loads the next byte to present
  from a receive queue. That queue is filled by the host.
- **printer emulation** (`'p'`): slave mode plus a framing tracker that
  follows Game Boy Printer packets. It queues the printer's two answer bytes
  (`0x81`, `0x00`) at the right moments.

The modules follow the structure of the C file:

| file | module | models |
|---|---|---|
| `bits.dfy` | `Bits` | `uint8_t`/`uint16_t`, C's bitwise or, `<<` with truncation, `& 0x80`, MSB-first bit strings |
| `ring.dfy` | `CircularBuffer` | `struct circular_buf`: `Ring` is the queue as a value, `CircularBuf` the array and indices updated in place |
| `printer.dfy` | `Printer` | `printer_update_state` as a transition function, and lemmas about whole frames |
| `engine.dfy` | `Engine` | the sniff and slave shift-register steps as functions, and lemmas about whole bytes |
| `link.dfy` | `Link` | the firmware's globals as the class `Firmware`, the interrupt handlers as its methods, and the command switch of `main` |

The queue methods and the handlers that step the printer tracker or the
shift registers are specified by the pure function of the matching step
(`Ring.Push`, `Ring.Pop`, `Step`, `SniffStep`, `SlaveFall`). The properties
of the protocol are proved about those functions: FIFO order, frame replies,
and MSB-first reconstruction. `Firmware.Arm`, `Firmware.SelectMode` and
`Firmware.PrinterResetState` only store constants, and their postconditions
state the new field values directly.

Pin levels are method parameters. The bytes written to the host and the
levels driven onto the data pin are ghost logs (`Firmware.sent`,
`Firmware.driven`). The constants are the ones `src/gb-link.c` defines: `'s'`,
`'b'` and `'p'`, with `'x'` as the unset value. `src/gb-link.h` defines
different values, but the C file does not include it, so it is not part of
this model.

## Model

| member | source | states |
|---|---|---|
| Bits.OrBit | src/gb-link.c:295-296 | or-ing in the sampled bit sets bit 0 when the sample is high and leaves `x` alone otherwise |
| Bits.Shl1 | src/gb-link.c:309-310 | `<<= 1` on a `uint8_t` doubles below `0x80` and drops bit 7 from `0x80` up |
| Bits.Bit7 | src/gb-link.c:348 | `gb_sin & 0x80` is set exactly when the register is at least `0x80` |
| Bits.BitOrDisjoint | src/gb-link.c:256 | or-ing a value below `2^k` with a multiple of `2^k` is their sum |
| Bits.FromBitsInjective | src/gb-link.c:295-310 | two equal-length bit strings with the same MSB-first value are equal |
| Bits.SerializeShift | src/gb-link.c:344-348 | after `n` shifts the register holds `x * 2^n` minus the bits already presented, which have left through the top |
| Bits.SerializeRoundTrip | src/gb-link.c:344-348 | the eight levels presented for byte `x`, read back MSB first, give `x` |
| Bits.ParseRoundTrip | src/gb-link.c:318-344 | eight sampled bits, assembled and presented again, are the same eight bits |
| CircularBuffer.Ring.Count | src/gb-link.c:157-190 | the number of unread bytes is below `BUF_LEN` |
| CircularBuffer.Ring.IsEmpty | src/gb-link.c:199-203 | `buf_empty` holds exactly when there are no unread bytes |
| CircularBuffer.Ring.Clear | src/gb-link.c:192-197 | after `buf_clear` the queue is empty and the slots are unchanged |
| CircularBuffer.PushAppends | src/gb-link.c:178-182 | below capacity, a push appends the byte after the unread bytes |
| CircularBuffer.PushOverflow | src/gb-link.c:178-182 | the push that would make 1024 unread bytes makes the queue look empty, because there is no full check |
| CircularBuffer.PopFront | src/gb-link.c:184-190 | a pop from a non-empty queue returns the oldest unread byte and removes it |
| CircularBuffer.PopFromEmpty | src/gb-link.c:184-190 | a pop from an empty queue returns the stale slot at `tail` and leaves 1023 stale bytes looking unread |
| CircularBuffer.PushPopEmpty | src/gb-link.c:212-218 | a push onto an empty queue followed by a pop returns the pushed byte and leaves the queue empty |
| CircularBuffer.PushAllAppends | src/gb-link.c:178-182 | below capacity, a run of pushes appends the bytes in order |
| CircularBuffer.PopAllDrains | src/gb-link.c:184-190 | `n` pops return the first `n` unread bytes and leave the rest |
| CircularBuffer.Fifo | src/gb-link.c:178-203 | from an empty queue, fewer than 1024 pushes and as many pops return the bytes in push order and leave the queue empty |
| CircularBuffer.InterleavedFifo | src/gb-link.c:178-203 | for any interleaving of pushes and pops on an empty queue (such as one just cleared) in which no pop finds it empty and it never holds 1024 unread bytes, the unread bytes are exactly those pushed and not yet popped, in push order, and the queue is empty exactly when pushes equal pops |
| CircularBuffer.EmptyIffBalanced | src/gb-link.c:192-203 | after a clear and fewer than 1024 pushes, the queue is empty exactly when every pushed byte has been popped |
| CircularBuffer.CircularBuf.constructor | src/gb-link.c:159-172 | static storage: every slot 0, both indices 0, nothing unread |
| CircularBuffer.CircularBuf.Push | src/gb-link.c:178-182 | stores the byte at the old `head`, advances `head` modulo 1024, leaves `tail`; appends below capacity and looks empty on overflow |
| CircularBuffer.CircularBuf.Pop | src/gb-link.c:184-190 | returns `buf[tail]`, advances `tail` modulo 1024, leaves `head`; on a non-empty queue this is the oldest byte and it is removed |
| CircularBuffer.CircularBuf.Clear | src/gb-link.c:192-197 | both indices become 0 and nothing is unread |
| CircularBuffer.CircularBuf.Empty | src/gb-link.c:199-203 | true exactly when no byte is unread |
| Printer.Step | src/gb-link.c:229-282 | each step keeps the counter invariant; only `CHECKSUM1` queues `0x81`, only `ACK` queues `0x00`, and every other state queues nothing |
| Printer.MagicMatching | src/gb-link.c:222-244 | from `MAGIC0` only `0x88` advances; from `MAGIC1` only `0x33` advances, and any other byte resyncs to `MAGIC0` |
| Printer.RunAppend | src/gb-link.c:229-282 | feeding `a + b` is feeding `a`, then `b`, with the replies concatenated |
| Printer.Resync | src/gb-link.c:238-244 | `0x88` followed by any byte other than `0x33` returns to `MAGIC0` and queues nothing |
| Printer.LengthDecode | src/gb-link.c:251-262 | the two length bytes give `printer_data_len == lo + 256*hi`; length 0 goes to `CHECKSUM0`, any other length to `DATA` |
| Printer.HighLengthByte | src/gb-link.c:255-262 | in `LEN_HIGH` the high byte is or-ed in above the stored low byte, giving `lo + 256*hi`, and the tracker moves to `CHECKSUM0` for length 0 and to `DATA` otherwise |
| Printer.PayloadSkip | src/gb-link.c:263-266 | with `k` announced, `DATA` consumes exactly `k` bytes of any value, counting down, and then expects the checksum |
| Printer.HeaderToLength | src/gb-link.c:233-250 | `88 33 c a` from `MAGIC0` reaches `LEN_LOW` and queues nothing |
| Printer.TrailerReplies | src/gb-link.c:267-280 | two checksum bytes and two more bytes queue exactly `0x81, 0x00` and return to `MAGIC0` |
| Printer.FrameReply | src/gb-link.c:229-282 | any whole frame, whatever its command, argument, payload and checksum, followed by two bytes, queues exactly `0x81, 0x00` and ends in the reset state |
| Printer.EmptyFrameReply | src/gb-link.c:229-282 | `88 33 c a 00 00 k0 k1 x y` queues exactly `[0x81, 0x00]` and ends in `MAGIC0` |
| Engine.SniffStep | src/gb-link.c:291-312 | the counter stays below 8; the 8th edge, and only the 8th, sends two bytes and clears all three registers |
| Engine.SlaveFall | src/gb-link.c:317-346 | the counter stays below 8; the 8th falling edge, and only the 8th, sends one byte and clears `gb_sout` and `gb_bit` |
| Engine.SniffRunAppend | src/gb-link.c:291-312 | sniffing `a + b` is sniffing `a`, then `b`, with the sent bytes concatenated |
| Engine.SniffPrefix | src/gb-link.c:295-310 | after `k < 8` edges from idle, each register holds the bits sampled so far, MSB first, shifted up one place, and nothing has been sent |
| Engine.ShiftIn | src/gb-link.c:295-310 | or-ing a sample into a register holding `bits` shifted up gives the value of `bits` followed by that sample |
| Engine.SniffMidBit | src/gb-link.c:295-310 | an edge in the middle of a byte appends one bit to each register's value and sends nothing |
| Engine.SniffLastBit | src/gb-link.c:295-307 | the 8th edge sends both completed bytes and clears the registers |
| Engine.SniffByte | src/gb-link.c:295-311 | eight edges from idle send exactly the MSB-first values of the two lines' samples and leave the engine idle |
| Engine.Reconstruct | src/gb-link.c:299-302 | a run of whole bytes yields two reported bytes per eight edges |
| Engine.SniffStream | src/gb-link.c:291-312 | any whole number of bytes' worth of edges sends exactly the reconstructed byte pairs, in order, and ends idle |
| Engine.SlavePrefix | src/gb-link.c:317-349 | after `k < 8` bit periods from a loaded `x`, the pin has shown the top `k` bits of `x`, `gb_sin` is `x` shifted `k` places, `gb_sout` holds the sampled bits, and nothing has been sent |
| Engine.SlaveByte | src/gb-link.c:317-349 | in one byte period the eight levels driven are `x`, MSB first, and the one byte sent is the MSB-first value of the eight sampled bits |
| Engine.SlaveIdleScenario | src/gb-link.c:338-348 | with `0x00` loaded, clocking in `1 0 1 1 0 0 1 0` drives eight low levels and reports `0xB2` |
| Link.Decode | src/gb-link.c:396-415 | a byte selects a session exactly when it is that session's command byte; every other byte selects none |
| Link.AwaitCommand | src/gb-link.c:394-416 | returns the first recognised command byte in the host's stream, having skipped only unrecognised bytes |
| Link.ByteDone | src/gb-link.c:325-331 | a completed byte drives the printer tracker only in printer emulation; otherwise the tracker is unchanged and nothing is queued |
| Link.NextTransmitByte | src/gb-link.c:325-342 | after the tracker's replies are queued, the byte loaded is the oldest pending byte (a reply queued into an empty queue is loaded at once), or `0x00` when nothing is pending |
| Link.Firmware.constructor | src/gb-link.c:377-381 | zeroed registers, tracker in `MAGIC0`, `mode` and `slave_mode` both `'x'`, queue cleared |
| Link.Firmware.PrinterUpdateState | src/gb-link.c:229-282 | the tracker takes `Step`'s next state and the queue receives `Step`'s replies, appended below capacity |
| Link.Firmware.PrinterResetState | src/gb-link.c:284-289 | the tracker is back in `MAGIC0` with length 0 |
| Link.Firmware.UsartRx | src/gb-link.c:205-220 | the byte is always pushed; if the queue was empty and no bit was in flight it is loaded into `gb_sin` and the queue is empty again |
| Link.Firmware.SniffEdge | src/gb-link.c:291-312 | registers and host log follow `SniffStep`; queue, tracker and pin are untouched |
| Link.Firmware.FinishSlaveByte | src/gb-link.c:321-342 | the byte goes to the host, then to the tracker in printer emulation; the counters are cleared; `gb_sin` gets the oldest pending byte or `0x00` |
| Link.Firmware.SlaveEdge | src/gb-link.c:314-350 | a rising edge only drives bit 7 of `gb_sin`; a falling edge follows `SlaveFall`, and on the 8th it sends the byte and loads the next pending byte, including any reply just queued, or `0x00` |
| Link.Firmware.ExtiIsr | src/gb-link.c:352-369 | runs the sniff handler in mode `'s'`, the slave handler in mode `'b'`, and changes nothing in any other mode |
| Link.Firmware.Arm | src/gb-link.c:397-413 | `'s'` sets mode sniff; `'p'` sets mode slave, `slave_mode` printer and resets the tracker; `'b'` sets mode slave |
| Link.Firmware.SelectMode | src/gb-link.c:394-416 | arms the session of the first recognised command byte: sets `mode` and `slave_mode` as `Arm` does, resets the printer tracker for `'p'` and keeps it for `'s'` and `'b'`; with no such byte nothing changes |

## Left out

- Clock, GPIO, USART and DMA setup (`clock_setup`, `gpio_setup`, `gblink_*_gpio_setup`, `usart_setup`, the DMA setup calls, `rcc_clock_scale`) are hardware register configuration through a library outside this model.
- The DMA interrupt handlers and their `dma_sent`/`dma_recvd` flags are driver plumbing. So is `delay_nop`, which is never called.
- Pin reads, pin writes and serial I/O are not modelled as I/O. Sampled levels are parameters, and what is sent or driven goes into the ghost logs `sent` and `driven`.
- `usart_recv(USART2)` at start-up and the `"\nHELLO\n"` greeting are serial I/O before the command loop. They are not modelled.
- Link.Firmware.UsartRx: the check of the `RXNEIE`/`RXNE` flags is left out. The method models the handler when a byte has been received.
- Link.Firmware.ExtiIsr: `exti_reset_request` only acknowledges the interrupt in hardware, so it is left out.
- Interrupt priorities and preemption between `exti0_isr` and `usart2_isr` are concurrency. Each handler is one atomic step.
- Link.Firmware.UsartRx: the model lets the host-byte handler run in any state. In the firmware the receive interrupt is enabled only by `gblink_slave_gpio_setup` (src/gb-link.c:147-154), so it runs only after a slave or printer session is armed. Which interrupts are enabled is not modelled.
- Link.Firmware.UsartRx: the model keeps the firmware's overwrite of `gb_sin` (src/gb-link.c:216-217). While the queue is empty and `gb_bit == 0`, every host byte is loaded straight into `gb_sin`, so a second host byte that arrives before the next falling edge replaces the first, and the first is never sent to the Game Boy. A byte loaded at a byte boundary (src/gb-link.c:338-341) is lost the same way. No member here promises that every host byte is transmitted.
- Link.Firmware.ExtiIsr: in a sniff session the firmware arms the clock interrupt for rising edges only (src/gb-link.c:124), and in a slave session for both edges (src/gb-link.c:151). The model takes each call as one interrupt and does not model the edge selection.
- Printer.MagicMatching: `printer_magic` is a plain `char` array compared with a `uint8_t` (src/gb-link.c:222-239). The model assumes `char` is unsigned, as on the ARM target. Where `char` is signed, `0x88` reads as -120 and `MAGIC0` never advances.
- The `while (1);` parking loops after a session is armed are not modelled. Arming is one step, and the firmware never reads another command.
- Link.AwaitCommand: it runs over a finite prefix of the host's stream and returns `None` when that prefix has no command byte. The firmware would block and wait for more bytes.
- The unused `len` field of `struct circular_buf` is not modelled.
- `src/gb-link.h` is not part of this model. The C file does not include it.
- The queue is cleared once, in `main`, before the command loop. Arming a session does not clear it, because the code does not.
- The `uint32_t` width of `head` and `tail` is not modelled. Both are always reduced modulo 1024, so they never come close to wrapping.
