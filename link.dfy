/** The firmware's link layer as one object: the globals of `gb-link.c`
    (`mode`, `slave_mode`, `gb_sin`, `gb_sout`, `gb_bit`, `recv_buf`,
    `printer_state`, `printer_data_len`) and the handlers that update them:
    the clock-edge interrupt (`exti0_isr` with its sniff and slave halves),
    the host-byte interrupt (`usart2_isr`), the printer tracker and the mode
    switch of `main`.

    Pin levels are parameters; the bytes sent to the host and the levels
    driven onto the slave-output pin are recorded in ghost logs. Each handler
    is one atomic step. */
module Link {
  import opened Bits
  import opened CircularBuffer
  import opened Printer
  import opened Engine

  const MODE_SNIFF: Byte := 's' as int
  const MODE_SLAVE: Byte := 'b' as int
  const SLAVE_PRINTER: Byte := 'p' as int
  /** What `main` stores in `mode` and `slave_mode` before a command arrives. */
  const MODE_UNSET: Byte := 'x' as int

  datatype Option<T> = None | Some(value: T)

  /** The three sessions the host can select. */
  datatype Session = SniffSession | SlaveSession | PrinterSession

  /** The command byte that selects each session. */
  function CommandByte(s: Session): (b: Byte)
  {
    match s
    case SniffSession => MODE_SNIFF
    case SlaveSession => MODE_SLAVE
    case PrinterSession => SLAVE_PRINTER
  }

  /** The switch in `main`: which session a host byte selects, if any. */
  function Decode(opt: Byte): (c: Option<Session>)
    ensures c.Some? ==> CommandByte(c.value) == opt
    ensures c.None? ==> forall s: Session :: CommandByte(s) != opt
  {
    if opt == MODE_SNIFF then Some(SniffSession)
    else if opt == SLAVE_PRINTER then Some(PrinterSession)
    else if opt == MODE_SLAVE then Some(SlaveSession)
    else None
  }

  /** The command loop of `main` over the bytes the host sends: unrecognised
      bytes are skipped and the first recognised one selects the session.
      `None` means the host has not yet sent a command. */
  method AwaitCommand(host: seq<Byte>) returns (i: nat, s: Option<Session>)
    ensures i <= |host|
    ensures s.Some? ==> i < |host| && Decode(host[i]) == s
    ensures s.None? ==> i == |host|
    ensures forall j :: 0 <= j < i ==> Decode(host[j]).None?
  {
    i := 0;
    while i < |host|
      invariant i <= |host|
      invariant forall j :: 0 <= j < i ==> Decode(host[j]).None?
    {
      var c := Decode(host[i]);
      if c.Some? {
        return i, c;
      }
      i := i + 1;
    }
    return i, None;
  }

  /** What a completed received byte does to the printer tracker: it is fed
      to `printer_update_state` only in printer emulation. */
  function ByteDone(t: Tracker, slaveMode: Byte, b: Byte): (o: Outcome)
    ensures slaveMode != SLAVE_PRINTER ==> o.next == t && o.replies == []
    ensures slaveMode == SLAVE_PRINTER ==> o == Step(t, b)
  {
    if slaveMode == SLAVE_PRINTER then Step(t, b) else Outcome(t, [])
  }

  /** The byte loaded into `gb_sin` at a byte boundary, after the tracker's
      replies have been pushed: the oldest pending byte, or `0x00` if there
      is none. A reply pushed into an empty queue is loaded at once. */
  lemma NextTransmitByte(q: Ring, replies: seq<Byte>)
    requires q.Wf() && q.Count() + |replies| < BUF_LEN
    ensures PushAll(q, replies).IsEmpty() <==> q.Unread() + replies == []
    ensures !PushAll(q, replies).IsEmpty() ==>
              PushAll(q, replies).Pop().0 == (q.Unread() + replies)[0] &&
              PushAll(q, replies).Pop().1.Unread() == (q.Unread() + replies)[1..]
  {
    PushAllAppends(q, replies);
    if !PushAll(q, replies).IsEmpty() {
      PopFront(PushAll(q, replies));
    }
  }

  class Firmware {
    var mode: Byte
    var slaveMode: Byte
    var gbSin: Byte
    var gbSout: Byte
    var gbBit: Byte
    const recvBuf: CircularBuf
    var printerState: Phase
    var printerDataLen: Word
    /** Bytes written to the host serial port. */
    ghost var sent: seq<Byte>
    /** Levels written to the slave-output pin. */
    ghost var driven: seq<bool>

    /** The queue is well formed and the printer counter invariant holds. */
    ghost predicate PrinterValid()
      reads this, recvBuf
    {
      recvBuf.Valid() && Inv(Tracker(printerState, printerDataLen))
    }

    /** Between edges the bit counter is below 8. */
    ghost predicate Valid()
      reads this, recvBuf
    {
      PrinterValid() && gbBit < 8
    }

    ghost function Shift(): Shifter
      reads this
    {
      Shifter(gbSin, gbSout, gbBit)
    }

    ghost function PrinterTracker(): Tracker
      reads this
    {
      Tracker(printerState, printerDataLen)
    }

    ghost function Queue(): Ring
      reads this, recvBuf, recvBuf.buf
      requires recvBuf.Valid()
    {
      recvBuf.Model()
    }

    /** Power-on state and the start of `main`: zeroed registers, tracker in
        `Magic0`, both mode bytes `'x'`, and the queue cleared. */
    constructor ()
      ensures Valid() && fresh(recvBuf) && fresh(recvBuf.buf)
      ensures mode == MODE_UNSET && slaveMode == MODE_UNSET
      ensures Shift() == IDLE && PrinterTracker() == RESET
      ensures recvBuf.buf[..] == seq(BUF_LEN, _ => 0)
      ensures recvBuf.head == 0 && recvBuf.tail == 0 && Queue().Unread() == []
      ensures sent == [] && driven == []
    {
      recvBuf := new CircularBuf();
      gbSin, gbSout, gbBit := 0, 0, 0;
      printerState, printerDataLen := Magic0, 0;
      mode := MODE_UNSET;
      slaveMode := MODE_UNSET;
      sent, driven := [], [];
      new;
      recvBuf.Clear();
    }

    /** `printer_update_state(b)`. */
    method PrinterUpdateState(b: Byte)
      requires PrinterValid()
      modifies `printerState, `printerDataLen, recvBuf`head, recvBuf.buf
      ensures PrinterValid()
      ensures PrinterTracker() == Step(old(PrinterTracker()), b).next
      ensures Queue() == PushAll(old(Queue()), Step(old(PrinterTracker()), b).replies)
      ensures old(Queue().Count()) < BUF_LEN - 1 ==>
                Queue().Unread() == old(Queue().Unread()) + Step(old(PrinterTracker()), b).replies
    {
      ghost var q := Queue();
      ghost var o := Step(PrinterTracker(), b);
      match printerState {
        case Magic0 =>
          if b == MAGIC_0 {
            printerState := Magic1;
          }
        case Magic1 =>
          if b == MAGIC_1 {
            printerState := Cmd;
          } else {
            printerState := Magic0;
          }
        case Cmd =>
          printerState := Arg0;
        case Arg0 =>
          printerState := LenLow;
        case LenLow =>
          printerDataLen := b;
          printerState := LenHigh;
        case LenHigh =>
          printerDataLen := BitOr(printerDataLen, b * 0x100) % 0x1_0000;
          if printerDataLen != 0 {
            printerState := Data;
          } else {
            printerState := Checksum0;
          }
        case Data =>
          printerDataLen := (printerDataLen - 1) % 0x1_0000;
          printerState := if printerDataLen == 0 then Checksum0 else Data;
        case Checksum0 =>
          printerState := Checksum1;
        case Checksum1 =>
          recvBuf.Push(ACK_BYTE);
          printerState := Ack;
        case Ack =>
          recvBuf.Push(STATUS_BYTE);
          printerState := Status;
        case Status =>
          printerState := Magic0;
      }
      if q.Count() < BUF_LEN - 1 {
        PushAllAppends(q, o.replies);
      }
    }

    /** `printer_reset_state`. */
    method PrinterResetState()
      modifies `printerState, `printerDataLen
      ensures PrinterTracker() == RESET
    {
      printerDataLen := 0;
      printerState := Magic0;
    }

    /** `usart2_isr` on a received host byte `b`: push it, and if the queue was
        empty and no bit of the current byte has been clocked yet, load it
        into the transmit register straight away. */
    method UsartRx(b: Byte)
      requires Valid()
      modifies `gbSin, recvBuf`head, recvBuf`tail, recvBuf.buf
      ensures Valid()
      ensures var q := old(Queue()).Push(b);
              if old(Queue().IsEmpty()) && old(gbBit) == 0
              then gbSin == q.Pop().0 && Queue() == q.Pop().1
              else gbSin == old(gbSin) && Queue() == q
      ensures old(Queue().IsEmpty()) && old(gbBit) == 0 ==> gbSin == b && Queue().Unread() == []
      ensures !(old(Queue().IsEmpty()) && old(gbBit) == 0) && old(Queue().Count()) < BUF_LEN - 1 ==>
                Queue().Unread() == old(Queue().Unread()) + [b]
    {
      var empty := recvBuf.Empty();
      ghost var q := Queue();
      recvBuf.Push(b);
      if empty && gbBit == 0 {
        PushPopEmpty(q, b);
        gbSin := recvBuf.Pop();
      }
    }

    /** What one sniffed edge does: the registers and the host log follow
        `SniffStep`; the queue, the tracker and the pin are untouched. */
    twostate predicate SniffEdgeDone(pc0: bool, pc1: bool)
      reads this, recvBuf, recvBuf.buf
    {
      var e := SniffStep(old(Shift()), pc0, pc1);
      Shift() == e.next && sent == old(sent) + e.sent &&
      driven == old(driven) && PrinterTracker() == old(PrinterTracker()) &&
      unchanged(recvBuf, recvBuf.buf)
    }

    /** `exti0_isr_sniff`, with the levels of the two data lines. */
    method SniffEdge(pc0: bool, pc1: bool)
      requires Valid()
      modifies `gbSin, `gbSout, `gbBit, `sent
      ensures Valid()
      ensures SniffEdgeDone(pc0, pc1)
    {
      gbSin := OrBit(gbSin, pc0);
      gbSout := OrBit(gbSout, pc1);
      gbBit := (gbBit + 1) % 0x100;
      if gbBit == 8 {
        sent := sent + [gbSin, gbSout];
        gbBit := 0;
        gbSin := 0;
        gbSout := 0;
      } else {
        gbSin := Shl1(gbSin);
        gbSout := Shl1(gbSout);
      }
    }

    /** What one slave edge does. A rising edge (`pa0` high) only drives bit 7
        of `gb_sin`. A falling edge samples `pc1` per `SlaveFall`; at the byte
        boundary the byte goes to the host and, in printer emulation, to the
        tracker, and then `gb_sin` is loaded from the queue, or `0x00`. */
    twostate predicate SlaveEdgeDone(pa0: bool, pc1: bool)
      reads this, recvBuf, recvBuf.buf
    {
      old(recvBuf.Valid()) && recvBuf.Valid() &&
      if pa0 then
        driven == old(driven) + [Bit7(old(gbSin))] && Shift() == old(Shift()) && sent == old(sent) &&
        PrinterTracker() == old(PrinterTracker()) && unchanged(recvBuf, recvBuf.buf)
      else
        var e := SlaveFall(old(Shift()), pc1);
        driven == old(driven) && sent == old(sent) + e.sent &&
        if e.sent == [] then
          Shift() == e.next && PrinterTracker() == old(PrinterTracker()) && unchanged(recvBuf, recvBuf.buf)
        else
          var o := ByteDone(old(PrinterTracker()), old(slaveMode), e.sent[0]);
          var q := PushAll(old(Queue()), o.replies);
          PrinterTracker() == o.next && gbBit == 0 && gbSout == 0 &&
          if q.IsEmpty() then gbSin == 0x00 && Queue() == q
          else gbSin == q.Pop().0 && Queue() == q.Pop().1
    }

    /** The byte boundary of `exti0_isr_slave`, entered with `gb_bit == 8`:
        send the byte, feed it to the printer tracker in printer emulation,
        clear the counters and load the next byte to present, or `0x00`. */
    method FinishSlaveByte()
      requires PrinterValid() && gbBit == 8
      modifies `gbSin, `gbSout, `gbBit, `sent, `printerState, `printerDataLen
      modifies recvBuf`head, recvBuf`tail, recvBuf.buf
      ensures Valid()
      ensures sent == old(sent) + [old(gbSout)] && gbBit == 0 && gbSout == 0
      ensures var o := ByteDone(old(PrinterTracker()), slaveMode, old(gbSout));
              var q := PushAll(old(Queue()), o.replies);
              PrinterTracker() == o.next &&
              if q.IsEmpty() then gbSin == 0x00 && Queue() == q
              else gbSin == q.Pop().0 && Queue() == q.Pop().1
      ensures old(Queue().Count()) < BUF_LEN - 1 ==>
                var pending := old(Queue().Unread()) + ByteDone(old(PrinterTracker()), slaveMode, old(gbSout)).replies;
                (pending == [] ==> gbSin == 0x00 && Queue().Unread() == []) &&
                (pending != [] ==> gbSin == pending[0] && Queue().Unread() == pending[1..])
    {
      ghost var q := Queue();
      ghost var o := ByteDone(PrinterTracker(), slaveMode, gbSout);
      sent := sent + [gbSout];
      if slaveMode == SLAVE_PRINTER {
        PrinterUpdateState(gbSout);
      }
      assert Queue() == PushAll(q, o.replies);
      gbBit := 0;
      gbSout := 0;
      if recvBuf.Empty() {
        gbSin := 0x00;
      } else {
        gbSin := recvBuf.Pop();
      }
      if q.Count() < BUF_LEN - 1 {
        NextTransmitByte(q, o.replies);
      }
    }

    /** `exti0_isr_slave`, with the clock level `pa0` (low on a falling edge)
        and the level of the master's data line `pc1`. */
    method SlaveEdge(pa0: bool, pc1: bool)
      requires Valid()
      modifies `gbSin, `gbSout, `gbBit, `sent, `driven, `printerState, `printerDataLen
      modifies recvBuf`head, recvBuf`tail, recvBuf.buf
      ensures Valid()
      ensures SlaveEdgeDone(pa0, pc1)
      ensures !pa0 && old(gbBit) == 7 && old(Queue().Count()) < BUF_LEN - 1 ==>
                var b := OrBit(old(gbSout), pc1);
                var pending := old(Queue().Unread()) + ByteDone(old(PrinterTracker()), slaveMode, b).replies;
                sent == old(sent) + [b] &&
                (pending == [] ==> gbSin == 0x00 && Queue().Unread() == []) &&
                (pending != [] ==> gbSin == pending[0] && Queue().Unread() == pending[1..])
    {
      if !pa0 {
        gbSout := OrBit(gbSout, pc1);
        gbBit := (gbBit + 1) % 0x100;
        if gbBit == 8 {
          FinishSlaveByte();
        } else {
          gbSin := Shl1(gbSin);
          gbSout := Shl1(gbSout);
        }
      } else {
        driven := driven + [Bit7(gbSin)];
      }
    }

    /** `exti0_isr`: the clock-edge interrupt runs the handler of the selected
        mode, and does nothing before a mode is selected. */
    method ExtiIsr(pa0: bool, pc0: bool, pc1: bool)
      requires Valid()
      modifies `gbSin, `gbSout, `gbBit, `sent, `driven, `printerState, `printerDataLen
      modifies recvBuf`head, recvBuf`tail, recvBuf.buf
      ensures Valid()
      ensures old(mode) == MODE_SNIFF ==> SniffEdgeDone(pc0, pc1)
      ensures old(mode) == MODE_SLAVE ==> SlaveEdgeDone(pa0, pc1)
      ensures old(mode) != MODE_SNIFF && old(mode) != MODE_SLAVE ==> unchanged(this, recvBuf, recvBuf.buf)
    {
      if mode == MODE_SNIFF {
        SniffEdge(pc0, pc1);
      } else if mode == MODE_SLAVE {
        SlaveEdge(pa0, pc1);
      }
    }

    /** One case of the switch in `main`: store the mode bytes of the selected
        session, resetting the printer tracker for printer emulation. */
    method Arm(s: Session)
      requires Valid()
      modifies `mode, `slaveMode, `printerState, `printerDataLen
      ensures Valid()
      ensures mode == (if s == SniffSession then MODE_SNIFF else MODE_SLAVE)
      ensures slaveMode == (if s == PrinterSession then SLAVE_PRINTER else old(slaveMode))
      ensures PrinterTracker() == (if s == PrinterSession then RESET else old(PrinterTracker()))
    {
      match s {
        case SniffSession =>
          mode := MODE_SNIFF;
        case PrinterSession =>
          mode := MODE_SLAVE;
          slaveMode := SLAVE_PRINTER;
          PrinterResetState();
        case SlaveSession =>
          mode := MODE_SLAVE;
      }
    }

    /** The command loop of `main`: wait for the first recognised command byte
        from the host and arm its session; without one nothing changes. */
    method SelectMode(host: seq<Byte>) returns (i: nat, s: Option<Session>)
      requires Valid()
      modifies `mode, `slaveMode, `printerState, `printerDataLen
      ensures Valid()
      ensures i <= |host|
      ensures s.Some? ==> i < |host| && CommandByte(s.value) == host[i]
      ensures forall j :: 0 <= j < i ==> Decode(host[j]).None?
      ensures s.Some? ==> mode == (if s.value == SniffSession then MODE_SNIFF else MODE_SLAVE)
      ensures s.Some? ==> slaveMode == (if s.value == PrinterSession then SLAVE_PRINTER else old(slaveMode))
      ensures s.Some? ==> PrinterTracker() == (if s.value == PrinterSession then RESET else old(PrinterTracker()))
      ensures s.None? ==> i == |host| && unchanged(this)
    {
      i, s := AwaitCommand(host);
      if s.Some? {
        Arm(s.value);
      }
    }
  }
}
