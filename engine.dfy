/** The bit shift-register engine driven by the link clock interrupt:
    `gb_sin`, `gb_sout` and the bit counter `gb_bit`.

    In sniff mode every rising clock edge samples both data lines into the
    two accumulators, most significant bit first, and the 8th edge sends the
    two assembled bytes to the host. In slave mode a falling edge samples the
    master's line into `gb_sout` and shifts the transmit register `gb_sin`; a
    rising edge drives bit 7 of `gb_sin` onto the slave-output pin.

    These are the register updates as functions; what the 8th slave edge does
    with the queue and the printer tracker belongs to the `Link` class. */
module Engine {
  import opened Bits

  /** `gb_sin`, `gb_sout`, `gb_bit`. */
  datatype Shifter = Shifter(sin: Byte, sout: Byte, bit: Byte)

  const IDLE: Shifter := Shifter(0, 0, 0)

  /** The registers after one edge, and the bytes that edge sent to the host. */
  datatype Edge = Edge(next: Shifter, sent: seq<Byte>)

  /** The two data lines sampled at one sniffed edge. */
  datatype Sample = Sample(pc0: bool, pc1: bool)

  /** `exti0_isr_sniff`, with the levels read from the two data lines. */
  function SniffStep(s: Shifter, pc0: bool, pc1: bool): (e: Edge)
    ensures s.bit < 8 ==> e.next.bit < 8
    ensures e.sent != [] <==> s.bit == 7
    ensures e.sent != [] ==> e.next == IDLE && |e.sent| == 2
  {
    var sin := OrBit(s.sin, pc0);
    var sout := OrBit(s.sout, pc1);
    var bit := (s.bit + 1) % 0x100;
    if bit == 8 then Edge(IDLE, [sin, sout])
    else Edge(Shifter(Shl1(sin), Shl1(sout), bit), [])
  }

  /** The falling-edge half of `exti0_isr_slave` up to the byte boundary:
      sample the master's line, count, and on the 8th edge send the byte and
      clear `gb_sout` and `gb_bit`. Reloading `gb_sin` is the caller's. */
  function SlaveFall(s: Shifter, pc1: bool): (e: Edge)
    ensures s.bit < 8 ==> e.next.bit < 8
    ensures e.sent != [] <==> s.bit == 7
    ensures e.sent != [] ==> e.next == Shifter(s.sin, 0, 0) && |e.sent| == 1
  {
    var sout := OrBit(s.sout, pc1);
    var bit := (s.bit + 1) % 0x100;
    if bit == 8 then Edge(Shifter(s.sin, 0, 0), [sout])
    else Edge(Shifter(Shl1(s.sin), Shl1(sout), bit), [])
  }

  function Sins(edges: seq<Sample>): (bs: seq<bool>)
    ensures |bs| == |edges|
  {
    seq(|edges|, i requires 0 <= i < |edges| => edges[i].pc0)
  }

  function Souts(edges: seq<Sample>): (bs: seq<bool>)
    ensures |bs| == |edges|
  {
    seq(|edges|, i requires 0 <= i < |edges| => edges[i].pc1)
  }

  /** The sniff engine over a run of edges, with everything it sent. */
  ghost function SniffRun(s: Shifter, edges: seq<Sample>): (e: Edge)
    decreases |edges|
  {
    if edges == [] then Edge(s, [])
    else
      var e := SniffRun(s, edges[..|edges| - 1]);
      var last := edges[|edges| - 1];
      var l := SniffStep(e.next, last.pc0, last.pc1);
      Edge(l.next, e.sent + l.sent)
  }

  lemma {:induction false} SniffRunAppend(s: Shifter, a: seq<Sample>, b: seq<Sample>)
    ensures SniffRun(s, a + b).next == SniffRun(SniffRun(s, a).next, b).next
    ensures SniffRun(s, a + b).sent == SniffRun(s, a).sent + SniffRun(SniffRun(s, a).next, b).sent
    decreases |b|
  {
    if b == [] {
      assert a + b == a;
    } else {
      var b' := b[..|b| - 1];
      assert (a + b)[..|a + b| - 1] == a + b';
      assert (a + b)[|a + b| - 1] == b[|b| - 1];
      SniffRunAppend(s, a, b');
    }
  }

  /** Mid-byte, after `k < 8` edges from idle, each register holds the bits
      sampled so far, MSB first, shifted up one place for the next bit. */
  lemma {:induction false} SniffPrefix(edges: seq<Sample>)
    requires |edges| < 8
    ensures SniffRun(IDLE, edges).next.sin == 2 * FromBits(Sins(edges))
    ensures SniffRun(IDLE, edges).next.sout == 2 * FromBits(Souts(edges))
    ensures SniffRun(IDLE, edges).next.bit == |edges|
    ensures SniffRun(IDLE, edges).sent == []
    decreases |edges|
  {
    if edges != [] {
      var n := |edges| - 1;
      var p := edges[..n];
      var last := edges[n];
      assert edges == p + [last];
      SniffPrefix(p);
      var e := SniffRun(IDLE, p);
      var l := SniffStep(e.next, last.pc0, last.pc1);
      assert SniffRun(IDLE, edges) == Edge(l.next, e.sent + l.sent);
      SniffMidBit(e.next, last, Sins(p), Souts(p));
      SamplesSnoc(p, last);
    }
  }

  /** Or-ing a sampled bit into a register holding `bits` shifted up one place
      gives the reconstruction of `bits` followed by that bit. */
  lemma ShiftIn(acc: Byte, bits: seq<bool>, b: bool)
    requires |bits| < 8 && acc == 2 * FromBits(bits)
    ensures OrBit(acc, b) == FromBits(bits + [b])
    ensures |bits| < 7 ==> Shl1(OrBit(acc, b)) == 2 * FromBits(bits + [b])
  {
    FromBitsSnoc(bits, b);
    if |bits| < 7 {
      ShortBitsBound(bits + [b]);
    }
  }

  /** One sniffed edge in the middle of a byte appends one bit to each
      register's reconstruction. */
  lemma SniffMidBit(s: Shifter, last: Sample, ins: seq<bool>, outs: seq<bool>)
    requires |ins| == |outs| == s.bit < 7
    requires s.sin == 2 * FromBits(ins) && s.sout == 2 * FromBits(outs)
    ensures SniffStep(s, last.pc0, last.pc1).next.sin == 2 * FromBits(ins + [last.pc0])
    ensures SniffStep(s, last.pc0, last.pc1).next.sout == 2 * FromBits(outs + [last.pc1])
    ensures SniffStep(s, last.pc0, last.pc1).next.bit == s.bit + 1
    ensures SniffStep(s, last.pc0, last.pc1).sent == []
  {
    ShiftIn(s.sin, ins, last.pc0);
    ShiftIn(s.sout, outs, last.pc1);
  }

  /** Eight sniffed edges from idle send exactly two bytes, the MSB-first
      reconstruction of each data line, and leave the engine idle. */
  lemma SniffByte(edges: seq<Sample>)
    requires |edges| == 8
    ensures SniffRun(IDLE, edges).next == IDLE
    ensures SniffRun(IDLE, edges).sent == [FromBits(Sins(edges)), FromBits(Souts(edges))]
  {
    var p := edges[..7];
    var last := edges[7];
    assert edges == p + [last];
    SniffPrefix(p);
    var e := SniffRun(IDLE, p);
    var l := SniffStep(e.next, last.pc0, last.pc1);
    assert SniffRun(IDLE, edges) == Edge(l.next, e.sent + l.sent);
    SniffLastBit(e.next, last, Sins(p), Souts(p));
    SamplesSnoc(p, last);
  }

  /** One more sample adds one bit at the end of each line's bits. */
  lemma SamplesSnoc(p: seq<Sample>, last: Sample)
    ensures Sins(p + [last]) == Sins(p) + [last.pc0]
    ensures Souts(p + [last]) == Souts(p) + [last.pc1]
  {
  }

  /** The 8th sniffed edge sends both completed bytes and clears the registers. */
  lemma SniffLastBit(s: Shifter, last: Sample, ins: seq<bool>, outs: seq<bool>)
    requires |ins| == |outs| == s.bit == 7
    requires s.sin == 2 * FromBits(ins) && s.sout == 2 * FromBits(outs)
    ensures SniffStep(s, last.pc0, last.pc1).next == IDLE
    ensures SniffStep(s, last.pc0, last.pc1).sent == [FromBits(ins + [last.pc0]), FromBits(outs + [last.pc1])]
  {
    ShiftIn(s.sin, ins, last.pc0);
    ShiftIn(s.sout, outs, last.pc1);
  }

  /** The byte pairs a correct sniffer reports for a run of whole bytes. */
  ghost function Reconstruct(edges: seq<Sample>): (out: seq<Byte>)
    requires |edges| % 8 == 0
    ensures |out| == 2 * (|edges| / 8)
    decreases |edges|
  {
    if edges == [] then []
    else
      var last := edges[|edges| - 8..];
      ParseRoundTrip(Sins(last));
      ParseRoundTrip(Souts(last));
      Reconstruct(edges[..|edges| - 8]) + [FromBits(Sins(last)), FromBits(Souts(last))]
  }

  /** Any whole number of bytes' worth of edges: `N` edges send exactly `N/8`
      byte pairs, each the MSB-first reconstruction of its eight samples. */
  lemma {:induction false} SniffStream(edges: seq<Sample>)
    requires |edges| % 8 == 0
    ensures SniffRun(IDLE, edges).next == IDLE
    ensures SniffRun(IDLE, edges).sent == Reconstruct(edges)
    decreases |edges|
  {
    if edges != [] {
      var front := edges[..|edges| - 8];
      var last := edges[|edges| - 8..];
      assert edges == front + last;
      SniffStream(front);
      SniffRunAppend(IDLE, front, last);
      SniffByte(last);
    }
  }

  /** The slave engine over a run of bit periods: in each, a rising edge
      drives bit 7 of `gb_sin`, then a falling edge samples the master's bit. */
  datatype Trace = Trace(driven: seq<bool>, next: Shifter, sent: seq<Byte>)

  ghost function SlaveRun(s: Shifter, bits: seq<bool>): (t: Trace)
    decreases |bits|
  {
    if bits == [] then Trace([], s, [])
    else
      var t := SlaveRun(s, bits[..|bits| - 1]);
      var e := SlaveFall(t.next, bits[|bits| - 1]);
      Trace(t.driven + [Bit7(t.next.sin)], e.next, t.sent + e.sent)
  }

  /** Mid-byte, after `k < 8` periods from a freshly loaded `x`: the pin has
      shown the top `k` bits of `x`, `gb_sin` is `x` shifted `k` places, and
      `gb_sout` holds the sampled bits shifted up one place. */
  lemma {:induction false} SlavePrefix(x: Byte, bits: seq<bool>)
    requires |bits| < 8
    ensures SlaveRun(Shifter(x, 0, 0), bits).driven == Serialize(x, |bits|)
    ensures SlaveRun(Shifter(x, 0, 0), bits).next.sin == ShlN(x, |bits|)
    ensures SlaveRun(Shifter(x, 0, 0), bits).next.sout == 2 * FromBits(bits)
    ensures SlaveRun(Shifter(x, 0, 0), bits).next.bit == |bits|
    ensures SlaveRun(Shifter(x, 0, 0), bits).sent == []
    decreases |bits|
  {
    if bits != [] {
      var n := |bits| - 1;
      var p, b := bits[..n], bits[n];
      SlavePrefix(x, p);
      var t := SlaveRun(Shifter(x, 0, 0), p);
      var e := SlaveFall(t.next, b);
      assert SlaveRun(Shifter(x, 0, 0), bits) == Trace(t.driven + [Bit7(t.next.sin)], e.next, t.sent + e.sent);
      SlaveMidBit(t.next, x, p, b);
      assert p + [b] == bits;
      assert Serialize(x, n + 1) == Serialize(x, n) + [Bit7(ShlN(x, n))];
    }
  }

  /** A falling edge in the middle of a byte shifts the presented byte one
      place further and appends the sampled bit to `gb_sout`. */
  lemma SlaveMidBit(s: Shifter, x: Byte, p: seq<bool>, b: bool)
    requires |p| < 7 && s.bit == |p|
    requires s.sin == ShlN(x, |p|) && s.sout == 2 * FromBits(p)
    ensures SlaveFall(s, b).next.sin == ShlN(x, |p| + 1)
    ensures SlaveFall(s, b).next.sout == 2 * FromBits(p + [b])
    ensures SlaveFall(s, b).next.bit == |p| + 1
    ensures SlaveFall(s, b).sent == []
  {
    ShiftIn(s.sout, p, b);
  }

  /** One byte period of the slave: the eight levels driven are `x`, MSB
      first, and the one byte sent is the MSB-first reconstruction of the
      eight sampled bits; the counter and `gb_sout` are cleared. */
  lemma SlaveByte(x: Byte, bits: seq<bool>)
    requires |bits| == 8
    ensures SlaveRun(Shifter(x, 0, 0), bits).driven == Serialize(x, 8)
    ensures FromBits(SlaveRun(Shifter(x, 0, 0), bits).driven) == x
    ensures SlaveRun(Shifter(x, 0, 0), bits).sent == [FromBits(bits)]
    ensures SlaveRun(Shifter(x, 0, 0), bits).next == Shifter(ShlN(x, 7), 0, 0)
  {
    SlavePrefix(x, bits[..7]);
    var t := SlaveRun(Shifter(x, 0, 0), bits[..7]);
    ShiftIn(t.next.sout, bits[..7], bits[7]);
    assert bits[..7] + [bits[7]] == bits;
    SerializeRoundTrip(x);
  }

  /** With nothing queued the slave transmits `0x00`; clocking in
      `1 0 1 1 0 0 1 0` drives eight low levels and reports `0xB2`. */
  lemma SlaveIdleScenario()
    ensures SlaveRun(IDLE, [true, false, true, true, false, false, true, false]).driven
         == [false, false, false, false, false, false, false, false]
    ensures SlaveRun(IDLE, [true, false, true, true, false, false, true, false]).sent == [0xB2]
  {
    var bits := [true, false, true, true, false, false, true, false];
    SlaveByte(0, bits);
    SerializeZero(8);
    ScenarioBits();
  }

  lemma ScenarioBits()
    ensures FromBits([true, false, true, true, false, false, true, false]) == 0xB2
  {
    FromBitsSnoc([], true);
    assert [] + [true] == [true];
    FromBitsSnoc([true], false);
    assert [true] + [false] == [true, false];
    FromBitsSnoc([true, false], true);
    assert [true, false] + [true] == [true, false, true];
    FromBitsSnoc([true, false, true], true);
    assert [true, false, true] + [true] == [true, false, true, true];
    FromBitsSnoc([true, false, true, true], false);
    assert [true, false, true, true] + [false] == [true, false, true, true, false];
    FromBitsSnoc([true, false, true, true, false], false);
    assert [true, false, true, true, false] + [false] == [true, false, true, true, false, false];
    FromBitsSnoc([true, false, true, true, false, false], true);
    assert [true, false, true, true, false, false] + [true] == [true, false, true, true, false, false, true];
    FromBitsSnoc([true, false, true, true, false, false, true], false);
    assert [true, false, true, true, false, false, true] + [false] == [true, false, true, true, false, false, true, false];
  }

  lemma {:induction false} SerializeZero(n: nat)
    ensures forall i :: 0 <= i < n ==> !Serialize(0, n)[i]
  {
    if n > 0 {
      SerializeZero(n - 1);
      ShlNZero(n - 1);
    }
  }

  lemma {:induction false} ShlNZero(n: nat)
    ensures ShlN(0, n) == 0
  {
    if n > 0 {
      ShlNZero(n - 1);
    }
  }
}
