/** The printer framing tracker (`printer_update_state`): one received byte at
    a time it follows the frame `88 33 cmd arg lenLo lenHi payload... ck0 ck1`
    and answers with an acknowledgement byte `0x81` and a status byte `0x00`.
    The checksum is consumed, never compared. */
module Printer {
  import opened Bits

  const MAGIC_0: Byte := 0x88
  const MAGIC_1: Byte := 0x33
  const ACK_BYTE: Byte := 0x81
  const STATUS_BYTE: Byte := 0x00

  datatype Phase = Magic0 | Magic1 | Cmd | Arg0 | LenLow | LenHigh | Data | Checksum0 | Checksum1 | Ack | Status

  /** `printer_state` and `printer_data_len`. */
  datatype Tracker = Tracker(phase: Phase, dataLen: Word)

  /** The tracker after one byte and the bytes it pushed for transmission. */
  datatype Outcome = Outcome(next: Tracker, replies: seq<Byte>)

  /** `printer_reset_state`. */
  const RESET: Tracker := Tracker(Magic0, 0)

  /** The counter invariant: only the low length byte has been stored when
      the high one is awaited, and the payload counter is positive in `Data`. */
  ghost predicate Inv(t: Tracker)
  {
    (t.phase == LenHigh ==> t.dataLen < 0x100) && (t.phase == Data ==> t.dataLen > 0)
  }

  /** `printer_update_state(b)`. */
  function Step(t: Tracker, b: Byte): (o: Outcome)
    ensures Inv(t) ==> Inv(o.next)
    ensures t.phase == Checksum1 <==> o.replies == [ACK_BYTE]
    ensures t.phase == Ack <==> o.replies == [STATUS_BYTE]
    ensures t.phase != Checksum1 && t.phase != Ack <==> o.replies == []
  {
    match t.phase
    case Magic0 => Outcome(if b == MAGIC_0 then t.(phase := Magic1) else t, [])
    case Magic1 => Outcome(t.(phase := if b == MAGIC_1 then Cmd else Magic0), [])
    case Cmd => Outcome(t.(phase := Arg0), [])
    case Arg0 => Outcome(t.(phase := LenLow), [])
    case LenLow => Outcome(Tracker(LenHigh, b), [])
    case LenHigh =>
      // printer_data_len |= b << 8, stored back into a uint16_t
      var len := BitOr(t.dataLen, b * 0x100) % 0x1_0000;
      Outcome(Tracker(if len != 0 then Data else Checksum0, len), [])
    case Data =>
      // printer_data_len--, stored back into a uint16_t
      var len := (t.dataLen - 1) % 0x1_0000;
      Outcome(Tracker(if len == 0 then Checksum0 else Data, len), [])
    case Checksum0 => Outcome(t.(phase := Checksum1), [])
    case Checksum1 => Outcome(t.(phase := Ack), [ACK_BYTE])
    case Ack => Outcome(t.(phase := Status), [STATUS_BYTE])
    case Status => Outcome(t.(phase := Magic0), [])
  }

  /** Magic matching: from `Magic0` only `0x88` advances; from `Magic1` only
      `0x33` advances, and any other byte starts the search again. */
  lemma MagicMatching(t: Tracker, b: Byte)
    ensures t.phase == Magic0 ==> Step(t, b).next.phase == (if b == 0x88 then Magic1 else Magic0)
    ensures t.phase == Magic1 ==> Step(t, b).next.phase == (if b == 0x33 then Cmd else Magic0)
  {
  }

  /** The tracker fed `bs` one byte after the other, with every reply in order. */
  function Run(t: Tracker, bs: seq<Byte>): (o: Outcome)
    decreases |bs|
  {
    if bs == [] then Outcome(t, [])
    else
      var o := Step(t, bs[0]);
      var rest := Run(o.next, bs[1..]);
      Outcome(rest.next, o.replies + rest.replies)
  }

  /** One unfolding of `Run`. */
  lemma RunCons(t: Tracker, b: Byte, rest: seq<Byte>)
    ensures Run(t, [b] + rest).next == Run(Step(t, b).next, rest).next
    ensures Run(t, [b] + rest).replies == Step(t, b).replies + Run(Step(t, b).next, rest).replies
  {
    assert ([b] + rest)[0] == b;
    assert ([b] + rest)[1..] == rest;
  }

  /** Feeding `a + b` is feeding `a` and then `b`: the final state. */
  lemma {:induction false} RunAppendNext(t: Tracker, a: seq<Byte>, b: seq<Byte>)
    ensures Run(t, a + b).next == Run(Run(t, a).next, b).next
    decreases |a|
  {
    if a == [] {
      assert a + b == b;
    } else {
      var rest := a[1..];
      assert a == [a[0]] + rest;
      assert a + b == [a[0]] + (rest + b);
      RunCons(t, a[0], rest + b);
      RunCons(t, a[0], rest);
      RunAppendNext(Step(t, a[0]).next, rest, b);
    }
  }

  /** Feeding `a + b` is feeding `a` and then `b`: the replies. */
  lemma {:induction false} RunAppendReplies(t: Tracker, a: seq<Byte>, b: seq<Byte>)
    ensures Run(t, a + b).replies == Run(t, a).replies + Run(Run(t, a).next, b).replies
    decreases |a|
  {
    if a == [] {
      assert a + b == b;
    } else {
      var o := Step(t, a[0]);
      var rest := a[1..];
      assert a == [a[0]] + rest;
      assert a + b == [a[0]] + (rest + b);
      RunCons(t, a[0], rest + b);
      RunCons(t, a[0], rest);
      RunAppendReplies(o.next, rest, b);
      var mid := Run(o.next, rest);
      ConcatAssoc(o.replies, mid.replies, Run(mid.next, b).replies);
    }
  }

  lemma ConcatAssoc(x: seq<Byte>, y: seq<Byte>, z: seq<Byte>)
    ensures x + (y + z) == (x + y) + z
  {
  }

  /** Feeding `a + b` is feeding `a` and then `b`, with the replies in order. */
  lemma RunAppend(t: Tracker, a: seq<Byte>, b: seq<Byte>)
    ensures Run(t, a + b).next == Run(Run(t, a).next, b).next
    ensures Run(t, a + b).replies == Run(t, a).replies + Run(Run(t, a).next, b).replies
  {
    RunAppendNext(t, a, b);
    RunAppendReplies(t, a, b);
  }

  /** A second byte other than `0x33` after `0x88` returns to `Magic0`. */
  lemma Resync(t: Tracker, b: Byte)
    requires t.phase == Magic0 && b != MAGIC_1
    ensures Run(t, [MAGIC_0, b]).next.phase == Magic0
    ensures Run(t, [MAGIC_0, b]).replies == []
  {
    var t1 := Step(t, MAGIC_0).next;
    RunCons(t, MAGIC_0, [b]);
    RunCons(t1, b, []);
    assert [MAGIC_0] + [b] == [MAGIC_0, b];
    assert [b] + [] == [b];
  }

  /** The two length bytes are read little-endian, and a zero length skips
      the payload. */
  lemma LengthDecode(t: Tracker, lo: Byte, hi: Byte)
    requires t.phase == LenLow
    ensures Run(t, [lo, hi]).next.dataLen == lo + 0x100 * hi
    ensures Run(t, [lo, hi]).next.phase == if lo + 0x100 * hi == 0 then Checksum0 else Data
    ensures Run(t, [lo, hi]).replies == []
  {
    var t1 := Step(t, lo).next;
    assert t1 == Tracker(LenHigh, lo);
    RunCons(t, lo, [hi]);
    RunCons(t1, hi, []);
    assert [lo] + [hi] == [lo, hi];
    assert [hi] + [] == [hi];
    HighLengthByte(lo, hi);
  }

  /** The high length byte is or-ed in above the low one, which is addition. */
  lemma HighLengthByte(lo: Byte, hi: Byte)
    ensures Step(Tracker(LenHigh, lo), hi).next.dataLen == lo + 0x100 * hi
    ensures Step(Tracker(LenHigh, lo), hi).next.phase == if lo + 0x100 * hi == 0 then Checksum0 else Data
    ensures Step(Tracker(LenHigh, lo), hi).replies == []
  {
    var len := BitOr(lo, hi * 0x100) % 0x1_0000;
    assert Step(Tracker(LenHigh, lo), hi) == Outcome(Tracker(if len != 0 then Data else Checksum0, len), []);
    HighLengthValue(lo, hi);
  }

  /** `lo | hi << 8`, kept to 16 bits, is `lo + 256 * hi`. */
  lemma HighLengthValue(lo: Byte, hi: Byte)
    ensures BitOr(lo, hi * 0x100) % 0x1_0000 == lo + 0x100 * hi
  {
    var h := hi * 0x100;
    assert h == Pow2(8) * hi by { ShiftedHighByte(hi); }
    var v := BitOr(lo, h);
    assert v == lo + h by { BitOrDisjoint(lo, 8, hi); }
    WordMod(v);
  }

  /** A value that fits in 16 bits is unchanged by truncation to 16 bits. */
  lemma WordMod(v: nat)
    requires v < 0x1_0000
    ensures v % 0x1_0000 == v
  {
  }

  /** `b << 8` is `b` times `2^8`. */
  lemma ShiftedHighByte(hi: Byte)
    ensures Pow2(8) * hi == hi * 0x100
  {
    assert Pow2(8) == 0x100;
  }

  /** With `k` payload bytes announced, the tracker consumes exactly `k` bytes
      of any value in `Data`, counting down, and then expects the checksum. */
  lemma {:induction false} PayloadSkip(k: nat, payload: seq<Byte>)
    requires 0 < |payload| <= k < 0x1_0000
    ensures Run(Tracker(Data, k), payload).next
         == Tracker(if |payload| == k then Checksum0 else Data, k - |payload|)
    ensures Run(Tracker(Data, k), payload).replies == []
    decreases |payload|
  {
    if |payload| > 1 {
      PayloadSkip(k - 1, payload[1..]);
    }
  }

  /** A whole frame: magic, command, argument, little-endian payload length,
      payload, and two checksum bytes. */
  function Frame(cmd: Byte, arg: Byte, payload: seq<Byte>, ck0: Byte, ck1: Byte): (f: seq<Byte>)
    requires |payload| < 0x1_0000
    ensures |f| == |payload| + 8
  {
    [MAGIC_0, MAGIC_1, cmd, arg, |payload| % 0x100, |payload| / 0x100] + payload + [ck0, ck1]
  }

  lemma HeaderToLength(t: Tracker, cmd: Byte, arg: Byte)
    requires t.phase == Magic0
    ensures Run(t, [MAGIC_0, MAGIC_1, cmd, arg]).next.phase == LenLow
    ensures Run(t, [MAGIC_0, MAGIC_1, cmd, arg]).replies == []
  {
    var t1 := Step(t, MAGIC_0).next;
    var t2 := Step(t1, MAGIC_1).next;
    var t3 := Step(t2, cmd).next;
    RunCons(t, MAGIC_0, [MAGIC_1, cmd, arg]);
    RunCons(t1, MAGIC_1, [cmd, arg]);
    RunCons(t2, cmd, [arg]);
    RunCons(t3, arg, []);
    assert [MAGIC_0] + [MAGIC_1, cmd, arg] == [MAGIC_0, MAGIC_1, cmd, arg];
    assert [MAGIC_1] + [cmd, arg] == [MAGIC_1, cmd, arg];
    assert [cmd] + [arg] == [cmd, arg];
    assert [arg] + [] == [arg];
  }

  lemma TrailerReplies(t: Tracker, ck0: Byte, ck1: Byte, x: Byte, y: Byte)
    requires t.phase == Checksum0
    ensures Run(t, [ck0, ck1, x, y]).next == t.(phase := Magic0)
    ensures Run(t, [ck0, ck1, x, y]).replies == [ACK_BYTE, STATUS_BYTE]
  {
    var t1 := Step(t, ck0).next;
    var t2 := Step(t1, ck1).next;
    var t3 := Step(t2, x).next;
    RunCons(t, ck0, [ck1, x, y]);
    RunCons(t1, ck1, [x, y]);
    RunCons(t2, x, [y]);
    RunCons(t3, y, []);
    assert [ck0] + [ck1, x, y] == [ck0, ck1, x, y];
    assert [ck1] + [x, y] == [ck1, x, y];
    assert [x] + [y] == [x, y];
    assert [y] + [] == [y];
  }

  /** A whole frame, followed by the two bytes the host clocks in while the
      replies go out, makes the tracker push exactly `0x81, 0x00` and return
      to `Magic0`, whatever the command, argument, payload and checksum. */
  lemma {:induction false} FrameReply(t: Tracker, cmd: Byte, arg: Byte, payload: seq<Byte>, ck0: Byte, ck1: Byte, x: Byte, y: Byte)
    requires t.phase == Magic0 && |payload| < 0x1_0000
    ensures Run(t, Frame(cmd, arg, payload, ck0, ck1) + [x, y]).next == RESET
    ensures Run(t, Frame(cmd, arg, payload, ck0, ck1) + [x, y]).replies == [ACK_BYTE, STATUS_BYTE]
  {
    var k := |payload|;
    var lo: Byte, hi: Byte := k % 0x100, k / 0x100;
    var header := [MAGIC_0, MAGIC_1, cmd, arg];
    var trailer := [ck0, ck1, x, y];
    assert Frame(cmd, arg, payload, ck0, ck1) + [x, y] == header + ([lo, hi] + (payload + trailer));
    HeaderToLength(t, cmd, arg);
    var t1 := Run(t, header).next;
    RunAppend(t, header, [lo, hi] + (payload + trailer));
    LengthDecode(t1, lo, hi);
    var t2 := Run(t1, [lo, hi]).next;
    RunAppend(t1, [lo, hi], payload + trailer);
    assert t2.phase == (if k == 0 then Checksum0 else Data) && t2.dataLen == k;
    var t3 := Run(t2, payload).next;
    RunAppend(t2, payload, trailer);
    if k > 0 {
      PayloadSkip(k, payload);
    }
    assert t3 == Tracker(Checksum0, 0);
    TrailerReplies(t3, ck0, ck1, x, y);
  }

  /** The frame with no payload, `88 33 c a 00 00 k0 k1` and two more bytes. */
  lemma EmptyFrameReply(t: Tracker, cmd: Byte, arg: Byte, ck0: Byte, ck1: Byte, x: Byte, y: Byte)
    requires t.phase == Magic0
    ensures Run(t, [0x88, 0x33, cmd, arg, 0x00, 0x00, ck0, ck1, x, y]).next.phase == Magic0
    ensures Run(t, [0x88, 0x33, cmd, arg, 0x00, 0x00, ck0, ck1, x, y]).replies == [0x81, 0x00]
  {
    FrameReply(t, cmd, arg, [], ck0, ck1, x, y);
    assert Frame(cmd, arg, [], ck0, ck1) + [x, y] == [0x88, 0x33, cmd, arg, 0x00, 0x00, ck0, ck1, x, y];
  }
}
