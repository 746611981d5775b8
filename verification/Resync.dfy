// How long the receiver can stay out of RxIdle.
module Resync {
  import opened Wire
  import opened RxMachine

  // The bytes that bring a frame no further: an escape character in RxLength or RxData, and
  // the byte 0x7A, which un-escapes to the escape character, in RxEscape.
  predicate Stalls(s: Rx, data: byte) {
    if s.phase == RxEscape then data == 0x7A
    else (s.phase == RxLength || s.phase == RxData) && data == ESCAPE_CHAR
  }

  function Progressing(s: Rx, ins: seq<In>): nat
    decreases |ins|
  {
    if ins == [] then 0
    else (if Stalls(s, ins[0].data) then 0 else 1) + Progressing(RxByte(s, ins[0]), ins[1..])
  }

  // The receiver is out of RxIdle before every byte of the stream and after the last one.
  predicate NeverIdle(s: Rx, ins: seq<In>)
    decreases |ins|
  {
    s.phase != RxIdle && (ins == [] || NeverIdle(RxByte(s, ins[0]), ins[1..]))
  }

  // Bytes still to be stored or checked before RxIdle, at most.
  function Needed(s: Rx): nat
    requires RxInv(s)
  {
    match Context(s)
    case RxIdle => 0
    case RxLength => 2 - s.lengthIndex + MAX_FRAME + 1
    case RxData => s.frameLength - s.received + 1
    case RxEnd => 1
    case RxEscape => 0
  }

  // The same in wire bytes, when each stored byte costs at most two.
  function Rank(s: Rx): nat
    requires RxInv(s)
  {
    if s.phase == RxIdle then 0
    else 2 * Needed(s) - 1 - (if s.phase == RxEscape then 1 else 0)
  }

  lemma ByteProgress(s: Rx, i: In)
    requires RxInv(s) && s.phase != RxIdle
    ensures RxInv(RxByte(s, i))
    ensures Stalls(s, i.data) ==> RxByte(s, i).phase == RxEscape && Needed(RxByte(s, i)) == Needed(s)
    ensures !Stalls(s, i.data) ==> Needed(RxByte(s, i)) < Needed(s)
    ensures i.data != 0x7A ==> Rank(RxByte(s, i)) < Rank(s)
  {
    RxByteKeepsInv(s, i);
  }

  // Whatever is on the wire, at most 273 progressing bytes keep the receiver out of RxIdle.
  lemma {:induction false} ProgressBound(s: Rx, ins: seq<In>)
    requires RxInv(s) && NeverIdle(s, ins)
    ensures Progressing(s, ins) < Needed(s) <= 273
    decreases |ins|
  {
    if ins != [] {
      ByteProgress(s, ins[0]);
      ProgressBound(RxByte(s, ins[0]), ins[1..]);
    }
  }

  // Without the byte 0x7A, the receiver is in RxIdle at some point within 545 bytes.
  lemma {:induction false} ResyncWithin(s: Rx, ins: seq<In>) returns (k: nat)
    requires RxInv(s)
    requires forall i <- ins :: i.data != 0x7A
    requires Rank(s) <= |ins|
    ensures k <= Rank(s) <= 545 && RxRun(s, ins[..k]).phase == RxIdle
    decreases |ins|
  {
    if s.phase == RxIdle {
      k := 0;
    } else {
      ByteProgress(s, ins[0]);
      var j := ResyncWithin(RxByte(s, ins[0]), ins[1..]);
      k := j + 1;
      assert ins[..k][1..] == ins[1..][..j];
    }
  }

  lemma ResyncBound(s: Rx, ins: seq<In>)
    requires RxInv(s) && 545 <= |ins|
    requires forall i <- ins :: i.data != 0x7A
    ensures exists k :: 0 <= k <= 545 && RxRun(s, ins[..k]).phase == RxIdle
  {
    var k := ResyncWithin(s, ins);
  }

  function Repeat(b: byte, n: nat): seq<In> {
    seq(n, _ => In(b, true))
  }

  // The condition on 0x7A is needed: after one escape character, a stream of them holds
  // the receiver for ever.
  lemma {:induction false} EscapedEscapeHolds(s: Rx, n: nat)
    requires RxInv(s) && s.phase == RxEscape
    ensures RxRun(s, Repeat(0x7A, n)).phase == RxEscape && NeverIdle(s, Repeat(0x7A, n))
  {
    if n > 0 {
      var ins := Repeat(0x7A, n);
      assert ins[1..] == Repeat(0x7A, n - 1);
      RxByteKeepsInv(s, ins[0]);
      EscapedEscapeHolds(RxByte(s, ins[0]), n - 1);
    }
  }

  // The slowest frame: every stored byte is sent escaped.
  function Slow(n: nat): seq<In> {
    if n == 0 then [] else [In(ESCAPE_CHAR, true), In(0x20, true)] + Slow(n - 1)
  }

  lemma {:induction false} SlowData(s: Rx, n: nat)
    requires RxInv(s) && s.phase == RxData && 1 <= n == s.frameLength - s.received
    ensures |Slow(n)| == 2 * n
    ensures NeverIdle(s, Slow(n)) && RxRun(s, Slow(n)).phase == RxEnd
    decreases n
  {
    var ins := Slow(n);
    var s1 := RxByte(s, ins[0]);
    var s2 := RxByte(s1, ins[1]);
    RxByteKeepsInv(s, ins[0]);
    RxByteKeepsInv(s1, ins[1]);
    assert ins[1..][1..] == Slow(n - 1);
    assert RxRun(s, ins) == RxRun(s1, ins[1..]) == RxRun(s2, Slow(n - 1));
    if n > 1 {
      SlowData(s2, n - 1);
    }
  }

  // 545 cannot be improved: a receiver that has just seen a header can be kept out of RxIdle
  // for 544 bytes none of which is 0x7A.
  lemma SlowestFrame(s: Rx) returns (ins: seq<In>)
    requires RxInv(s) && s.phase == RxLength && s.lengthIndex == 0
    ensures |ins| == 544 && NeverIdle(s, ins) && forall i <- ins :: i.data != 0x7A
  {
    var head := [In(ESCAPE_CHAR, true), In(0x21, true), In(ESCAPE_CHAR, true), In(0x2E, true)];
    ins := head + Slow(270);
    var s1, s2, s3, s4 := SlowLength(s);
    hide RxByte;
    hide RxInv;
    SlowData(s4, 270);
    hide Slow;
    assert ins[1..][1..][1..][1..] == Slow(270);
    assert NeverIdle(s4, ins[1..][1..][1..][1..]);
    assert NeverIdle(s3, ins[1..][1..][1..]);
    assert NeverIdle(s2, ins[1..][1..]);
    assert NeverIdle(s1, ins[1..]);
    SlowBytes(270);
  }

  // A length of 270, each of its bytes escaped.
  lemma SlowLength(s: Rx) returns (s1: Rx, s2: Rx, s3: Rx, s4: Rx)
    requires RxInv(s) && s.phase == RxLength && s.lengthIndex == 0
    ensures s1 == RxByte(s, In(ESCAPE_CHAR, true)) && s2 == RxByte(s1, In(0x21, true))
    ensures s3 == RxByte(s2, In(ESCAPE_CHAR, true)) && s4 == RxByte(s3, In(0x2E, true))
    ensures s1.phase != RxIdle && s2.phase != RxIdle && s3.phase != RxIdle
    ensures RxInv(s4) && s4.frameLength == 270 && s4.received == 0 && s4.phase == RxData
  {
    s1, s2 := SlowHigh(s);
    hide RxByte;
    s3, s4 := SlowLow(s2);
  }

  lemma SlowHigh(s: Rx) returns (s1: Rx, s2: Rx)
    requires RxInv(s) && s.phase == RxLength && s.lengthIndex == 0
    ensures s1 == RxByte(s, In(ESCAPE_CHAR, true)) && s2 == RxByte(s1, In(0x21, true))
    ensures s1.phase == RxEscape && RxInv(s2)
    ensures s2.phase == RxLength && s2.lengthIndex == 1 && s2.lengthBytes.high == 1
  {
    s1 := RxByte(s, In(ESCAPE_CHAR, true));
    RxByteKeepsInv(s, In(ESCAPE_CHAR, true));
    s2 := RxByte(s1, In(0x21, true));
    RxByteKeepsInv(s1, In(0x21, true));
  }

  lemma SlowLow(s: Rx) returns (s1: Rx, s2: Rx)
    requires RxInv(s) && s.phase == RxLength && s.lengthIndex == 1 && s.lengthBytes.high == 1
    ensures s1 == RxByte(s, In(ESCAPE_CHAR, true)) && s2 == RxByte(s1, In(0x2E, true))
    ensures s1.phase == RxEscape && RxInv(s2)
    ensures s2.phase == RxData && s2.frameLength == 270 && s2.received == 0
  {
    s1 := RxByte(s, In(ESCAPE_CHAR, true));
    RxByteKeepsInv(s, In(ESCAPE_CHAR, true));
    s2 := RxByte(s1, In(0x2E, true));
    RxByteKeepsInv(s1, In(0x2E, true));
  }

  lemma {:induction false} SlowBytes(n: nat)
    ensures forall i <- Slow(n) :: i.data != 0x7A
  {
    if n > 0 {
      SlowBytes(n - 1);
    }
  }
}
