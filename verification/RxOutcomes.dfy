// What each byte does to the statistics and the buffers, and what becomes of frames that are not
// delivered: a wrong footer, a refused length, an allocation that fails.
module RxOutcomes {
  import opened Options
  import opened Wire
  import opened RxMachine
  import opened RoundTrip

  // The value that a byte stands for: in RxEscape the byte is un-escaped first.
  function Meaning(s: Rx, i: In): byte {
    if s.phase == RxEscape then Xor20(i.data) else i.data
  }

  // The byte that completes the length field, and the length it completes.
  predicate CompletesLength(s: Rx, i: In) {
    Context(s) == RxLength && s.lengthIndex == 1 && Meaning(s, i) != ESCAPE_CHAR
  }

  function LengthRead(s: Rx, i: In): nat {
    s.lengthBytes.high * 256 + Meaning(s, i)
  }

  // A packet is delivered on the footer, after the last byte of its payload, and on nothing else.
  lemma DeliveredOnFooterExactly(s: Rx, i: In)
    requires RxInv(s)
    ensures RxByte(s, i).log.delivered != s.log.delivered <==> s.phase == RxEnd && i.data == FRAME_FOOTER
    ensures s.phase == RxEnd && i.data == FRAME_FOOTER ==>
      && RxByte(s, i).phase == RxIdle && RxByte(s, i).skb == None
      && RxByte(s, i).log == s.log.(packets := s.log.packets + 1, delivered := s.log.delivered + [s.skb.value.data])
  {
  }

  // Any other byte in its place costs the frame: its buffer is freed, and one error counted.
  lemma WrongFooter(s: Rx, i: In)
    requires RxInv(s) && s.phase == RxEnd && i.data != FRAME_FOOTER
    ensures var t := RxByte(s, i);
      && t.phase == RxIdle && t.skb == None
      && t.log == s.log.(freed := s.log.freed + 1, errors := s.log.errors + 1)
  {
  }

  // A length of 0 or above 270 is refused, and counted as a length error and nothing else.
  lemma LengthRefused(s: Rx, i: In)
    requires RxInv(s) && CompletesLength(s, i) && (LengthRead(s, i) == 0 || LengthRead(s, i) > 270)
    ensures var t := RxByte(s, i);
      t.phase == RxIdle && t.skb == None && t.log == s.log.(lengthErrors := s.log.lengthErrors + 1)
  {
  }

  // When there is no buffer for a good length, the frame is counted as dropped and nothing else.
  lemma AllocationFails(s: Rx, i: In)
    requires RxInv(s) && CompletesLength(s, i) && 1 <= LengthRead(s, i) <= 270 && !i.allocOk
    ensures var t := RxByte(s, i);
      t.phase == RxIdle && t.skb == None && t.log == s.log.(dropped := s.log.dropped + 1)
  {
  }

  // When there is one, it has just the size for the payload, which is expected next.
  lemma AllocationSucceeds(s: Rx, i: In)
    requires RxInv(s) && CompletesLength(s, i) && 1 <= LengthRead(s, i) <= 270 && i.allocOk
    ensures var t := RxByte(s, i);
      && t.phase == RxData && t.frameLength == LengthRead(s, i) && t.received == 0
      && t.skb == Some(Skb(LengthRead(s, i), [])) && t.log == s.log.(buffers := s.log.buffers + 1)
  {
  }

  // Outside these cases, the only thing ever counted is a header in RxIdle.
  lemma NothingElseCounts(s: Rx, i: In)
    requires RxInv(s) && s.phase != RxEnd && !CompletesLength(s, i)
    ensures RxByte(s, i).log ==
            if s.phase == RxIdle && i.data == FRAME_HEADER then s.log.(headers := s.log.headers + 1) else s.log
  {
  }

  // A byte of the payload goes to the end of the buffer, and the last one makes the frame complete.
  lemma PayloadByte(s: Rx, i: In)
    requires RxInv(s) && Context(s) == RxData && Meaning(s, i) != ESCAPE_CHAR
    ensures var t := RxByte(s, i);
      && t.skb == Some(Skb(s.frameLength, s.skb.value.data + [Meaning(s, i)]))
      && t.phase == if s.received + 1 == s.frameLength then RxEnd else RxData
  {
  }

  // ---- Whole frames ----

  // All of a frame but its footer leaves a receiver that has the payload and waits for the footer.
  lemma BeforeFooter(s: Rx, p: seq<byte>)
    requires RxInv(s) && s.phase == RxIdle && Clean(p)
    ensures var len := Escape(LengthBytes(|p|));
      var t := Run(s, [FRAME_HEADER] + len + Escape(p));
      && RxInv(t) && t.phase == RxEnd && t.skb == Some(Skb(|p|, p))
      && t.log == s.log.(headers := s.log.headers + 1, buffers := s.log.buffers + 1)
  {
    hide Escape;
    hide LengthBytes;
    hide Run;
    var len := Escape(LengthBytes(|p|));
    var s1 := Run(s, [FRAME_HEADER]);
    HeaderStarts(s);
    RunConcat(s, [FRAME_HEADER], len);
    RunConcat(s, [FRAME_HEADER] + len, Escape(p));
    ReceiveLength(s1, |p|);
    ReceiveData(Run(s1, len), p);
    RunKeepsInv(Run(s1, len), Escape(p));
    hide RxInv;
    assert [] + p == p;
  }

  lemma HeaderStarts(s: Rx)
    requires RxInv(s) && s.phase == RxIdle
    ensures var t := Run(s, [FRAME_HEADER]);
      && RxInv(t) && t.phase == RxLength && t.lengthIndex == 0
      && t.log == s.log.(headers := s.log.headers + 1)
  {
    RunOne(s, FRAME_HEADER);
    RunKeepsInv(s, [FRAME_HEADER]);
  }

  // A clean frame with another byte in place of its footer: one error, and nothing delivered.
  lemma FooterReplaced(s: Rx, p: seq<byte>, x: byte)
    requires RxInv(s) && s.phase == RxIdle && Clean(p) && x != FRAME_FOOTER
    ensures |Frame(p)| > 0
    ensures var t := Run(s, Frame(p)[..|Frame(p)| - 1] + [x]);
      && t.phase == RxIdle && t.skb == None
      && t.log == s.log.(headers := s.log.headers + 1, buffers := s.log.buffers + 1,
                         freed := s.log.freed + 1, errors := s.log.errors + 1)
  {
    var most := [FRAME_HEADER] + Escape(LengthBytes(|p|)) + Escape(p);
    assert Frame(p)[..|Frame(p)| - 1] == most;
    hide RxInv;
    hide Run;
    hide Clean;
    hide Frame;
    BeforeFooter(s, p);
    RunConcat(s, most, [x]);
    RunOne(Run(s, most), x);
    hide RxByte;
    WrongFooter(Run(s, most), In(x, true));
  }

  // A length field that the receiver refuses, whatever it is: one length error.
  lemma LengthFieldRefused(s: Rx, n: nat)
    requires RxInv(s) && s.phase == RxIdle && n < 0x1_0000 && (n == 0 || n > 270)
    requires ESCAPE_CHAR !in LengthBytes(n)
    ensures var t := Run(s, [FRAME_HEADER] + Escape(LengthBytes(n)));
      && t.phase == RxIdle
      && t.log == s.log.(headers := s.log.headers + 1, lengthErrors := s.log.lengthErrors + 1)
  {
    var len := LengthBytes(n);
    var s1 := Run(s, [FRAME_HEADER]);
    RunOne(s, FRAME_HEADER);
    RunKeepsInv(s, [FRAME_HEADER]);
    RunConcat(s, [FRAME_HEADER], Escape(len));
    EscapePair(len);
    RunConcat(s1, EscapeByte(len[0]), EscapeByte(len[1]));
    LengthBytesJoin(n);
    hide LengthBytes;
    hide RxInv;
    hide Run;
    var s2 := Run(s1, EscapeByte(len[0]));
    StoreEscaped(s1, len[0]);
    StoreEscaped(s2, len[1]);
  }

  // ---- An allocator that always fails ----

  lemma NoBufferByte(s: Rx, i: In)
    requires RxInv(s) && s.skb == None && !i.allocOk
    ensures var t := RxByte(s, i);
      t.skb == None && t.log.buffers == s.log.buffers && t.log.delivered == s.log.delivered
  {
  }

  // Then no buffer is ever counted and no packet delivered, whatever is received.
  lemma {:induction false} NoBufferNoPacket(s: Rx, ins: seq<In>)
    requires RxInv(s) && s.skb == None && forall i <- ins :: !i.allocOk
    ensures var t := RxRun(s, ins);
      t.skb == None && t.log.buffers == s.log.buffers && t.log.delivered == s.log.delivered
    decreases |ins|
  {
    hide RxInv;
    hide RxByte;
    if ins != [] {
      NoBufferByte(s, ins[0]);
      RxByteKeepsInv(s, ins[0]);
      NoBufferNoPacket(RxByte(s, ins[0]), ins[1..]);
    }
  }

  function Failing(w: seq<byte>): seq<In> {
    seq(|w|, i requires 0 <= i < |w| => In(w[i], false))
  }

  // Without a header, a receiver in RxIdle stays there.
  lemma {:induction false} FailingNoise(s: Rx, w: seq<byte>)
    requires s.phase == RxIdle && FRAME_HEADER !in w
    ensures RxRun(s, Failing(w)) == s
    decreases |w|
  {
    if w != [] {
      assert Failing(w)[1..] == Failing(w[1..]);
      FailingNoise(s, w[1..]);
    }
  }

  // The length field of a clean frame when the allocation fails.
  lemma FailingLength(s: Rx, len: seq<byte>)
    requires RxInv(s) && s.phase == RxLength && s.lengthIndex == 0 && |len| == 2 && ESCAPE_CHAR !in len
    requires 1 <= JoinLength(len[0], len[1]) <= 270
    ensures var t := RxRun(s, Failing(Escape(len)));
      t.phase == RxIdle && t.log == s.log.(dropped := s.log.dropped + 1)
  {
    EscapePair(len);
    var a, b := EscapeByte(len[0]), EscapeByte(len[1]);
    assert Failing(Escape(len)) == Failing(a) + Failing(b);
    RxRunConcat(s, Failing(a), Failing(b));
    FailingStored(s, len[0]);
    FailingStored(RxRun(s, Failing(a)), len[1]);
  }

  lemma LengthIgnoresSaved(s: Rx, saved: RxPhase, b: byte)
    ensures Core(LengthByte(s.(saved := saved), b, false)) == Core(LengthByte(s, b, false))
  {
  }

  lemma FailingStored(s: Rx, b: byte)
    requires s.phase == RxLength && b != ESCAPE_CHAR
    ensures Core(RxRun(s, Failing(EscapeByte(b)))) == Core(LengthByte(s, b, false))
  {
    hide LengthByte;
    hide IdleByte;
    hide DataByte;
    hide EndByte;
    if Special(b) {
      var i, j := In(ESCAPE_CHAR, false), In(Xor20(b), false);
      assert Failing(EscapeByte(b)) == [i, j] && [i, j][1..] == [j] && [j][1..] == [];
      assert Xor20(Xor20(b)) == b;
      var t := RxByte(s, i);
      assert t == s.(saved := RxLength, phase := RxEscape);
      LengthIgnoresSaved(s, RxLength, b);
      assert t.(phase := t.saved) == s.(saved := RxLength);
      assert Core(RxByte(t, j)) == Core(LengthByte(s, b, false));
      hide RxByte;
      assert RxRun(t, [j]) == RxRun(RxByte(t, j), [j][1..]) == RxByte(t, j);
    } else {
      var i := In(b, false);
      assert Failing(EscapeByte(b)) == [i] && [i][1..] == [];
      assert RxByte(s, i) == LengthByte(s, b, false);
      hide RxByte;
    }
  }

  // A clean frame for which there is no buffer: one drop, and nothing delivered.
  lemma FrameDropped(s: Rx, p: seq<byte>)
    requires RxInv(s) && s.phase == RxIdle && Clean(p)
    ensures var t := RxRun(s, Failing(Frame(p)));
      && t.phase == RxIdle
      && t.log == s.log.(headers := s.log.headers + 1, dropped := s.log.dropped + 1)
  {
    var len, rest := LengthBytes(|p|), Escape(p) + [FRAME_FOOTER];
    assert Frame(p) == [FRAME_HEADER] + (Escape(len) + rest);
    var ins := Failing(Frame(p));
    assert ins[0] == In(FRAME_HEADER, false) && ins[1..] == Failing(Escape(len)) + Failing(rest);
    var s1 := RxByte(s, ins[0]);
    RxByteKeepsInv(s, ins[0]);
    assert RxRun(s, ins) == RxRun(s1, ins[1..]);
    LengthBytesJoin(|p|);
    EscapeHasNoDelimiter(p);
    hide Escape;
    hide RxInv;
    hide RxByte;
    hide LengthBytes;
    RxRunConcat(s1, Failing(Escape(len)), Failing(rest));
    FailingLength(s1, len);
    FailingNoise(RxRun(s1, Failing(Escape(len))), rest);
  }
}
