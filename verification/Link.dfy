// The two halves together: what one board accepts for transmission, the other one delivers.
module Link {
  import opened Wire
  import opened RxMachine
  import opened RoundTrip
  import opened TxMachine
  import opened TxRuns
  import InterleavedWire

  function Quiet(ps: seq<seq<byte>>): seq<Item> {
    seq(|ps|, i requires 0 <= i < |ps| => Item([], ps[i]))
  }

  lemma {:induction false} SentIsStream(ps: seq<seq<byte>>)
    requires forall p <- ps :: Clean(p)
    ensures SentAll(ps) == Stream(Quiet(ps))
    decreases |ps|
  {
    if ps != [] {
      assert Clean(ps[0]);
      SentIsFrame(ps[0]);
      assert Quiet(ps)[1..] == Quiet(ps[1..]);
      assert [] + Frame(ps[0]) == Frame(ps[0]);
      SentIsStream(ps[1..]);
    }
  }

  // For every run of the transmitter that accepts only clean payloads, and every way to poll the
  // wire: at any time the receiver has delivered a prefix of the accepted payloads, and it has
  // delivered all of them once the transmitter is idle and the wire has been read.
  lemma EndToEnd(t: Tx, es: seq<Event>, s: Rx, calls: seq<Call>)
    requires TxInv(t) && t.phase == TxIdle && t.wire == []
    requires RxInv(s) && s.phase == RxIdle
    requires forall p <- Accepted(View(t), es) :: Clean(p)
    ensures var ps := Accepted(View(t), es);
      var wire := Steps(t, es).wire;
      var (r, n) := Drive(s, Ins(wire), calls);
      && s.log.delivered <= r.log.delivered <= s.log.delivered + ps
      && (n == |wire| && Steps(t, es).phase == TxIdle ==>
          r.phase == RxIdle && r.log.delivered == s.log.delivered + ps)
  {
    var ps := Accepted(View(t), es);
    TransmitterOutput(t, es);
    SentIsStream(ps);
    assert Payloads(Quiet(ps)) == ps;
    PolledStream(s, Quiet(ps), Steps(t, es).wire, calls);
  }

  // The same when start_xmit and the task interleave, for every run in which start_xmit never clears
  // tx_escape_next when it is set.
  lemma InterleavedEndToEnd(es: seq<InterleavedWire.Event>, s: Rx, calls: seq<Call>)
    requires InterleavedWire.DoAll(InterleavedWire.START, es).resets == 0
    requires forall p <- InterleavedWire.DoAll(InterleavedWire.START, es).accepted :: Clean(p)
    requires RxInv(s) && s.phase == RxIdle
    ensures var w := InterleavedWire.DoAll(InterleavedWire.START, es);
      var (r, n) := Drive(s, Ins(w.wire), calls);
      && s.log.delivered <= r.log.delivered <= s.log.delivered + w.accepted
      && (n == |w.wire| && w.base.phase == TxIdle ==>
          r.phase == RxIdle && r.log.delivered == s.log.delivered + w.accepted)
  {
    hide RxInv;
    hide Drive;
    hide InterleavedWire.DoAll;
    var w := InterleavedWire.DoAll(InterleavedWire.START, es);
    InterleavedWire.WirePrefix(es);
    SentIsStream(w.accepted);
    assert Payloads(Quiet(w.accepted)) == w.accepted;
    PolledStream(s, Quiet(w.accepted), w.wire, calls);
  }

  // What such a clearing does to a frame of 85 bytes whose low length byte has just been escaped: the
  // escape character comes twice, and the receiver takes the length for 122.
  lemma DoubledEscapeMisleads(s: Rx)
    requires RxInv(s) && s.phase == RxIdle
    ensures var t := Run(s, [FRAME_HEADER, 0, ESCAPE_CHAR, ESCAPE_CHAR]);
      t.phase == RxData && t.frameLength == 122 && t.received == 0
  {
    var ins := Ins([FRAME_HEADER, 0, ESCAPE_CHAR, ESCAPE_CHAR]);
    var s1 := RxByte(s, ins[0]);
    var s2 := RxByte(s1, ins[1]);
    var s3 := RxByte(s2, ins[2]);
    var s4 := RxByte(s3, ins[3]);
    assert s4.phase == RxData && s4.frameLength == 122 && s4.received == 0;
    hide RxByte;
    assert ins[1..][1..][1..][1..] == [];
    assert RxRun(s2, ins[1..][1..]) == RxRun(s3, ins[1..][1..][1..]) == s4;
    assert RxRun(s, ins) == RxRun(s1, ins[1..]) == RxRun(s2, ins[1..][1..]);
  }
}
