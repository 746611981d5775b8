// The receive state machine of uartnet_poll as a function on values, one wire byte at a time,
// with the invariant that holds over every byte stream.
module RxMachine {
  import opened Options
  import opened Wire

  datatype RxPhase = RxIdle | RxLength | RxData | RxEscape | RxEnd

  // A socket buffer: what was allocated for it and what skb_put_u8 has stored so far.
  datatype Skb = Skb(capacity: nat, data: seq<byte>)

  datatype LengthField = LengthField(high: byte, low: byte) {
    function Put(i: nat, b: byte): LengthField {
      if i == 0 then this.(high := b) else this.(low := b)
    }

    function Value(): nat { JoinLength(high, low) }
  }

  // What the outside world sees of the receiver: statistics, buffers allocated and freed,
  // and the payloads handed to the network stack, in order.
  datatype RxLog = RxLog(
    headers: nat,
    packets: nat,
    lengthErrors: nat,
    dropped: nat,
    errors: nat,
    overErrors: nat,
    buffers: nat,
    freed: nat,
    delivered: seq<seq<byte>>)

  datatype Rx = Rx(
    phase: RxPhase,
    saved: RxPhase,
    skb: Option<Skb>,
    frameLength: nat,
    received: nat,
    lengthBytes: LengthField,
    lengthIndex: nat,
    log: RxLog)

  // A wire byte, with the answer the allocator would give while it is handled.
  datatype In = In(data: byte, allocOk: bool)

  function FreedIf(log: RxLog, skb: Option<Skb>): RxLog {
    if skb.Some? then log.(freed := log.freed + 1) else log
  }

  function IdleByte(s: Rx, data: byte): Rx {
    if data != FRAME_HEADER then s
    else s.(phase := RxLength, lengthIndex := 0, frameLength := 0, received := 0, skb := None,
            log := s.log.(headers := s.log.headers + 1))
  }

  function LengthByte(s: Rx, data: byte, allocOk: bool): Rx {
    var s1 := s.(lengthBytes := s.lengthBytes.Put(s.lengthIndex, data), lengthIndex := s.lengthIndex + 1);
    var len := s1.lengthBytes.Value();
    if s1.lengthIndex != 2 then s1
    else if len > MAX_FRAME || len == 0 then
      var log := FreedIf(s1.log, s1.skb);
      s1.(skb := None, phase := RxIdle, log := log.(lengthErrors := log.lengthErrors + 1))
    else if !allocOk then
      s1.(frameLength := len, skb := None, phase := RxIdle, log := s1.log.(dropped := s1.log.dropped + 1))
    else
      s1.(frameLength := len, skb := Some(Skb(len, [])), phase := RxData,
          log := s1.log.(buffers := s1.log.buffers + 1))
  }

  function PutByte(skb: Option<Skb>, data: byte): Option<Skb> {
    if skb.Some? then Some(skb.value.(data := skb.value.data + [data])) else skb
  }

  function DataByte(s: Rx, data: byte): Rx {
    if s.received < s.frameLength then
      s.(skb := PutByte(s.skb, data), received := s.received + 1,
         phase := if s.received + 1 >= s.frameLength then RxEnd else s.phase)
    else
      var log := FreedIf(s.log, s.skb);
      s.(skb := None, phase := RxIdle, log := log.(overErrors := log.overErrors + 1))
  }

  function EndByte(s: Rx, data: byte): Rx {
    var log :=
      if data == FRAME_FOOTER && s.skb.Some? && |s.skb.value.data| == s.frameLength then
        s.log.(packets := s.log.packets + 1, delivered := s.log.delivered + [s.skb.value.data])
      else
        var l := FreedIf(s.log, s.skb);
        l.(errors := l.errors + 1);
    s.(skb := None, phase := RxIdle, log := log)
  }

  // One pass of the switch. In RxEscape the pass has already un-escaped the byte and jumped back.
  function Switch(s: Rx, data: byte, allocOk: bool): Rx {
    match s.phase
    case RxIdle => IdleByte(s, data)
    case RxEnd => EndByte(s, data)
    case RxEscape => s
    case _ =>
      if data == ESCAPE_CHAR then s.(saved := s.phase, phase := RxEscape)
      else if s.phase == RxLength then LengthByte(s, data, allocOk)
      else DataByte(s, data)
  }

  // One byte from the FIFO. After un-escaping, the byte goes through the whole switch again,
  // the test for the escape character included.
  function RxByte(s: Rx, i: In): Rx {
    if s.phase == RxEscape then Switch(s.(phase := s.saved), Xor20(i.data), i.allocOk)
    else Switch(s, i.data, i.allocOk)
  }

  function RxRun(s: Rx, ins: seq<In>): Rx
    decreases |ins|
  {
    if ins == [] then s else RxRun(RxByte(s, ins[0]), ins[1..])
  }

  const EMPTY_LOG := RxLog(0, 0, 0, 0, 0, 0, 0, 0, [])

  // The receiver after uartnet_open; the fields that open leaves alone keep any value.
  predicate Opened(s: Rx) {
    s.phase == RxIdle && s.skb == None && s.log == EMPTY_LOG
  }

  // Payloads this receiver can deliver.
  predicate Clean(payload: seq<byte>) {
    1 <= |payload| <= MAX_FRAME && ESCAPE_CHAR !in payload && ESCAPE_CHAR !in LengthBytes(|payload|)
  }

  // ---- The invariant ----

  function Context(s: Rx): RxPhase {
    if s.phase == RxEscape then s.saved else s.phase
  }

  predicate Representation(s: Rx) {
    match Context(s)
    case RxIdle => s.phase != RxEscape && s.skb == None
    case RxLength =>
      s.lengthIndex < 2 && s.skb == None && s.received == 0 &&
      (s.lengthIndex == 1 ==> s.lengthBytes.high != ESCAPE_CHAR)
    case RxData => Buffering(s) && s.received < s.frameLength
    case RxEnd => s.phase != RxEscape && Buffering(s) && s.received == s.frameLength
    case RxEscape => false
  }

  predicate Buffering(s: Rx) {
    && 1 <= s.frameLength <= MAX_FRAME
    && s.frameLength == s.lengthBytes.Value()
    && s.lengthBytes.high != ESCAPE_CHAR && s.lengthBytes.low != ESCAPE_CHAR
    && s.skb.Some? && s.skb.value.capacity == s.frameLength
    && |s.skb.value.data| == s.received && ESCAPE_CHAR !in s.skb.value.data
  }

  predicate Accounting(s: Rx) {
    var l := s.log;
    && l.headers == l.packets + l.lengthErrors + l.dropped + l.errors + (if s.phase == RxIdle then 0 else 1)
    && l.buffers == |l.delivered| + l.freed + (if s.skb.Some? then 1 else 0)
    && l.packets == |l.delivered|
    && l.overErrors == 0
  }

  predicate RxInv(s: Rx) {
    && Representation(s)
    && Accounting(s)
    && forall p <- s.log.delivered :: Clean(p)
  }

  lemma SwitchKeepsInv(s: Rx, data: byte, allocOk: bool)
    requires RxInv(s) && s.phase != RxEscape
    ensures RxInv(Switch(s, data, allocOk))
  {
    var t := Switch(s, data, allocOk);
    if s.phase == RxEnd && |t.log.delivered| != |s.log.delivered| {
      var p := s.skb.value.data;
      assert LengthBytes(|p|) == [s.lengthBytes.high, s.lengthBytes.low];
      assert Clean(p);
    }
  }

  // Every byte keeps the invariant: the length index stays below 2, the buffer never outgrows
  // its allocation, and neither the overflow branch nor the length mismatch is ever taken.
  lemma RxByteKeepsInv(s: Rx, i: In)
    requires RxInv(s)
    ensures RxInv(RxByte(s, i))
    ensures s.phase == RxEscape ==> s.saved == RxLength || s.saved == RxData
    ensures RxByte(s, i).skb.Some? ==> |RxByte(s, i).skb.value.data| <= RxByte(s, i).skb.value.capacity
    ensures Context(s) == RxData ==> s.received < s.frameLength
    ensures s.phase == RxEnd ==> s.skb.Some? && |s.skb.value.data| == s.frameLength
  {
    if s.phase == RxEscape {
      SwitchKeepsInv(s.(phase := s.saved), Xor20(i.data), i.allocOk);
    } else {
      SwitchKeepsInv(s, i.data, i.allocOk);
    }
  }

  lemma {:induction false} RxRunKeepsInv(s: Rx, ins: seq<In>)
    requires RxInv(s)
    ensures RxInv(RxRun(s, ins))
    decreases |ins|
  {
    if ins != [] {
      RxByteKeepsInv(s, ins[0]);
      RxRunKeepsInv(RxByte(s, ins[0]), ins[1..]);
    }
  }

  // Over every byte stream and every behaviour of the allocator: each accepted header is
  // accounted for once, each buffer is delivered, freed or still held exactly once, and only
  // clean payloads are delivered.
  lemma RxAccounting(s: Rx, ins: seq<In>)
    requires Opened(s)
    ensures var t := RxRun(s, ins); var l := t.log;
      && l.headers == l.packets + l.lengthErrors + l.dropped + l.errors + (if t.phase == RxIdle then 0 else 1)
      && l.buffers == |l.delivered| + l.freed + (if t.skb.Some? then 1 else 0)
      && l.packets == |l.delivered| && l.overErrors == 0
      && forall p <- l.delivered :: Clean(p)
  {
    RxRunKeepsInv(s, ins);
  }

  lemma {:induction false} RxRunConcat(s: Rx, a: seq<In>, b: seq<In>)
    ensures RxRun(s, a + b) == RxRun(RxRun(s, a), b)
    decreases |a|
  {
    if a == [] {
      assert a + b == b;
    } else {
      assert (a + b)[1..] == a[1..] + b;
      RxRunConcat(RxByte(s, a[0]), a[1..], b);
    }
  }

  lemma RxByteExtends(s: Rx, i: In)
    ensures s.log.delivered <= RxByte(s, i).log.delivered
    ensures |RxByte(s, i).log.delivered| <= |s.log.delivered| + 1
  {
  }

  // Delivered payloads are only ever appended to.
  lemma {:induction false} RxRunExtends(s: Rx, ins: seq<In>)
    ensures s.log.delivered <= RxRun(s, ins).log.delivered
    decreases |ins|
  {
    hide RxByte;
    if ins != [] {
      RxByteExtends(s, ins[0]);
      RxRunExtends(RxByte(s, ins[0]), ins[1..]);
    }
  }
}
