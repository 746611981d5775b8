// The transmit state machine of uartnet_start_xmit, uartnet_tx_task and the transmit part of
// uartnet_interrupt as functions on values. Each critical section is one step, as on one CPU
// with interrupts off; TxInterleaving takes the steps apart.
module TxMachine {
  import opened Options
  import opened Wire

  datatype TxPhase = TxIdle | TxHeader | TxLength | TxData | TxFooter

  datatype Tx = Tx(
    phase: TxPhase,
    skb: Option<seq<byte>>,
    lengthBytes: seq<byte>,
    pos: nat,
    count: nat,
    escapeNext: bool,
    wire: seq<byte>,
    packets: nat,
    dropped: nat,
    queueStopped: bool,
    txim: bool,
    workQueued: bool)

  // tx_current_count is 16 bits wide: this much of the payload is sent.
  function Cut(p: seq<byte>): seq<byte> {
    p[..|p| % 0x1_0000]
  }

  predicate Finishes(p: seq<byte>) {
    |p| % 0x1_0000 != 0
  }

  // The bytes that tx_current_ptr runs over.
  function Current(t: Tx): seq<byte> {
    if t.phase == TxLength then t.lengthBytes
    else if t.skb.Some? then Cut(t.skb.value)
    else []
  }

  predicate TxInv(t: Tx) {
    && (t.phase == TxIdle <==> t.skb == None)
    && (t.skb.Some? ==> t.lengthBytes == LengthBytes(|t.skb.value|))
    && match t.phase
       case TxIdle => !t.queueStopped
       case TxHeader => t.txim && t.pos == 0 && t.count == 2 && !t.escapeNext
       case TxLength => t.txim && t.pos + t.count == 2 && t.count > 0 && Pointer(t)
       case TxData =>
         t.txim && t.pos + t.count == |Cut(t.skb.value)| && (t.count > 0 <==> Finishes(t.skb.value)) && Pointer(t)
       case TxFooter => t.txim && t.count == 0 && Finishes(t.skb.value)
  }

  predicate Pointer(t: Tx) {
    t.escapeNext ==> t.pos < |Current(t)| && Special(Current(t)[t.pos])
  }

  // ---- The steps ----

  // The common part of TX_STATE_LENGTH and TX_STATE_DATA for the byte at tx_current_ptr.
  function SendByte(t: Tx, b: byte): Tx
    requires t.count > 0
  {
    if t.escapeNext then
      t.(wire := t.wire + [Xor20(b)], escapeNext := false, pos := t.pos + 1, count := t.count - 1)
    else if Special(b) then
      t.(wire := t.wire + [ESCAPE_CHAR], escapeNext := true)
    else
      t.(wire := t.wire + [b], pos := t.pos + 1, count := t.count - 1)
  }

  function Complete(t: Tx): Tx {
    t.(wire := t.wire + [FRAME_FOOTER], packets := t.packets + 1, skb := None, phase := TxIdle,
       queueStopped := false)
  }

  // One iteration of the loop in uartnet_tx_task, out of TX_STATE_IDLE and with room in the FIFO.
  function TxByte(t: Tx): Tx
    requires TxInv(t) && t.phase != TxIdle
  {
    match t.phase
    case TxHeader => t.(wire := t.wire + [FRAME_HEADER], phase := TxLength)
    case TxLength =>
      var s := SendByte(t, t.lengthBytes[t.pos]);
      if s.count == 0 then
        s.(phase := TxData, pos := 0, count := |Cut(t.skb.value)|, escapeNext := false)
      else s
    case TxData =>
      if t.count == 0 then t
      else
        var s := SendByte(t, t.skb.value[t.pos]);
        if s.count == 0 then s.(phase := TxFooter) else s
    case _ => Complete(t)
  }

  function Unlock(t: Tx): Tx {
    if t.phase == TxIdle then t.(txim := false) else t
  }

  // The loop of uartnet_tx_task when the flag register shows room this many times before it
  // shows the FIFO full.
  function TaskLoop(t: Tx, room: nat): (s: Tx)
    requires TxInv(t)
    ensures TxInv(s)
    decreases room
  {
    if room == 0 || t.phase == TxIdle then t
    else if t.phase == TxFooter then Complete(t)
    else
      ByteEmits(t);
      TaskLoop(TxByte(t), room - 1)
  }

  function TaskRun(t: Tx, room: nat): Tx
    requires TxInv(t)
  {
    Unlock(TaskLoop(t.(workQueued := false), room))
  }

  function Install(t: Tx, p: seq<byte>): Tx {
    t.(queueStopped := true, skb := Some(p), phase := TxHeader, lengthBytes := LengthBytes(|p|),
       pos := 0, count := 2, escapeNext := false, txim := true, workQueued := true)
  }

  function StartXmit(t: Tx, p: seq<byte>, up: bool): Tx {
    if !up then t
    else if t.phase == TxIdle then Install(t, p)
    else t.(queueStopped := true, dropped := t.dropped + 1)
  }

  // The transmit part of the interrupt handler; the status it reads is masked by TXIM.
  function Interrupt(t: Tx, txis: bool): Tx {
    if txis && t.txim && t.phase != TxIdle then t.(workQueued := true) else t
  }

  // ---- What is left to send ----

  // Everything a frame puts on the wire. A payload whose length is a multiple of 65536 stops
  // after its length bytes.
  function Sent(p: seq<byte>): seq<byte> {
    if Finishes(p) then Frame(Cut(p)) else [FRAME_HEADER] + Escape(LengthBytes(|p|))
  }

  function Body(p: seq<byte>): seq<byte> {
    if Finishes(p) then Escape(Cut(p)) + [FRAME_FOOTER] else []
  }

  // The rest of an escaped field, from tx_current_ptr on.
  function Tail(t: Tx): seq<byte>
    requires t.pos <= |Current(t)| && Pointer(t)
  {
    var e := Escape(Current(t)[t.pos..]);
    if t.escapeNext then e[1..] else e
  }

  // The bytes of the frame in flight that are still to be written.
  function Remaining(t: Tx): seq<byte>
    requires TxInv(t)
  {
    match t.phase
    case TxIdle => []
    case TxHeader => Sent(t.skb.value)
    case TxLength => Tail(t) + Body(t.skb.value)
    case TxData => Tail(t) + (if Finishes(t.skb.value) then [FRAME_FOOTER] else [])
    case TxFooter => [FRAME_FOOTER]
  }

  lemma TailShrinks(t: Tx)
    requires t.pos < |Current(t)| && t.pos + t.count == |Current(t)| && Pointer(t)
    ensures var s := SendByte(t, Current(t)[t.pos]);
      && Pointer(s) && s.wire == t.wire + [Tail(t)[0]] && Tail(s) == Tail(t)[1..]
      && (s.escapeNext ==> s.count > 0)
  {
    var c := Current(t);
    assert c[t.pos..][1..] == c[t.pos + 1..];
    assert Escape(c[t.pos..]) == EscapeByte(c[t.pos]) + Escape(c[t.pos + 1..]);
  }

  predicate Stuck(t: Tx) {
    t.phase == TxData && t.count == 0
  }

  // The next state t' of an iteration that writes exactly the next remaining byte.
  predicate Emits(t: Tx, t': Tx)
    requires TxInv(t)
  {
    && TxInv(t')
    && Remaining(t) != []
    && t'.wire == t.wire + [Remaining(t)[0]]
    && Remaining(t') == Remaining(t)[1..]
  }

  lemma LengthOfCut(p: seq<byte>)
    ensures LengthBytes(|Cut(p)|) == LengthBytes(|p|)
  {
    var len := |p|;
    var q, r := len / 0x1_0000, len % 0x1_0000;
    assert len / 256 == 256 * q + r / 256;
  }

  lemma SentUnfolds(p: seq<byte>)
    ensures Sent(p) == [FRAME_HEADER] + (Escape(LengthBytes(|p|)) + Body(p))
  {
    LengthOfCut(p);
    hide LengthBytes;
    hide Escape;
    hide Cut;
    hide Finishes;
    var len := Escape(LengthBytes(|p|));
    if Finishes(p) {
      assert [FRAME_HEADER] + len + Escape(Cut(p)) + [FRAME_FOOTER] == [FRAME_HEADER] + (len + Body(p));
    } else {
      assert len + [] == len;
    }
  }

  lemma HeaderEmits(t: Tx)
    requires TxInv(t) && t.phase == TxHeader
    ensures Emits(t, TxByte(t))
  {
    var p := t.skb.value;
    SentUnfolds(p);
    var t' := TxByte(t);
    assert t'.lengthBytes[0..] == t.lengthBytes;
    assert Remaining(t') == Escape(t.lengthBytes) + Body(p);
  }

  lemma TailStarts(t: Tx)
    requires t.pos < |Current(t)| && Pointer(t)
    ensures Tail(t) != []
  {
    var c := Current(t)[t.pos..];
    assert Escape(c) == EscapeByte(c[0]) + Escape(c[1..]);
  }

  lemma BodyStarts(t: Tx)
    requires TxInv(t) && t.phase == TxData && t.pos == 0 && !t.escapeNext
    ensures Remaining(t) == Body(t.skb.value)
  {
    assert Current(t)[0..] == Cut(t.skb.value);
  }

  lemma LastLengthByteEmits(t: Tx, s: Tx)
    requires TxInv(t) && t.phase == TxLength && Tail(t) != []
    requires s == SendByte(t, t.lengthBytes[t.pos]) && s.count == 0
    requires Pointer(s) && s.wire == t.wire + [Tail(t)[0]] && Tail(s) == Tail(t)[1..]
    ensures Emits(t, TxByte(t))
  {
    var t' := TxByte(t);
    assert Tail(s) == [];
    assert |Tail(t)| == 1;
    assert TxInv(t');
    BodyStarts(t');
    assert Remaining(t)[1..] == Body(t.skb.value);
  }

  lemma EarlierLengthByteEmits(t: Tx, s: Tx)
    requires TxInv(t) && t.phase == TxLength && Tail(t) != []
    requires s == SendByte(t, t.lengthBytes[t.pos]) && s.count > 0
    requires Pointer(s) && s.wire == t.wire + [Tail(t)[0]] && Tail(s) == Tail(t)[1..]
    ensures Emits(t, TxByte(t))
  {
    hide LengthBytes;
    hide Escape;
    hide Body;
    assert TxByte(t) == s && TxInv(s);
    var tail, body := Tail(t), Body(t.skb.value);
    assert (tail + body)[1..] == tail[1..] + body;
  }

  lemma LengthEmits(t: Tx)
    requires TxInv(t) && t.phase == TxLength
    ensures Emits(t, TxByte(t))
  {
    var s := SendByte(t, t.lengthBytes[t.pos]);
    TailShrinks(t);
    TailStarts(t);
    if s.count == 0 {
      LastLengthByteEmits(t, s);
    } else {
      EarlierLengthByteEmits(t, s);
    }
  }

  lemma DataEmits(t: Tx)
    requires TxInv(t) && t.phase == TxData && t.count > 0
    ensures Emits(t, TxByte(t))
  {
    var p := t.skb.value;
    var s := SendByte(t, p[t.pos]);
    TailShrinks(t);
    TailStarts(t);
    if s.count == 0 {
      assert Tail(s) == [];
    }
  }

  // One iteration writes exactly the next remaining byte, unless the frame is stuck.
  lemma ByteEmits(t: Tx)
    requires TxInv(t) && t.phase != TxIdle
    ensures TxInv(TxByte(t))
    ensures Stuck(t) ==> TxByte(t) == t && Remaining(t) == []
    ensures !Stuck(t) ==> Emits(t, TxByte(t))
  {
    match t.phase
    case TxHeader => HeaderEmits(t);
    case TxLength => LengthEmits(t);
    case TxData =>
      if t.count > 0 {
        DataEmits(t);
      } else {
        assert Cut(t.skb.value)[t.pos..] == [];
      }
    case TxFooter =>
  }
}
