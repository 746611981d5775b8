// The bytes on the wire when start_xmit and the task interleave: the machine of TxInterleaving with
// the payloads, the length bytes, the pointer and the escape flag.
module InterleavedWire {
  import opened Options
  import opened Wire
  import opened TxMachine
  import opened TxInterleaving
  import TxRuns

  datatype Wired = Wired(
    base: World,
    payloads: seq<seq<byte>>,
    lengthBytes: seq<byte>,
    pos: nat,
    escapeNext: bool,
    wire: seq<byte>,
    accepted: seq<seq<byte>>,  // the payloads of the frames installed, in order
    resets: nat)               // how often start_xmit has cleared tx_escape_next when it was set

  const START := Wired(INITIAL, [], [0, 0], 0, false, [], [], 0)

  // A call brings its payload; everything else is a step of the machine without bytes.
  datatype Event = Offer(payload: seq<byte>) | Other(action: Action)

  function Payload(w: Wired): seq<byte> {
    if w.base.txSkb.Some? && w.base.txSkb.value < |w.payloads| then w.payloads[w.base.txSkb.value] else []
  }

  // The bytes that tx_current_ptr runs over.
  function Field(w: Wired): seq<byte> {
    if w.base.phase == TxLength then w.lengthBytes else Cut(Payload(w))
  }

  predicate Sends(w: Wired) {
    (w.base.phase == TxLength || w.base.phase == TxData) && w.base.count > 0 && w.pos < |Field(w)|
  }

  // Whether the next byte written is the last one for the byte at tx_current_ptr.
  predicate Consumes(w: Wired) {
    Sends(w) ==> w.escapeNext || !Special(Field(w)[w.pos])
  }

  function SendBytes(w: Wired): Wired
    requires Sends(w)
  {
    var b := Field(w)[w.pos];
    var s :=
      if w.escapeNext then w.(wire := w.wire + [Xor20(b)], escapeNext := false, pos := w.pos + 1)
      else if Special(b) then w.(wire := w.wire + [ESCAPE_CHAR], escapeNext := true)
      else w.(wire := w.wire + [b], pos := w.pos + 1);
    if w.base.phase == TxLength && w.base.count == 1 && Consumes(w) then s.(pos := 0, escapeNext := false) else s
  }

  function TaskBytes(w: Wired, full: bool): Wired {
    if w.base.tpc != TLoop || full then w
    else match w.base.phase
      case TxIdle => w
      case TxHeader => w.(wire := w.wire + [FRAME_HEADER])
      case TxFooter => w.(wire := w.wire + [FRAME_FOOTER])
      case _ => if Sends(w) then SendBytes(w) else w
  }

  function XmitBytes(w: Wired): Wired {
    match w.base.xpc
    case XSkbSet => w.(accepted := w.accepted + [Payload(w)])
    case XHeaderSet => w.(lengthBytes := LengthBytes(|Payload(w)|), pos := 0)
    case XCountSet => w.(escapeNext := false, resets := w.resets + (if w.escapeNext then 1 else 0))
    case _ => w
  }

  function Do(w: Wired, e: Event): Wired {
    match e
    case Offer(p) =>
      w.(base := Act(w.base, Call(|p|)), payloads := if w.base.xpc == XOut then w.payloads + [p] else w.payloads)
    case Other(Call(_)) => w
    case Other(Xmit(up)) => XmitBytes(w).(base := Act(w.base, Xmit(up)))
    case Other(Task(full, _)) => TaskBytes(w, full).(base := Act(w.base, Task(full, Consumes(w))))
    case Other(a) => w.(base := Act(w.base, a))
  }

  function DoAll(w: Wired, es: seq<Event>): Wired
    decreases |es|
  {
    if es == [] then w else DoAll(Do(w, es[0]), es[1..])
  }

  // Without the bytes, this is a run of the machine: all that holds there holds here.
  lemma {:induction false} BaseRuns(w: Wired, es: seq<Event>) returns (acts: seq<Action>)
    ensures DoAll(w, es).base == Run(w.base, acts)
    decreases |es|
  {
    if es == [] {
      acts := [];
    } else {
      hide Act;
      var rest := BaseRuns(Do(w, es[0]), es[1..]);
      match es[0]
      case Offer(p) =>
        acts := [Call(|p|)] + rest;
        First(w.base, Call(|p|), rest);
      case Other(Call(_)) => acts := rest;
      case Other(Task(full, _)) =>
        acts := [Task(full, Consumes(w))] + rest;
        First(w.base, Task(full, Consumes(w)), rest);
      case Other(a) =>
        acts := [a] + rest;
        First(w.base, a, rest);
    }
  }

  // ---- What is left to send ----

  // No frame, or all of it written; tx_state set but not the count; or under way.
  datatype Stage = Gone | Early | Under

  function StageOf(w: World): Stage {
    if w.phase.TxIdle? || Finishing(w) then Gone else if Starting(w) then Early else Under
  }

  // The transmitter of TxMachine that has come as far with the frame.
  function Proj(w: Wired): Tx {
    Tx(w.base.phase, Some(Payload(w)), w.lengthBytes, w.pos, w.base.count, w.escapeNext, w.wire, 0, 0, false, true, false)
  }

  predicate Shape(w: Wired) {
    && |w.payloads| == |w.base.lens| && (forall i :: 0 <= i < |w.payloads| ==> |w.payloads[i]| == w.base.lens[i])
    && (StageOf(w.base) != Under || w.base.phase == TxFooter ==> !w.escapeNext)
    && (w.base.xpc.XPointerSet? ==> w.lengthBytes == LengthBytes(|Payload(w)|) && w.pos == 0)
    && (StageOf(w.base) == Under ==> TxInv(Proj(w)))
  }

  // The bytes of the frame in flight that are still to be written.
  function Left(w: Wired): seq<byte>
    requires Shape(w)
  {
    match StageOf(w.base)
    case Gone => []
    case Early => if w.base.phase == TxHeader then Sent(Payload(w)) else Sent(Payload(w))[1..]
    case Under => Remaining(Proj(w))
  }

  predicate Content(w: Wired)
    requires Shape(w)
  {
    && |w.wire| + |Left(w)| == |TxRuns.SentAll(w.accepted)| + w.resets
    && (w.resets == 0 ==> w.wire + Left(w) == TxRuns.SentAll(w.accepted))
  }

  predicate WireInv(w: Wired) {
    TxInterleaving.Inv(w.base, 0) && Shape(w) && Content(w)
  }

  // ---- Steps that write nothing ----

  // The frame is where it was.
  predicate SameFrame(w: Wired, v: Wired) {
    && v.wire == w.wire && v.accepted == w.accepted && v.resets == w.resets
    && StageOf(v.base) == StageOf(w.base)
    && (StageOf(w.base) != Gone ==> v.base.phase == w.base.phase && Payload(v) == Payload(w))
    && (StageOf(w.base) == Under ==> Proj(v) == Proj(w))
  }

  lemma SameFrameKeeps(w: Wired, v: Wired)
    requires Shape(w) && Content(w) && Shape(v) && SameFrame(w, v)
    ensures Content(v)
  {
    hide Remaining;
    hide TxInv;
  }

  // ---- Steps of start_xmit ----

  lemma {:induction false} SentAllMore(ps: seq<seq<byte>>, p: seq<byte>)
    ensures TxRuns.SentAll(ps + [p]) == TxRuns.SentAll(ps) + Sent(p)
    decreases |ps|
  {
    hide Sent;
    if ps == [] {
      assert [p][1..] == [];
      assert Sent(p) + [] == Sent(p);
    } else {
      assert (ps + [p])[1..] == ps[1..] + [p];
      SentAllMore(ps[1..], p);
    }
  }

  lemma InstallKeeps(w: Wired, v: Wired)
    requires Shape(w) && Content(w) && Shape(v)
    requires StageOf(w.base) == Gone && StageOf(v.base) == Early && v.base.phase == TxHeader
    requires v.wire == w.wire && v.accepted == w.accepted + [Payload(v)] && v.resets == w.resets
    ensures Content(v)
  {
    SentAllMore(w.accepted, Payload(v));
    assert w.wire + [] == w.wire;
  }

  // A frame whose header has been written, and nothing else yet.
  lemma LengthBegins(t: Tx)
    requires TxInv(t) && t.phase == TxLength && t.pos == 0 && !t.escapeNext
    ensures Remaining(t) == Sent(t.skb.value)[1..]
  {
    SentUnfolds(t.skb.value);
    assert t.lengthBytes[0..] == t.lengthBytes;
    assert Tail(t) == Escape(t.lengthBytes);
  }

  lemma CountKeeps(w: Wired, v: Wired)
    requires Shape(w) && Content(w) && Shape(v)
    requires StageOf(w.base) == Early && StageOf(v.base) == Under && v.base.phase == w.base.phase
    requires w.base.phase == TxHeader || w.base.phase == TxLength
    requires Payload(v) == Payload(w) && v.pos == 0 && !v.escapeNext
    requires v.wire == w.wire && v.accepted == w.accepted && v.resets == w.resets
    ensures Content(v)
  {
    if v.base.phase == TxLength {
      LengthBegins(Proj(v));
    }
    hide Sent;
  }

  lemma TailWithEscape(t: Tx)
    requires t.pos < |Current(t)| && Special(Current(t)[t.pos]) && t.escapeNext
    ensures Pointer(t.(escapeNext := false)) && Tail(t.(escapeNext := false)) == [ESCAPE_CHAR] + Tail(t)
  {
    hide Escape;
    hide Cut;
    var s := t.(escapeNext := false);
    assert Current(s) == Current(t);
    hide Current;
    EscapesFirst(Current(t)[t.pos..]);
  }

  lemma EscapesFirst(s: seq<byte>)
    requires s != [] && Special(s[0])
    ensures Escape(s) != [] && Escape(s) == [ESCAPE_CHAR] + Escape(s)[1..]
  {
    var rest := Escape(s[1..]);
    assert EscapeByte(s[0]) + rest == [ESCAPE_CHAR] + ([Xor20(s[0])] + rest);
  }

  lemma ClearedLength(t: Tx)
    requires TxInv(t) && t.escapeNext && t.phase == TxLength
    ensures TxInv(t.(escapeNext := false))
    ensures Remaining(t.(escapeNext := false)) == [ESCAPE_CHAR] + Remaining(t)
  {
    hide LengthBytes;
    hide Body;
    hide Finishes;
    TailWithEscape(t);
    hide Tail;
  }

  lemma ClearedData(t: Tx)
    requires TxInv(t) && t.escapeNext && t.phase == TxData
    ensures TxInv(t.(escapeNext := false))
    ensures Remaining(t.(escapeNext := false)) == [ESCAPE_CHAR] + Remaining(t)
  {
    hide LengthBytes;
    hide Cut;
    hide Finishes;
    TailWithEscape(t);
    hide Tail;
  }

  // Clearing the flag after the escape character has been written: it will be written once more.
  lemma ClearedFlag(t: Tx)
    requires TxInv(t) && t.escapeNext && (t.phase == TxLength || t.phase == TxData)
    ensures TxInv(t.(escapeNext := false))
    ensures Remaining(t.(escapeNext := false)) == [ESCAPE_CHAR] + Remaining(t)
  {
    hide TxInv;
    hide Remaining;
    if t.phase == TxLength {
      ClearedLength(t);
    } else {
      ClearedData(t);
    }
  }

  lemma ResetKeeps(w: Wired, v: Wired)
    requires Shape(w) && Content(w) && Shape(v)
    requires w.base.phase == TxLength || w.base.phase == TxData
    requires StageOf(w.base) == StageOf(v.base) == Under && w.escapeNext && Proj(v) == Proj(w).(escapeNext := false)
    requires v.wire == w.wire && v.accepted == w.accepted && v.resets == w.resets + 1
    ensures Content(v)
  {
    ClearedFlag(Proj(w));
    hide TxInv;
    hide Remaining;
  }

  // ---- Steps of the task ----

  lemma OneByteOver(wire: seq<byte>, left: seq<byte>)
    requires left != []
    ensures wire + [left[0]] + left[1..] == wire + left
  {
  }

  lemma EmitKeeps(w: Wired, v: Wired)
    requires Shape(w) && Content(w) && Shape(v) && Left(w) != []
    requires v.wire == w.wire + [Left(w)[0]] && Left(v) == Left(w)[1..]
    requires v.accepted == w.accepted && v.resets == w.resets
    ensures Content(v)
  {
    hide Left;
    hide Shape;
    OneByteOver(w.wire, Left(w));
  }

  // A byte of the header, the length or the payload is the one that TxMachine writes.
  lemma HeaderIsTxByte(w: Wired, v: Wired)
    requires Shape(w) && StageOf(w.base) == Under && w.base.tpc.TLoop? && w.base.phase == TxHeader
    requires v == Do(w, Other(Task(false, true)))
    ensures Proj(v) == TxByte(Proj(w)) && StageOf(v.base) == Under
  {
  }

  lemma LengthIsTxByte(w: Wired, v: Wired)
    requires Shape(w) && StageOf(w.base) == Under && w.base.tpc.TLoop? && w.base.phase == TxLength
    requires w.base.txSkb.Some? && w.base.txSkb.value < |w.payloads|
    requires v == Do(w, Other(Task(false, true)))
    ensures Proj(v) == TxByte(Proj(w)) && StageOf(v.base) == Under
  {
    LengthShape(w);
    hide Shape;
    hide TxInv;
    hide LengthBytes;
  }

  lemma LengthShape(w: Wired)
    requires Shape(w) && StageOf(w.base) == Under && w.base.phase == TxLength
    requires w.base.txSkb.Some? && w.base.txSkb.value < |w.payloads|
    ensures TxInv(Proj(w)) && w.pos + w.base.count == 2 == |w.lengthBytes| && w.base.count > 0
    ensures Length(w.base) == |Payload(w)|
  {
  }

  lemma DataIsTxByte(w: Wired, v: Wired)
    requires Shape(w) && StageOf(w.base) == Under && w.base.tpc.TLoop? && w.base.phase == TxData
    requires v == Do(w, Other(Task(false, true)))
    ensures Proj(v) == TxByte(Proj(w)) && StageOf(v.base) == Under
    ensures v.base.phase == TxFooter ==> !v.escapeNext
  {
  }

  // What the lemmas below need of the machine without bytes.
  predicate Sane(w: Wired) {
    && Control(w.base)
    && (w.base.txSkb.Some? ==> w.base.txSkb.value < |w.payloads|)
  }

  lemma UnderEmits(w: Wired, v: Wired)
    requires Shape(w) && Content(w) && StageOf(w.base) == StageOf(v.base) == Under
    requires w.base.phase != TxFooter && w.base.phase != TxIdle && Proj(v) == TxByte(Proj(w))
    requires v.payloads == w.payloads && v.base.lens == w.base.lens && v.base.xpc == w.base.xpc
    requires v.base.phase == TxFooter ==> !v.escapeNext
    requires v.accepted == w.accepted && v.resets == w.resets
    ensures Shape(v) && Content(v)
  {
    var t := Proj(w);
    ByteEmits(t);
    assert v.wire == Proj(v).wire && w.wire == t.wire;
    if Stuck(t) {
      hide TxInv;
      hide Remaining;
      hide TxByte;
      SameFrameKeeps(w, v);
    } else {
      hide TxInv;
      hide Remaining;
      hide TxByte;
      EmitKeeps(w, v);
    }
  }

  lemma HeaderKeeps(w: Wired, v: Wired)
    requires Shape(w) && Content(w) && Sane(w) && w.base.tpc.TLoop? && w.base.phase == TxHeader
    requires v == Do(w, Other(Task(false, true)))
    ensures Shape(v) && Content(v)
  {
    if StageOf(w.base) == Under {
      HeaderIsTxByte(w, v);
      hide Do;
      hide TxByte;
      hide Shape;
      UnderEmits(w, v);
    } else {
      EmitKeeps(w, v);
    }
  }

  lemma LengthKeeps(w: Wired, v: Wired)
    requires Shape(w) && Content(w) && Sane(w) && w.base.tpc.TLoop? && w.base.phase == TxLength
    requires v == Do(w, Other(Task(false, true)))
    ensures Shape(v) && Content(v)
  {
    if StageOf(w.base) == Under {
      LengthIsTxByte(w, v);
      LengthStaysShort(w, v);
      hide Do;
      hide TxByte;
      hide Shape;
      UnderEmits(w, v);
    } else {
      assert v == w;
    }
  }

  lemma LengthStaysShort(w: Wired, v: Wired)
    requires w.base.tpc.TLoop? && w.base.phase == TxLength && v == Do(w, Other(Task(false, true)))
    ensures v.base.phase != TxFooter && v.payloads == w.payloads && v.accepted == w.accepted && v.resets == w.resets
    ensures v.base.lens == w.base.lens && v.base.xpc == w.base.xpc
  {
  }

  lemma DataKeeps(w: Wired, v: Wired)
    requires Shape(w) && Content(w) && Sane(w) && w.base.tpc.TLoop? && w.base.phase == TxData
    requires v == Do(w, Other(Task(false, true)))
    ensures Shape(v) && Content(v)
  {
    assert StageOf(w.base) == Under;
    DataIsTxByte(w, v);
    DataTouches(w, v);
    hide Do;
    hide TxByte;
    hide Shape;
    UnderEmits(w, v);
  }

  lemma DataTouches(w: Wired, v: Wired)
    requires w.base.tpc.TLoop? && w.base.phase == TxData && v == Do(w, Other(Task(false, true)))
    ensures v.payloads == w.payloads && v.accepted == w.accepted && v.resets == w.resets
    ensures v.base.lens == w.base.lens && v.base.xpc == w.base.xpc
  {
  }

  lemma FooterKeeps(w: Wired, v: Wired)
    requires Shape(w) && Content(w) && Sane(w) && w.base.tpc.TLoop? && w.base.phase == TxFooter
    requires v == Do(w, Other(Task(false, true)))
    ensures Shape(v) && Content(v)
  {
    assert StageOf(w.base) == Under && Left(w) == [FRAME_FOOTER];
    EmitKeeps(w, v);
  }

  // A step of the machine without bytes that leaves the frame where it is.
  predicate SameStage(b: World, c: World) {
    && c.lens == b.lens && StageOf(c) == StageOf(b) && (c.xpc.XPointerSet? ==> b.xpc.XPointerSet?)
    && (StageOf(b) != Gone ==> c.phase == b.phase && c.txSkb == b.txSkb && c.count == b.count)
  }

  lemma BaseOnlyKeeps(w: Wired, v: Wired)
    requires Shape(w) && Content(w) && Sane(w) && v == w.(base := v.base) && SameStage(w.base, v.base)
    ensures Shape(v) && Content(v)
  {
    hide TxInv;
    hide Remaining;
    if w.base.xpc.XPointerSet? {
      assert StageOf(w.base) == Early;
    }
    SameFrameKeeps(w, v);
  }

  // Everything the task does but an iteration of its loop.
  lemma TaskRestStays(b: World, full: bool, consumed: bool)
    requires Control(b) && (!b.tpc.TLoop? || full || b.phase == TxIdle)
    ensures SameStage(b, TaskStep(b, full, consumed))
  {
    match b.tpc
    case TOut =>
    case TLoop =>
    case TFooterWritten =>
    case TCounted =>
    case TFreed =>
    case TSkbNull =>
    case TIdleSet =>
    case TUnlock =>
    case TIdleSeen =>
  }

  lemma TaskRestKeeps(w: Wired, v: Wired, full: bool)
    requires Shape(w) && Content(w) && Sane(w)
    requires !w.base.tpc.TLoop? || full || w.base.phase == TxIdle
    requires v == Do(w, Other(Task(full, true)))
    ensures Shape(v) && Content(v)
  {
    hide Shape;
    hide Content;
    TaskRestStays(w.base, full, Consumes(w));
    assert v == w.(base := TaskStep(w.base, full, Consumes(w)));
    hide Do;
    hide TaskStep;
    hide SameStage;
    hide Consumes;
    BaseOnlyKeeps(w, v);
  }

  lemma TaskKeeps(w: Wired, full: bool)
    requires Shape(w) && Content(w) && Sane(w)
    ensures Shape(Do(w, Other(Task(full, true)))) && Content(Do(w, Other(Task(full, true))))
  {
    hide Shape;
    hide Content;
    hide Sane;
    hide Do;
    var v := Do(w, Other(Task(full, true)));
    if w.base.tpc.TLoop? && !full {
      match w.base.phase
      case TxIdle => TaskRestKeeps(w, v, full);
      case TxHeader => HeaderKeeps(w, v);
      case TxLength => LengthKeeps(w, v);
      case TxData => DataKeeps(w, v);
      case TxFooter => FooterKeeps(w, v);
    } else {
      TaskRestKeeps(w, v, full);
    }
  }

  lemma XmitFrameKeeps(w: Wired, v: Wired, up: bool)
    requires Shape(w) && Content(w) && Sane(w) && w.base.lens != []
    requires w.base.xpc.XSkbSet? || w.base.xpc.XHeaderSet? || w.base.xpc.XPointerSet?
    requires v == Do(w, Other(Xmit(up)))
    ensures Shape(v) && Content(v)
  {
    hide Remaining;
    hide Sent;
    match w.base.xpc
    case XSkbSet => InstallKeeps(w, v);
    case XHeaderSet => SameFrameKeeps(w, v);
    case XPointerSet =>
      StartShape(w, v);
      CountKeeps(w, v);
  }

  lemma StartShape(w: Wired, v: Wired)
    requires Shape(w) && Sane(w) && w.base.lens != [] && w.base.xpc.XPointerSet?
    requires v.base == Act(w.base, Xmit(true)) && v == w.(base := v.base)
    ensures Shape(v) && StageOf(v.base) == Under
  {
  }

  lemma XmitResetKeeps(w: Wired, v: Wired, up: bool)
    requires Shape(w) && Content(w) && Sane(w) && w.base.lens != [] && w.base.xpc.XCountSet?
    requires v == Do(w, Other(Xmit(up)))
    ensures Shape(v) && Content(v)
  {
    hide TxInv;
    hide Remaining;
    hide Content;
    if w.escapeNext {
      EscapingShape(w);
      ClearedFlag(Proj(w));
      ResetKeeps(w, v);
    } else {
      SameFrameKeeps(w, v);
    }
  }

  lemma EscapingShape(w: Wired)
    requires Shape(w) && w.escapeNext
    ensures StageOf(w.base) == Under && (w.base.phase == TxLength || w.base.phase == TxData)
  {
  }

  // Everything start_xmit does but install the frame.
  predicate XmitRest(pc: XmitPc) {
    !pc.XSkbSet? && !pc.XHeaderSet? && !pc.XPointerSet? && !pc.XCountSet?
  }

  lemma XmitRestStays(b: World, up: bool)
    requires Control(b) && b.lens != [] && XmitRest(b.xpc)
    ensures SameStage(b, XmitStep(b, up))
  {
    if b.xpc.XIdleSeen? {
      assert b.phase.TxIdle?;
    } else {
      XmitTouchesNothing(b, up);
    }
  }

  lemma XmitTouchesNothing(b: World, up: bool)
    requires b.lens != [] && XmitRest(b.xpc) && !b.xpc.XIdleSeen?
    ensures SameStage(b, XmitStep(b, up))
  {
    match b.xpc
    case XOut =>
    case XEntered =>
    case XUp =>
    case XStopped =>
    case XPrepared =>
    case XImscSet =>
    case XBusySeen =>
    case XFreed =>
  }

  lemma XmitRestKeeps(w: Wired, v: Wired, up: bool)
    requires Shape(w) && Content(w) && Sane(w) && w.base.lens != [] && XmitRest(w.base.xpc)
    requires v == Do(w, Other(Xmit(up)))
    ensures Shape(v) && Content(v)
  {
    hide Shape;
    hide Content;
    XmitRestStays(w.base, up);
    assert v == w.(base := XmitStep(w.base, up));
    hide Do;
    hide XmitStep;
    hide SameStage;
    BaseOnlyKeeps(w, v);
  }

  lemma XmitKeeps(w: Wired, up: bool)
    requires Shape(w) && Content(w) && Sane(w) && w.base.lens != []
    ensures Shape(Do(w, Other(Xmit(up)))) && Content(Do(w, Other(Xmit(up))))
  {
    hide Shape;
    hide Content;
    hide Sane;
    hide Do;
    var v := Do(w, Other(Xmit(up)));
    match w.base.xpc
    case XSkbSet | XHeaderSet | XPointerSet => XmitFrameKeeps(w, v, up);
    case XCountSet => XmitResetKeeps(w, v, up);
    case _ => XmitRestKeeps(w, v, up);
  }

  lemma OfferKeeps(w: Wired, p: seq<byte>)
    requires Shape(w) && Content(w) && Sane(w)
    ensures Shape(Do(w, Offer(p))) && Content(Do(w, Offer(p)))
  {
    hide TxInv;
    hide Remaining;
    SameFrameKeeps(w, Do(w, Offer(p)));
  }

  lemma OtherKeeps(w: Wired, a: Action)
    requires Shape(w) && Content(w) && Sane(w)
    requires a.StartTask? || a.Irq? || a.IrqStep? || a.PollStep?
    ensures Shape(Do(w, Other(a))) && Content(Do(w, Other(a)))
  {
    hide Shape;
    hide Content;
    OtherStays(w.base, a);
    hide Act;
    hide SameStage;
    BaseOnlyKeeps(w, Do(w, Other(a)));
  }

  lemma OtherStays(b: World, a: Action)
    requires a.StartTask? || a.Irq? || a.IrqStep? || a.PollStep?
    ensures SameStage(b, Act(b, a))
  {
  }

  lemma InvIsSane(w: Wired)
    requires TxInterleaving.Inv(w.base, 0) && |w.payloads| == |w.base.lens|
    ensures Sane(w)
  {
  }

  lemma BaseKeeps(w: Wired, e: Event)
    requires TxInterleaving.Inv(w.base, 0)
    ensures TxInterleaving.Inv(Do(w, e).base, 0)
  {
    hide TxInterleaving.Inv;
    hide Act;
    match e
    case Offer(p) => ActKeepsInv(w.base, Call(|p|), 0);
    case Other(Call(_)) =>
    case Other(Task(full, _)) => ActKeepsInv(w.base, Task(full, Consumes(w)), 0);
    case Other(a) => ActKeepsInv(w.base, a, 0);
  }

  lemma ShapeSizes(w: Wired)
    requires Shape(w)
    ensures |w.payloads| == |w.base.lens|
  {
  }

  lemma DoKeeps(w: Wired, e: Event)
    requires WireInv(w)
    ensures WireInv(Do(w, e))
  {
    ShapeSizes(w);
    InvIsSane(w);
    BaseKeeps(w, e);
    hide TxInterleaving.Inv;
    hide Shape;
    hide Content;
    hide Sane;
    match e
    case Offer(p) => OfferKeeps(w, p);
    case Other(Call(_)) =>
    case Other(Xmit(up)) =>
      if w.base.lens == [] {
        IdleXmit(w, up);
      } else {
        XmitKeeps(w, up);
      }
    case Other(Task(full, _)) => TaskKeeps(w, full);
    case Other(a) => OtherKeeps(w, a);
  }

  lemma IdleXmit(w: Wired, up: bool)
    requires Sane(w) && w.base.lens == []
    ensures Do(w, Other(Xmit(up))) == w
  {
  }

  lemma {:induction false} DoAllKeeps(w: Wired, es: seq<Event>)
    requires WireInv(w)
    ensures WireInv(DoAll(w, es))
    decreases |es|
  {
    hide WireInv;
    hide Do;
    if es != [] {
      DoKeeps(w, es[0]);
      DoAllKeeps(Do(w, es[0]), es[1..]);
    }
  }

  lemma StartInv()
    ensures WireInv(START)
  {
    InitialInv(0);
    hide TxInterleaving.Inv;
    assert Shape(START);
  }

  // ---- Results, over every interleaving ----

  // The wire and what is left of the frame in flight are the frames of the accepted payloads, in
  // order, if and only if start_xmit has never cleared tx_escape_next when it was set. Each time it
  // has, there is one byte more.
  lemma WireSurvivesExactly(es: seq<Event>)
    ensures var w := DoAll(START, es);
      && Shape(w)
      && (w.wire + Left(w) == TxRuns.SentAll(w.accepted) <==> w.resets == 0)
      && |w.wire| + |Left(w)| == |TxRuns.SentAll(w.accepted)| + w.resets
  {
    StartInv();
    DoAllKeeps(START, es);
    hide Shape;
    hide Left;
    hide TxInterleaving.Inv;
  }

  // So, as long as it has not, the wire is a prefix of those frames, and all of them at idle.
  lemma WirePrefix(es: seq<Event>)
    requires DoAll(START, es).resets == 0
    ensures var w := DoAll(START, es);
      && w.wire <= TxRuns.SentAll(w.accepted)
      && (w.base.phase == TxIdle ==> w.wire == TxRuns.SentAll(w.accepted))
  {
    WireSurvivesExactly(es);
    var w := DoAll(START, es);
    if w.base.phase == TxIdle {
      assert Left(w) == [];
      assert w.wire + [] == w.wire;
    }
  }

  // With a frame in flight, start_xmit changes the frame only while it installs that very frame: the
  // length bytes, the pointer, the count and the escape flag. A dropped payload changes nothing of it.
  lemma DropLeavesFrameAlone(es: seq<Event>, up: bool)
    ensures var w := DoAll(START, es);
      var v := Do(w, Other(Xmit(up)));
      && v.wire == w.wire
      && (w.base.phase != TxIdle && !(v == w.(base := v.base) && v.base.phase == w.base.phase &&
                                      v.base.txSkb == w.base.txSkb && v.base.count == w.base.count) ==>
            w.base.xpc.XHeaderSet? || w.base.xpc.XPointerSet? || w.base.xpc.XCountSet?)
  {
    StartInv();
    DoAllKeeps(START, es);
    var w := DoAll(START, es);
    hide Shape;
    hide Content;
    match w.base.xpc
    case XOut =>
    case XEntered =>
    case XUp =>
    case XStopped =>
    case XIdleSeen =>
    case XSkbSet =>
    case XHeaderSet =>
    case XPointerSet =>
    case XCountSet =>
    case XPrepared =>
    case XImscSet =>
    case XBusySeen =>
    case XFreed =>
  }

  // ---- A frame that is damaged ----

  lemma {:induction false} DoAllConcat(w: Wired, a: seq<Event>, b: seq<Event>)
    ensures DoAll(w, a + b) == DoAll(DoAll(w, a), b)
    decreases |a|
  {
    if a == [] {
      assert a + b == b;
    } else {
      assert (a + b)[1..] == a[1..] + b;
      DoAllConcat(Do(w, a[0]), a[1..], b);
    }
  }

  // One more step of a run from the start.
  lemma DoThen(es: seq<Event>, e: Event, v: Wired) returns (longer: seq<Event>)
    requires Do(DoAll(START, es), e) == v
    ensures DoAll(START, longer) == v
  {
    longer := es + [e];
    DoAllConcat(START, es, [e]);
    assert DoAll(DoAll(START, es), [e]) == DoAll(Do(DoAll(START, es), e), [e][1..]);
  }

  const XMIT := Other(Xmit(true))
  const TASK := Other(Task(false, true))

  // A step of start_xmit out of the installation.
  lemma XmitThen(w: Wired, es: seq<Event>, b: World) returns (longer: seq<Event>, v: Wired)
    requires w == DoAll(START, es) && w.base.lens != [] && XmitRest(w.base.xpc) && b == XmitStep(w.base, true)
    ensures v == DoAll(START, longer) && v == w.(base := b)
  {
    XmitAlone(w);
    hide Do;
    hide XmitStep;
    v := w.(base := b);
    longer := DoThen(es, XMIT, v);
  }

  lemma OfferEnters(w: Wired, es: seq<Event>, p: seq<byte>) returns (longer: seq<Event>, v: Wired)
    requires w == DoAll(START, es) && w.base.xpc == XOut
    ensures v == DoAll(START, longer)
    ensures v == w.(payloads := w.payloads + [p], base := w.base.(lens := w.base.lens + [|p|], xpc := XEntered))
  {
    v := w.(payloads := w.payloads + [p], base := w.base.(lens := w.base.lens + [|p|], xpc := XEntered));
    longer := DoThen(es, Offer(p), v);
  }

  lemma OfferStores(w: Wired, es: seq<Event>, p: seq<byte>) returns (longer: seq<Event>, v: Wired)
    requires w == DoAll(START, es) && w.base.xpc == XOut && w.base.phase == TxIdle && |w.payloads| == |w.base.lens|
    ensures v == DoAll(START, longer)
    ensures v == w.(payloads := w.payloads + [p],
                    base := w.base.(lens := w.base.lens + [|p|], xpc := XSkbSet, offered := w.base.offered + 1,
                                    queueStopped := true, txSkb := Some(|w.payloads|)))
  {
    hide DoAll;
    longer, v := OfferEnters(w, es, p);
    longer, v := XmitThen(v, longer, v.base.(xpc := XUp, offered := v.base.offered + 1));
    longer, v := XmitThen(v, longer, v.base.(xpc := XStopped, queueStopped := true));
    longer, v := XmitThen(v, longer, v.base.(xpc := XIdleSeen));
    longer, v := XmitThen(v, longer, v.base.(xpc := XSkbSet, txSkb := Some(|w.payloads|)));
  }

  // Out of the installation, start_xmit touches none of the bytes.
  lemma XmitAlone(w: Wired)
    requires w.base.lens != [] && XmitRest(w.base.xpc)
    ensures Do(w, XMIT) == w.(base := XmitStep(w.base, true))
  {
  }

  lemma OfferCounts(w: Wired, es: seq<Event>) returns (longer: seq<Event>, v: Wired)
    requires w == DoAll(START, es) && w.base.xpc == XSkbSet && w.base.lens != []
    ensures v == DoAll(START, longer)
    ensures v == w.(accepted := w.accepted + [Payload(w)], lengthBytes := LengthBytes(|Payload(w)|), pos := 0,
                    base := w.base.(xpc := XCountSet, phase := TxHeader, count := 2))
  {
    hide LengthBytes;
    hide TaskStep;
    hide IrqNext;
    hide PollNext;
    hide TaskBytes;
    v := w.(accepted := w.accepted + [Payload(w)], base := w.base.(xpc := XHeaderSet, phase := TxHeader));
    longer := DoThen(es, XMIT, v);
    v := v.(lengthBytes := LengthBytes(|Payload(w)|), pos := 0, base := v.base.(xpc := XPointerSet));
    longer := DoThen(longer, XMIT, v);
    v := v.(base := v.base.(xpc := XCountSet, count := 2));
    longer := DoThen(longer, XMIT, v);
  }

  lemma OfferReturns(w: Wired, es: seq<Event>) returns (longer: seq<Event>, v: Wired)
    requires w == DoAll(START, es) && w.base.xpc == XCountSet && w.base.lens != [] && !w.escapeNext
    ensures v == DoAll(START, longer)
    ensures v == w.(base := w.base.(xpc := XOut, txim := true, workQueued := true))
  {
    v := w.(base := w.base.(xpc := XPrepared));
    longer := DoThen(es, XMIT, v);
    longer, v := XmitThen(v, longer, v.base.(xpc := XImscSet, txim := true));
    longer, v := XmitThen(v, longer, v.base.(xpc := XOut, workQueued := true));
  }

  lemma SendsHeader(w: Wired)
    requires w.base.tpc == TLoop && w.base.phase == TxHeader
    ensures Do(w, TASK) == w.(wire := w.wire + [FRAME_HEADER], base := w.base.(phase := TxLength))
  {
  }

  lemma SendsEscape(w: Wired)
    requires w.base.tpc == TLoop && Sends(w) && !w.escapeNext && Special(Field(w)[w.pos])
    ensures Do(w, TASK) == w.(wire := w.wire + [ESCAPE_CHAR], escapeNext := true)
  {
  }

  // A byte that needs no escape: the next one is that of the payload after the last length byte,
  // and the footer after the last one of the payload.
  lemma SendsPlain(w: Wired)
    requires w.base.tpc == TLoop && Sends(w) && !w.escapeNext && !Special(Field(w)[w.pos])
    ensures var last := w.base.count == 1;
      Do(w, TASK) == w.(
        wire := w.wire + [Field(w)[w.pos]],
        pos := if last && w.base.phase == TxLength then 0 else w.pos + 1,
        base := if !last then w.base.(count := w.base.count - 1)
                else if w.base.phase == TxLength then w.base.(phase := TxData, count := Length(w.base) % 0x1_0000)
                else w.base.(phase := TxFooter, count := 0))
  {
  }

  // Out of the loop, the task writes no byte.
  lemma TaskAlone(w: Wired)
    requires w.base.tpc != TLoop
    ensures Do(w, TASK) == w.(base := TaskStep(w.base, false, true))
  {
  }

  // The task sends all but the footer of a frame with the payload 0.
  lemma SendsZero(w: Wired, es: seq<Event>) returns (longer: seq<Event>, v: Wired)
    requires w == DoAll(START, es) && w.base.tpc == TOut && w.base.workQueued
    requires w.base.phase == TxHeader && w.base.count == 2 && w.pos == 0 && !w.escapeNext
    requires w.lengthBytes == [0, 1] && Payload(w) == [0] && Length(w.base) == 1
    ensures v == DoAll(START, longer)
    ensures v == w.(wire := v.wire, pos := 1,
                    base := w.base.(tpc := TLoop, workQueued := false, phase := TxFooter, count := 0))
  {
    v := w.(base := w.base.(tpc := TLoop, workQueued := false));
    longer := DoThen(es, Other(StartTask), v);
    hide Do;
    SendsHeader(v);
    v := v.(wire := v.wire + [FRAME_HEADER], base := v.base.(phase := TxLength));
    longer := DoThen(longer, TASK, v);
    SendsPlain(v);
    v := v.(wire := v.wire + [0], pos := 1, base := v.base.(count := 1));
    longer := DoThen(longer, TASK, v);
    longer, v := SendsZeroOn(v, longer);
  }

  lemma SendsZeroOn(w: Wired, es: seq<Event>) returns (longer: seq<Event>, v: Wired)
    requires w == DoAll(START, es) && w.base.tpc == TLoop && w.base.phase == TxLength
    requires w.base.count == 1 && w.pos == 1 && !w.escapeNext
    requires w.lengthBytes == [0, 1] && Payload(w) == [0] && Length(w.base) == 1
    ensures v == DoAll(START, longer)
    ensures v == w.(wire := v.wire, pos := 1, base := w.base.(phase := TxFooter, count := 0))
  {
    hide Do;
    assert Cut([0]) == [0];
    SendsPlain(w);
    v := w.(wire := w.wire + [1], pos := 0, base := w.base.(phase := TxData));
    longer := DoThen(es, TASK, v);
    SendsPlain(v);
    v := v.(wire := v.wire + [0], pos := 1, base := v.base.(phase := TxFooter, count := 0));
    longer := DoThen(longer, TASK, v);
  }

  // An interrupt queues the work item once more.
  lemma IrqQueues(w: Wired, es: seq<Event>) returns (longer: seq<Event>, v: Wired)
    requires w == DoAll(START, es) && w.base.ipc == IOut && w.base.txim && w.base.phase != TxIdle
    ensures v == DoAll(START, longer) && v == w.(base := w.base.(workQueued := true))
  {
    v := w.(base := w.base.(ipc := ITx));
    longer := DoThen(es, Other(Irq(false, true)), v);
    v := w.(base := w.base.(ipc := IBusySeen));
    longer := DoThen(longer, Other(IrqStep), v);
    v := w.(base := w.base.(workQueued := true));
    longer := DoThen(longer, Other(IrqStep), v);
  }

  lemma SendsFooter(w: Wired)
    requires w.base.phase == TxFooter && w.base.tpc == TLoop
    ensures Do(w, TASK) == w.(wire := w.wire + [FRAME_FOOTER], base := w.base.(tpc := TFooterWritten))
  {
  }

  // The task completes the frame and leaves.
  lemma Completes(w: Wired, es: seq<Event>) returns (longer: seq<Event>, v: Wired)
    requires w == DoAll(START, es) && w.base.phase == TxFooter && w.base.tpc == TLoop && w.base.txSkb.Some?
    ensures v == DoAll(START, longer)
    ensures v == w.(wire := v.wire, base := w.base.(
      packets := w.base.packets + 1, freed := w.base.freed + multiset{w.base.txSkb.value}, txSkb := None,
      tpc := TOut, phase := TxIdle, queueStopped := false, txim := false))
  {
    hide Do;
    SendsFooter(w);
    v := w.(wire := w.wire + [FRAME_FOOTER], base := w.base.(tpc := TFooterWritten));
    longer := DoThen(es, TASK, v);
    TaskAlone(v);
    v := v.(base := v.base.(tpc := TCounted, packets := v.base.packets + 1));
    longer := DoThen(longer, TASK, v);
    TaskAlone(v);
    v := v.(base := v.base.(tpc := TFreed, freed := v.base.freed + multiset{w.base.txSkb.value}));
    longer := DoThen(longer, TASK, v);
    TaskAlone(v);
    v := v.(base := v.base.(tpc := TSkbNull, txSkb := None));
    longer := DoThen(longer, TASK, v);
    longer, v := Leaves(v, longer);
  }

  lemma Leaves(w: Wired, es: seq<Event>) returns (longer: seq<Event>, v: Wired)
    requires w == DoAll(START, es) && w.base.tpc == TSkbNull
    ensures v == DoAll(START, longer)
    ensures v == w.(base := w.base.(tpc := TOut, phase := TxIdle, queueStopped := false, txim := false))
  {
    hide Do;
    TaskAlone(w);
    v := w.(base := w.base.(tpc := TIdleSet, phase := TxIdle));
    longer := DoThen(es, TASK, v);
    TaskAlone(v);
    v := v.(base := v.base.(tpc := TUnlock, queueStopped := false));
    longer := DoThen(longer, TASK, v);
    TaskAlone(v);
    v := v.(base := v.base.(tpc := TIdleSeen));
    longer := DoThen(longer, TASK, v);
    TaskAlone(v);
    v := v.(base := v.base.(tpc := TOut, txim := false));
    longer := DoThen(longer, TASK, v);
  }

  lemma ResetStep(w: Wired)
    requires w.base.xpc == XCountSet && w.base.lens != [] && w.escapeNext
    ensures Do(w, XMIT) == w.(escapeNext := false, resets := w.resets + 1, base := w.base.(xpc := XPrepared))
  {
  }

  lemma LengthsOf()
    ensures LengthBytes(1) == [0, 1] && LengthBytes(85) == [0, FRAME_FOOTER]
  {
  }

  predicate HasSpecial(s: seq<byte>) {
    exists b <- s :: Special(b)
  }

  // The bytes of the frame of p that may have to be escaped.
  function Escapable(p: seq<byte>): seq<byte> {
    LengthBytes(|p|) + Cut(p)
  }

  // start_xmit has yet to clear the flag, the task is in its loop, and of the bytes from the pointer
  // on, one has to be escaped.
  predicate Exposed(w: Wired, p: seq<byte>) {
    && w.base.xpc == XCountSet && w.base.lens != [] && w.base.tpc == TLoop && !w.escapeNext && w.resets == 0
    && Payload(w) == p && w.lengthBytes == LengthBytes(|p|) && Length(w.base) == |p|
    && w.pos + w.base.count == |Field(w)| && w.base.count > 0
    && ((w.base.phase == TxLength && (HasSpecial(w.lengthBytes[w.pos..]) || HasSpecial(Cut(p))))
        || (w.base.phase == TxData && HasSpecial(Cut(p)[w.pos..])))
  }

  function BytesLeft(w: Wired): nat {
    w.base.count + (if w.base.phase == TxLength then |Payload(w)| else 0)
  }

  lemma SpecialLater(s: seq<byte>, i: nat)
    requires i < |s| && HasSpecial(s[i..]) && !Special(s[i])
    ensures i + 1 < |s| && HasSpecial(s[i + 1..])
  {
    var b :| b in s[i..] && Special(b);
    assert b in s[i + 1..];
  }

  // A byte that needs no escape brings the task closer to the one that does.
  lemma PlainStaysExposed(w: Wired, p: seq<byte>)
    requires Exposed(w, p) && !Special(Field(w)[w.pos])
    ensures Exposed(Do(w, TASK), p) && BytesLeft(Do(w, TASK)) < BytesLeft(w)
  {
    hide LengthBytes;
    SendsPlain(w);
    hide Do;
    if w.base.phase == TxData {
      SpecialLater(Cut(p), w.pos);
    } else if w.base.count > 1 {
      if HasSpecial(w.lengthBytes[w.pos..]) {
        SpecialLater(w.lengthBytes, w.pos);
      }
    } else {
      if HasSpecial(w.lengthBytes[w.pos..]) {
        SpecialLater(w.lengthBytes, w.pos);
      }
      assert Cut(p)[0..] == Cut(p);
      assert |Cut(p)| == |p| % 0x1_0000;
    }
  }

  // The run es installs the frame of p, and the next step of start_xmit damages it, as the first one.
  predicate Damages(es: seq<Event>, p: seq<byte>) {
    var w := DoAll(START, es);
    Payload(w) == p && StageOf(w.base) == Under && w.resets == 0 && Do(w, XMIT).resets == 1
  }

  lemma {:induction false} RunsInto(w: Wired, es: seq<Event>, p: seq<byte>) returns (longer: seq<Event>)
    requires w == DoAll(START, es) && Exposed(w, p)
    ensures Damages(longer, p)
    decreases BytesLeft(w)
  {
    var v := Do(w, TASK);
    longer := DoThen(es, TASK, v);
    if Special(Field(w)[w.pos]) {
      EscapeIsDamage(w);
    } else {
      PlainStaysExposed(w, p);
      hide Exposed;
      longer := RunsInto(v, longer, p);
    }
  }

  lemma EscapeIsDamage(w: Wired)
    requires w.base.xpc == XCountSet && w.base.lens != [] && w.base.tpc == TLoop && !w.escapeNext
    requires Sends(w) && Special(Field(w)[w.pos])
    ensures var v := Do(w, TASK);
      && Payload(v) == Payload(w) && StageOf(v.base) == Under
      && v.resets == w.resets && Do(v, XMIT).resets == w.resets + 1
  {
    SendsEscape(w);
    var v := Do(w, TASK);
    hide Do;
    ResetStep(v);
  }

  // The work item queued once more while the task sent the end of the first frame.
  lemma StaleWork() returns (es: seq<Event>, v: Wired)
    ensures v == DoAll(START, es)
    ensures v.base.xpc == XOut && v.base.phase == TxIdle && v.base.tpc == TOut && v.base.workQueued
    ensures |v.payloads| == |v.base.lens| && v.pos == 1 && !v.escapeNext && v.resets == 0
  {
    hide Do;
    hide LengthBytes;
    LengthsOf();
    v := START;
    es := [];
    es, v := OfferStores(v, es, [0]);
    es, v := OfferCounts(v, es);
    es, v := OfferReturns(v, es);
    es, v := SendsZero(v, es);
    es, v := IrqQueues(v, es);
    es, v := Completes(v, es);
  }

  // The task starts while start_xmit is about to clear the flag, and sends the header.
  lemma ExposesFrame(w: Wired, es: seq<Event>, p: seq<byte>) returns (longer: seq<Event>, v: Wired)
    requires w == DoAll(START, es) && w.base.xpc == XCountSet && w.base.lens != []
    requires w.base.tpc == TOut && w.base.workQueued && w.base.phase == TxHeader && w.base.count == 2
    requires w.pos == 0 && !w.escapeNext && w.resets == 0 && w.lengthBytes == LengthBytes(|p|)
    requires Payload(w) == p && Length(w.base) == |p| && HasSpecial(Escapable(p))
    ensures v == DoAll(START, longer) && Exposed(v, p)
  {
    hide LengthBytes;
    v := w.(base := w.base.(tpc := TLoop, workQueued := false));
    longer := DoThen(es, Other(StartTask), v);
    SendsHeader(v);
    hide Do;
    v := v.(wire := v.wire + [FRAME_HEADER], base := v.base.(phase := TxLength));
    longer := DoThen(longer, TASK, v);
    var b :| b in Escapable(p) && Special(b);
    assert v.lengthBytes[0..] == v.lengthBytes;
  }

  lemma DamageIsSpecial(es: seq<Event>, p: seq<byte>)
    requires Damages(es, p)
    ensures HasSpecial(Escapable(p))
  {
    StartInv();
    DoAllKeeps(START, es);
    var w := DoAll(START, es);
    hide TxInterleaving.Inv;
    hide Content;
    assert w.escapeNext;
    EscapingShape(w);
    EscapingIsSpecial(Proj(w));
    hide Shape;
    assert Current(Proj(w))[w.pos] in Escapable(p);
  }

  lemma EscapingIsSpecial(t: Tx)
    requires TxInv(t) && t.escapeNext && (t.phase == TxLength || t.phase == TxData)
    ensures t.pos < |Current(t)| && Special(Current(t)[t.pos])
    ensures t.lengthBytes == LengthBytes(|t.skb.value|)
  {
  }

  // Some interleaving damages the frame of p if and only if one of its length bytes, or of the bytes
  // of p that are transmitted, has to be escaped.
  lemma DamagePossibleExactly(p: seq<byte>)
    ensures (exists es :: Damages(es, p)) <==> HasSpecial(Escapable(p))
  {
    if HasSpecial(Escapable(p)) {
      var es, v := StaleWork();
      es := FrameExposed(v, es, p);
    } else {
      forall es
        ensures !Damages(es, p)
      {
        if Damages(es, p) {
          DamageIsSpecial(es, p);
        }
      }
    }
  }

  lemma FrameExposed(w: Wired, es: seq<Event>, p: seq<byte>) returns (longer: seq<Event>)
    requires w == DoAll(START, es) && HasSpecial(Escapable(p))
    requires w.base.xpc == XOut && w.base.phase == TxIdle && w.base.tpc == TOut && w.base.workQueued
    requires |w.payloads| == |w.base.lens| && !w.escapeNext && w.resets == 0
    ensures Damages(longer, p)
  {
    hide Do;
    hide LengthBytes;
    hide HasSpecial;
    var v := w;
    longer := es;
    longer, v := OfferStores(v, longer, p);
    longer, v := OfferCounts(v, longer);
    longer, v := ExposesFrame(v, longer, p);
    hide Exposed;
    longer := RunsInto(v, longer, p);
  }

  // The work item is queued again while it sends the end of one frame, and so runs on while the next
  // payload, of 85 bytes, is being installed: the escape character before its low length byte is
  // written, and start_xmit then clears the flag.
  lemma ResetIsReachable() returns (es: seq<Event>)
    ensures DoAll(START, es).resets == 1
  {
    var p: seq<byte> := seq(85, _ => 0);
    LengthsOf();
    assert FRAME_FOOTER in Escapable(p);
    DamagePossibleExactly(p);
    var before :| Damages(before, p);
    var w := DoAll(START, before);
    es := DoThen(before, XMIT, Do(w, XMIT));
  }

  // ---- A stall is final ----

  lemma DeadSendsNothing(w: Wired, e: Event)
    requires Dead(w.base)
    ensures var v := Do(w, e);
      Dead(v.base) && v.wire == w.wire && v.base.packets == w.base.packets
  {
    hide Dead;
    DeadIsOut(w.base);
    match e
    case Offer(p) => ActKeepsDead(w.base, Call(|p|));
    case Other(Call(_)) =>
    case Other(Task(full, _)) => ActKeepsDead(w.base, Task(full, Consumes(w)));
    case Other(a) => ActKeepsDead(w.base, a);
  }

  lemma DeadIsOut(w: World)
    requires Dead(w)
    ensures w.tpc.TOut?
  {
  }

  // From a stalled state, whatever is offered, polled or interrupts, no byte is sent and no packet
  // counted any more.
  lemma {:induction false} StallIsFinal(w: Wired, es: seq<Event>)
    requires Stalled(w.base) || Dead(w.base)
    ensures var v := DoAll(w, es);
      v.wire == w.wire && v.base.packets == w.base.packets
    decreases |es|
  {
    if Stalled(w.base) {
      StalledIsDead(w.base);
    }
    hide Dead;
    hide Stalled;
    hide Do;
    if es != [] {
      DeadSendsNothing(w, es[0]);
      StallIsFinal(Do(w, es[0]), es[1..]);
    }
  }
}
