// What every run of the transmitter puts on the wire.
module TxRuns {
  import opened Arithmetic
  import opened Options
  import opened Wire
  import opened TxMachine

  // The bytes r still to be sent are the first n of them, now on the wire w', and r'.
  predicate Moved(w: seq<byte>, r: seq<byte>, w': seq<byte>, r': seq<byte>, n: nat) {
    n <= |r| && w' == w + r[..n] && r' == r[n..]
  }

  lemma MovedConserves(w: seq<byte>, r: seq<byte>, w': seq<byte>, r': seq<byte>, n: nat)
    requires Moved(w, r, w', r', n)
    ensures w' + r' == w + r
  {
    assert r[..n] + r[n..] == r;
    assert w + r[..n] + r[n..] == w + (r[..n] + r[n..]);
  }

  lemma MovedChains(w: seq<byte>, r: seq<byte>, w1: seq<byte>, r1: seq<byte>,
                    w2: seq<byte>, r2: seq<byte>, n: nat)
    requires r != [] && w1 == w + [r[0]] && r1 == r[1..] && Moved(w1, r1, w2, r2, n)
    ensures Moved(w, r, w2, r2, n + 1)
  {
    assert [r[0]] + r[1..][..n] == r[..n + 1];
    assert w + [r[0]] + r1[..n] == w + ([r[0]] + r1[..n]);
  }

  // The number of bytes one task run writes.
  function Written(t: Tx, room: nat): (n: nat)
    requires TxInv(t)
    ensures n <= |Remaining(t)|
  {
    Min(room, |Remaining(t)|)
  }

  predicate Completes(t: Tx, room: nat)
    requires TxInv(t)
  {
    t.skb.Some? && Finishes(t.skb.value) && |Remaining(t)| <= room
  }

  // State s is t after writing n more bytes of the frame in flight and, if done says so, completing it.
  predicate Advanced(t: Tx, s: Tx, n: nat, done: bool)
    requires TxInv(t)
  {
    && TxInv(s)
    && Moved(t.wire, Remaining(t), s.wire, Remaining(s), n)
    && s.skb == (if done then None else t.skb)
    && s.packets == t.packets + (if done then 1 else 0)
    && s.dropped == t.dropped
    && s.queueStopped == (t.queueStopped && !done)
    && s.workQueued == t.workQueued
  }

  lemma FinishingFrameIsNeverStuck(t: Tx)
    requires TxInv(t) && t.skb.Some?
    ensures Finishes(t.skb.value) ==> !Stuck(t) && Remaining(t) != []
  {
    if !Stuck(t) {
      ByteEmits(t);
    }
  }

  lemma Chain(t: Tx, u: Tx, s: Tx, n: nat, done: bool)
    requires TxInv(t) && Emits(t, u)
    requires Advanced(u, s, n, done)
    requires u.skb == t.skb && u.packets == t.packets && u.dropped == t.dropped
    requires u.queueStopped == t.queueStopped && u.workQueued == t.workQueued
    ensures Advanced(t, s, n + 1, done)
  {
    MovedChains(t.wire, Remaining(t), u.wire, Remaining(u), s.wire, Remaining(s), n);
  }

  lemma NoWork(t: Tx)
    requires TxInv(t)
    ensures Advanced(t, t, 0, false)
  {
    var r := Remaining(t);
    assert r[..0] == [] && r[0..] == r;
    assert t.wire + [] == t.wire;
  }

  lemma FooterAdvances(t: Tx)
    requires TxInv(t) && t.phase == TxFooter
    ensures Advanced(t, Complete(t), 1, true)
  {
    var r := Remaining(t);
    assert r[..1] == [FRAME_FOOTER] && r[1..] == [];
  }

  lemma ByteKeepsFrame(t: Tx)
    requires TxInv(t) && t.phase != TxIdle && t.phase != TxFooter
    ensures var u := TxByte(t);
      && u.skb == t.skb && u.packets == t.packets && u.dropped == t.dropped
      && u.queueStopped == t.queueStopped && u.workQueued == t.workQueued && u.txim == t.txim
  {
  }

  lemma IterationAdvances(t: Tx, s: Tx, room: nat)
    requires TxInv(t) && t.phase != TxIdle && t.phase != TxFooter
    requires var u := TxByte(t); TxInv(u) && Advanced(u, s, Written(u, room), Completes(u, room))
    ensures Advanced(t, s, Written(t, room + 1), Completes(t, room + 1))
  {
    hide TxInv;
    hide TxByte;
    hide Remaining;
    hide Finishes;
    hide Stuck;
    hide Advanced;
    IdleHasNoFrame(t);
    ByteEmits(t);
    ByteKeepsFrame(t);
    FinishingFrameIsNeverStuck(t);
    if !Stuck(t) {
      var u := TxByte(t);
      assert |Remaining(u)| == |Remaining(t)| - 1;
      Chain(t, u, s, Written(u, room), Completes(u, room));
    }
  }

  lemma RestAdvances(t: Tx, room: nat)
    requires TxInv(t) && (room == 0 || t.phase == TxIdle)
    ensures Advanced(t, t, Written(t, room), Completes(t, room))
  {
    if t.skb.Some? {
      FinishingFrameIsNeverStuck(t);
    }
    NoWork(t);
  }

  lemma CompletionAdvances(t: Tx, room: nat)
    requires TxInv(t) && room > 0 && t.phase == TxFooter
    ensures Advanced(t, Complete(t), Written(t, room), Completes(t, room)) && Complete(t).txim == t.txim
  {
    FooterAdvances(t);
  }

  lemma {:induction false} LoopAdvances(t: Tx, room: nat)
    requires TxInv(t)
    ensures Advanced(t, TaskLoop(t, room), Written(t, room), Completes(t, room))
    ensures TaskLoop(t, room).txim == t.txim
    decreases room
  {
    hide TxInv;
    hide Remaining;
    hide Advanced;
    hide Completes;
    if room == 0 || t.phase == TxIdle {
      RestAdvances(t, room);
    } else if t.phase == TxFooter {
      CompletionAdvances(t, room);
    } else {
      ByteEmits(t);
      ByteKeepsFrame(t);
      LoopAdvances(TxByte(t), room - 1);
      IterationAdvances(t, TaskLoop(TxByte(t), room - 1), room - 1);
    }
  }

  // A task run writes the next bytes of the frame in flight, as many as the FIFO has room for,
  // and completes the frame exactly when it has written the last one.
  lemma TaskAdvances(t: Tx, room: nat)
    requires TxInv(t)
    ensures var s := TaskRun(t, room);
      && Advanced(t.(workQueued := false), s, Written(t, room), Completes(t, room))
      && (s.phase == TxIdle <==> t.phase == TxIdle || Completes(t, room))
      && s.txim == (t.txim && s.phase != TxIdle)
  {
    LoopAdvances(t.(workQueued := false), room);
  }

  // An accepted payload is what is left to send; a dropped one changes nothing of the frame in flight.
  lemma OfferKeepsRemaining(t: Tx, p: seq<byte>, up: bool)
    requires TxInv(t)
    ensures var s := StartXmit(t, p, up);
      TxInv(s) && Remaining(s) == if up && t.phase == TxIdle then Sent(p) else Remaining(t)
  {
  }

  // ---- Runs ----

  datatype Event =
    | Offer(payload: seq<byte>, up: bool)
    | Work(room: nat)
    | Irq(txis: bool)

  // The work item runs only when it is queued.
  function Step(t: Tx, e: Event): (s: Tx)
    requires TxInv(t)
    ensures TxInv(s)
  {
    match e
    case Offer(p, up) =>
      OfferKeepsRemaining(t, p, up);
      StartXmit(t, p, up)
    case Work(room) =>
      if t.workQueued then
        TaskAdvances(t, room);
        TaskRun(t, room)
      else t
    case Irq(txis) => Interrupt(t, txis)
  }

  function Steps(t: Tx, es: seq<Event>): (s: Tx)
    requires TxInv(t)
    ensures TxInv(s)
    decreases |es|
  {
    if es == [] then t else Steps(Step(t, es[0]), es[1..])
  }

  // ---- The line: a transmitter that knows nothing of bytes in progress ----

  // The payload in flight, the bytes of it still to be written, and what has been written.
  datatype Line = Line(
    frame: Option<seq<byte>>,
    left: seq<byte>,
    wire: seq<byte>,
    packets: nat,
    dropped: nat,
    queueStopped: bool,
    txim: bool,
    workQueued: bool)

  function View(t: Tx): Line
    requires TxInv(t)
  {
    Line(t.skb, Remaining(t), t.wire, t.packets, t.dropped, t.queueStopped, t.txim, t.workQueued)
  }

  // Up to room bytes go from what is left to the wire; writing the last one ends the frame,
  // counts it, restarts the queue and disables the transmit interrupt.
  function LineWork(l: Line, room: nat): Line {
    var n := Min(room, |l.left|);
    var done := l.frame.Some? && Finishes(l.frame.value) && |l.left| <= room;
    var frame := if done then None else l.frame;
    Line(frame, l.left[n..], l.wire + l.left[..n], l.packets + (if done then 1 else 0), l.dropped,
         l.queueStopped && !done, l.txim && frame.Some?, false)
  }

  function LineStep(l: Line, e: Event): Line {
    match e
    case Offer(p, up) =>
      if !up then l
      else if l.frame.Some? then l.(queueStopped := true, dropped := l.dropped + 1)
      else l.(frame := Some(p), left := Sent(p), queueStopped := true, txim := true, workQueued := true)
    case Work(room) => if l.workQueued then LineWork(l, room) else l
    case Irq(txis) => if txis && l.txim && l.frame.Some? then l.(workQueued := true) else l
  }

  function LineSteps(l: Line, es: seq<Event>): Line
    decreases |es|
  {
    if es == [] then l else LineSteps(LineStep(l, es[0]), es[1..])
  }

  lemma OfferRefines(t: Tx, p: seq<byte>, up: bool)
    requires TxInv(t)
    ensures TxInv(StartXmit(t, p, up))
    ensures View(StartXmit(t, p, up)) == LineStep(View(t), Offer(p, up))
  {
    OfferKeepsRemaining(t, p, up);
  }

  lemma AdvancedView(t: Tx, s: Tx, room: nat, n: nat, done: bool)
    requires TxInv(t) && TxInv(s) && n == Min(room, |Remaining(t)|) && done == Completes(t, room)
    requires Moved(t.wire, Remaining(t), s.wire, Remaining(s), n)
    requires s.skb == (if done then None else t.skb)
    requires s.packets == (if done then t.packets + 1 else t.packets) && s.dropped == t.dropped
    requires s.queueStopped == (t.queueStopped && !done) && !s.workQueued
    requires s.txim == (t.txim && s.skb.Some?)
    ensures View(s) == LineWork(View(t), room)
  {
    hide TxInv;
    hide Remaining;
    hide Finishes;
  }

  lemma TaskRefines(t: Tx, room: nat)
    requires TxInv(t)
    ensures TxInv(TaskRun(t, room)) && View(TaskRun(t, room)) == LineWork(View(t), room)
  {
    WorkFlagIsFree(t);
    TaskAdvances(t, room);
    IdleHasNoFrame(t);
    var s := TaskRun(t, room);
    IdleHasNoFrame(s);
    hide *;
    AdvancedParts(t, s, room);
  }

  // What TaskAdvances says, with the flag that the run has cleared taken out.
  lemma AdvancedParts(t: Tx, s: Tx, room: nat)
    requires TxInv(t) && (t.phase == TxIdle <==> t.skb == None)
    requires TxInv(s) && (s.phase == TxIdle <==> s.skb == None) && s.txim == (t.txim && s.phase != TxIdle)
    requires var u := t.(workQueued := false);
      && TxInv(u) && Remaining(u) == Remaining(t)
      && Advanced(u, s, Written(t, room), Completes(t, room))
    ensures View(s) == LineWork(View(t), room)
  {
    hide TxInv;
    hide Remaining;
    hide Finishes;
    hide View;
    hide LineWork;
    hide Moved;
    hide Completes;
    AdvancedView(t, s, room, Written(t, room), Completes(t, room));
  }

  lemma WorkFlagIsFree(t: Tx)
    requires TxInv(t)
    ensures var s := t.(workQueued := false);
      TxInv(s) && Remaining(s) == Remaining(t)
  {
  }

  lemma IdleHasNoFrame(t: Tx)
    requires TxInv(t)
    ensures t.phase == TxIdle <==> t.skb == None
  {
  }

  // Transmission of a payload ends if and only if its length is not a multiple of 65536;
  // then it ends once the FIFO has had room for all its bytes.
  lemma TransmissionEnds(t: Tx, p: seq<byte>)
    requires TxInv(t) && t.phase == TxIdle
    ensures (exists room :: TaskRun(Install(t, p), room).phase == TxIdle) <==> Finishes(p)
    ensures Finishes(p) ==> TaskRun(Install(t, p), |Sent(p)|).phase == TxIdle
  {
    var s := Install(t, p);
    InstallRemaining(t, p);
    forall room: nat
      ensures TaskRun(s, room).phase == TxIdle <==> Finishes(p) && |Sent(p)| <= room
    {
      TaskAdvances(s, room);
    }
    assert Finishes(p) ==> TaskRun(s, |Sent(p)|).phase == TxIdle;
  }

  lemma SentOfNothing()
    ensures Sent([]) == [FRAME_HEADER, 0, 0]
  {
    var zeros := LengthBytes(0);
    assert zeros == [0, 0];
    assert zeros[1..] == [0];
    assert Escape([0]) == [0] + Escape([0][1..]);
    SentUnfolds([]);
  }

  lemma InstallRemaining(t: Tx, p: seq<byte>)
    requires TxInv(t) && t.phase == TxIdle
    ensures TxInv(Install(t, p)) && Remaining(Install(t, p)) == Sent(p)
  {
  }

  // The empty payload is one that never ends: the task loops without writing anything.
  lemma EmptyPayloadNeverEnds(t: Tx, room: nat)
    requires TxInv(t) && t.phase == TxIdle
    ensures var s := TaskRun(Install(t, []), room);
      s.phase != TxIdle && s.wire <= t.wire + [FRAME_HEADER, 0, 0]
  {
    SentOfNothing();
    InstallRemaining(t, []);
    TaskAdvances(Install(t, []), room);
    TaskRefines(Install(t, []), room);
    hide Remaining;
    hide Sent;
    hide TaskRun;
    hide Install;
  }

  lemma StepRefines(t: Tx, e: Event)
    requires TxInv(t)
    ensures View(Step(t, e)) == LineStep(View(t), e)
  {
    match e
    case Offer(p, up) => OfferRefines(t, p, up);
    case Work(room) => TaskRefines(t, room);
    case Irq(_) =>
  }

  // Over every run, the byte-by-byte transmitter is the line.
  lemma {:induction false} TransmitterRefinesLine(t: Tx, es: seq<Event>)
    requires TxInv(t)
    ensures View(Steps(t, es)) == LineSteps(View(t), es)
    decreases |es|
  {
    if es != [] {
      StepRefines(t, es[0]);
      TransmitterRefinesLine(Step(t, es[0]), es[1..]);
    }
  }

  // ---- What every run of the line conserves ----

  predicate LineInv(l: Line) {
    && (l.frame.Some? ==> l.txim && (Finishes(l.frame.value) ==> l.left != []))
    && (l.frame == None ==> !l.queueStopped && l.left == [])
  }

  predicate Accepts(l: Line, e: Event) {
    e.Offer? && e.up && l.frame == None
  }

  // The payloads that were installed, in order.
  function Accepted(l: Line, es: seq<Event>): seq<seq<byte>>
    decreases |es|
  {
    if es == [] then []
    else (if Accepts(l, es[0]) then [es[0].payload] else []) + Accepted(LineStep(l, es[0]), es[1..])
  }

  // How many payloads were offered while the device was up.
  function Offered(es: seq<Event>): nat {
    if es == [] then 0 else (if es[0].Offer? && es[0].up then 1 else 0) + Offered(es[1..])
  }

  function SentAll(ps: seq<seq<byte>>): seq<byte> {
    if ps == [] then [] else Sent(ps[0]) + SentAll(ps[1..])
  }

  function InFlight(l: Line): nat {
    if l.frame.Some? then 1 else 0
  }

  // From l to m, the wire and the rest of the frame in flight have grown by x, and the books
  // by the given numbers of accepted and offered payloads.
  predicate Grown(l: Line, m: Line, x: seq<byte>, accepted: nat, offered: nat) {
    && m.wire + m.left == l.wire + l.left + x
    && m.packets + InFlight(m) == l.packets + InFlight(l) + accepted
    && m.packets + m.dropped + InFlight(m) == l.packets + l.dropped + InFlight(l) + offered
  }

  lemma SentIsNotEmpty(p: seq<byte>)
    ensures Sent(p) != []
  {
  }

  lemma StepGrows(l: Line, e: Event)
    requires LineInv(l)
    ensures LineInv(LineStep(l, e))
    ensures Grown(l, LineStep(l, e), if Accepts(l, e) then Sent(e.payload) else [],
                  if Accepts(l, e) then 1 else 0, if e.Offer? && e.up then 1 else 0)
  {
    match e
    case Offer(p, up) =>
      SentIsNotEmpty(p);
      assert l.wire + [] + Sent(p) == l.wire + Sent(p);
    case Work(room) =>
      var n := Min(room, |l.left|);
      MovedConserves(l.wire, l.left, l.wire + l.left[..n], l.left[n..], n);
    case Irq(_) =>
  }

  lemma Join(a: seq<byte>, b: seq<byte>, x: seq<byte>, rest: seq<byte>)
    requires a == b + x
    ensures a + rest == b + (x + rest)
  {
  }

  // Over every run, the wire and what is left of the frame in flight are together exactly the
  // frames of the accepted payloads, in order; and every payload offered while the device is up
  // is sent, dropped or in flight, once.
  lemma {:induction false} WireContent(l: Line, es: seq<Event>)
    requires LineInv(l)
    ensures var m := LineSteps(l, es);
      LineInv(m) && Grown(l, m, SentAll(Accepted(l, es)), |Accepted(l, es)|, Offered(es))
    decreases |es|
  {
    if es != [] {
      var m := LineStep(l, es[0]);
      var rest := Accepted(m, es[1..]);
      StepGrows(l, es[0]);
      WireContent(m, es[1..]);
      if Accepts(l, es[0]) {
        assert ([es[0].payload] + rest)[1..] == rest;
        Join(m.wire + m.left, l.wire + l.left, Sent(es[0].payload), SentAll(rest));
      } else {
        assert [] + rest == rest;
        assert m.wire + m.left == l.wire + l.left;
      }
    }
  }

  lemma ViewKeepsInv(t: Tx)
    requires TxInv(t)
    ensures LineInv(View(t))
  {
    if t.skb.Some? {
      FinishingFrameIsNeverStuck(t);
    }
  }

  // The same of the transmitter: on the wire there is always a prefix of the frames of the
  // accepted payloads, and all of them when it is idle.
  lemma TransmitterOutput(t: Tx, es: seq<Event>)
    requires TxInv(t) && t.phase == TxIdle && t.wire == []
    ensures var u := Steps(t, es);
      var sent := SentAll(Accepted(View(t), es));
      && u.wire <= sent
      && (u.phase == TxIdle ==> u.wire == sent)
      && u.packets + u.dropped + (if u.phase == TxIdle then 0 else 1) == t.packets + t.dropped + Offered(es)
  {
    var l := View(t);
    var m := LineSteps(l, es);
    ViewKeepsInv(t);
    WireContent(l, es);
    TransmitterRefinesLine(t, es);
    assert [] + [] + SentAll(Accepted(l, es)) == SentAll(Accepted(l, es));
    assert m.wire + [] == m.wire;
  }

  // In every run a stopped queue has a frame in flight, and a frame in flight keeps the transmit
  // interrupt enabled: one interrupt and one task run with enough room finish it and restart the queue.
  lemma FrameInFlightCanFinish(l: Line, es: seq<Event>, room: nat)
    requires LineInv(l)
    ensures var m := LineSteps(l, es);
      && (m.queueStopped ==> m.frame.Some?)
      && (m.frame.Some? && Finishes(m.frame.value) && |m.left| <= room ==>
          var u := LineStep(LineStep(m, Irq(true)), Work(room));
          u.frame == None && !u.queueStopped && u.wire == m.wire + m.left)
  {
    WireContent(l, es);
    var m := LineSteps(l, es);
    assert m.left[..|m.left|] == m.left;
  }

  // ---- The queue, the work item and long payloads ----

  // Over every run, the queue is stopped exactly while a frame is in flight.
  lemma {:induction false} QueueStoppedWhileInFlight(l: Line, es: seq<Event>)
    requires l.queueStopped <==> l.frame.Some?
    ensures LineSteps(l, es).queueStopped <==> LineSteps(l, es).frame.Some?
    decreases |es|
  {
    if es != [] {
      QueueStoppedWhileInFlight(LineStep(l, es[0]), es[1..]);
    }
  }

  // An offer to an idle transmitter queues the work item, which needs no interrupt to send all of the
  // frame when there is room for it.
  lemma OfferThenWork(t: Tx, p: seq<byte>, room: nat)
    requires TxInv(t) && t.phase == TxIdle && Finishes(p) && |Sent(p)| <= room
    ensures var u := Step(Step(t, Offer(p, true)), Work(room));
      u.phase == TxIdle && u.wire == t.wire + Sent(p) && u.packets == t.packets + 1 && !u.queueStopped && !u.txim
  {
    var s := Step(t, Offer(p, true));
    assert s.workQueued;
    InstallRemaining(t, p);
    TaskAdvances(s, room);
    assert Sent(p)[..|Sent(p)|] == Sent(p);
    hide TxInv;
    hide Remaining;
    hide TaskRun;
  }

  // An offer while the device is down changes nothing; one while a frame is in flight is counted as
  // dropped, and nothing else of it remains.
  lemma OfferRefused(t: Tx, p: seq<byte>)
    requires TxInv(t)
    ensures StartXmit(t, p, false) == t
    ensures t.phase != TxIdle ==> StartXmit(t, p, true) == t.(queueStopped := true, dropped := t.dropped + 1)
  {
  }

  // The interrupt queues the work item if it is enabled and a frame is in flight, and does nothing else.
  lemma InterruptQueuesExactly(t: Tx, txis: bool)
    ensures Interrupt(t, txis) == t.(workQueued := t.workQueued || (txis && t.txim && t.phase != TxIdle))
  {
  }

  // The count is 16 bits wide: of a payload of n + 65536 bytes, what is sent is what would be sent of
  // its first n bytes.
  lemma SentModulo(p: seq<byte>, n: nat)
    requires |p| == n + 0x1_0000
    ensures Sent(p) == Sent(p[..n])
  {
    CutModulo(p, n);
    LengthOfCut(p);
    LengthOfCut(p[..n]);
    hide *;
    SentByCut(p, p[..n]);
  }

  lemma CutModulo(p: seq<byte>, n: nat)
    requires |p| == n + 0x1_0000
    ensures Cut(p) == Cut(p[..n]) && (Finishes(p) <==> Finishes(p[..n]))
  {
    assert |p| % 0x1_0000 == n % 0x1_0000;
  }

  // What is sent depends on the bytes that are cut off and on nothing else.
  lemma SentByCut(p: seq<byte>, q: seq<byte>)
    requires Cut(p) == Cut(q) && (Finishes(p) <==> Finishes(q)) && LengthBytes(|p|) == LengthBytes(|q|)
    ensures Sent(p) == Sent(q)
  {
    hide Cut;
    hide Finishes;
    hide Frame;
    hide LengthBytes;
    hide Escape;
  }

  // Of one of 1 to 65535 bytes, it is the frame.
  lemma SentIsFrame(p: seq<byte>)
    requires 0 < |p| < 0x1_0000
    ensures Finishes(p) && Sent(p) == Frame(p)
  {
    assert Cut(p) == p;
  }
}
