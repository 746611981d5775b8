// uartnet_start_xmit and uartnet_tx_task hold different locks, and neither is held where the
// receive side writes the interrupt mask. Here start_xmit, the task, the interrupt handler and the
// poll run side by side, one shared access at a time. One iteration of the task loop is one step:
// it touches each variable that start_xmit may still be writing once.
module TxInterleaving {
  import opened Options
  import opened TxMachine

  // Where uartnet_start_xmit is; the comment says what it does next.
  datatype XmitPc =
    | XOut
    | XEntered     // test whether the device is up
    | XUp          // stop the queue
    | XStopped     // test tx_state
    | XIdleSeen    // set tx_skb
    | XSkbSet      // set tx_state
    | XHeaderSet   // set the length bytes, and tx_current_ptr to them
    | XPointerSet  // set tx_current_count
    | XCountSet    // clear tx_escape_next
    | XPrepared    // enable the transmit interrupt
    | XImscSet     // queue the work item
    | XBusySeen    // free the buffer
    | XFreed       // count the drop

  // Where uartnet_tx_task is.
  datatype TaskPc =
    | TOut
    | TLoop           // read the flag register and tx_state
    | TFooterWritten  // count the packet
    | TCounted        // free the buffer
    | TFreed          // clear tx_skb
    | TSkbNull        // set tx_state to idle
    | TIdleSet        // wake the queue
    | TUnlock         // test tx_state
    | TIdleSeen       // disable the transmit interrupt

  // Where uartnet_interrupt is; tx says whether the status it has read shows the transmit interrupt.
  datatype IrqPc =
    | IOut
    | IStatus(tx: bool)            // read the mask, to disable the receive interrupts
    | IRead(txim: bool, tx: bool)  // write it back, with the transmit bit as read
    | ITx                          // test tx_state
    | IBusySeen                    // queue the work item

  // Where the end of uartnet_poll is.
  datatype PollPc =
    | POut               // read the mask, to enable the receive interrupts
    | PRead(txim: bool)  // write it back, with the transmit bit as read

  datatype World = World(
    lens: seq<nat>,         // the lengths of all payloads ever offered; a payload is its index
    xpc: XmitPc,
    tpc: TaskPc,
    ipc: IrqPc,
    ppc: PollPc,
    phase: TxPhase,
    txSkb: Option<nat>,
    count: nat,
    queueStopped: bool,
    txim: bool,
    workQueued: bool,
    offered: nat,
    packets: nat,
    dropped: nat,
    freed: multiset<nat>)

  const INITIAL := World([], XOut, TOut, IOut, POut, TxIdle, None, 0, false, false, false, 0, 0, 0, multiset{})

  datatype Action =
    | Call(len: nat)
    | Xmit(up: bool)
    | StartTask
    | Task(full: bool, consumed: bool)
    | Irq(rx: bool, tx: bool)
    | IrqStep
    | PollStep

  function Offering(w: World): nat
    requires w.lens != []
  {
    |w.lens| - 1
  }

  function XmitStep(w: World, up: bool): World
    requires w.lens != []
  {
    match w.xpc
    case XOut => w
    case XEntered =>
      if up then w.(xpc := XUp, offered := w.offered + 1)
      else w.(xpc := XOut, freed := w.freed + multiset{Offering(w)})
    case XUp => w.(xpc := XStopped, queueStopped := true)
    case XStopped => w.(xpc := if w.phase == TxIdle then XIdleSeen else XBusySeen)
    case XIdleSeen => w.(xpc := XSkbSet, txSkb := Some(Offering(w)))
    case XSkbSet => w.(xpc := XHeaderSet, phase := TxHeader)
    case XHeaderSet => w.(xpc := XPointerSet)
    case XPointerSet => w.(xpc := XCountSet, count := 2)
    case XCountSet => w.(xpc := XPrepared)
    case XPrepared => w.(xpc := XImscSet, txim := true)
    case XImscSet => w.(xpc := XOut, workQueued := true)
    case XBusySeen => w.(xpc := XFreed, freed := w.freed + multiset{Offering(w)})
    case XFreed => w.(xpc := XOut, dropped := w.dropped + 1)
  }

  // One iteration of the task loop with room in the FIFO; an escaped byte takes two, and only
  // the second one consumes it.
  function LoopStep(w: World, consumed: bool): World {
    match w.phase
    case TxIdle => w.(tpc := TUnlock)
    case TxHeader => w.(phase := TxLength)
    case TxLength =>
      if w.count == 0 || !consumed then w
      else if w.count > 1 then w.(count := w.count - 1)
      else w.(phase := TxData, count := Length(w) % 0x1_0000)
    case TxData =>
      if w.count == 0 || !consumed then w
      else w.(count := w.count - 1, phase := if w.count > 1 then TxData else TxFooter)
    case TxFooter => w.(tpc := TFooterWritten)
  }

  function Length(w: World): nat {
    if w.txSkb.Some? && w.txSkb.value < |w.lens| then w.lens[w.txSkb.value] else 0
  }

  function TaskStep(w: World, full: bool, consumed: bool): World {
    match w.tpc
    case TOut => w
    case TLoop => if full then w.(tpc := TUnlock) else LoopStep(w, consumed)
    case TFooterWritten => w.(tpc := TCounted, packets := w.packets + 1)
    case TCounted => w.(tpc := TFreed, freed := w.freed + (if w.txSkb.Some? then multiset{w.txSkb.value} else multiset{}))
    case TFreed => w.(tpc := TSkbNull, txSkb := None)
    case TSkbNull => w.(tpc := TIdleSet, phase := TxIdle)
    case TIdleSet => w.(tpc := TUnlock, queueStopped := false)
    case TUnlock => w.(tpc := if w.phase == TxIdle then TIdleSeen else TOut)
    case TIdleSeen => w.(tpc := TOut, txim := false)
  }

  // The handler starts by reading the status, which the mask masks.
  function IrqStart(w: World, rx: bool, tx: bool): World {
    if w.ipc != IOut then w
    else w.(ipc := if rx then IStatus(tx && w.txim) else if tx && w.txim then ITx else IOut)
  }

  function IrqNext(w: World): World {
    match w.ipc
    case IOut => w
    case IStatus(tx) => w.(ipc := IRead(w.txim, tx))
    case IRead(txim, tx) => w.(ipc := if tx then ITx else IOut, txim := txim)
    case ITx => w.(ipc := if w.phase == TxIdle then IOut else IBusySeen)
    case IBusySeen => w.(ipc := IOut, workQueued := true)
  }

  function PollNext(w: World): World {
    match w.ppc
    case POut => w.(ppc := PRead(w.txim))
    case PRead(txim) => w.(ppc := POut, txim := txim)
  }

  function Act(w: World, a: Action): World {
    match a
    case Call(len) => if w.xpc == XOut then w.(xpc := XEntered, lens := w.lens + [len]) else w
    case Xmit(up) => if w.lens == [] then w else XmitStep(w, up)
    case StartTask => if w.tpc == TOut && w.workQueued then w.(tpc := TLoop, workQueued := false) else w
    case Task(full, consumed) => TaskStep(w, full, consumed)
    case Irq(rx, tx) => IrqStart(w, rx, tx)
    case IrqStep => IrqNext(w)
    case PollStep => PollNext(w)
  }

  function Run(w: World, acts: seq<Action>): World
    decreases |acts|
  {
    if acts == [] then w else Run(Act(w, acts[0]), acts[1..])
  }

  // ---- The invariant ----

  predicate Finishing(w: World) {
    w.tpc.TFooterWritten? || w.tpc.TCounted? || w.tpc.TFreed? || w.tpc.TSkbNull?
  }

  predicate Control(w: World) {
    && (!w.xpc.XOut? ==> w.lens != [])
    && (w.txSkb.Some? ==> w.txSkb.value < |w.lens|)
    && (Finishing(w) ==> w.phase.TxFooter? && (w.txSkb.Some? <==> !w.tpc.TSkbNull?))
    && (!Finishing(w) ==> (w.txSkb.Some? <==> !w.phase.TxIdle? || w.xpc.XSkbSet?))
    && (w.xpc.XIdleSeen? || w.xpc.XSkbSet? ==> w.phase.TxIdle?)
    && (Starting(w) ==> w.phase.TxHeader? || w.phase.TxLength?)
    && (w.phase.TxIdle? || w.phase.TxFooter? || Starting(w) ==> w.count == 0)
    && (w.phase.TxHeader? && !Starting(w) ==> w.count == 2)
    && (w.phase.TxLength? && !Starting(w) ==> 1 <= w.count <= 2)
  }

  // tx_state is set, and the count is not.
  predicate Starting(w: World) {
    w.xpc.XHeaderSet? || w.xpc.XPointerSet?
  }

  // The reason a stopped queue will be woken, or the frame that will wake it.
  predicate WakeupPending(w: World) {
    || !w.phase.TxIdle?
    || w.xpc.XStopped? || w.xpc.XIdleSeen? || w.xpc.XSkbSet?
    || w.tpc.TIdleSet?
  }

  // A buffer the transmitter still has to free, and one that start_xmit still has to place.
  function Live(w: World): Option<nat> {
    if w.tpc.TFreed? then None else w.txSkb
  }

  function Held(w: World): Option<nat> {
    if w.lens != [] && (w.xpc.XEntered? || w.xpc.XUp? || w.xpc.XStopped? || w.xpc.XIdleSeen? || w.xpc.XBusySeen?)
    then Some(Offering(w))
    else None
  }

  // Every payload ever offered has exactly one owner or its buffer has been freed exactly once,
  // and a buffer that has an owner has not been freed.
  predicate Owned(w: World, id: nat) {
    && (id < |w.lens| && Live(w) != Some(id) && Held(w) != Some(id) ==> w.freed[id] == 1)
    && (id >= |w.lens| ==> w.freed[id] == 0 && Live(w) != Some(id) && Held(w) != Some(id))
    && (Live(w) == Some(id) || Held(w) == Some(id) ==> w.freed[id] == 0)
    && !(Live(w) == Some(id) == Held(w))
  }

  // In flight or being installed, up to the point where the packet is counted.
  predicate Flying(w: World) {
    w.txSkb.Some? && !w.tpc.TCounted? && !w.tpc.TFreed?
  }

  // Offered, and start_xmit has neither stored nor counted it yet.
  predicate Undecided(w: World) {
    w.xpc.XUp? || w.xpc.XStopped? || w.xpc.XIdleSeen? || w.xpc.XBusySeen? || w.xpc.XFreed?
  }

  predicate Books(w: World) {
    w.offered == w.packets + w.dropped + (if Flying(w) then 1 else 0) + (if Undecided(w) then 1 else 0)
  }

  predicate WorldInv(w: World) {
    && Control(w)
    && (w.queueStopped ==> WakeupPending(w))
    && Books(w)
  }

  predicate Inv(w: World, id: nat) {
    WorldInv(w) && Owned(w, id)
  }

  lemma XmitEnters(w: World, up: bool, id: nat)
    requires Inv(w, id) && w.lens != []
    requires w.xpc.XOut? || w.xpc.XEntered? || w.xpc.XUp? || w.xpc.XStopped?
    ensures Inv(XmitStep(w, up), id)
  {
    match w.xpc
    case XOut =>
    case XEntered =>
    case XUp =>
    case XStopped =>
  }

  lemma XmitInstalls(w: World, up: bool, id: nat)
    requires Inv(w, id) && w.lens != []
    requires w.xpc.XIdleSeen? || w.xpc.XSkbSet?
    ensures Inv(XmitStep(w, up), id)
  {
    match w.xpc
    case XIdleSeen =>
    case XSkbSet =>
  }

  lemma XmitPrepares(w: World, up: bool, id: nat)
    requires Inv(w, id) && w.lens != []
    requires w.xpc.XHeaderSet? || w.xpc.XPointerSet? || w.xpc.XCountSet?
    ensures Inv(XmitStep(w, up), id)
  {
    match w.xpc
    case XHeaderSet =>
    case XPointerSet =>
    case XCountSet =>
  }

  lemma XmitStarts(w: World, up: bool, id: nat)
    requires Inv(w, id) && w.lens != []
    requires w.xpc.XPrepared? || w.xpc.XImscSet?
    ensures Inv(XmitStep(w, up), id)
  {
    match w.xpc
    case XPrepared =>
    case XImscSet =>
  }

  lemma XmitDrops(w: World, up: bool, id: nat)
    requires Inv(w, id) && w.lens != []
    requires w.xpc.XBusySeen? || w.xpc.XFreed?
    ensures Inv(XmitStep(w, up), id)
  {
    match w.xpc
    case XBusySeen =>
    case XFreed =>
  }

  // A byte of the length or the payload moves the count and perhaps tx_state.
  lemma SendingKeepsInv(w: World, v: World, id: nat)
    requires Inv(w, id) && w.tpc.TLoop? && !w.phase.TxIdle?
    requires v == w.(phase := v.phase, count := v.count) && !v.phase.TxIdle? && Control(v)
    ensures Inv(v, id)
  {
    hide Control;
  }

  lemma SendsControl(w: World, consumed: bool)
    requires Control(w) && w.tpc.TLoop? && (w.phase.TxLength? || w.phase.TxData?)
    ensures var v := LoopStep(w, consumed);
      v == w.(phase := v.phase, count := v.count) && !v.phase.TxIdle? && Control(v)
  {
  }

  lemma TaskSends(w: World, consumed: bool, id: nat)
    requires Inv(w, id) && w.tpc.TLoop? && (w.phase.TxLength? || w.phase.TxData?)
    ensures Inv(LoopStep(w, consumed), id)
  {
    SendsControl(w, consumed);
    hide LoopStep;
    hide Control;
    SendingKeepsInv(w, LoopStep(w, consumed), id);
  }

  lemma TaskTurns(w: World, consumed: bool, id: nat)
    requires Inv(w, id) && w.tpc.TLoop?
    requires w.phase.TxIdle? || w.phase.TxHeader? || w.phase.TxFooter?
    ensures Inv(LoopStep(w, consumed), id)
  {
    match w.phase
    case TxIdle =>
    case TxHeader =>
    case TxFooter =>
  }

  lemma TaskStops(w: World, id: nat)
    requires Inv(w, id) && w.tpc.TLoop?
    ensures Inv(w.(tpc := TUnlock), id)
  {
  }

  lemma TaskLoops(w: World, full: bool, consumed: bool, id: nat)
    requires Inv(w, id) && w.tpc.TLoop?
    ensures Inv(TaskStep(w, full, consumed), id)
  {
    if full {
      TaskStops(w, id);
    } else {
      match w.phase
      case TxLength | TxData => TaskSends(w, consumed, id);
      case TxIdle | TxHeader | TxFooter => TaskTurns(w, consumed, id);
    }
  }

  lemma TaskCompletes(w: World, full: bool, consumed: bool, id: nat)
    requires Inv(w, id)
    requires w.tpc.TFooterWritten? || w.tpc.TCounted?
    ensures Inv(TaskStep(w, full, consumed), id)
  {
    match w.tpc
    case TFooterWritten =>
    case TCounted =>
  }

  lemma TaskClears(w: World, full: bool, consumed: bool, id: nat)
    requires Inv(w, id)
    requires w.tpc.TFreed? || w.tpc.TSkbNull?
    ensures Inv(TaskStep(w, full, consumed), id)
  {
    match w.tpc
    case TFreed =>
    case TSkbNull =>
  }

  lemma TaskLeaves(w: World, full: bool, consumed: bool, id: nat)
    requires Inv(w, id)
    requires w.tpc.TIdleSet? || w.tpc.TUnlock? || w.tpc.TIdleSeen?
    ensures Inv(TaskStep(w, full, consumed), id)
  {
    match w.tpc
    case TIdleSet =>
    case TUnlock =>
    case TIdleSeen =>
  }

  lemma XmitKeepsInv(w: World, up: bool, id: nat)
    requires Inv(w, id) && w.lens != []
    ensures Inv(XmitStep(w, up), id)
  {
    hide Inv;
    hide XmitStep;
    match w.xpc
    case XOut | XEntered | XUp | XStopped => XmitEnters(w, up, id);
    case XIdleSeen | XSkbSet => XmitInstalls(w, up, id);
    case XHeaderSet | XPointerSet | XCountSet => XmitPrepares(w, up, id);
    case XPrepared | XImscSet => XmitStarts(w, up, id);
    case XBusySeen | XFreed => XmitDrops(w, up, id);
  }

  lemma TaskKeepsInv(w: World, full: bool, consumed: bool, id: nat)
    requires Inv(w, id)
    ensures Inv(TaskStep(w, full, consumed), id)
  {
    if w.tpc.TOut? {
    } else {
      hide Inv;
      hide TaskStep;
      match w.tpc
      case TLoop => TaskLoops(w, full, consumed, id);
      case TFooterWritten | TCounted => TaskCompletes(w, full, consumed, id);
      case TFreed | TSkbNull => TaskClears(w, full, consumed, id);
      case TIdleSet | TUnlock | TIdleSeen => TaskLeaves(w, full, consumed, id);
    }
  }

  lemma CallKeepsInv(w: World, len: nat, id: nat)
    requires Inv(w, id)
    ensures Inv(Act(w, Call(len)), id)
  {
  }

  lemma StartKeepsInv(w: World, id: nat)
    requires Inv(w, id)
    ensures Inv(Act(w, StartTask), id)
  {
  }

  lemma ActKeepsInv(w: World, a: Action, id: nat)
    requires Inv(w, id)
    ensures Inv(Act(w, a), id)
  {
    hide Inv;
    hide XmitStep;
    hide TaskStep;
    match a
    case Call(len) => CallKeepsInv(w, len, id);
    case Xmit(up) =>
      if w.lens != [] {
        XmitKeepsInv(w, up, id);
      }
    case StartTask => StartKeepsInv(w, id);
    case Task(full, consumed) => TaskKeepsInv(w, full, consumed, id);
    case Irq(rx, tx) => MaskKeepsInv(w, IrqStart(w, rx, tx), id);
    case IrqStep => MaskKeepsInv(w, IrqNext(w), id);
    case PollStep => MaskKeepsInv(w, PollNext(w), id);
  }

  // What the receive side and the handler do is of no concern to the invariant.
  lemma MaskKeepsInv(w: World, v: World, id: nat)
    requires Inv(w, id)
    requires v == w.(ipc := v.ipc, ppc := v.ppc, txim := v.txim, workQueued := v.workQueued)
    ensures Inv(v, id)
  {
  }

  lemma {:induction false} RunKeepsInv(w: World, acts: seq<Action>, id: nat)
    requires Inv(w, id)
    ensures Inv(Run(w, acts), id)
    decreases |acts|
  {
    if acts != [] {
      ActKeepsInv(w, acts[0], id);
      RunKeepsInv(Act(w, acts[0]), acts[1..], id);
    }
  }

  lemma InitialInv(id: nat)
    ensures Inv(INITIAL, id)
  {
    assert Control(INITIAL);
    assert Books(INITIAL);
    assert Owned(INITIAL, id);
  }

  lemma Reachable(acts: seq<Action>, id: nat) returns (w: World)
    ensures w == Run(INITIAL, acts) && Inv(w, id)
  {
    w := Run(INITIAL, acts);
    InitialInv(id);
    RunKeepsInv(INITIAL, acts, id);
  }

  // ---- Results, over every interleaving ----

  // No lost wakeup: a stopped queue has a frame in flight, or start_xmit between stopping it and
  // acting on tx_state, or the task about to wake it.
  lemma NoLostWakeup(acts: seq<Action>)
    ensures var w := Run(INITIAL, acts);
      w.queueStopped ==>
        || !w.phase.TxIdle?
        || w.xpc.XStopped? || w.xpc.XIdleSeen? || w.xpc.XSkbSet?
        || w.tpc.TIdleSet?
  {
    var w := Reachable(acts, 0);
  }

  // Every payload offered while the device is up is counted once, and every buffer is freed
  // exactly once or still has its one owner.
  lemma TransmitConservation(acts: seq<Action>, id: nat)
    ensures var w := Run(INITIAL, acts);
      && w.offered == w.packets + w.dropped + (if Flying(w) then 1 else 0) + (if Undecided(w) then 1 else 0)
      && (id < |w.lens| && Live(w) != Some(id) && Held(w) != Some(id) ==> w.freed[id] == 1)
      && (id >= |w.lens| || Live(w) == Some(id) || Held(w) == Some(id) ==> w.freed[id] == 0)
      && !(Live(w) == Some(id) == Held(w))
  {
    var w := Reachable(acts, id);
  }

  // ---- Runs, one step at a time ----

  lemma {:induction false} RunConcat(w: World, a: seq<Action>, b: seq<Action>)
    ensures Run(w, a + b) == Run(Run(w, a), b)
    decreases |a|
  {
    if a == [] {
      assert a + b == b;
    } else {
      assert (a + b)[1..] == a[1..] + b;
      RunConcat(Act(w, a[0]), a[1..], b);
    }
  }

  // One more step at the end of a run.
  lemma Then(w: World, acts: seq<Action>, a: Action, v: World) returns (longer: seq<Action>)
    requires Act(Run(w, acts), a) == v
    ensures Run(w, longer) == v
  {
    longer := acts + [a];
    RunConcat(w, acts, [a]);
    assert Run(Run(w, acts), [a]) == Run(Act(Run(w, acts), a), [a][1..]);
  }

  // One more step at its beginning.
  lemma First(w: World, a: Action, acts: seq<Action>)
    ensures Run(w, [a] + acts) == Run(Act(w, a), acts)
  {
    assert ([a] + acts)[1..] == acts;
  }

  // ---- The transmit bit of the interrupt mask ----

  // The frame of payload id is in flight and its footer has not been written.
  predicate InFlight(w: World, id: nat) {
    w.txSkb == Some(id) && !w.phase.TxIdle? && !Finishing(w)
  }

  // Everybody is at rest.
  predicate Resting(w: World) {
    w.xpc.XOut? && w.tpc.TOut? && w.ipc.IOut? && w.ppc.POut? && !w.workQueued
  }

  // At rest with a frame in flight and the transmit interrupt disabled: nothing will start the task.
  predicate Stalled(w: World) {
    Resting(w) && !w.phase.TxIdle? && !w.txim
  }

  // A write to the mask is under way that will clear the transmit bit: the task has seen the
  // transmitter idle, or the handler or the poll has read the mask when the bit was clear.
  predicate Clearing(w: World) {
    w.tpc.TIdleSeen? || (w.ipc.IRead? && !w.ipc.txim) || (w.ppc.PRead? && !w.ppc.txim)
  }

  // One that will set it.
  predicate Setting(w: World) {
    (w.ipc.IRead? && w.ipc.txim) || (w.ppc.PRead? && w.ppc.txim)
  }

  // start_xmit has done with the frame in flight, or is busy with another payload.
  predicate Installed(w: World) {
    w.xpc.XImscSet? || w.xpc.XOut? || w.xpc.XEntered? || w.xpc.XUp? || w.xpc.XStopped? || w.xpc.XBusySeen? ||
    w.xpc.XFreed?
  }

  // The frame of payload id is in flight, its start_xmit is through with the mask, and so is
  // everybody who would clear the transmit bit.
  predicate Enabled(w: World, id: nat) {
    w.txSkb == Some(id) && !w.phase.TxIdle? && Installed(w) && w.txim && !Clearing(w)
  }

  // That lasts until the buffer is freed.
  predicate Armed(w: World, id: nat) {
    id < |w.lens| && Held(w) != Some(id) && (w.freed[id] == 0 ==> Enabled(w, id))
  }

  lemma LoopKeepsEnabled(w: World, consumed: bool, id: nat)
    requires Enabled(w, id) && w.tpc.TLoop?
    ensures Enabled(LoopStep(w, consumed), id)
  {
    match w.phase
    case TxIdle =>
    case TxHeader =>
    case TxLength =>
    case TxData =>
    case TxFooter =>
  }

  lemma LoopKeepsArmed(w: World, consumed: bool, id: nat)
    requires Armed(w, id) && w.tpc.TLoop?
    ensures Armed(LoopStep(w, consumed), id)
  {
    if w.freed[id] == 0 {
      LoopKeepsEnabled(w, consumed, id);
    }
  }

  lemma TaskKeepsArmed(w: World, full: bool, consumed: bool, id: nat)
    requires Inv(w, id) && Armed(w, id)
    ensures Armed(TaskStep(w, full, consumed), id)
  {
    hide LoopStep;
    hide Books;
    hide WakeupPending;
    match w.tpc
    case TLoop =>
      if !full {
        LoopKeepsArmed(w, consumed, id);
      }
    case TOut =>
    case TFooterWritten =>
    case TCounted =>
    case TFreed =>
    case TSkbNull =>
    case TIdleSet =>
    case TUnlock =>
    case TIdleSeen =>
  }

  lemma XmitKeepsArmed(w: World, up: bool, id: nat)
    requires Inv(w, id) && Armed(w, id)
    ensures Armed(XmitStep(w, up), id)
  {
    match w.xpc
    case XOut =>
    case XEntered =>
    case XUp =>
    case XStopped =>
    case XIdleSeen =>
    case XSkbSet =>
    case XHeaderSet =>
    case XPointerSet =>
    case XCountSet =>
    case XPrepared =>
    case XImscSet =>
    case XBusySeen =>
    case XFreed =>
  }

  lemma CallKeepsArmed(w: World, len: nat, id: nat)
    requires Armed(w, id)
    ensures Armed(Act(w, Call(len)), id)
  {
  }

  lemma StartKeepsArmed(w: World, id: nat)
    requires Armed(w, id)
    ensures Armed(Act(w, StartTask), id)
  {
  }

  lemma IrqKeepsArmed(w: World, rx: bool, tx: bool, id: nat)
    requires Armed(w, id)
    ensures Armed(IrqStart(w, rx, tx), id) && Armed(IrqNext(w), id)
  {
  }

  lemma PollKeepsArmed(w: World, id: nat)
    requires Armed(w, id)
    ensures Armed(PollNext(w), id)
  {
  }

  lemma ActKeepsArmed(w: World, a: Action, id: nat)
    requires Inv(w, id) && Armed(w, id)
    ensures Armed(Act(w, a), id)
  {
    hide Inv;
    hide Armed;
    hide XmitStep;
    hide TaskStep;
    hide IrqStart;
    hide IrqNext;
    hide PollNext;
    match a
    case Call(len) => CallKeepsArmed(w, len, id);
    case Xmit(up) =>
      if w.lens != [] {
        XmitKeepsArmed(w, up, id);
      }
    case StartTask => StartKeepsArmed(w, id);
    case Task(full, consumed) => TaskKeepsArmed(w, full, consumed, id);
    case Irq(rx, tx) => IrqKeepsArmed(w, rx, tx, id);
    case IrqStep => IrqKeepsArmed(w, false, false, id);
    case PollStep => PollKeepsArmed(w, id);
  }

  lemma {:induction false} RunKeepsArmed(w: World, acts: seq<Action>, id: nat)
    requires Inv(w, id) && Armed(w, id)
    ensures Armed(Run(w, acts), id) && Inv(Run(w, acts), id)
    decreases |acts|
  {
    hide Armed;
    if acts != [] {
      ActKeepsInv(w, acts[0], id);
      ActKeepsArmed(w, acts[0], id);
      hide Inv;
      RunKeepsArmed(Act(w, acts[0]), acts[1..], id);
    }
  }

  lemma EnableArms(w: World, up: bool, id: nat)
    requires Inv(w, id) && w.xpc.XPrepared? && InFlight(w, id) && !Clearing(w)
    ensures Armed(Act(w, Xmit(up)), id)
  {
  }

  // ---- How a frame stalls ----

  // The frame is in flight, start_xmit has enabled the interrupt, and a write that clears it is
  // under way, or has been made.
  predicate Doomed(w: World, id: nat) {
    && InFlight(w, id) && (w.xpc.XOut? || (w.xpc.XImscSet? && w.lens != []))
    && (Clearing(w) || (!w.txim && !Setting(w)))
  }

  // Let start_xmit return; make the writes that set the transmit bit, and then those that clear it;
  // let the task find the FIFO full until it is not queued any more.
  function TowardsStall(w: World): Action {
    if w.xpc.XImscSet? then Xmit(true)
    else if w.ppc == PRead(true) then PollStep
    else if !w.ipc.IOut? && !(w.ipc.IRead? && !w.ipc.txim) then IrqStep
    else if w.ppc.PRead? then PollStep
    else if w.ipc.IRead? then IrqStep
    else if !w.tpc.TOut? then Task(true, false)
    else StartTask
  }

  function IrqRank(i: IrqPc): nat {
    match i
    case IOut => 0
    case IStatus(_) => 4
    case IRead(_, _) => 3
    case ITx => 2
    case IBusySeen => 1
  }

  function TaskRank(t: TaskPc): nat {
    match t
    case TOut => 0
    case TUnlock | TIdleSeen => 1
    case _ => 2
  }

  function StallRank(w: World): nat {
    (if w.xpc.XOut? then 0 else 1000) + 100 * (IrqRank(w.ipc) + (if w.ppc.POut? then 0 else 1)) +
    (if w.workQueued then 10 else 0) + TaskRank(w.tpc)
  }

  lemma TowardsStallWorks(w: World, id: nat)
    requires Doomed(w, id) && !Stalled(w)
    ensures var v := Act(w, TowardsStall(w));
      && Doomed(v, id) && StallRank(v) < StallRank(w)
      && (w.queueStopped && !w.tpc.TIdleSet? ==> v.queueStopped && !v.tpc.TIdleSet?)
  {
    if w.xpc.XImscSet? {
    } else if w.ppc == PRead(true) {
    } else if !w.ipc.IOut? && !(w.ipc.IRead? && !w.ipc.txim) {
      match w.ipc
      case IStatus(_) =>
      case IRead(_, _) =>
      case ITx =>
      case IBusySeen =>
    } else if w.ppc.PRead? {
    } else if w.ipc.IRead? {
    } else if !w.tpc.TOut? {
      match w.tpc
      case TLoop =>
      case TIdleSet =>
      case TUnlock =>
      case TIdleSeen =>
    }
  }

  lemma {:induction false} Dooms(w: World, id: nat) returns (acts: seq<Action>)
    requires Doomed(w, id)
    ensures var v := Run(w, acts);
      && Stalled(v) && v.txSkb == Some(id)
      && (w.queueStopped && !w.tpc.TIdleSet? ==> v.queueStopped)
    decreases StallRank(w)
  {
    if Stalled(w) {
      acts := [];
    } else {
      hide Act;
      hide StallRank;
      var a := TowardsStall(w);
      TowardsStallWorks(w, id);
      var rest := Dooms(Act(w, a), id);
      First(w, a, rest);
      acts := [a] + rest;
    }
  }

  lemma EnableDooms(w: World, up: bool, id: nat)
    requires WorldInv(w) && w.xpc.XPrepared? && InFlight(w, id) && Clearing(w)
    ensures Doomed(Act(w, Xmit(up)), id)
  {
  }

  // In every interleaving: when start_xmit enables the transmit interrupt for a frame in flight, that
  // frame can stall if and only if a write that clears the interrupt is under way at that moment. If
  // none is, the interrupt stays enabled until the buffer is freed, whatever happens.
  lemma StallPossibleExactly(before: seq<Action>, up: bool, id: nat)
    requires Run(INITIAL, before).xpc.XPrepared? && InFlight(Run(INITIAL, before), id)
    ensures var w := Run(INITIAL, before);
      (exists acts :: Stalled(Run(Act(w, Xmit(up)), acts)) && Run(Act(w, Xmit(up)), acts).txSkb == Some(id)) <==>
      Clearing(w)
  {
    var w := Reachable(before, id);
    var e := Act(w, Xmit(up));
    ActKeepsInv(w, Xmit(up), id);
    if Clearing(w) {
      EnableDooms(w, up, id);
      var acts := Dooms(e, id);
    } else {
      EnableArms(w, up, id);
      forall acts
        ensures !(Stalled(Run(e, acts)) && Run(e, acts).txSkb == Some(id))
      {
        RunKeepsArmed(e, acts, id);
        ArmedIsNotStalled(Run(e, acts), id);
      }
    }
  }

  lemma ArmedIsNotStalled(w: World, id: nat)
    requires Inv(w, id) && Armed(w, id)
    ensures !(Stalled(w) && w.txSkb == Some(id))
  {
  }

  // ---- The transmit side alone ----

  // The receive side is not between reading and writing the mask.
  predicate ReceiveQuiet(w: World) {
    w.ppc.POut? && !w.ipc.IStatus? && !w.ipc.IRead?
  }

  predicate NoReceive(acts: seq<Action>) {
    forall a <- acts :: !a.PollStep? && (a.Irq? ==> !a.rx)
  }

  // The frame of payload id is in flight, and the task is about to disable the interrupt, or has done so.
  predicate Disabled(w: World, id: nat) {
    w.txSkb == Some(id) && !w.phase.TxIdle? && Installed(w) && ReceiveQuiet(w) && (w.tpc.TIdleSeen? || !w.txim)
  }

  // That, too, lasts until the buffer is freed.
  predicate Disarmed(w: World, id: nat) {
    id < |w.lens| && Held(w) != Some(id) && (w.freed[id] == 0 ==> Disabled(w, id))
  }

  lemma LoopKeepsDisabled(w: World, consumed: bool, id: nat)
    requires Disabled(w, id) && w.tpc.TLoop?
    ensures Disabled(LoopStep(w, consumed), id)
  {
    match w.phase
    case TxIdle =>
    case TxHeader =>
    case TxLength =>
    case TxData =>
    case TxFooter =>
  }

  lemma LoopKeepsDisarmed(w: World, consumed: bool, id: nat)
    requires Disarmed(w, id) && w.tpc.TLoop?
    ensures Disarmed(LoopStep(w, consumed), id)
  {
    if w.freed[id] == 0 {
      LoopKeepsDisabled(w, consumed, id);
    }
  }

  lemma TaskKeepsDisarmed(w: World, full: bool, consumed: bool, id: nat)
    requires Inv(w, id) && Disarmed(w, id)
    ensures Disarmed(TaskStep(w, full, consumed), id)
  {
    hide LoopStep;
    hide Books;
    hide WakeupPending;
    match w.tpc
    case TLoop =>
      if !full {
        LoopKeepsDisarmed(w, consumed, id);
      }
    case TOut =>
    case TFooterWritten =>
    case TCounted =>
    case TFreed =>
    case TSkbNull =>
    case TIdleSet =>
    case TUnlock =>
    case TIdleSeen =>
  }

  lemma XmitKeepsDisarmed(w: World, up: bool, id: nat)
    requires Inv(w, id) && Disarmed(w, id)
    ensures Disarmed(XmitStep(w, up), id)
  {
    match w.xpc
    case XOut =>
    case XEntered =>
    case XUp =>
    case XStopped =>
    case XIdleSeen =>
    case XSkbSet =>
    case XHeaderSet =>
    case XPointerSet =>
    case XCountSet =>
    case XPrepared =>
    case XImscSet =>
    case XBusySeen =>
    case XFreed =>
  }

  lemma ActKeepsDisarmed(w: World, a: Action, id: nat)
    requires Inv(w, id) && Disarmed(w, id) && !a.PollStep? && (a.Irq? ==> !a.rx)
    ensures Disarmed(Act(w, a), id)
  {
    hide Inv;
    hide XmitStep;
    hide TaskStep;
    match a
    case Call(len) =>
    case Xmit(up) =>
      if w.lens != [] {
        XmitKeepsDisarmed(w, up, id);
      }
    case StartTask =>
    case Task(full, consumed) => TaskKeepsDisarmed(w, full, consumed, id);
    case Irq(rx, tx) =>
    case IrqStep =>
  }

  lemma {:induction false} RunKeepsDisarmed(w: World, acts: seq<Action>, id: nat)
    requires Inv(w, id) && Disarmed(w, id) && NoReceive(acts)
    ensures Disarmed(Run(w, acts), id) && Inv(Run(w, acts), id)
    decreases |acts|
  {
    hide Disarmed;
    if acts != [] {
      ActKeepsInv(w, acts[0], id);
      ActKeepsDisarmed(w, acts[0], id);
      hide Inv;
      RunKeepsDisarmed(Act(w, acts[0]), acts[1..], id);
    }
  }

  lemma EnableDisarms(w: World, up: bool, id: nat)
    requires Inv(w, id) && w.xpc.XPrepared? && InFlight(w, id) && ReceiveQuiet(w) && w.tpc.TIdleSeen?
    ensures Disarmed(Act(w, Xmit(up)), id)
  {
  }

  lemma DisarmedIsStalled(w: World, id: nat)
    requires Inv(w, id) && Disarmed(w, id) && Resting(w) && w.txSkb == Some(id)
    ensures Stalled(w)
  {
  }

  // While the receive side leaves the mask alone: once everybody is at rest with the frame still in
  // flight, it is stalled if and only if the task was between its test of tx_state and its write to
  // the mask when start_xmit enabled the interrupt.
  lemma StalledExactly(before: seq<Action>, up: bool, id: nat, acts: seq<Action>)
    requires Run(INITIAL, before).xpc.XPrepared? && InFlight(Run(INITIAL, before), id)
    requires ReceiveQuiet(Run(INITIAL, before)) && NoReceive(acts)
    ensures var w := Run(INITIAL, before);
      var v := Run(Act(w, Xmit(up)), acts);
      Resting(v) && v.txSkb == Some(id) ==> (Stalled(v) <==> w.tpc.TIdleSeen?)
  {
    var w := Reachable(before, id);
    var e := Act(w, Xmit(up));
    ActKeepsInv(w, Xmit(up), id);
    var v := Run(e, acts);
    if w.tpc.TIdleSeen? {
      EnableDisarms(w, up, id);
      RunKeepsDisarmed(e, acts, id);
      if Resting(v) && v.txSkb == Some(id) {
        DisarmedIsStalled(v, id);
      }
    } else {
      EnableArms(w, up, id);
      RunKeepsArmed(e, acts, id);
      ArmedIsNotStalled(v, id);
    }
  }

  // ---- What a stall takes to end ----

  // A frame is in flight, the task is not running, queued or being restarted by start_xmit, and the
  // interrupt is disabled.
  predicate Silent(w: World) {
    && !w.phase.TxIdle? && w.tpc.TOut? && !w.workQueued && !w.txim
    && Installed(w) && !w.xpc.XImscSet?
  }

  // And no write under way sets the transmit bit, nor is the handler about to queue the work item.
  predicate Dead(w: World) {
    && Silent(w) && !Setting(w)
    && !w.ipc.ITx? && !w.ipc.IBusySeen? && !(w.ipc.IStatus? && w.ipc.tx) && !(w.ipc.IRead? && w.ipc.tx)
  }

  lemma ActKeepsDead(w: World, a: Action)
    requires Dead(w)
    ensures var v := Act(w, a);
      Dead(v) && v.packets == w.packets && v.phase == w.phase && v.count == w.count && v.txSkb == w.txSkb
  {
    match a
    case Call(len) =>
    case Xmit(up) =>
    case StartTask =>
    case Task(full, consumed) =>
    case Irq(rx, tx) =>
    case IrqStep =>
    case PollStep =>
  }

  // Then nothing is sent any more, whatever is called, polled or interrupts.
  lemma {:induction false} StalledForEver(w: World, acts: seq<Action>)
    requires Dead(w)
    ensures var v := Run(w, acts);
      Dead(v) && v.packets == w.packets && v.phase == w.phase && v.count == w.count && v.txSkb == w.txSkb
    decreases |acts|
  {
    hide Dead;
    if acts != [] {
      ActKeepsDead(w, acts[0]);
      StalledForEver(Act(w, acts[0]), acts[1..]);
    }
  }

  lemma StalledIsDead(w: World)
    requires Stalled(w)
    ensures Dead(w)
  {
  }

  // The work item is queued or can be made so by the handler and the poll.
  predicate Waking(w: World) {
    && !w.phase.TxIdle? && w.tpc.TOut?
    && (|| w.workQueued || w.ipc.ITx? || w.ipc.IBusySeen? || (w.ipc.IStatus? && w.ipc.tx)
        || (w.ipc.IRead? && (w.ipc.tx || w.ipc.txim)) || (w.ipc.IOut? && w.txim) || w.ppc == PRead(true))
  }

  function TowardsTask(w: World): Action {
    if w.workQueued then StartTask
    else if !w.ipc.IOut? then IrqStep
    else if w.txim then Irq(false, true)
    else PollStep
  }

  function WakeRank(w: World): nat {
    if w.workQueued then 0
    else match w.ipc
      case IBusySeen => 1
      case ITx => 2
      case IOut => if w.txim then 3 else 4
      case IRead(_, _) => 5
      case IStatus(_) => 6
  }

  lemma TowardsTaskWorks(w: World)
    requires Waking(w)
    ensures var v := Act(w, TowardsTask(w));
      if w.workQueued then v.tpc.TLoop? else Waking(v) && WakeRank(v) < WakeRank(w)
  {
    if !w.workQueued {
      match w.ipc
      case IOut =>
      case IStatus(_) =>
      case IRead(_, _) =>
      case ITx =>
      case IBusySeen =>
    }
  }

  lemma {:induction false} Wakes(w: World) returns (acts: seq<Action>)
    requires Waking(w)
    ensures Run(w, acts).tpc.TLoop?
    decreases WakeRank(w)
  {
    hide Act;
    hide WakeRank;
    var a := TowardsTask(w);
    TowardsTaskWorks(w);
    var rest := [];
    if !w.workQueued {
      rest := Wakes(Act(w, a));
    }
    First(w, a, rest);
    acts := [a] + rest;
  }

  // A silent transmitter sends again in some run if and only if a write under way sets the transmit
  // bit or the handler is about to queue the work item.
  lemma RevivesExactly(w: World)
    requires Silent(w)
    ensures (exists acts :: Run(w, acts).tpc.TLoop?) <==> !Dead(w)
  {
    if Dead(w) {
      forall acts
        ensures !Run(w, acts).tpc.TLoop?
      {
        StalledForEver(w, acts);
      }
    } else {
      var acts := Wakes(w);
    }
  }

  // The handler queues the work item only after it has seen tx_state not idle, and only when the status
  // it read showed the transmit interrupt enabled.
  lemma HandlerQueuesOnlyBusy(w: World, a: Action)
    ensures Act(w, a).ipc.IBusySeen? ==> w.ipc.IBusySeen? || (w.ipc.ITx? && !w.phase.TxIdle?)
    ensures Act(w, a).ipc.ITx? ==>
      w.ipc.ITx? || (a.IrqStep? && w.ipc.IRead? && w.ipc.tx) || (a == Irq(false, true) && w.txim)
    ensures a.IrqStep? && Act(w, a).workQueued ==> w.workQueued || w.ipc.IBusySeen?
  {
    hide XmitStep;
    hide TaskStep;
    if !a.Irq? && !a.IrqStep? {
      HandlerUntouched(w, a);
    }
    match w.ipc
    case IOut =>
    case IStatus(_) =>
    case IRead(_, _) =>
    case ITx =>
    case IBusySeen =>
  }

  // An enabled transmit interrupt is served whether or not a receive interrupt shows beside it; one
  // that is masked leaves the work item alone.
  lemma TransmitServed(w: World, rx: bool)
    requires w.ipc == IOut && w.phase != TxIdle
    ensures Run(w, [Irq(rx, true)] + (if rx then [IrqStep, IrqStep, IrqStep, IrqStep] else [IrqStep, IrqStep]))
         == w.(workQueued := w.workQueued || w.txim)
  {
    hide Run;
    hide IrqStart;
    hide IrqNext;
    StatusServed(w, rx);
    if rx {
      OneMore(w, Irq(true, true), [IrqStep, IrqStep, IrqStep, IrqStep]);
      FourHandlerSteps(IrqStart(w, true, true));
    } else {
      OneMore(w, Irq(false, true), [IrqStep, IrqStep]);
      TwoHandlerSteps(IrqStart(w, false, true));
    }
  }

  lemma StatusServed(w: World, rx: bool)
    requires w.ipc == IOut && w.phase != TxIdle
    ensures var first := IrqStart(w, rx, true);
      (if rx then IrqNext(IrqNext(IrqNext(IrqNext(first)))) else IrqNext(IrqNext(first)))
      == w.(workQueued := w.workQueued || w.txim)
  {
  }

  lemma OneMore(w: World, a: Action, acts: seq<Action>)
    ensures Run(w, [a] + acts) == Run(Act(w, a), acts)
  {
    hide Act;
    assert ([a] + acts)[1..] == acts;
  }

  lemma TwoHandlerSteps(w: World)
    ensures Run(w, [IrqStep, IrqStep]) == IrqNext(IrqNext(w))
  {
    hide IrqNext;
    assert [IrqStep, IrqStep][1..] == [IrqStep];
    assert [IrqStep][1..] == [];
  }

  lemma FourHandlerSteps(w: World)
    ensures Run(w, [IrqStep, IrqStep, IrqStep, IrqStep]) == IrqNext(IrqNext(IrqNext(IrqNext(w))))
  {
    hide IrqNext;
    assert [IrqStep, IrqStep, IrqStep, IrqStep] == [IrqStep] + ([IrqStep] + [IrqStep, IrqStep]);
    OneMore(w, IrqStep, [IrqStep] + [IrqStep, IrqStep]);
    OneMore(IrqNext(w), IrqStep, [IrqStep, IrqStep]);
    TwoHandlerSteps(IrqNext(IrqNext(w)));
  }

  lemma HandlerUntouched(w: World, a: Action)
    requires !a.Irq? && !a.IrqStep?
    ensures Act(w, a).ipc == w.ipc
  {
  }

  // ---- Three ways to stall ----

  // A call of start_xmit stores the buffer in an idle transmitter.
  lemma CallStores(w: World, acts: seq<Action>, len: nat) returns (longer: seq<Action>, v: World)
    requires w == Run(INITIAL, acts) && w.xpc == XOut && w.phase == TxIdle
    ensures v == Run(INITIAL, longer)
    ensures v == w.(lens := w.lens + [len], xpc := XSkbSet, offered := w.offered + 1, queueStopped := true,
                    txSkb := Some(|w.lens|))
  {
    v := w.(lens := w.lens + [len], xpc := XEntered);
    longer := Then(INITIAL, acts, Call(len), v);
    v := v.(xpc := XUp, offered := v.offered + 1);
    longer := Then(INITIAL, longer, Xmit(true), v);
    v := v.(xpc := XStopped, queueStopped := true);
    longer := Then(INITIAL, longer, Xmit(true), v);
    v := v.(xpc := XIdleSeen);
    longer := Then(INITIAL, longer, Xmit(true), v);
    v := v.(xpc := XSkbSet, txSkb := Some(|w.lens|));
    longer := Then(INITIAL, longer, Xmit(true), v);
  }

  // It makes the frame ready.
  lemma CallPrepares(w: World, acts: seq<Action>) returns (longer: seq<Action>, v: World)
    requires w == Run(INITIAL, acts) && w.xpc == XSkbSet && w.lens != []
    ensures v == Run(INITIAL, longer)
    ensures v == w.(xpc := XPrepared, phase := TxHeader, count := 2)
  {
    v := w.(xpc := XHeaderSet, phase := TxHeader);
    longer := Then(INITIAL, acts, Xmit(true), v);
    v := v.(xpc := XPointerSet);
    longer := Then(INITIAL, longer, Xmit(true), v);
    v := v.(xpc := XCountSet, count := 2);
    longer := Then(INITIAL, longer, Xmit(true), v);
    v := v.(xpc := XPrepared);
    longer := Then(INITIAL, longer, Xmit(true), v);
  }

  // It enables the interrupt, queues the work item and returns.
  lemma CallReturns(w: World, acts: seq<Action>) returns (longer: seq<Action>, v: World)
    requires w == Run(INITIAL, acts) && w.xpc == XPrepared && w.lens != []
    ensures v == Run(INITIAL, longer)
    ensures v == w.(xpc := XOut, txim := true, workQueued := true)
  {
    v := w.(xpc := XImscSet, txim := true);
    longer := Then(INITIAL, acts, Xmit(true), v);
    v := v.(xpc := XOut, workQueued := true);
    longer := Then(INITIAL, longer, Xmit(true), v);
  }

  // The task sends a frame of one byte.
  lemma TaskSendsByte(w: World, acts: seq<Action>) returns (longer: seq<Action>, v: World)
    requires w == Run(INITIAL, acts) && w.phase == TxHeader && w.count == 2 && w.tpc == TOut && w.workQueued
    requires Length(w) == 1
    ensures v == Run(INITIAL, longer)
    ensures v == w.(workQueued := false, tpc := TLoop, count := 0, phase := TxFooter)
  {
    v := w.(workQueued := false, tpc := TLoop);
    longer := Then(INITIAL, acts, StartTask, v);
    v := v.(phase := TxLength);
    longer := Then(INITIAL, longer, Task(false, true), v);
    v := v.(count := 1);
    longer := Then(INITIAL, longer, Task(false, true), v);
    v := v.(phase := TxData);
    longer := Then(INITIAL, longer, Task(false, true), v);
    v := v.(count := 0, phase := TxFooter);
    longer := Then(INITIAL, longer, Task(false, true), v);
  }

  // It completes the frame.
  lemma TaskCompletesFrame(w: World, acts: seq<Action>) returns (longer: seq<Action>, v: World)
    requires w == Run(INITIAL, acts) && w.phase == TxFooter && w.tpc == TLoop && w.txSkb.Some?
    ensures v == Run(INITIAL, longer)
    ensures v == w.(packets := w.packets + 1, freed := w.freed + multiset{w.txSkb.value}, txSkb := None,
                    tpc := TSkbNull)
  {
    v := w.(tpc := TFooterWritten);
    longer := Then(INITIAL, acts, Task(false, true), v);
    v := v.(tpc := TCounted, packets := v.packets + 1);
    longer := Then(INITIAL, longer, Task(false, true), v);
    v := v.(tpc := TFreed, freed := v.freed + multiset{w.txSkb.value});
    longer := Then(INITIAL, longer, Task(false, true), v);
    v := v.(tpc := TSkbNull, txSkb := None);
    longer := Then(INITIAL, longer, Task(false, true), v);
  }

  // It wakes the queue and has just seen that the transmitter is idle.
  lemma TaskSeesIdle(w: World, acts: seq<Action>) returns (longer: seq<Action>, v: World)
    requires w == Run(INITIAL, acts) && w.tpc == TSkbNull
    ensures v == Run(INITIAL, longer)
    ensures v == w.(phase := TxIdle, queueStopped := false, tpc := TIdleSeen)
  {
    v := w.(tpc := TIdleSet, phase := TxIdle);
    longer := Then(INITIAL, acts, Task(false, true), v);
    v := v.(tpc := TUnlock, queueStopped := false);
    longer := Then(INITIAL, longer, Task(false, true), v);
    v := v.(tpc := TIdleSeen);
    longer := Then(INITIAL, longer, Task(false, true), v);
  }

  // From a frame made ready while a write that clears the interrupt is under way.
  lemma EnableStalls(w: World, acts: seq<Action>, id: nat) returns (longer: seq<Action>)
    requires w == Run(INITIAL, acts) && w.xpc.XPrepared? && InFlight(w, id) && Clearing(w)
    requires w.queueStopped && !w.tpc.TIdleSet? && WorldInv(w)
    ensures Stalled(Run(INITIAL, longer)) && Run(INITIAL, longer).queueStopped
  {
    hide Clearing;
    EnableDooms(w, true, id);
    var e := Act(w, Xmit(true));
    assert e.queueStopped && !e.tpc.TIdleSet?;
    hide Doomed;
    var rest := Dooms(e, id);
    RunConcat(INITIAL, acts, [Xmit(true)] + rest);
    First(w, Xmit(true), rest);
    longer := acts + ([Xmit(true)] + rest);
  }

  // The task finds the transmitter idle, start_xmit installs the next payload and enables the
  // interrupt, and only then does the task disable it.
  lemma StallIsReachable() returns (acts: seq<Action>)
    ensures Stalled(Run(INITIAL, acts)) && Run(INITIAL, acts).queueStopped
  {
    hide Act;
    hide Inv;
    hide WorldInv;
    var v := INITIAL;
    acts := [];
    acts, v := CallStores(v, acts, 1);
    acts, v := CallPrepares(v, acts);
    acts, v := CallReturns(v, acts);
    acts, v := TaskSendsByte(v, acts);
    acts, v := TaskCompletesFrame(v, acts);
    acts, v := TaskSeesIdle(v, acts);
    acts, v := CallStores(v, acts, 60);
    acts, v := CallPrepares(v, acts);
    ReachedInv(acts);
    acts := EnableStalls(v, acts, 1);
  }

  lemma ReachedInv(acts: seq<Action>)
    ensures WorldInv(Run(INITIAL, acts))
  {
    var w := Reachable(acts, 0);
  }

  // Without any write by the task: the poll reads the mask, start_xmit installs a payload and enables
  // the interrupt, the task finds the FIFO full, and the poll writes back what it has read.
  lemma PollStalls() returns (acts: seq<Action>)
    ensures Stalled(Run(INITIAL, acts)) && Run(INITIAL, acts).queueStopped
  {
    hide Inv;
    hide WorldInv;
    var v := INITIAL.(ppc := PRead(false));
    acts := Then(INITIAL, [], PollStep, v);
    hide Act;
    acts, v := CallStores(v, acts, 60);
    acts, v := CallPrepares(v, acts);
    ReachedInv(acts);
    acts := EnableStalls(v, acts, 0);
  }

  // Nor by the poll: a receive interrupt comes while the transmitter is idle, the handler reads the
  // mask, start_xmit installs a payload and enables the interrupt, and the handler writes it back.
  lemma HandlerStalls() returns (acts: seq<Action>)
    ensures Stalled(Run(INITIAL, acts)) && Run(INITIAL, acts).queueStopped
  {
    hide Inv;
    hide WorldInv;
    var v := INITIAL.(ipc := IStatus(false));
    acts := Then(INITIAL, [], Irq(true, true), v);
    v := INITIAL.(ipc := IRead(false, false));
    acts := Then(INITIAL, acts, IrqStep, v);
    hide Act;
    acts, v := CallStores(v, acts, 60);
    acts, v := CallPrepares(v, acts);
    ReachedInv(acts);
    acts := EnableStalls(v, acts, 0);
  }
}
