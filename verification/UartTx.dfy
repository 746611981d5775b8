// The transmit half of the driver object, updated in place, against the transmit machine.
module UartTx {
  import opened Options
  import opened Wire
  import opened TxMachine
  import opened TxRuns

  class Transmitter {
    var txState: TxPhase
    var txSkb: Option<seq<byte>>
    const txLengthBytes: array<byte>
    var txCurrentPtr: nat  // offset into the length bytes or into the payload
    var txCurrentCount: nat
    var txEscapeNext: bool
    var wire: seq<byte>    // what has been written to the data register
    var txPackets: nat
    var txDropped: nat
    var queueStopped: bool
    var txim: bool
    var workQueued: bool

    ghost function State(): Tx
      reads this, txLengthBytes
    {
      Tx(txState, txSkb, txLengthBytes[..], txCurrentPtr, txCurrentCount, txEscapeNext, wire,
         txPackets, txDropped, queueStopped, txim, workQueued)
    }

    ghost predicate Valid()
      reads this, txLengthBytes
    {
      txLengthBytes.Length == 2 && TxInv(State())
    }

    constructor ()
      ensures Valid() && fresh(txLengthBytes)
      ensures txState == TxIdle && wire == [] && txPackets == txDropped == 0 && !workQueued
    {
      txLengthBytes := new byte[2](_ => 0);
      txState, txSkb, wire := TxIdle, None, [];
      txCurrentPtr, txCurrentCount, txEscapeNext := 0, 0, false;
      txPackets, txDropped := 0, 0;
      queueStopped, txim, workQueued := false, false, false;
    }

    // The common code of TX_STATE_LENGTH and TX_STATE_DATA: write the byte, or the escape before it.
    method WriteEscaped(b: byte)
      requires txCurrentCount > 0
      modifies this`wire, this`txEscapeNext, this`txCurrentPtr, this`txCurrentCount
      ensures State() == SendByte(old(State()), b)
    {
      if txEscapeNext {
        wire := wire + [Xor20(b)];
        txEscapeNext := false;
        txCurrentPtr := txCurrentPtr + 1;
        txCurrentCount := txCurrentCount - 1;
      } else if b == FRAME_HEADER || b == FRAME_FOOTER || b == ESCAPE_CHAR {
        wire := wire + [ESCAPE_CHAR];
        txEscapeNext := true;
      } else {
        wire := wire + [b];
        txCurrentPtr := txCurrentPtr + 1;
        txCurrentCount := txCurrentCount - 1;
      }
    }

    method TxIteration()
      requires TxInv(State()) && txState != TxIdle
      modifies this`txState, this`txSkb, this`wire, this`txEscapeNext, this`txCurrentPtr, this`txCurrentCount,
               this`txPackets, this`queueStopped
      ensures State() == TxByte(old(State()))
    {
      match txState {
        case TxHeader =>
          wire := wire + [FRAME_HEADER];
          txState := TxLength;
        case TxLength =>
          if txCurrentCount > 0 {
            WriteEscaped(txLengthBytes[txCurrentPtr]);
            if txCurrentCount == 0 {
              txState := TxData;
              txCurrentPtr := 0;
              txCurrentCount := |txSkb.value| % 0x1_0000;
              txEscapeNext := false;
            }
          }
        case TxData =>
          if txCurrentCount > 0 {
            WriteEscaped(txSkb.value[txCurrentPtr]);
            if txCurrentCount == 0 {
              txState := TxFooter;
            }
          }
        case TxFooter =>
          wire := wire + [FRAME_FOOTER];
          txPackets := txPackets + 1;
          txSkb := None;
          txState := TxIdle;
          queueStopped := false;
      }
    }

    // The loop of the work item, when the flag register shows room in the FIFO this many times.
    method TxLoop(room: nat)
      requires txLengthBytes.Length == 2 && TxInv(State())
      modifies this`txState, this`txSkb, this`wire, this`txEscapeNext, this`txCurrentPtr, this`txCurrentCount,
               this`txPackets, this`queueStopped
      ensures State() == TaskLoop(old(State()), room)
    {
      hide TaskLoop;
      hide TxByte;
      var left := room;
      var completed := false;
      while left > 0 && txState != TxIdle && !completed
        invariant TxInv(State())
        invariant completed ==> txState == TxIdle
        invariant TaskLoop(old(State()), room) == TaskLoop(State(), left)
      {
        LoopUnfolds(State(), left);
        completed := txState == TxFooter;
        TxIteration();
        left := left - 1;
      }
      LoopEnds(State(), left);
    }

    // The work item.
    method TxTask(room: nat)
      requires Valid() && workQueued
      modifies this`txState, this`txSkb, this`wire, this`txEscapeNext, this`txCurrentPtr, this`txCurrentCount,
               this`txPackets, this`queueStopped, this`txim, this`workQueued
      ensures Valid() && State() == TaskRun(old(State()), room)
      ensures View(State()) == LineWork(old(View(State())), room)
    {
      hide TxInv;
      hide View;
      hide TaskLoop;
      ghost var start := State();
      ghost var started := start.(workQueued := false);
      WorkFlagIsFree(start);
      workQueued := false;
      assert State() == started;
      TxLoop(room);
      ghost var done := TaskLoop(started, room);
      if txState == TxIdle {
        txim := false;
      }
      assert State() == Unlock(done);
      TaskRefines(start, room);
    }

    method WriteLength(len: nat)
      requires txLengthBytes.Length == 2
      modifies txLengthBytes
      ensures txLengthBytes[..] == LengthBytes(len)
    {
      txLengthBytes[0] := len / 256 % 256;
      txLengthBytes[1] := len % 256;
    }

    method Begin(payload: seq<byte>)
      requires txLengthBytes.Length == 2
      modifies this`txState, this`txSkb, this`txEscapeNext, this`txCurrentPtr, this`txCurrentCount,
               this`queueStopped, this`txim, this`workQueued, txLengthBytes
      ensures queueStopped == old(queueStopped)
      ensures State().(queueStopped := true) == Install(old(State()), payload)
    {
      hide LengthBytes;
      WriteLength(|payload|);
      txSkb := Some(payload);
      txState := TxHeader;
      txCurrentPtr := 0;
      txCurrentCount := txLengthBytes.Length;
      txEscapeNext := false;
      txim := true;
      workQueued := true;
    }

    method StartXmit(payload: seq<byte>, up: bool)
      requires Valid()
      modifies this`txState, this`txSkb, this`txEscapeNext, this`txCurrentPtr, this`txCurrentCount,
               this`txDropped, this`queueStopped, this`txim, this`workQueued, txLengthBytes
      ensures Valid() && State() == TxMachine.StartXmit(old(State()), payload, up)
      ensures View(State()) == LineStep(old(View(State())), Offer(payload, up))
    {
      OfferRefines(State(), payload, up);
      hide TxInv;
      hide View;
      if !up {
        return;
      }
      queueStopped := true;
      if txState == TxIdle {
        Begin(payload);
      } else {
        txDropped := txDropped + 1;
      }
    }

    // The transmit part of the interrupt handler.
    method OnInterrupt(txis: bool)
      requires Valid()
      modifies this`workQueued
      ensures Valid()
      ensures State() == TxMachine.Interrupt(old(State()), txis)
    {
      if txis && txim {
        if txState != TxIdle {
          workQueued := true;
        }
      }
    }
  }

  lemma LoopUnfolds(t: Tx, left: nat)
    requires TxInv(t) && t.phase != TxIdle && left > 0
    ensures TxInv(TxByte(t))
    ensures TaskLoop(TxByte(t), left - 1) == TaskLoop(t, left)
    ensures t.phase == TxFooter ==> TxByte(t).phase == TxIdle
  {
    ByteEmits(t);
  }

  lemma LoopEnds(t: Tx, left: nat)
    requires TxInv(t) && (left == 0 || t.phase == TxIdle)
    ensures TaskLoop(t, left) == t
  {
  }
}
