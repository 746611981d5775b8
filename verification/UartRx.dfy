// The receive half of the driver object, updated in place, against the receive machine.
module UartRx {
  import opened Options
  import opened Wire
  import opened RxMachine
  import opened RoundTrip

  class Receiver {
    var rxState: RxPhase
    var savedState: RxPhase
    var rxSkb: Option<Skb>
    var rxFrameLength: nat
    var rxDataReceived: nat
    const rxLengthBytes: array<byte>
    var rxLengthIndex: nat
    var rxLog: RxLog
    var rxIrqEnabled: bool
    var napiScheduled: bool

    ghost function State(): Rx
      requires rxLengthBytes.Length == 2
      reads this, rxLengthBytes
    {
      Rx(rxState, savedState, rxSkb, rxFrameLength, rxDataReceived,
         LengthField(rxLengthBytes[0], rxLengthBytes[1]), rxLengthIndex, rxLog)
    }

    // With the receive interrupt disabled, a poll is scheduled. That is so on one CPU, where nothing
    // comes between reading the mask and writing it; ReceiveMask says what happens otherwise.
    ghost predicate Valid()
      reads this, rxLengthBytes
    {
      rxLengthBytes.Length == 2 && RxInv(State()) && (rxIrqEnabled || napiScheduled)
    }

    constructor ()
      ensures Valid() && Opened(State()) && fresh(rxLengthBytes)
      ensures rxIrqEnabled && !napiScheduled
    {
      rxLengthBytes := new byte[2](_ => 0);
      rxState, savedState, rxSkb, rxLog := RxIdle, RxIdle, None, EMPTY_LOG;
      rxFrameLength, rxDataReceived, rxLengthIndex := 0, 0, 0;
      rxIrqEnabled, napiScheduled := true, false;
    }

    method OnIdle(data: byte)
      requires rxLengthBytes.Length == 2
      modifies this`rxState, this`rxLengthIndex, this`rxFrameLength, this`rxDataReceived, this`rxSkb, this`rxLog
      ensures State() == IdleByte(old(State()), data)
    {
      if data == FRAME_HEADER {
        rxState := RxLength;
        rxLengthIndex := 0;
        rxFrameLength := 0;
        rxDataReceived := 0;
        rxSkb := None;
        rxLog := rxLog.(headers := rxLog.headers + 1);
      }
    }

    method OnLength(data: byte, allocOk: bool)
      requires rxLengthBytes.Length == 2 && rxLengthIndex < 2
      modifies this`rxState, this`rxLengthIndex, this`rxFrameLength, this`rxSkb, this`rxLog, rxLengthBytes
      ensures State() == LengthByte(old(State()), data, allocOk)
    {
      rxLengthBytes[rxLengthIndex] := data;
      rxLengthIndex := rxLengthIndex + 1;
      if rxLengthIndex == 2 {
        var len := JoinLength(rxLengthBytes[0], rxLengthBytes[1]);
        if len > MAX_FRAME || len == 0 {
          if rxSkb.Some? {
            rxLog := rxLog.(freed := rxLog.freed + 1);
            rxSkb := None;
          }
          rxState := RxIdle;
          rxLog := rxLog.(lengthErrors := rxLog.lengthErrors + 1);
        } else {
          rxFrameLength := len;
          if !allocOk {
            rxSkb := None;
            rxState := RxIdle;
            rxLog := rxLog.(dropped := rxLog.dropped + 1);
          } else {
            rxLog := rxLog.(buffers := rxLog.buffers + 1);
            rxSkb := Some(Skb(len, []));
            rxState := RxData;
          }
        }
      }
    }

    method OnData(data: byte)
      requires rxLengthBytes.Length == 2 && rxSkb.Some?
      modifies this`rxState, this`rxDataReceived, this`rxSkb, this`rxLog
      ensures State() == DataByte(old(State()), data)
    {
      if rxDataReceived < rxFrameLength {
        rxSkb := Some(rxSkb.value.(data := rxSkb.value.data + [data]));
        rxDataReceived := rxDataReceived + 1;
      } else {
        rxLog := rxLog.(freed := rxLog.freed + 1, overErrors := rxLog.overErrors + 1);
        rxSkb := None;
        rxState := RxIdle;
        return;
      }
      if rxDataReceived >= rxFrameLength {
        rxState := RxEnd;
      }
    }

    method OnEnd(data: byte) returns (delivered: nat)
      requires rxLengthBytes.Length == 2
      modifies this`rxState, this`rxSkb, this`rxLog
      ensures State() == EndByte(old(State()), data)
      ensures |rxLog.delivered| == |old(rxLog.delivered)| + delivered && delivered <= 1
    {
      delivered := 0;
      if data == FRAME_FOOTER {
        if rxSkb.Some? && |rxSkb.value.data| == rxFrameLength {
          rxLog := rxLog.(delivered := rxLog.delivered + [rxSkb.value.data], packets := rxLog.packets + 1);
          delivered := 1;
        } else {
          if rxSkb.Some? {
            rxLog := rxLog.(freed := rxLog.freed + 1);
          }
          rxLog := rxLog.(errors := rxLog.errors + 1);
        }
      } else {
        if rxSkb.Some? {
          rxLog := rxLog.(freed := rxLog.freed + 1);
        }
        rxLog := rxLog.(errors := rxLog.errors + 1);
      }
      rxSkb := None;
      rxState := RxIdle;
    }

    // The switch for one byte read from the FIFO, with the jump back after un-escaping.
    method HandleByte(byteRead: byte, allocOk: bool) returns (delivered: nat)
      requires rxLengthBytes.Length == 2 && Representation(State())
      modifies this`rxState, this`savedState, this`rxSkb, this`rxFrameLength, this`rxDataReceived,
               this`rxLengthIndex, this`rxLog, rxLengthBytes
      ensures State() == RxByte(old(State()), In(byteRead, allocOk))
      ensures |rxLog.delivered| == |old(rxLog.delivered)| + delivered && delivered <= 1
    {
      var data := byteRead;
      delivered := 0;
      while rxState == RxEscape
        invariant RxByte(State(), In(data, allocOk)) == RxByte(old(State()), In(byteRead, allocOk))
        invariant Representation(State()) && rxLog == old(rxLog)
        decreases rxState == RxEscape
      {
        data := Xor20(data);
        rxState := savedState;
      }
      if rxState == RxIdle {
        OnIdle(data);
      } else if rxState == RxEnd {
        delivered := OnEnd(data);
      } else if data == ESCAPE_CHAR {
        savedState := rxState;
        rxState := RxEscape;
      } else if rxState == RxLength {
        OnLength(data, allocOk);
      } else {
        OnData(data);
      }
    }

    // The loop of the NAPI poll. The FIFO yields the given bytes and then reads as empty.
    method PollBytes(fifo: seq<In>, budget: nat) returns (workDone: nat, taken: nat)
      requires rxLengthBytes.Length == 2 && RxInv(State())
      modifies this`rxState, this`savedState, this`rxSkb, this`rxFrameLength, this`rxDataReceived,
               this`rxLengthIndex, this`rxLog, rxLengthBytes
      ensures RxInv(State())
      ensures taken == PollTake(old(State()), fifo, budget)
      ensures State() == RxRun(old(State()), fifo[..taken])
      ensures workDone == |rxLog.delivered| - |old(rxLog.delivered)| <= budget
      ensures workDone < budget ==> taken == |fifo|
    {
      hide Polled;
      hide RxInv;
      hide RxRun;
      hide RxByte;
      hide PollTake;
      ghost var start := State();
      workDone, taken := 0, 0;
      PollBegins(start, fifo, budget);
      while workDone < budget && taken < |fifo|
        invariant taken <= |fifo| && workDone <= budget
        invariant Polled(start, State(), fifo, taken, budget, workDone)
      {
        PollStep(start, State(), fifo, taken, budget, workDone);
        var delivered := HandleByte(fifo[taken].data, fifo[taken].allocOk);
        workDone := workDone + delivered;
        taken := taken + 1;
      }
      PollEnds(start, State(), fifo, taken, budget, workDone);
    }

    // The NAPI poll: if it has not used up its budget, it is done and enables the interrupt again.
    method Poll(fifo: seq<In>, budget: nat) returns (workDone: nat, taken: nat)
      requires Valid() && napiScheduled
      modifies this`rxState, this`savedState, this`rxSkb, this`rxFrameLength, this`rxDataReceived,
               this`rxLengthIndex, this`rxLog, rxLengthBytes, this`rxIrqEnabled, this`napiScheduled
      ensures Valid()
      ensures taken == PollTake(old(State()), fifo, budget)
      ensures State() == RxRun(old(State()), fifo[..taken])
      ensures workDone == |rxLog.delivered| - |old(rxLog.delivered)| <= budget
      ensures workDone < budget ==> taken == |fifo| && rxIrqEnabled && !napiScheduled
      ensures workDone == budget ==> napiScheduled && rxIrqEnabled == old(rxIrqEnabled)
    {
      hide RxInv;
      hide PollTake;
      hide RxRun;
      workDone, taken := PollBytes(fifo, budget);
      if workDone < budget {
        napiScheduled := false;
        rxIrqEnabled := true;
      }
    }

    // The receive part of the interrupt handler; the status it reads is masked by the enable bit.
    method OnInterrupt(rxis: bool)
      requires Valid()
      modifies this`rxIrqEnabled, this`napiScheduled
      ensures Valid() && State() == old(State())
      ensures rxIrqEnabled == (old(rxIrqEnabled) && !rxis)
      ensures napiScheduled == (old(napiScheduled) || (rxis && old(rxIrqEnabled)))
    {
      if rxis && rxIrqEnabled {
        rxIrqEnabled := false;
        napiScheduled := true;
      }
    }
  }

  // A poll that began in state start, has taken so many bytes and delivered workDone packets.
  predicate Polled(start: Rx, s: Rx, fifo: seq<In>, taken: nat, budget: nat, workDone: nat) {
    && taken <= |fifo| && workDone <= budget
    && RxInv(s) && s == RxRun(start, fifo[..taken])
    && PollTake(start, fifo, budget) == taken + PollTake(s, fifo[taken..], budget - workDone)
    && |s.log.delivered| == |start.log.delivered| + workDone
  }

  lemma PollBegins(start: Rx, fifo: seq<In>, budget: nat)
    requires RxInv(start)
    ensures Polled(start, start, fifo, 0, budget, 0)
  {
    hide RxInv;
    hide PollTake;
    assert fifo[..0] == [] && fifo[0..] == fifo;
  }

  lemma PollEnds(start: Rx, s: Rx, fifo: seq<In>, taken: nat, budget: nat, workDone: nat)
    requires Polled(start, s, fifo, taken, budget, workDone)
    requires workDone == budget || taken == |fifo|
    ensures RxInv(s) && s == RxRun(start, fifo[..taken]) && taken == PollTake(start, fifo, budget)
    ensures |s.log.delivered| == |start.log.delivered| + workDone
  {
    hide RxInv;
    hide RxRun;
    assert PollTake(s, fifo[taken..], budget - workDone) == 0;
  }

  lemma PollStep(start: Rx, s: Rx, fifo: seq<In>, taken: nat, budget: nat, workDone: nat)
    requires Polled(start, s, fifo, taken, budget, workDone)
    requires workDone < budget && taken < |fifo|
    ensures Representation(s)
    ensures var t := RxByte(s, fifo[taken]);
      var done := |t.log.delivered| - |s.log.delivered|;
      0 <= done <= 1 && Polled(start, t, fifo, taken + 1, budget, workDone + done)
  {
    hide RxInv;
    hide RxByte;
    hide RxRun;
    hide PollTake;
    InvRepresents(s);
    RxByteKeepsInv(s, fifo[taken]);
    TakeOne(start, fifo, taken);
    TakeFirst(s, fifo[taken..], budget - workDone);
    assert fifo[taken..][1..] == fifo[taken + 1..];
  }

  lemma InvRepresents(s: Rx)
    requires RxInv(s)
    ensures Representation(s)
  {
  }

  lemma TakeOne(start: Rx, fifo: seq<In>, taken: nat)
    requires taken < |fifo|
    ensures RxByte(RxRun(start, fifo[..taken]), fifo[taken]) == RxRun(start, fifo[..taken + 1])
  {
    hide RxByte;
    var s := RxRun(start, fifo[..taken]);
    assert fifo[..taken + 1] == fifo[..taken] + [fifo[taken]];
    RxRunConcat(start, fifo[..taken], [fifo[taken]]);
    assert RxRun(s, [fifo[taken]]) == RxRun(RxByte(s, fifo[taken]), [fifo[taken]][1..]);
  }

  lemma TakeFirst(s: Rx, fifo: seq<In>, budget: nat)
    requires fifo != [] && budget > 0
    ensures var t := RxByte(s, fifo[0]);
      var done := |t.log.delivered| - |s.log.delivered|;
      0 <= done <= 1 && PollTake(s, fifo, budget) == 1 + PollTake(t, fifo[1..], budget - done)
  {
    hide RxByte;
    hide RxRun;
    RxByteExtends(s, fifo[0]);
  }
}
