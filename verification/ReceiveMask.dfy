// The receive bits of the interrupt mask, which four places write back after reading it, under no
// common lock: start_xmit and the task without changing them, the handler to clear them and the end
// of the poll to set them. What else start_xmit and the task do does not concern these bits, so they
// may come to the mask at any time.
module ReceiveMask {
  import opened Options

  // Whether the poll is scheduled, and whether it has been asked for once more while it was.
  datatype Napi = NIdle | NScheduled | NMissed

  // Where the receive half of the handler is.
  datatype HandlerPc =
    | HOut
    | HStatus    // it has seen a receive interrupt: disable it
    | HDisabled  // schedule the poll

  datatype Mask = Mask(
    rxim: bool,
    napi: Napi,
    polling: bool,           // the poll function is in its loop
    enabling: nat,           // polls that are complete and have not yet enabled the interrupt
    handler: HandlerPc,
    xmit: Option<bool>,      // start_xmit has read the mask with this receive bit, and not written it
    task: Option<bool>,      // so has the task
    overlapped: bool)        // the interrupt was once enabled while one of them had read the bit clear

  // The mask after uartnet_open.
  const OPENED := Mask(true, NIdle, false, 0, HOut, None, None, false)

  datatype Step =
    | Interrupt         // the status shows a receive interrupt
    | HandlerStep
    | PollStart
    | PollEnd(again: bool)
    | Enable
    | Xmit
    | Task

  function HandlerNext(m: Mask): Mask {
    match m.handler
    case HOut => m
    case HStatus => m.(handler := HDisabled, rxim := false)
    case HDisabled => m.(handler := HOut, napi := if m.napi == NIdle then NScheduled else NMissed)
  }

  // With budget left the poll is complete, unless it has been asked for once more.
  function PollEnds(m: Mask, again: bool): Mask {
    if !m.polling then m
    else if again then m.(polling := false)
    else m.(polling := false, napi := if m.napi == NMissed then NScheduled else NIdle, enabling := m.enabling + 1)
  }

  // A write under way that will clear the receive bit.
  predicate Clearing(m: Mask) {
    m.xmit == Some(false) || m.task == Some(false)
  }

  function Do(m: Mask, s: Step): Mask {
    match s
    case Interrupt => if m.handler == HOut && m.rxim then m.(handler := HStatus) else m
    case HandlerStep => HandlerNext(m)
    case PollStart => if m.napi != NIdle && !m.polling then m.(polling := true) else m
    case PollEnd(again) => PollEnds(m, again)
    case Enable =>
      if m.enabling == 0 then m
      else m.(rxim := true, enabling := m.enabling - 1, overlapped := m.overlapped || Clearing(m))
    case Xmit => if m.xmit == None then m.(xmit := Some(m.rxim)) else m.(xmit := None, rxim := m.xmit.value)
    case Task => if m.task == None then m.(task := Some(m.rxim)) else m.(task := None, rxim := m.task.value)
  }

  function Run(m: Mask, steps: seq<Step>): Mask
    decreases |steps|
  {
    if steps == [] then m else Run(Do(m, steps[0]), steps[1..])
  }

  // The receive side has something to do: a poll or the handler is at work or scheduled.
  predicate Busy(m: Mask) {
    m.napi != NIdle || m.polling || m.enabling > 0 || m.handler != HOut
  }

  // The interrupt is disabled, nothing is scheduled, and no write under way enables it.
  predicate Deaf(m: Mask) {
    !m.rxim && !Busy(m) && m.xmit != Some(true) && m.task != Some(true)
  }

  lemma {:induction false} DeafForEver(m: Mask, steps: seq<Step>)
    requires Deaf(m)
    ensures Deaf(Run(m, steps))
    decreases |steps|
  {
    if steps != [] {
      DeafForEver(Do(m, steps[0]), steps[1..]);
    }
  }

  // ---- Whole runs ----

  // Unless there has been an overlap, an idle receive side has its interrupt enabled, and nobody
  // is about to disable it.
  predicate MaskInv(m: Mask) {
    && (m.polling ==> m.napi != NIdle)
    && (!m.overlapped && !Busy(m) ==> m.rxim && !Clearing(m))
  }

  lemma DoKeepsInv(m: Mask, s: Step)
    requires MaskInv(m)
    ensures MaskInv(Do(m, s))
  {
  }

  lemma {:induction false} RunKeepsInv(m: Mask, steps: seq<Step>)
    requires MaskInv(m)
    ensures MaskInv(Run(m, steps))
    decreases |steps|
  {
    if steps != [] {
      DoKeepsInv(m, steps[0]);
      RunKeepsInv(Do(m, steps[0]), steps[1..]);
    }
  }

  // In every run without an overlap a received byte is never left waiting: the interrupt is enabled,
  // or the handler or a poll is at work or scheduled.
  lemma HearsUnlessOverlapped(steps: seq<Step>)
    requires !Run(OPENED, steps).overlapped
    ensures var m := Run(OPENED, steps);
      m.rxim || Busy(m)
  {
    RunKeepsInv(OPENED, steps);
  }

  // ---- The receive side alone ----

  predicate NoTransmit(steps: seq<Step>) {
    forall s <- steps :: !s.Xmit? && !s.Task?
  }

  // One thing at a time: the interrupt is enabled, or the handler has taken it, or one poll is
  // scheduled, or one is about to enable the interrupt.
  predicate OneAtATime(m: Mask) {
    && m.xmit == None && m.task == None && (m.polling ==> m.napi == NScheduled) && m.napi != NMissed
    && (m.rxim ==> m.napi == NIdle && m.enabling == 0 && m.handler != HDisabled)
    && (m.napi != NIdle ==> m.enabling == 0 && m.handler == HOut)
    && m.enabling <= 1 && (m.enabling == 1 ==> m.handler == HOut)
    && (m.handler == HStatus ==> m.rxim) && (m.rxim || Busy(m))
  }

  // While start_xmit and the task leave the mask alone, the interrupt is never enabled while a poll is
  // scheduled or at work, so the handler never asks for one that is, and nothing is ever left waiting.
  lemma {:induction false} AloneOneAtATime(m: Mask, steps: seq<Step>)
    requires OneAtATime(m) && NoTransmit(steps)
    ensures OneAtATime(Run(m, steps))
    decreases |steps|
  {
    if steps != [] {
      AloneOneAtATime(Do(m, steps[0]), steps[1..]);
    }
  }

  // A poll that is asked for once more while it is at work is scheduled again when it is complete, and
  // one that has used up its budget stays scheduled and leaves the mask as it is.
  lemma AskedAgain(m: Mask)
    requires m.polling && m.napi != NIdle && m.handler == HDisabled
    ensures Run(m, [HandlerStep, PollEnd(false)]).napi == NScheduled
    ensures var r := Run(m, [PollEnd(true)]);
      r.napi == m.napi && !r.polling && r.rxim == m.rxim && r.enabling == m.enabling
  {
    RunTwo(m, HandlerStep, PollEnd(false));
    RunOne(m, PollEnd(true));
  }

  // ---- The guard at the enabling write ----

  // The last poll is about to enable the interrupt, and there is nothing else to do.
  predicate LastEnable(m: Mask) {
    m.enabling == 1 && m.napi == NIdle && !m.polling && m.handler == HOut
  }

  // No interrupt is taken.
  predicate NoInterrupt(steps: seq<Step>) {
    forall s <- steps :: !s.Interrupt?
  }

  // The receive side is idle with its interrupt enabled, and stays so until one is taken.
  predicate Hearing(m: Mask) {
    m.rxim && !Busy(m) && !Clearing(m)
  }

  lemma {:induction false} HearingStays(m: Mask, steps: seq<Step>)
    requires Hearing(m) && NoInterrupt(steps)
    ensures Hearing(Run(m, steps))
    decreases |steps|
  {
    if steps != [] {
      HearingStays(Do(m, steps[0]), steps[1..]);
    }
  }

  lemma RunOne(m: Mask, s: Step)
    ensures Run(m, [s]) == Do(m, s)
  {
    assert [s][1..] == [];
  }

  lemma RunTwo(m: Mask, s: Step, t: Step)
    ensures Run(m, [s, t]) == Do(Do(m, s), t)
  {
    assert [s, t][1..] == [t];
    RunOne(Do(m, s), t);
  }

  // The writes that leave the bit set first, and then those that clear it.
  lemma Deafens(m: Mask) returns (steps: seq<Step>)
    requires !Busy(m) && Clearing(m)
    ensures NoInterrupt(steps) && Deaf(Run(m, steps))
  {
    if m.xmit == Some(true) {
      steps := [Xmit, Task];
      RunTwo(m, Xmit, Task);
    } else if m.task == Some(true) {
      steps := [Task, Xmit];
      RunTwo(m, Task, Xmit);
    } else if m.xmit == Some(false) {
      steps := [Xmit];
      RunOne(m, Xmit);
    } else {
      steps := [Task];
      RunOne(m, Task);
    }
  }

  // When the last poll enables the interrupt, the receiver can go deaf before it takes another one if
  // and only if start_xmit or the task has then read the mask with the bit clear and not written it.
  lemma DeafPossibleExactly(m: Mask)
    requires LastEnable(m)
    ensures (exists steps :: NoInterrupt(steps) && Deaf(Run(Do(m, Enable), steps))) <==> Clearing(m)
  {
    var e := Do(m, Enable);
    if Clearing(m) {
      var steps := Deafens(e);
    } else {
      forall steps | NoInterrupt(steps)
        ensures !Deaf(Run(e, steps))
      {
        HearingStays(e, steps);
      }
    }
  }

  // A run that leads there: the task reads the mask while the poll is at work.
  lemma DeafIsReachable() returns (steps: seq<Step>)
    ensures Deaf(Run(OPENED, steps))
  {
    steps := [Interrupt, HandlerStep, HandlerStep, PollStart, Task, PollEnd(false), Enable, Task];
    var m1 := Do(OPENED, Interrupt);
    var m3 := Do(Do(m1, HandlerStep), HandlerStep);
    var m5 := Do(Do(m3, PollStart), Task);
    var m7 := Do(Do(m5, PollEnd(false)), Enable);
    assert Deaf(Do(m7, Task));
    assert steps[1..][1..][1..][1..][1..][1..][1..] == [Task];
    RunOne(m7, Task);
    hide Do;
    assert Run(m7, steps[1..][1..][1..][1..][1..][1..][1..]) == Do(m7, Task);
    assert Run(m5, steps[1..][1..][1..][1..][1..]) == Do(m7, Task);
    assert Run(m3, steps[1..][1..][1..]) == Do(m7, Task);
    assert Run(m1, steps[1..]) == Do(m7, Task);
  }
}
