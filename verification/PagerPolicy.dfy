// Which blocks are resident, and which accesses stop, without the rest of the pager: a small
// automaton on the numbers of the pages accessed, which the pager refines.
module PagerPolicy {
  import opened Options
  import opened PagerModel
  import opened PagerProofs
  import opened PagerRuns

  // A block that is not resident; one filled by an access to its first page; one filled by an
  // access to another page, whose first page is then not mapped.
  datatype Slot = Out | Whole | Headless

  function Resident(s: seq<Slot>): nat {
    if s == [] then 0 else Resident(s[..|s| - 1]) + (if s[|s| - 1] == Out then 0 else 1)
  }

  function LowestResident(s: seq<Slot>, from: nat): (r: Option<nat>)
    requires from <= |s|
    ensures r.Some? ==> r.value < |s|
    decreases |s| - from
  {
    if from == |s| then None
    else if s[from] != Out then Some(from)
    else LowestResident(s, from + 1)
  }

  // Make room for a block when frames many are resident.
  function MakeRoom(s: seq<Slot>, frames: nat): (t: seq<Slot>)
    ensures |t| == |s|
  {
    if Resident(s) < frames then s
    else match LowestResident(s, 0)
      case None => s
      case Some(e) => s[e := Out]
  }

  // An access to page x; None when it stops.
  function Visit(s: seq<Slot>, frames: nat, x: nat): (r: Option<seq<Slot>>)
    requires x / SUBPAGES < |s|
    ensures r.Some? ==> |r.value| == |s|
  {
    var b := x / SUBPAGES;
    match s[b]
    case Out => Some(MakeRoom(s, frames)[b := if x % SUBPAGES == 0 then Slot.Whole else Headless])
    case Whole => Some(s)
    case Headless => if x % SUBPAGES == 0 then None else Some(s)
  }

  // No access of the run is to the first page of a resident block that was last filled by an
  // access to another of its pages.
  predicate NeverHeadless(s: seq<Slot>, frames: nat, ops: seq<Op>)
    requires forall op <- ops :: op.x / SUBPAGES < |s|
    decreases |ops|
  {
    ops == [] ||
    (Visit(s, frames, ops[0].x).Some? && NeverHeadless(Visit(s, frames, ops[0].x).value, frames, ops[1..]))
  }

  // ---- The pager refines it ----

  function SlotOf(m: Mem, b: nat): Slot
    requires b < |m.v|
  {
    if m.v[b].status != InMem then Out
    else if b * SUBPAGES in m.ptes then Slot.Whole
    else Headless
  }

  function View(m: Mem): seq<Slot> {
    seq(|m.v|, b requires 0 <= b < |m.v| => SlotOf(m, b))
  }

  lemma {:induction false} ResidentCounts(v: seq<Vmem>, s: seq<Slot>)
    requires |s| == |v| && forall b :: 0 <= b < |v| ==> (s[b] == Out <==> v[b].status != InMem)
    ensures Resident(s) == CountV(v, InMem)
    decreases |v|
  {
    if v != [] {
      ResidentCounts(v[..|v| - 1], s[..|s| - 1]);
    }
  }

  lemma {:induction false} SameLowest(v: seq<Vmem>, s: seq<Slot>, from: nat)
    requires |s| == |v| && forall b :: 0 <= b < |v| ==> (s[b] == Out <==> v[b].status != InMem)
    requires from <= |v|
    ensures LowestResident(s, from) == FirstResident(v, from)
    decreases |v| - from
  {
    if from < |v| && s[from] == Out {
      SameLowest(v, s, from + 1);
    }
  }

  // A frame is free exactly when fewer blocks are resident than there are frames.
  lemma RoomIsFree(m: Mem)
    requires BooksOf(m)
    ensures FirstFree(m.p, 0) == None <==> Resident(View(m)) >= |m.p|
    ensures LowestResident(View(m), 0) == FirstResident(m.v, 0)
  {
    ResidentCounts(m.v, View(m));
    SameLowest(m.v, View(m), 0);
    CountPZero(m.p, Free);
  }

  lemma HeadOfBlock(b: nat)
    ensures b * SUBPAGES / SUBPAGES == b && b * SUBPAGES % SUBPAGES == 0 && !InRest(b, b * SUBPAGES)
  {
  }

  lemma HeadOf(x: nat)
    ensures x % SUBPAGES == 0 <==> x == x / SUBPAGES * SUBPAGES
  {
  }

  lemma ResidentStops(m: Mem, op: Op)
    requires Inv(m) && op.x / SUBPAGES < |m.v| && m.v[op.x / SUBPAGES].status == InMem
    ensures op.x !in m.ptes <==> op.x % SUBPAGES == 0 && SlotOf(m, op.x / SUBPAGES) == Headless
  {
    HeadOf(op.x);
    assert Resides(m.v, op.x);
  }

  lemma HitKeepsView(m: Mem, op: Op)
    requires Inv(m) && op.x / SUBPAGES < |m.v| && op.x in m.ptes
    ensures Access(m, op).Some? && View(Access(m, op).value.0) == View(m)
  {
    hide Inv;
    var r := Access(m, op).value.0;
    assert r.v == m.v && r.ptes == m.ptes;
    hide Access;
  }

  lemma HitRefines(m: Mem, op: Op)
    requires Inv(m) && op.x / SUBPAGES < |m.v| && m.v[op.x / SUBPAGES].status == InMem
    ensures Visit(View(m), |m.p|, op.x) ==
            (if Access(m, op).None? then None else Some(View(Access(m, op).value.0)))
  {
    ResidentStops(m, op);
    hide Inv;
    hide Access;
    if op.x in m.ptes {
      HitKeepsView(m, op);
    }
  }

  lemma FillFreeView(m: Mem, b: nat, f: nat)
    requires Descriptors(m) && BooksOf(m) && Fillable(m, b) && FirstFree(m.p, 0) == Some(f)
    ensures Fill(m, b).Done? && |Fill(m, b).mem.v| == |m.v|
    ensures forall c :: 0 <= c < |m.v| && c != b ==> SlotOf(Fill(m, b).mem, c) == SlotOf(m, c)
    ensures Fill(m, b).mem.v[b].status == InMem
  {
    FillFree(m, b, f);
  }

  lemma FillVictimView(m: Mem, b: nat)
    requires Descriptors(m) && BooksOf(m) && Fillable(m, b) && FirstFree(m.p, 0) == None
    ensures Fill(m, b).Done? && |Fill(m, b).mem.v| == |m.v| && FirstResident(m.v, 0).Some?
    ensures var e := FirstResident(m.v, 0).value;
      forall c :: 0 <= c < |m.v| && c != b ==> SlotOf(Fill(m, b).mem, c) == if c == e then Out else SlotOf(m, c)
    ensures Fill(m, b).mem.v[b].status == InMem
  {
    VictimExists(m);
    var e := FirstResident(m.v, 0).value;
    EvictEffect(m, e, b);
    hide DescriptorsOf;
    hide BooksOf;
    forall c | 0 <= c < |m.v| && c != b && c != e
      ensures SlotOf(Evict(m, e, b), c) == SlotOf(m, c)
    {
      HeadOfBlock(c);
    }
  }

  lemma FillView(m: Mem, b: nat)
    requires Descriptors(m) && BooksOf(m) && Fillable(m, b)
    ensures Fill(m, b).Done? && |Fill(m, b).mem.v| == |m.v|
    ensures forall c :: 0 <= c < |m.v| && c != b ==> SlotOf(Fill(m, b).mem, c) == MakeRoom(View(m), |m.p|)[c]
    ensures Fill(m, b).mem.v[b].status == InMem
  {
    hide Fill;
    hide DescriptorsOf;
    hide BooksOf;
    RoomIsFree(m);
    if FirstFree(m.p, 0).Some? {
      FillFreeView(m, b, FirstFree(m.p, 0).value);
    } else {
      FillVictimView(m, b);
    }
  }

  // The entries of block b after the fault on page x; those of other blocks stay.
  lemma FilledView(f: Mem, r: Mem, op: Op, c: nat)
    requires Filled(f, r, op) && c < |f.v|
    ensures c != op.x / SUBPAGES ==> SlotOf(r, c) == SlotOf(f, c)
    ensures c == op.x / SUBPAGES && f.v[c].status == InMem && (forall y :: y in f.ptes ==> y / SUBPAGES != c) ==>
      SlotOf(r, c) == if op.x % SUBPAGES == 0 then Slot.Whole else Headless
  {
    HeadOfBlock(c);
    HeadOf(op.x);
    InRestIsBlock(op.x / SUBPAGES, c * SUBPAGES);
  }

  lemma NoEntries(m: Mem, b: nat)
    requires Inv(m) && Fillable(m, b)
    ensures Fill(m, b).Done? && forall y :: y in Fill(m, b).mem.ptes ==> y / SUBPAGES != b
  {
    InvDescriptors(m);
    hide DescriptorsOf;
    hide BooksOf;
    hide Fill;
    FillTables(m, b);
  }

  lemma ViewOfFilled(s: seq<Slot>, f: Mem, r: Mem, op: Op)
    requires Filled(f, r, op) && |s| == |f.v| && op.x / SUBPAGES < |f.v|
    requires forall c :: 0 <= c < |f.v| && c != op.x / SUBPAGES ==> SlotOf(f, c) == s[c]
    requires f.v[op.x / SUBPAGES].status == InMem && forall y :: y in f.ptes ==> y / SUBPAGES != op.x / SUBPAGES
    ensures View(r) == s[op.x / SUBPAGES := if op.x % SUBPAGES == 0 then Slot.Whole else Headless]
  {
    var after := s[op.x / SUBPAGES := if op.x % SUBPAGES == 0 then Slot.Whole else Headless];
    assert |r.v| == |s|;
    forall c | 0 <= c < |s|
      ensures SlotOf(r, c) == after[c]
    {
      FilledView(f, r, op, c);
    }
  }

  lemma MissRefines(m: Mem, op: Op)
    requires Inv(m) && op.x / SUBPAGES < |m.v| && m.v[op.x / SUBPAGES].status != InMem
    ensures Access(m, op).Some? && Visit(View(m), |m.p|, op.x) == Some(View(Access(m, op).value.0))
  {
    hide Inv;
    hide DescriptorsOf;
    hide BooksOf;
    hide Fill;
    hide Access;
    hide MakeRoom;
    hide Filled;
    var b := op.x / SUBPAGES;
    InvDescriptors(m);
    MissIsFill(m, op);
    NoEntries(m, b);
    FillView(m, b);
    assert View(m)[b] == Out;
    var s := MakeRoom(View(m), |m.p|);
    hide SlotOf;
    ViewOfFilled(s, Fill(m, b).mem, Access(m, op).value.0, op);
  }

  // One access of the pager is one step of the automaton, and stops when it does.
  lemma AccessRefines(m: Mem, op: Op)
    requires Inv(m) && op.x / SUBPAGES < |m.v|
    ensures Visit(View(m), |m.p|, op.x) ==
            (if Access(m, op).None? then None else Some(View(Access(m, op).value.0)))
  {
    hide Inv;
    hide Access;
    hide View;
    hide Visit;
    if m.v[op.x / SUBPAGES].status == InMem {
      HitRefines(m, op);
    } else {
      MissRefines(m, op);
    }
  }

  // A run is carried out to its end if and only if none of its accesses is to the first page of a
  // resident block that was last filled through another page.
  lemma {:induction false} RunCompletesExactly(m: Mem, ops: seq<Op>)
    requires Inv(m) && InRange(m, ops)
    ensures |Values(m, ops)| == |ops| <==> NeverHeadless(View(m), |m.p|, ops)
    decreases |ops|
  {
    hide Inv;
    hide Access;
    hide SlotOf;
    hide Visit;
    if ops != [] {
      AccessRefines(m, ops[0]);
      if Access(m, ops[0]).Some? {
        RunCompletesExactly(Access(m, ops[0]).value.0, ops[1..]);
      }
    }
  }

  lemma ResetView(m: Mem)
    requires Unmapped(m)
    ensures Inv(Reset(m)) && View(Reset(m)) == seq(|m.v|, _ => Out)
  {
    ResetInv(m);
  }

  lemma {:induction false} AllOut(n: nat)
    ensures Resident(seq(n, _ => Out)) == 0
  {
    if n > 0 {
      assert seq(n, _ => Out)[..n - 1] == seq(n - 1, _ => Out);
      AllOut(n - 1);
    }
  }

  // Such a stop is reached from a reset by two accesses to block 0: page 1, then page 0. The remap
  // then finds most of the block mapped already.
  lemma RemapBusyIsReached(m: Mem)
    requires Unmapped(m) && |m.v| > 0
    ensures var ops := [Load(1), Load(0)];
      && Inv(Reset(m)) && InRange(Reset(m), ops) && |Values(Reset(m), ops)| == 1
    ensures var r := Final(Reset(m), [Load(1)]);
      Touch(r, 0) == Stopped(RemapBusy)
  {
    hide Inv;
    hide Access;
    hide View;
    var z := Reset(m);
    ResetView(m);
    AllOut(|m.v|);
    assert |z.p| == |m.p| && |z.v| == |m.v|;
    hide Reset;
    AccessRefines(z, Load(1));
    var r := Access(z, Load(1)).value.0;
    assert View(r)[0] == Headless;
    AccessRefines(r, Load(0));
    assert [Load(1), Load(0)][1..] == [Load(0)] && [Load(1)][1..] == [];
    assert Final(z, [Load(1)]) == r;
    TouchOutcome(r, 0);
  }
}
