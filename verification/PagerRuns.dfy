// Whole runs of loads and stores through the pager.
module PagerRuns {
  import opened Arithmetic
  import opened Options
  import opened PagerModel
  import opened PagerProofs
  import opened Sequences

  // One access: the state after it and the page it read or wrote; None if the fault stops.
  ghost function Access(m: Mem, op: Op): (r: Option<(Mem, Page)>)
    requires Inv(m) && op.x / SUBPAGES < |m.v|
    ensures r.None? <==> op.x !in m.ptes && m.v[op.x / SUBPAGES].status == InMem
    ensures r.Some? ==> Inv(r.value.0) && |r.value.0.v| == |m.v| && |r.value.0.p| == |m.p|
  {
    TouchOutcome(m, op.x);
    match Touch(m, op.x)
    case Stopped(_) => None
    case Done(m1) =>
      Translation(m1, op.x);
      match op
      case Load(x) => Some((m1, Fetch(m1, x)))
      case Store(x, page) =>
        PutKeeps(m1, x, page);
        Some((Put(m1, x, page), page))
  }

  predicate InRange(m: Mem, ops: seq<Op>) {
    forall op <- ops :: op.x / SUBPAGES < |m.v|
  }

  // The state after a run, which ends early if an access stops, and the pages read and written.
  ghost function Final(m: Mem, ops: seq<Op>): (r: Mem)
    requires Inv(m) && InRange(m, ops)
    ensures Inv(r) && |r.v| == |m.v| && |r.p| == |m.p|
    decreases |ops|
  {
    if ops == [] || Access(m, ops[0]).None? then m
    else Final(Access(m, ops[0]).value.0, ops[1..])
  }

  ghost function Values(m: Mem, ops: seq<Op>): (vs: seq<Page>)
    requires Inv(m) && InRange(m, ops)
    ensures |vs| <= |ops|
    decreases |ops|
  {
    if ops == [] || Access(m, ops[0]).None? then []
    else [Access(m, ops[0]).value.1] + Values(Access(m, ops[0]).value.0, ops[1..])
  }

  // ---- The pager is a flat memory ----

  lemma AccessCell(m: Mem, op: Op, y: nat)
    requires Inv(m) && op.x / SUBPAGES < |m.v| && Access(m, op).Some? && Touched(m, y)
    ensures var r := Access(m, op).value.0;
      Touched(r, y) && Cell(r, y) == if op.Store? && op.x == y then op.page else Cell(m, y)
  {
    InvDescriptors(m);
    hide Inv;
    hide DescriptorsOf;
    hide Cell;
    hide Touch;
    TouchOutcome(m, op.x);
    TouchKeepsCell(m, op.x, y);
    var m1 := Touch(m, op.x).mem;
    Translation(m1, op.x);
    if op.Store? {
      PutCell(m1, op.x, op.page, y);
    }
  }

  lemma AccessValue(m: Mem, op: Op)
    requires Inv(m) && op.x / SUBPAGES < |m.v| && Access(m, op).Some?
    ensures var (r, page) := Access(m, op).value;
      && Touched(r, op.x) && page == Cell(r, op.x)
      && (op.Store? ==> page == op.page)
      && (op.Load? && Touched(m, op.x) ==> page == Cell(m, op.x))
  {
    InvDescriptors(m);
    hide Inv;
    hide DescriptorsOf;
    hide Cell;
    hide Touch;
    TouchOutcome(m, op.x);
    var m1 := Touch(m, op.x).mem;
    Translation(m1, op.x);
    if op.Store? {
      PutCell(m1, op.x, op.page, op.x);
    } else if Touched(m, op.x) {
      TouchKeepsCell(m, op.x, op.x);
    }
  }

  predicate NoStore(ops: seq<Op>, x: nat) {
    forall op <- ops :: op.Store? ==> op.x != x
  }

  lemma {:induction false} LoadReturnsCell(m: Mem, ops: seq<Op>, j: nat)
    requires Inv(m) && InRange(m, ops) && j < |Values(m, ops)|
    requires ops[j].Load? && Touched(m, ops[j].x) && NoStore(ops[..j], ops[j].x)
    ensures Values(m, ops)[j] == Cell(m, ops[j].x)
    decreases j
  {
    hide Inv;
    hide Access;
    hide Cell;
    AccessValue(m, ops[0]);
    if j > 0 {
      var x := ops[j].x;
      assert ops[0] in ops[..j];
      AccessCell(m, ops[0], x);
      SliceOfDrop(ops, 1, 0, j - 1);
      LoadReturnsCell(Access(m, ops[0]).value.0, ops[1..], j - 1);
    }
  }

  // In every run, a load returns what the latest access to the same page read or wrote, if no store
  // to it came between; whatever was evicted and read back meanwhile.
  lemma {:induction false} LoadReturnsLatest(m: Mem, ops: seq<Op>, i: nat, j: nat)
    requires Inv(m) && InRange(m, ops) && i < j < |Values(m, ops)|
    requires ops[j].Load? && ops[i].x == ops[j].x && NoStore(ops[i + 1..j], ops[j].x)
    ensures Values(m, ops)[j] == Values(m, ops)[i]
    ensures ops[i].Store? ==> Values(m, ops)[j] == ops[i].page
    decreases i
  {
    hide Inv;
    hide Access;
    hide Cell;
    var r := Access(m, ops[0]).value.0;
    var rest := ops[1..];
    assert Values(m, ops) == [Access(m, ops[0]).value.1] + Values(r, rest);
    hide Values;
    if i == 0 {
      AccessValue(m, ops[0]);
      SliceOfDrop(ops, 1, 0, j - 1);
      LoadReturnsCell(r, rest, j - 1);
    } else {
      SliceOfDrop(ops, 1, i, j - 1);
      LoadReturnsLatest(r, rest, i - 1, j - 1);
    }
  }

  // ---- Runs that never stop ----

  // All pages of every resident block are mapped.
  ghost predicate Whole(m: Mem) {
    forall x: nat :: Resides(m.v, x) ==> x in m.ptes
  }

  predicate FirstPageFirst(m: Mem, x: nat)
    requires x / SUBPAGES < |m.v|
  {
    m.v[x / SUBPAGES].status == InMem || x % SUBPAGES == 0
  }

  // Each access that needs a fault is to the first page of its block.
  ghost predicate Orderly(m: Mem, ops: seq<Op>)
    requires Inv(m) && InRange(m, ops)
    decreases |ops|
  {
    ops == [] ||
    (FirstPageFirst(m, ops[0].x) &&
     (Access(m, ops[0]).Some? ==> Orderly(Access(m, ops[0]).value.0, ops[1..])))
  }

  lemma EvictKeepsMapped(m: Mem, e: nat, b: nat, y: nat)
    requires Descriptors(m) && Swaps(m, e, b) && y / SUBPAGES != b
    ensures var r := Evict(m, e, b);
      Resides(r.v, y) ==> Resides(m.v, y) && (y in m.ptes ==> y in r.ptes)
  {
    EvictEffect(m, e, b);
  }

  // Filling block b unmaps no page of a block that keeps its frame.
  lemma FillKeepsMapped(m: Mem, b: nat, y: nat)
    requires Descriptors(m) && BooksOf(m) && Fillable(m, b) && y / SUBPAGES != b
    ensures Fill(m, b).Done?
    ensures var r := Fill(m, b).mem;
      Resides(r.v, y) ==> Resides(m.v, y) && (y in m.ptes ==> y in r.ptes)
  {
    if FirstFree(m.p, 0).Some? {
      FillFree(m, b, FirstFree(m.p, 0).value);
    } else {
      VictimExists(m);
      EvictKeepsMapped(m, FirstResident(m.v, 0).value, b, y);
    }
  }

  lemma MapBlockGrows(m: Mem, b: nat, x: nat, y: nat)
    requires HasFrame(m, b) && y in m.ptes && MapBlock(m, b, x).Done?
    ensures y in MapBlock(m, b, x).mem.ptes
  {
    assert y in Remap(m.ptes, b, m.p[m.v[b].phy.value].pfn);
  }

  lemma FaultKeepsMapped(m: Mem, x: nat, y: nat)
    requires Inv(m) && Fillable(m, x / SUBPAGES) && y / SUBPAGES != x / SUBPAGES
    requires Fault(m, x).Done? && Resides(Fault(m, x).mem.v, y)
    ensures Resides(m.v, y) && (y in m.ptes ==> y in Fault(m, x).mem.ptes)
  {
    InvDescriptors(m);
    hide Inv;
    hide DescriptorsOf;
    hide BooksOf;
    hide Fill;
    hide Fault;
    hide MapBlock;
    var b := x / SUBPAGES;
    FaultKeeps(m, x);
    FillKeeps(m, b);
    FillKeepsMapped(m, b, y);
    FaultMaps(m, x);
    if y in m.ptes {
      FilledHasFrame(m, b);
      MapBlockGrows(Fill(m, b).mem, b, x, y);
    }
  }

  lemma FilledHasFrame(m: Mem, b: nat)
    requires Descriptors(m) && BooksOf(m) && Fillable(m, b)
    ensures Fill(m, b).Done? && HasFrame(Fill(m, b).mem, b)
  {
    FillKeeps(m, b);
  }

  lemma FaultKeepsWhole(m: Mem, x: nat)
    requires Inv(m) && Whole(m) && Fillable(m, x / SUBPAGES) && x % SUBPAGES == 0
    ensures Fault(m, x).Done? && Whole(Fault(m, x).mem)
  {
    InvDescriptors(m);
    hide Inv;
    hide DescriptorsOf;
    hide Fault;
    hide Fill;
    FaultKeeps(m, x);
    var r := Fault(m, x).mem;
    forall y: nat | Resides(r.v, y)
      ensures y in r.ptes
    {
      if y / SUBPAGES != x / SUBPAGES {
        FaultKeepsMapped(m, x, y);
      }
    }
  }

  lemma AccessKeepsWhole(m: Mem, op: Op)
    requires Inv(m) && Whole(m) && op.x / SUBPAGES < |m.v| && FirstPageFirst(m, op.x)
    ensures Access(m, op).Some? && Whole(Access(m, op).value.0)
  {
    if m.v[op.x / SUBPAGES].status == InMem {
      assert Resides(m.v, op.x);
      hide Inv;
    } else {
      UnmappedIfAbsent(m, op.x);
      InvDescriptors(m);
      hide Inv;
      hide DescriptorsOf;
      hide Fault;
      FaultKeepsWhole(m, op.x);
    }
  }

  lemma UnmappedIfAbsent(m: Mem, x: nat)
    requires Inv(m) && Fillable(m, x / SUBPAGES)
    ensures x !in m.ptes
  {
  }

  // The entries after mapping block b for a fault on page x.
  lemma MapBlockKeys(m: Mem, b: nat, x: nat)
    requires HasFrame(m, b) && m.v[b].phy.value < |m.p| && MapBlock(m, b, x).Done?
    ensures forall y {:trigger y in MapBlock(m, b, x).mem.ptes} ::
      y in MapBlock(m, b, x).mem.ptes <==> y in m.ptes || InRest(b, y) || y == x
  {
    var pfn := m.p[m.v[b].phy.value].pfn;
    forall y: nat
      ensures y in Rest(b) <==> InRest(b, y)
    {
      InRestIsBlock(b, y);
    }
    var q := Remap(m.ptes, b, pfn);
    assert forall y {:trigger y in q} :: y in q <==> y in m.ptes || y in Rest(b);
  }

  // A miss fills the block and then changes neither descriptors nor counters.
  ghost predicate Filled(f: Mem, r: Mem, op: Op) {
    && r.v == f.v && r.p == f.p && r.totalRead == f.totalRead && r.totalWrite == f.totalWrite
    && forall y {:trigger y in r.ptes} :: y in r.ptes <==> y in f.ptes || InRest(op.x / SUBPAGES, y) || y == op.x
  }

  lemma FaultIsFill(m: Mem, op: Op)
    requires Inv(m) && Fillable(m, op.x / SUBPAGES)
    ensures Fault(m, op.x).Done? && Fill(m, op.x / SUBPAGES).Done?
    ensures Filled(Fill(m, op.x / SUBPAGES).mem, Fault(m, op.x).mem, op)
  {
    InvDescriptors(m);
    hide Inv;
    hide DescriptorsOf;
    hide BooksOf;
    hide Fault;
    hide Fill;
    hide MapBlock;
    FaultKeeps(m, op.x);
    FaultMaps(m, op.x);
    FilledHasFrame(m, op.x / SUBPAGES);
    FillKeeps(m, op.x / SUBPAGES);
    MapBlockKeys(Fill(m, op.x / SUBPAGES).mem, op.x / SUBPAGES, op.x);
  }

  lemma MissIsFill(m: Mem, op: Op)
    requires Inv(m) && Fillable(m, op.x / SUBPAGES)
    ensures Access(m, op).Some? && Fill(m, op.x / SUBPAGES).Done?
    ensures Filled(Fill(m, op.x / SUBPAGES).mem, Access(m, op).value.0, op)
  {
    UnmappedIfAbsent(m, op.x);
    hide Inv;
    hide Fault;
    hide Fill;
    FaultIsFill(m, op);
    TouchOutcome(m, op.x);
    Translation(Fault(m, op.x).mem, op.x);
    hide Cell;
  }

  // Such a run is executed to its end.
  lemma {:induction false} OrderlyRunsComplete(m: Mem, ops: seq<Op>)
    requires Inv(m) && Whole(m) && InRange(m, ops) && Orderly(m, ops)
    ensures |Values(m, ops)| == |ops| && Whole(Final(m, ops))
    decreases |ops|
  {
    hide Inv;
    hide Whole;
    hide Access;
    if ops != [] {
      AccessKeepsWhole(m, ops[0]);
      OrderlyRunsComplete(Access(m, ops[0]).value.0, ops[1..]);
    }
  }

  // ---- What swap traffic conserves ----

  lemma {:induction false} CountsAddUp(v: seq<Vmem>)
    ensures CountV(v, InMem) + CountV(v, InSwap) + CountV(v, NoMap) == |v|
    decreases |v|
  {
    if v != [] {
      CountsAddUp(v[..|v| - 1]);
    }
  }

  lemma BooksAddUp(r: Mem)
    requires BooksOf(r) && |r.p| > 0
    ensures CountV(r.v, InSwap) == r.totalWrite - r.totalRead
    ensures CountV(r.v, InMem) == Min(|r.p|, |r.v| - CountV(r.v, NoMap))
    ensures CountV(r.v, InSwap) > 0 ==> FirstFree(r.p, 0) == None
  {
    CountsAddUp(r.v);
    CountVZero(r.v, InSwap);
    CountPZero(r.p, Free);
  }

  lemma InvAddsUp(r: Mem)
    requires Inv(r)
    ensures CountV(r.v, InSwap) == r.totalWrite - r.totalRead
    ensures CountV(r.v, InMem) == Min(|r.p|, |r.v| - CountV(r.v, NoMap))
    ensures CountV(r.v, InSwap) > 0 ==> FirstFree(r.p, 0) == None
  {
    hide CountV;
    hide FirstFree;
    InvDescriptors(r);
    hide Inv;
    hide DescriptorsOf;
    hide BooksOf;
    BooksAddUp(r);
  }

  // In every state of every run: the blocks in swap are those written less those read back, the
  // resident blocks are as many as frames allow, and a page-in never finds a free frame.
  lemma SwapConservation(m: Mem, ops: seq<Op>)
    requires Inv(m) && InRange(m, ops)
    ensures var r := Final(m, ops);
      && CountV(r.v, InSwap) == r.totalWrite - r.totalRead
      && CountV(r.v, InMem) == Min(|r.p|, |r.v| - CountV(r.v, NoMap))
      && (CountV(r.v, InSwap) > 0 ==> FirstFree(r.p, 0) == None)
  {
    hide *;
    InvAddsUp(Final(m, ops));
  }

  lemma FillTouches(m: Mem, c: nat, b: nat)
    requires Descriptors(m) && BooksOf(m) && Fillable(m, c) && b < |m.v|
    ensures Fill(m, c).Done? && |Fill(m, c).mem.v| == |m.v|
    ensures Fill(m, c).mem.v[b].status == NoMap <==> m.v[b].status == NoMap && b != c
  {
    if FirstFree(m.p, 0).Some? {
      FillFree(m, c, FirstFree(m.p, 0).value);
    } else {
      VictimExists(m);
      EvictEffect(m, FirstResident(m.v, 0).value, c);
    }
  }

  lemma AccessTouches(m: Mem, op: Op, b: nat)
    requires Inv(m) && op.x / SUBPAGES < |m.v| && Access(m, op).Some? && b < |m.v|
    ensures var r := Access(m, op).value.0;
      r.v[b].status == NoMap <==> m.v[b].status == NoMap && b != op.x / SUBPAGES
  {
    InvDescriptors(m);
    if op.x in m.ptes {
      PteIsAddress(m, op.x);
      hide Inv;
      hide DescriptorsOf;
    } else {
      hide Inv;
      hide DescriptorsOf;
      hide BooksOf;
      hide Fault;
      hide Fill;
      FaultKeeps(m, op.x);
      FillTouches(m, op.x / SUBPAGES, b);
    }
  }

  // The blocks that are not NoMap are exactly those accessed.
  lemma {:induction false} MappedAreAccessed(m: Mem, ops: seq<Op>, b: nat)
    requires Inv(m) && InRange(m, ops) && |Values(m, ops)| == |ops| && b < |m.v|
    ensures Final(m, ops).v[b].status == NoMap <==>
            m.v[b].status == NoMap && forall op <- ops :: op.x / SUBPAGES != b
    decreases |ops|
  {
    hide Inv;
    hide Access;
    if ops != [] {
      AccessTouches(m, ops[0], b);
      MappedAreAccessed(Access(m, ops[0]).value.0, ops[1..], b);
      assert ops == [ops[0]] + ops[1..];
    }
  }

  // ---- What holds in every state of every run ----

  // A block has a frame exactly when it is resident, no two blocks have the same one, and a frame
  // is in use exactly when a block has it.
  lemma DescriptorBijection(m: Mem, ops: seq<Op>)
    requires Inv(m) && InRange(m, ops)
    ensures var r := Final(m, ops);
      && (forall i :: 0 <= i < |r.v| ==> (r.v[i].status == InMem <==> r.v[i].phy.Some?))
      && (forall i, j :: 0 <= i < j < |r.v| && r.v[i].phy.Some? ==> r.v[i].phy != r.v[j].phy)
      && (forall f :: 0 <= f < |r.p| ==> (r.p[f].status == InUse <==> Owned(r.v, f)))
  {
    var r := Final(m, ops);
    hide Final;
    BijectionOf(r);
  }

  lemma BijectionOf(r: Mem)
    requires Inv(r)
    ensures forall i :: 0 <= i < |r.v| ==> (r.v[i].status == InMem <==> r.v[i].phy.Some?)
    ensures forall i, j :: 0 <= i < j < |r.v| && r.v[i].phy.Some? ==> r.v[i].phy != r.v[j].phy
    ensures forall f :: 0 <= f < |r.p| ==> (r.p[f].status == InUse <==> Owned(r.v, f))
  {
    hide Tables;
    hide Books;
    forall f | 0 <= f < |r.p| && Owned(r.v, f)
      ensures r.p[f].status == InUse
    {
      var i: nat :| Owns(r.v, f, i);
      assert r.v[i].phy.Some?;
    }
  }

  // Every present entry belongs to a resident block and leads to the same subpage of its frame,
  // inside the reserved range; and no two entries lead to the same page.
  lemma PageTableAgreement(m: Mem, ops: seq<Op>, x: nat)
    requires Inv(m) && InRange(m, ops) && x in Final(m, ops).ptes
    ensures var r := Final(m, ops);
      var b := x / SUBPAGES;
      && b < |r.v| && r.v[b].status == InMem && r.v[b].phy.Some? && r.v[b].phy.value < |r.p|
      && r.ptes[x] == r.p[r.v[b].phy.value].pfn + x % SUBPAGES
      && BASE_PFN <= r.ptes[x] < BASE_PFN + |r.p| * SUBPAGES
      && forall y :: y in r.ptes && y != x ==> r.ptes[y] != r.ptes[x]
  {
    var r := Final(m, ops);
    hide Final;
    PteIsAddress(r, x);
    Translation(r, x);
    InvDescriptors(r);
    hide Inv;
  }

  // No BUG() is reached after any run: an access ends, or faults on the first page of a resident
  // block, whose other pages are mapped.
  lemma NoBugIsReached(m: Mem, ops: seq<Op>, x: nat)
    requires Inv(m) && InRange(m, ops) && x / SUBPAGES < |m.v|
    ensures var r := Final(m, ops);
      Touch(r, x).Done? || (Touch(r, x).why == RemapBusy && x % SUBPAGES == 0 && r.v[x / SUBPAGES].status == InMem)
  {
    var r := Final(m, ops);
    hide Final;
    TouchOutcome(r, x);
    hide Inv;
    hide Touch;
  }
}
