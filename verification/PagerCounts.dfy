// The per-frame counts of blocks written and read add up to the two totals of the adapter.
module PagerCounts {
  import opened Options
  import opened PagerModel
  import opened PagerProofs
  import opened PagerRuns
  import opened SwapTraffic

  function SumWrites(p: seq<Phys>): nat {
    if p == [] then 0 else SumWrites(p[..|p| - 1]) + p[|p| - 1].writeCnt
  }

  function SumReads(p: seq<Phys>): nat {
    if p == [] then 0 else SumReads(p[..|p| - 1]) + p[|p| - 1].readCnt
  }

  lemma {:induction false} SumUpdate(p: seq<Phys>, f: nat, d: Phys)
    requires f < |p|
    ensures SumWrites(p[f := d]) == SumWrites(p) + d.writeCnt - p[f].writeCnt
    ensures SumReads(p[f := d]) == SumReads(p) + d.readCnt - p[f].readCnt
    decreases |p|
  {
    var n := |p| - 1;
    if f < n {
      assert p[f := d][..n] == p[..n][f := d];
      SumUpdate(p[..n], f, d);
    } else {
      assert p[f := d][..n] == p[..n];
    }
  }

  // The totals differ from the sums of the frames' counts by the same amounts.
  predicate SameBalance(m: Mem, r: Mem) {
    && r.totalWrite - SumWrites(r.p) == m.totalWrite - SumWrites(m.p)
    && r.totalRead - SumReads(r.p) == m.totalRead - SumReads(m.p)
  }

  lemma WriteBalances(m: Mem, e: nat)
    requires HasFrame(m, e)
    ensures SameBalance(m, WritePages(m, e))
  {
    var f := m.v[e].phy.value;
    SumUpdate(m.p, f, m.p[f].(writeCnt := m.p[f].writeCnt + 1));
  }

  lemma ReadBalances(m: Mem, b: nat)
    requires HasFrame(m, b)
    ensures SameBalance(m, ReadPages(m, b))
  {
    var f := m.v[b].phy.value;
    SumUpdate(m.p, f, m.p[f].(readCnt := m.p[f].readCnt + 1));
  }

  lemma EvictBalances(m: Mem, e: nat, b: nat)
    requires HasFrame(m, e) && b < |m.v| && e != b
    ensures SameBalance(m, Evict(m, e, b))
  {
    var m1 := WritePages(m, e);
    WriteBalances(m, e);
    var m3 := m1.(ptes := Zap(m1.ptes, e), v := m1.v[b := m1.v[b].(phy := m1.v[e].phy)][e := m1.v[e].(phy := None)]);
    hide SumWrites;
    hide SumReads;
    hide CopyBlock;
    if m3.v[b].status == InSwap {
      ReadBalances(m3, b);
    }
  }

  lemma FillBalances(m: Mem, b: nat)
    requires Descriptors(m) && BooksOf(m) && Fillable(m, b)
    ensures Fill(m, b).Done? && SameBalance(m, Fill(m, b).mem)
  {
    if FirstFree(m.p, 0).Some? {
      var f := FirstFree(m.p, 0).value;
      FillFree(m, b, f);
      SumUpdate(m.p, f, m.p[f].(status := InUse));
    } else {
      VictimExists(m);
      EvictBalances(m, FirstResident(m.v, 0).value, b);
    }
  }

  lemma SameCounts(m: Mem, a: Mem, b: Mem)
    requires SameBalance(m, a) && b.p == a.p && b.totalWrite == a.totalWrite && b.totalRead == a.totalRead
    ensures SameBalance(m, b)
  {
  }

  lemma FaultBalances(m: Mem, x: nat)
    requires Inv(m) && Fillable(m, x / SUBPAGES)
    ensures Fault(m, x).Done? && SameBalance(m, Fault(m, x).mem)
  {
    InvDescriptors(m);
    hide Inv;
    hide DescriptorsOf;
    hide BooksOf;
    hide Fault;
    hide Fill;
    hide SameBalance;
    FaultKeeps(m, x);
    FillBalances(m, x / SUBPAGES);
    SameCounts(m, Fill(m, x / SUBPAGES).mem, Fault(m, x).mem);
  }

  lemma TouchBalances(m: Mem, x: nat)
    requires Inv(m) && x / SUBPAGES < |m.v| && Touch(m, x).Done?
    ensures SameBalance(m, Touch(m, x).mem)
  {
    if x !in m.ptes {
      TouchOutcome(m, x);
      hide Inv;
      hide Fault;
      hide SameBalance;
      FaultBalances(m, x);
    }
  }

  lemma AccessBalances(m: Mem, op: Op)
    requires Inv(m) && op.x / SUBPAGES < |m.v| && Access(m, op).Some?
    ensures SameBalance(m, Access(m, op).value.0)
  {
    InvDescriptors(m);
    hide Inv;
    hide DescriptorsOf;
    hide BooksOf;
    hide Touch;
    hide SameBalance;
    TouchOutcome(m, op.x);
    TouchBalances(m, op.x);
    var m1 := Touch(m, op.x).mem;
    Translation(m1, op.x);
    hide Cell;
    SameCounts(m, m1, Access(m, op).value.0);
  }

  // Over every run, the totals grow by as much as the counts of all the frames together.
  lemma {:induction false} RunBalances(m: Mem, ops: seq<Op>)
    requires Inv(m) && InRange(m, ops)
    ensures SameBalance(m, Final(m, ops))
    decreases |ops|
  {
    hide Inv;
    hide Access;
    hide SumWrites;
    hide SumReads;
    if ops != [] && Access(m, ops[0]).Some? {
      AccessBalances(m, ops[0]);
      RunBalances(Access(m, ops[0]).value.0, ops[1..]);
    }
  }

  lemma {:induction false} SumSame(p: seq<Phys>, q: seq<Phys>)
    requires |p| == |q|
    requires forall f :: 0 <= f < |p| ==> p[f].writeCnt == q[f].writeCnt && p[f].readCnt == q[f].readCnt
    ensures SumWrites(p) == SumWrites(q) && SumReads(p) == SumReads(q)
    decreases |p|
  {
    if p != [] {
      SumSame(p[..|p| - 1], q[..|q| - 1]);
    }
  }

  lemma ResetSums(m: Mem)
    requires |m.p| > 0
    ensures var r := Reset(m);
      && SumWrites(r.p) == SumWrites(m.p) - m.p[0].writeCnt
      && SumReads(r.p) == SumReads(m.p) - m.p[0].readCnt
      && r.totalWrite == 0 && r.totalRead == 0
  {
    var d := m.p[0].(writeCnt := 0, readCnt := 0);
    SumUpdate(m.p, 0, d);
    SumSame(Reset(m).p, m.p[0 := d]);
  }

  // Since a reset clears the counts of frame 0 only, after it and any run the totals are the sums
  // of the frames' counts if and only if the other frames had not counted anything before.
  lemma TotalsAreSums(m: Mem, ops: seq<Op>)
    requires |m.p| > 0 && Inv(Reset(m)) && InRange(Reset(m), ops)
    ensures var r := Final(Reset(m), ops);
      && (r.totalWrite == SumWrites(r.p) <==> SumWrites(m.p) == m.p[0].writeCnt)
      && (r.totalRead == SumReads(r.p) <==> SumReads(m.p) == m.p[0].readCnt)
  {
    ResetSums(m);
    hide Inv;
    hide SumWrites;
    hide SumReads;
    hide Final;
    RunBalances(Reset(m), ops);
  }

  // ---- Which frame is charged ----

  // An eviction charges the frame that changes owner, with one write and, if the new owner is read
  // back, one read; no other frame is charged.
  lemma EvictCharges(m: Mem, e: nat, b: nat)
    requires Descriptors(m) && Swaps(m, e, b)
    ensures Frame(m, e) < |m.p| == |Evict(m, e, b).p|
    ensures forall g :: 0 <= g < |m.p| ==>
      var before, after := m.p[g], Evict(m, e, b).p[g];
      && after.writeCnt == before.writeCnt + (if g == Frame(m, e) then 1 else 0)
      && after.readCnt == before.readCnt + (if g == Frame(m, e) && m.v[b].status == InSwap then 1 else 0)
  {
    hide CopyBlock;
  }

  // Filling a block from a free frame charges none.
  lemma FreeFillCharges(m: Mem, b: nat)
    requires Descriptors(m) && BooksOf(m) && Fillable(m, b) && FirstFree(m.p, 0).Some?
    ensures Fill(m, b).Done? && |Fill(m, b).mem.p| == |m.p|
    ensures forall g :: 0 <= g < |m.p| ==>
      Fill(m, b).mem.p[g].writeCnt == m.p[g].writeCnt && Fill(m, b).mem.p[g].readCnt == m.p[g].readCnt
  {
    FillFree(m, b, FirstFree(m.p, 0).value);
  }

  // ---- A state in which the totals and the counts disagree ----

  // An eviction is counted on the frame that changes owner.
  lemma VictimCounted(m: Mem, op: Op)
    requires Inv(m) && op.x / SUBPAGES < |m.v| && m.v[op.x / SUBPAGES].status != InMem
    requires FirstFree(m.p, 0) == None
    ensures Access(m, op).Some? && FirstResident(m.v, 0).Some?
    ensures var e := FirstResident(m.v, 0).value;
      HasFrame(m, e) && Frame(m, e) < |m.p| && Access(m, op).value.0.p[Frame(m, e)].writeCnt > 0
  {
    InvDescriptors(m);
    VictimExists(m);
    var e := FirstResident(m.v, 0).value;
    EvictCounted(m, e, op.x / SUBPAGES);
    hide Inv;
    hide DescriptorsOf;
    hide BooksOf;
    hide Access;
    MissIsFill(m, op);
  }

  lemma EvictCounted(m: Mem, e: nat, b: nat)
    requires Descriptors(m) && Swaps(m, e, b)
    ensures Frame(m, e) < |m.p| && |Evict(m, e, b).p| == |m.p|
    ensures Evict(m, e, b).p[Frame(m, e)].writeCnt > 0
  {
  }

  // The pages that make a pager with two frames evict blocks 0 and 1, in this order.
  const SHUFFLE: seq<Op> := [Load(0), Load(SUBPAGES), Load(2 * SUBPAGES), Load(0)]

  // One more access of a run.
  lemma RunThen(m: Mem, ops: seq<Op>, op: Op)
    requires Inv(m) && InRange(m, ops) && |Values(m, ops)| == |ops| && op.x / SUBPAGES < |m.v|
    requires Access(Final(m, ops), op).Some?
    ensures InRange(m, ops + [op]) && |Values(m, ops + [op])| == |ops| + 1
    ensures Final(m, ops + [op]) == Access(Final(m, ops), op).value.0
  {
    hide Inv;
    hide Access;
    FinalConcat(m, ops, [op]);
    assert [op][1..] == [];
  }

  lemma FirstFills(m: Mem, op: Op, i: nat)
    requires Inv(m) && FirstPass(m, i) && i < |m.p| && i < |m.v| && op.x / SUBPAGES == i
    ensures Access(m, op).Some? && FirstPass(Access(m, op).value.0, i + 1)
    ensures Access(m, op).value.0.v == m.v[i := Vmem(Some(i), InMem, i)]
  {
    hide Inv;
    hide Access;
    FirstPassFirst(m, i);
    FirstPassStep(m, op, i);
    hide FirstPass;
    MissTakesFrame(m, op, i);
  }

  lemma ThenEvicts(m: Mem, op: Op)
    requires Inv(m) && FirstPass(m, 2) && |m.p| == 2 && |m.v| == 3 && op.x / SUBPAGES == 2
    ensures Access(m, op).Some? && FirstPass(Access(m, op).value.0, 3)
    ensures |Access(m, op).value.0.v| == 3 && Access(m, op).value.0.v[1] == m.v[1]
  {
    hide Inv;
    hide Access;
    FirstPassFirst(m, 2);
    FirstPassStep(m, op, 2);
    hide FirstPass;
    MissTakesVictim(m, op);
  }

  // Three blocks are resident in turn: 0 in frame 0, 1 in frame 1, then 2 in the place of 0.
  lemma FirstThree(z: Mem) returns (r: Mem)
    requires Inv(z) && |z.v| == 3 && |z.p| == 2 && FirstPass(z, 0)
    ensures InRange(z, SHUFFLE[..3]) && |Values(z, SHUFFLE[..3])| == 3 && r == Final(z, SHUFFLE[..3])
    ensures FirstPass(r, 3) && r.v[1].phy == Some(1)
  {
    hide Inv;
    hide Access;
    hide FirstPass;
    hide Values;
    var o := SHUFFLE;
    RunNone(z);
    FirstFills(z, o[0], 0);
    RunThen(z, [], o[0]);
    var r1 := Access(z, o[0]).value.0;
    FirstFills(r1, o[1], 1);
    RunThen(z, [] + [o[0]], o[1]);
    var r2 := Access(r1, o[1]).value.0;
    ThenEvicts(r2, o[2]);
    RunThen(z, [] + [o[0]] + [o[1]], o[2]);
    r := Access(r2, o[2]).value.0;
    assert [] + [o[0]] + [o[1]] + [o[2]] == o[..3];
  }

  lemma RunNone(m: Mem)
    requires Inv(m)
    ensures InRange(m, []) && Values(m, []) == [] && Final(m, []) == m
  {
  }

  // With two frames and three blocks: reset, evict from frame 1, unmap everything, reset again. The
  // write count of frame 1 is still there, and the total starts at zero.
  lemma CountsDisagree(m: Mem)
    requires Unmapped(m) && |m.v| == 3 && |m.p| == 2
    ensures Inv(Reset(m)) && InRange(Reset(m), SHUFFLE) && |Values(Reset(m), SHUFFLE)| == 4
    ensures var n := Final(Reset(m), SHUFFLE).(ptes := map[]);
      && Unmapped(n) && Inv(Reset(n))
      && Reset(n).totalWrite == 0 < SumWrites(Reset(n).p)
  {
    ResetStarts(m);
    var z := Reset(m);
    assert |z.v| == 3 && |z.p| == 2;
    hide *;
    Shuffled(z);
    SecondReset(Final(z, SHUFFLE));
  }

  lemma Shuffled(z: Mem)
    requires Inv(z) && |z.v| == 3 && |z.p| == 2 && FirstPass(z, 0)
    ensures InRange(z, SHUFFLE) && |Values(z, SHUFFLE)| == 4
    ensures |Final(z, SHUFFLE).p| == 2 && Final(z, SHUFFLE).p[1].writeCnt > 0
  {
    hide Inv;
    hide Access;
    hide Values;
    var r := FirstThree(z);
    FirstPassFirst(r, 3);
    hide FirstPass;
    VictimCounted(r, SHUFFLE[3]);
    RunThen(z, SHUFFLE[..3], SHUFFLE[3]);
    assert SHUFFLE == SHUFFLE[..3] + [SHUFFLE[3]];
    hide Final;
  }

  lemma SecondReset(s: Mem)
    requires Inv(s) && |s.p| == 2 && s.p[1].writeCnt > 0
    ensures var n := s.(ptes := map[]);
      Unmapped(n) && Inv(Reset(n)) && Reset(n).totalWrite == 0 < SumWrites(Reset(n).p)
  {
    var n := s.(ptes := map[]);
    ResetInv(n);
    hide Inv;
    var p := Reset(n).p;
    assert p[..1][..0] == [];
  }
}
