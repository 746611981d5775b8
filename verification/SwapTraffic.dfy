// Exactly how much a program that scans its memory page by page, over and over, swaps.
module SwapTraffic {
  import opened Options
  import opened PagerModel
  import opened PagerProofs
  import opened PagerRuns

  // One pass over the first n pages.
  predicate Scan(ops: seq<Op>) {
    forall i :: 0 <= i < |ops| ==> ops[i].x == i
  }

  lemma {:induction false} FinalConcat(m: Mem, a: seq<Op>, b: seq<Op>)
    requires Inv(m) && InRange(m, a + b) && InRange(m, a) && |Values(m, a)| == |a|
    ensures InRange(Final(m, a), b) && Final(m, a + b) == Final(Final(m, a), b)
    ensures |Values(m, a + b)| == |a| + |Values(Final(m, a), b)|
    decreases |a|
  {
    hide Inv;
    hide Access;
    forall op <- b
      ensures op.x / SUBPAGES < |Final(m, a).v|
    {
      assert op in a + b;
    }
    if a == [] {
      assert a + b == b;
    } else {
      assert (a + b)[1..] == a[1..] + b;
      FinalConcat(Access(m, a[0]).value.0, a[1..], b);
    }
  }

  // ---- What one access does to the statuses and the counters ----

  // Same blocks resident and in swap, same counters.
  predicate Quiet(m: Mem, r: Mem) {
    r.v == m.v && SameStatus(m.p, r.p) && r.totalRead == m.totalRead && r.totalWrite == m.totalWrite
  }

  lemma HitIsQuiet(m: Mem, op: Op)
    requires Inv(m) && Whole(m) && op.x / SUBPAGES < |m.v| && m.v[op.x / SUBPAGES].status == InMem
    ensures Access(m, op).Some? && Quiet(m, Access(m, op).value.0)
  {
    InvDescriptors(m);
    assert Resides(m.v, op.x);
    hide Inv;
    hide DescriptorsOf;
  }

  // A miss with a free frame takes the lowest-numbered one.
  predicate TakesFrame(m: Mem, r: Mem, b: nat, f: nat) {
    && b < |m.v| && f < |m.p|
    && r.v == m.v[b := Vmem(Some(f), InMem, b)]
    && |r.p| == |m.p|
    && (forall g :: 0 <= g < |m.p| ==> r.p[g].status == if g == f then InUse else m.p[g].status)
    && r.totalRead == m.totalRead && r.totalWrite == m.totalWrite
  }

  lemma MissTakesFrame(m: Mem, op: Op, f: nat)
    requires Inv(m) && op.x / SUBPAGES < |m.v| && m.v[op.x / SUBPAGES].status != InMem
    requires FirstFree(m.p, 0) == Some(f)
    ensures Access(m, op).Some? && TakesFrame(m, Access(m, op).value.0, op.x / SUBPAGES, f)
  {
    InvDescriptors(m);
    hide Inv;
    hide DescriptorsOf;
    hide BooksOf;
    hide Fill;
    hide Access;
    FillFree(m, op.x / SUBPAGES, f);
    MissIsFill(m, op);
  }

  // A miss without one takes the frame of the lowest-numbered resident block.
  predicate TakesVictim(m: Mem, r: Mem, b: nat, e: nat) {
    && b < |m.v| && e < |m.v|
    && r.v == Swapped(m.v, e, b) && SameStatus(m.p, r.p)
    && r.totalWrite == m.totalWrite + 1
    && r.totalRead == m.totalRead + (if m.v[b].status == InSwap then 1 else 0)
  }

  lemma FillTakesVictim(m: Mem, b: nat)
    requires Descriptors(m) && BooksOf(m) && Fillable(m, b) && FirstFree(m.p, 0) == None
    ensures FirstResident(m.v, 0).Some? && Fill(m, b).Done?
    ensures TakesVictim(m, Fill(m, b).mem, b, FirstResident(m.v, 0).value)
  {
    VictimExists(m);
    EvictEffect(m, FirstResident(m.v, 0).value, b);
  }

  lemma MissTakesVictim(m: Mem, op: Op)
    requires Inv(m) && op.x / SUBPAGES < |m.v| && m.v[op.x / SUBPAGES].status != InMem
    requires FirstFree(m.p, 0) == None
    ensures FirstResident(m.v, 0).Some?
    ensures Access(m, op).Some? && TakesVictim(m, Access(m, op).value.0, op.x / SUBPAGES, FirstResident(m.v, 0).value)
  {
    InvDescriptors(m);
    hide Inv;
    hide DescriptorsOf;
    hide BooksOf;
    hide Fill;
    hide Access;
    FillTakesVictim(m, op.x / SUBPAGES);
    MissIsFill(m, op);
  }

  // ---- The patterns ----

  // After the first i blocks of the first pass, with M frames: the last M of them are resident, the
  // others in swap, and each of those has been written once.
  predicate FirstPass(m: Mem, i: nat) {
    var M := |m.p|;
    && i <= |m.v|
    && (forall b :: 0 <= b < |m.v| ==>
          m.v[b].status == if b >= i then NoMap else if b + M >= i then InMem else InSwap)
    && (forall f :: 0 <= f < M ==> m.p[f].status == if f < i then InUse else Free)
    && m.totalRead == 0
    && m.totalWrite == if i <= M then 0 else i - M
  }

  lemma FirstFreeIs(p: seq<Phys>, i: nat)
    requires forall f :: 0 <= f < |p| ==> p[f].status == if f < i then InUse else Free
    ensures FirstFree(p, 0) == if i < |p| then Some(i) else None
  {
    var r := FirstFree(p, 0);
    if i < |p| {
      assert p[i].status == Free;
      assert r.Some? ==> p[r.value].status == Free && r.value >= i;
    }
  }

  lemma FirstResidentIs(v: seq<Vmem>, e: nat)
    requires e < |v| && v[e].status == InMem && forall i :: 0 <= i < e ==> v[i].status != InMem
    ensures FirstResident(v, 0) == Some(e)
  {
    var r := FirstResident(v, 0);
    assert r.Some? && r.value <= e;
  }

  lemma FirstPassFree(m: Mem, r: Mem, i: nat)
    requires FirstPass(m, i) && i < |m.v| && i < |m.p| && TakesFrame(m, r, i, i)
    ensures FirstPass(r, i + 1)
  {
  }

  lemma FirstPassVictim(m: Mem, r: Mem, i: nat)
    requires FirstPass(m, i) && |m.p| <= i < |m.v| && |m.p| > 0 && TakesVictim(m, r, i, i - |m.p|)
    ensures FirstPass(r, i + 1)
  {
  }

  // What the pattern of a first pass says of the two searches.
  lemma FirstPassFirst(m: Mem, i: nat)
    requires FirstPass(m, i) && |m.p| > 0
    ensures FirstFree(m.p, 0) == if i < |m.p| then Some(i) else None
    ensures i < |m.v| ==> m.v[i].status != InMem
    ensures i >= |m.p| ==> FirstResident(m.v, 0) == Some(i - |m.p|)
    ensures i > |m.p| ==> m.v[0].status != InMem
  {
    FirstFreeIs(m.p, i);
    if i >= |m.p| {
      FirstResidentIs(m.v, i - |m.p|);
    }
  }

  lemma FirstPassStep(m: Mem, op: Op, i: nat)
    requires Inv(m) && FirstPass(m, i) && i < |m.v| && op.x / SUBPAGES == i
    ensures Access(m, op).Some? && FirstPass(Access(m, op).value.0, i + 1)
  {
    hide Inv;
    hide Access;
    hide FirstPass;
    HasFrames(m);
    FirstPassFirst(m, i);
    if i < |m.p| {
      MissTakesFrame(m, op, i);
      hide TakesFrame;
      FirstPassFree(m, Access(m, op).value.0, i);
    } else {
      MissTakesVictim(m, op);
      hide TakesVictim;
      FirstPassVictim(m, Access(m, op).value.0, i);
    }
  }

  lemma HasFrames(m: Mem)
    requires Inv(m)
    ensures |m.p| > 0
  {
  }

  // Resident blocks after the first i blocks of a later pass over D > M blocks.
  predicate InLater(b: nat, i: nat, D: nat, M: nat) {
    if 1 <= i <= D - M then b == i - 1 || D - M < b < D else D - M <= b < D
  }

  function MisLater(i: nat, D: nat, M: nat): nat
    requires M < D
  {
    if i <= D - M then i else D - M + 1
  }

  predicate LaterPass(m: Mem, i: nat, D: nat, r0: nat, w0: nat) {
    var M := |m.p|;
    && 0 < M < D <= |m.v| && i <= D
    && (forall b :: 0 <= b < |m.v| ==>
          m.v[b].status == if b >= D then NoMap else if InLater(b, i, D, M) then InMem else InSwap)
    && (forall f :: 0 <= f < M ==> m.p[f].status == InUse)
    && m.totalRead == r0 + MisLater(i, D, M)
    && m.totalWrite == w0 + MisLater(i, D, M)
  }

  function LaterVictim(i: nat, D: nat, M: nat): nat
    requires M <= D
  {
    if i == 0 then D - M else i - 1
  }

  lemma LaterPassVictim(m: Mem, r: Mem, i: nat, D: nat, r0: nat, w0: nat)
    requires LaterPass(m, i, D, r0, w0) && i <= D - |m.p|
    requires TakesVictim(m, r, i, LaterVictim(i, D, |m.p|))
    ensures LaterPass(r, i + 1, D, r0, w0)
  {
  }

  lemma LaterPassFirst(m: Mem, i: nat, D: nat, r0: nat, w0: nat)
    requires LaterPass(m, i, D, r0, w0) && i <= D - |m.p|
    ensures FirstFree(m.p, 0) == None && FirstResident(m.v, 0) == Some(LaterVictim(i, D, |m.p|))
    ensures m.v[i].status == InSwap
  {
    FirstFreeIs(m.p, |m.p|);
    FirstResidentIs(m.v, LaterVictim(i, D, |m.p|));
  }

  lemma LaterPassMiss(m: Mem, op: Op, i: nat, D: nat, r0: nat, w0: nat)
    requires Inv(m) && LaterPass(m, i, D, r0, w0) && op.x / SUBPAGES == i && i <= D - |m.p|
    ensures Access(m, op).Some? && LaterPass(Access(m, op).value.0, i + 1, D, r0, w0)
  {
    LaterPassFirst(m, i, D, r0, w0);
    InvDescriptors(m);
    var e := LaterVictim(i, D, |m.p|);
    hide Inv;
    hide Access;
    hide DescriptorsOf;
    hide LaterPass;
    MissTakesVictim(m, op);
    LaterPassVictim(m, Access(m, op).value.0, i, D, r0, w0);
  }

  lemma LaterPassOn(m: Mem, r: Mem, i: nat, D: nat, r0: nat, w0: nat)
    requires LaterPass(m, i, D, r0, w0) && Quiet(m, r) && D - |m.p| < i < D
    ensures LaterPass(r, i + 1, D, r0, w0)
  {
  }

  lemma LaterPassHit(m: Mem, op: Op, i: nat, D: nat, r0: nat, w0: nat)
    requires Inv(m) && Whole(m) && LaterPass(m, i, D, r0, w0) && op.x / SUBPAGES == i && D - |m.p| < i < D
    ensures Access(m, op).Some? && LaterPass(Access(m, op).value.0, i + 1, D, r0, w0)
  {
    assert D <= |m.v| && m.v[i].status == InMem;
    hide Inv;
    hide Access;
    hide Whole;
    hide LaterPass;
    HitIsQuiet(m, op);
    LaterPassOn(m, Access(m, op).value.0, i, D, r0, w0);
  }

  // ---- Scans, page by page ----

  // The number of blocks begun after x pages.
  function Begun(x: nat): nat {
    (x + SUBPAGES - 1) / SUBPAGES
  }

  lemma BegunNext(x: nat)
    ensures x % SUBPAGES == 0 ==> Begun(x) == x / SUBPAGES
    ensures x % SUBPAGES != 0 ==> Begun(x) == x / SUBPAGES + 1
    ensures Begun(x + 1) == x / SUBPAGES + 1
  {
  }

  predicate ScanOf(m: Mem, ops: seq<Op>, D: nat) {
    Scan(ops) && |ops| == D * SUBPAGES && D <= |m.v|
  }

  lemma ScanInRange(m: Mem, ops: seq<Op>, D: nat)
    requires ScanOf(m, ops, D)
    ensures InRange(m, ops)
    ensures forall x :: 0 <= x <= |ops| ==> InRange(m, ops[..x])
  {
  }

  lemma FinalNext(m: Mem, ops: seq<Op>, x: nat)
    requires Inv(m) && x < |ops| && InRange(m, ops) && InRange(m, ops[..x]) && InRange(m, ops[..x + 1])
    requires |Values(m, ops[..x])| == x
    ensures ops[x].x / SUBPAGES < |Final(m, ops[..x]).v|
    ensures Access(Final(m, ops[..x]), ops[x]).Some? ==>
      && |Values(m, ops[..x + 1])| == x + 1
      && Final(m, ops[..x + 1]) == Access(Final(m, ops[..x]), ops[x]).value.0
  {
    hide Inv;
    hide Access;
    var r := Final(m, ops[..x]);
    assert ops[..x + 1] == ops[..x] + [ops[x]];
    FinalConcat(m, ops[..x], [ops[x]]);
    assert [ops[x]][1..] == [];
  }

  // What holds while a scan of D blocks goes on, of which i have been begun: it is the first one, or
  // a later one that started with the given counts, or the frames hold all the D blocks already.
  datatype Pass = First | Later(read: nat, written: nat) | Fitting

  predicate During(pass: Pass, m: Mem, i: nat, D: nat) {
    match pass
    case First => i <= D && FirstPass(m, i)
    case Later(r0, w0) => LaterPass(m, i, D, r0, w0)
    case Fitting => D <= |m.p| && FirstPass(m, D)
  }

  lemma FirstPassResident(m: Mem, b: nat, i: nat)
    requires FirstPass(m, i) && b < i && i <= b + |m.p|
    ensures b < |m.v| && m.v[b].status == InMem
  {
  }

  lemma FirstPassQuiet(m: Mem, r: Mem, i: nat)
    requires FirstPass(m, i) && Quiet(m, r)
    ensures FirstPass(r, i)
  {
  }

  lemma LaterPassResident(m: Mem, b: nat, D: nat, r0: nat, w0: nat)
    requires LaterPass(m, b + 1, D, r0, w0)
    ensures b < |m.v| && m.v[b].status == InMem
  {
  }

  lemma LaterPassQuiet(m: Mem, r: Mem, i: nat, D: nat, r0: nat, w0: nat)
    requires LaterPass(m, i, D, r0, w0) && Quiet(m, r)
    ensures LaterPass(r, i, D, r0, w0)
  {
  }

  lemma LaterPassStep(m: Mem, op: Op, i: nat, D: nat, r0: nat, w0: nat)
    requires Inv(m) && Whole(m) && LaterPass(m, i, D, r0, w0) && op.x / SUBPAGES == i && i < D
    ensures i < |m.v| && Access(m, op).Some? && LaterPass(Access(m, op).value.0, i + 1, D, r0, w0)
  {
    assert D <= |m.v|;
    hide Inv;
    hide Access;
    hide Whole;
    hide LaterPass;
    if i <= D - |m.p| {
      LaterPassMiss(m, op, i, D, r0, w0);
    } else {
      LaterPassHit(m, op, i, D, r0, w0);
    }
  }

  // A block just begun is resident, and reading more of it changes nothing.
  lemma DuringResident(pass: Pass, m: Mem, b: nat, D: nat)
    requires During(pass, m, b + 1, D) && b < D && |m.p| > 0
    ensures b < |m.v| && m.v[b].status == InMem
  {
    hide FirstPass;
    hide LaterPass;
    match pass
    case First => FirstPassResident(m, b, b + 1);
    case Later(r0, w0) => LaterPassResident(m, b, D, r0, w0);
    case Fitting => FirstPassResident(m, b, D);
  }

  lemma DuringQuiet(pass: Pass, m: Mem, r: Mem, i: nat, D: nat)
    requires During(pass, m, i, D) && Quiet(m, r)
    ensures During(pass, r, i, D)
  {
    hide FirstPass;
    hide LaterPass;
    match pass
    case First => FirstPassQuiet(m, r, i);
    case Later(r0, w0) => LaterPassQuiet(m, r, i, D, r0, w0);
    case Fitting => FirstPassQuiet(m, r, D);
  }

  lemma DuringAgain(pass: Pass, m: Mem, op: Op, i: nat, D: nat)
    requires Inv(m) && Whole(m) && During(pass, m, i + 1, D) && op.x / SUBPAGES == i && i < D
    ensures i < |m.v| && FirstPageFirst(m, op.x)
    ensures Access(m, op).Some? && During(pass, Access(m, op).value.0, i + 1, D)
  {
    InvDescriptors(m);
    hide Inv;
    hide Access;
    hide Whole;
    hide DescriptorsOf;
    hide During;
    DuringResident(pass, m, i, D);
    HitIsQuiet(m, op);
    DuringQuiet(pass, m, Access(m, op).value.0, i + 1, D);
  }

  lemma DuringStep(pass: Pass, m: Mem, op: Op, i: nat, D: nat)
    requires Inv(m) && Whole(m) && During(pass, m, i, D) && op.x / SUBPAGES == i && i < D <= |m.v|
    ensures Access(m, op).Some? && During(pass, Access(m, op).value.0, i + 1, D)
  {
    hide Inv;
    hide Access;
    hide Whole;
    hide FirstPass;
    hide LaterPass;
    match pass
    case First => FirstPassStep(m, op, i);
    case Later(r0, w0) => LaterPassStep(m, op, i, D, r0, w0);
    case Fitting =>
      hide During;
      FittingIsSteady(m, i, D);
      DuringAgain(pass, m, op, i, D);
  }

  lemma FittingIsSteady(m: Mem, i: nat, D: nat)
    requires During(Fitting, m, i, D)
    ensures During(Fitting, m, i + 1, D)
  {
  }

  lemma DuringPage(pass: Pass, m: Mem, op: Op, D: nat)
    requires Inv(m) && Whole(m) && During(pass, m, Begun(op.x), D) && op.x / SUBPAGES < D <= |m.v|
    ensures FirstPageFirst(m, op.x)
    ensures Access(m, op).Some? && During(pass, Access(m, op).value.0, Begun(op.x + 1), D)
  {
    hide Inv;
    hide Access;
    hide Whole;
    hide During;
    BegunNext(op.x);
    hide Begun;
    if op.x % SUBPAGES == 0 {
      DuringStep(pass, m, op, op.x / SUBPAGES, D);
    } else {
      DuringAgain(pass, m, op, op.x / SUBPAGES, D);
    }
  }

  // A scan that has read x pages.
  ghost predicate At(pass: Pass, m: Mem, ops: seq<Op>, D: nat, x: nat)
    requires Inv(m) && ScanOf(m, ops, D) && x <= |ops|
  {
    ScanInRange(m, ops, D);
    var r := Final(m, ops[..x]);
    |Values(m, ops[..x])| == x && Whole(r) && During(pass, r, Begun(x), D)
  }

  lemma AtAccess(pass: Pass, m: Mem, ops: seq<Op>, D: nat, x: nat)
    requires Inv(m) && ScanOf(m, ops, D) && x < |ops| && At(pass, m, ops, D, x)
    ensures InRange(m, ops[..x]) && |Values(m, ops[..x])| == x
    ensures var r := Final(m, ops[..x]);
      && ops[x].x == x && x / SUBPAGES < |m.v| && Access(r, ops[x]).Some?
      && Whole(Access(r, ops[x]).value.0) && During(pass, Access(r, ops[x]).value.0, Begun(x + 1), D)
  {
    ScanInRange(m, ops, D);
    var r := Final(m, ops[..x]);
    assert x / SUBPAGES < D && ops[x].x == x;
    hide Inv;
    hide Access;
    hide Final;
    hide Values;
    hide Whole;
    hide Begun;
    hide During;
    DuringPage(pass, r, ops[x], D);
    hide FirstPageFirst;
    AccessKeepsWhole(r, ops[x]);
  }

  lemma AtNext(pass: Pass, m: Mem, ops: seq<Op>, D: nat, x: nat)
    requires Inv(m) && ScanOf(m, ops, D) && x < |ops| && At(pass, m, ops, D, x)
    ensures At(pass, m, ops, D, x + 1)
    ensures InRange(m, ops[..x]) && InRange(m, ops[..x + 1]) && x / SUBPAGES < |m.v|
    ensures Access(Final(m, ops[..x]), ops[x]).Some?
    ensures Final(m, ops[..x + 1]) == Access(Final(m, ops[..x]), ops[x]).value.0
  {
    ScanInRange(m, ops, D);
    hide Inv;
    hide Access;
    hide Final;
    hide Values;
    hide Whole;
    hide Begun;
    hide During;
    AtAccess(pass, m, ops, D, x);
    FinalNext(m, ops, x);
  }

  lemma AtStart(pass: Pass, m: Mem, ops: seq<Op>, D: nat)
    requires Inv(m) && Whole(m) && During(pass, m, 0, D) && ScanOf(m, ops, D)
    ensures At(pass, m, ops, D, 0)
  {
    hide Inv;
    hide During;
    assert ops[..0] == [];
  }

  lemma {:induction false} ScanReaches(pass: Pass, m: Mem, ops: seq<Op>, D: nat, x: nat)
    requires Inv(m) && Whole(m) && During(pass, m, 0, D) && ScanOf(m, ops, D) && x <= |ops|
    ensures At(pass, m, ops, D, x)
    decreases x
  {
    hide Inv;
    hide At;
    hide During;
    if x == 0 {
      AtStart(pass, m, ops, D);
    } else {
      ScanReaches(pass, m, ops, D, x - 1);
      AtNext(pass, m, ops, D, x - 1);
    }
  }

  lemma ScanEnds(pass: Pass, m: Mem, ops: seq<Op>, D: nat)
    requires Inv(m) && Whole(m) && During(pass, m, 0, D) && ScanOf(m, ops, D)
    ensures InRange(m, ops) && |Values(m, ops)| == |ops|
    ensures Whole(Final(m, ops)) && During(pass, Final(m, ops), D, D)
  {
    ScanInRange(m, ops, D);
    ScanReaches(pass, m, ops, D, |ops|);
    assert ops[..|ops|] == ops;
    assert Begun(|ops|) == D;
    hide Inv;
    hide During;
    hide Begun;
  }

  // ---- Any number of scans ----

  predicate ScansOf(m: Mem, scans: seq<seq<Op>>, D: nat) {
    forall ops <- scans :: ScanOf(m, ops, D)
  }

  lemma LaterScansToo(m: Mem, r: Mem, scans: seq<seq<Op>>, D: nat)
    requires ScansOf(m, scans, D) && scans != [] && |r.v| == |m.v|
    ensures ScanOf(m, scans[0], D) && ScansOf(r, scans[1..], D)
  {
    forall ops <- scans[1..]
      ensures ScanOf(r, ops, D)
    {
      assert ops in scans;
    }
  }

  ghost function After(m: Mem, scans: seq<seq<Op>>, D: nat): (r: Mem)
    requires Inv(m) && ScansOf(m, scans, D)
    ensures Inv(r) && |r.v| == |m.v| && |r.p| == |m.p|
    decreases |scans|
  {
    if scans == [] then m
    else
      ScanInRange(m, scans[0], D);
      LaterScansToo(m, Final(m, scans[0]), scans, D);
      After(Final(m, scans[0]), scans[1..], D)
  }

  // No access of any of the scans stops.
  ghost predicate Complete(m: Mem, scans: seq<seq<Op>>, D: nat)
    requires Inv(m) && ScansOf(m, scans, D)
    decreases |scans|
  {
    scans == [] ||
    (ScanInRange(m, scans[0], D);
     LaterScansToo(m, Final(m, scans[0]), scans, D);
     |Values(m, scans[0])| == |scans[0]| && Complete(Final(m, scans[0]), scans[1..], D))
  }

  // After the first scan, when the blocks outnumber the frames, the last ones are resident.
  lemma FirstThenLater(m: Mem, D: nat)
    requires During(First, m, D, D) && D > |m.p| > 0
    ensures During(Later(0, D - |m.p|), m, 0, D)
  {
  }

  // Every later scan leaves the same blocks resident.
  lemma LaterThenLater(m: Mem, D: nat, r0: nat, w0: nat)
    requires During(Later(r0, w0), m, D, D)
    ensures |m.p| < D
    ensures During(Later(r0 + D - |m.p| + 1, w0 + D - |m.p| + 1), m, 0, D)
  {
  }

  // The blocks swapped each way in k later scans.
  function Cost(k: nat, excess: int): int {
    k * (excess + 1)
  }

  lemma CostNext(k: nat, excess: nat)
    ensures Cost(k, excess) >= 0 && Cost(k + 1, excess) == excess + 1 + Cost(k, excess)
  {
  }

  predicate DuringLater(m: Mem, r: Mem, D: nat, k: nat, r0: nat, w0: nat) {
    var c := Cost(k, D - |m.p|);
    |r.p| == |m.p| < D && c >= 0 && During(Later(r0 + c, w0 + c), r, 0, D)
  }

  lemma OneScanMore(m: Mem, r: Mem, z: Mem, k: nat, D: nat, r0: nat, w0: nat)
    requires |r.p| == |m.p| < D && DuringLater(r, z, D, k, r0 + D - |m.p| + 1, w0 + D - |m.p| + 1)
    ensures DuringLater(m, z, D, k + 1, r0, w0)
  {
    hide During;
    CostNext(k, D - |m.p|);
    hide Cost;
  }

  lemma LaterHasExcess(m: Mem, D: nat, r0: nat, w0: nat)
    requires During(Later(r0, w0), m, 0, D)
    ensures |m.p| < D && DuringLater(m, m, D, 0, r0, w0)
  {
    hide LaterPass;
    assert During(Later(r0, w0), m, 0, D) == LaterPass(m, 0, D, r0, w0);
    LaterPassHasExcess(m, D, r0, w0);
  }

  lemma LaterPassHasExcess(m: Mem, D: nat, r0: nat, w0: nat)
    requires LaterPass(m, 0, D, r0, w0)
    ensures |m.p| < D
  {
  }

  lemma AfterFirst(m: Mem, scans: seq<seq<Op>>, D: nat)
    requires Inv(m) && ScansOf(m, scans, D) && scans != []
    ensures ScanOf(m, scans[0], D) && InRange(m, scans[0])
    ensures ScansOf(Final(m, scans[0]), scans[1..], D)
    ensures After(m, scans, D) == After(Final(m, scans[0]), scans[1..], D)
    ensures |Values(m, scans[0])| == |scans[0]| && Complete(Final(m, scans[0]), scans[1..], D) ==>
      Complete(m, scans, D)
  {
    hide Inv;
    ScanInRange(m, scans[0], D);
    LaterScansToo(m, Final(m, scans[0]), scans, D);
  }

  lemma {:induction false} LaterScans(m: Mem, scans: seq<seq<Op>>, D: nat, r0: nat, w0: nat)
    requires Inv(m) && Whole(m) && During(Later(r0, w0), m, 0, D) && ScansOf(m, scans, D)
    ensures Complete(m, scans, D) && DuringLater(m, After(m, scans, D), D, |scans|, r0, w0)
    decreases |scans|
  {
    hide Inv;
    hide During;
    hide Whole;
    hide ScansOf;
    hide ScanOf;
    hide Values;
    LaterHasExcess(m, D, r0, w0);
    hide DuringLater;
    if scans != [] {
      AfterFirst(m, scans, D);
      hide After;
      hide Complete;
      ScanEnds(Later(r0, w0), m, scans[0], D);
      var r := Final(m, scans[0]);
      hide Final;
      LaterThenLater(r, D, r0, w0);
      LaterScans(r, scans[1..], D, r0 + D - |m.p| + 1, w0 + D - |m.p| + 1);
      OneScanMore(m, r, After(m, scans, D), |scans| - 1, D, r0, w0);
    }
  }

  lemma {:induction false} FittingScans(m: Mem, scans: seq<seq<Op>>, D: nat)
    requires Inv(m) && Whole(m) && During(Fitting, m, 0, D) && ScansOf(m, scans, D)
    ensures Complete(m, scans, D) && During(Fitting, After(m, scans, D), 0, D)
    decreases |scans|
  {
    hide Inv;
    hide FirstPass;
    hide Whole;
    hide ScansOf;
    hide ScanOf;
    hide Values;
    if scans != [] {
      AfterFirst(m, scans, D);
      hide After;
      hide Complete;
      ScanEnds(Fitting, m, scans[0], D);
      var r := Final(m, scans[0]);
      hide Final;
      FittingScans(r, scans[1..], D);
    }
  }

  lemma ResetStarts(m: Mem)
    requires Unmapped(m)
    ensures Inv(Reset(m)) && Whole(Reset(m)) && FirstPass(Reset(m), 0)
  {
    ResetInv(m);
  }

  // What k > 0 scans of D blocks leave in a pager with M frames.
  predicate Traffic(r: Mem, M: nat, D: nat, k: nat) {
    && k > 0 && D <= |r.v|
    && (D <= M ==>
         && r.totalWrite == 0 && r.totalRead == 0
         && forall b :: 0 <= b < D ==> r.v[b].status == InMem)
    && (D > M ==>
         && r.totalWrite == D - M + Cost(k - 1, D - M)
         && r.totalRead == Cost(k - 1, D - M)
         && forall b :: 0 <= b < |r.v| ==> (r.v[b].status == InMem <==> D - M <= b < D))
  }

  lemma FittingTraffic(m: Mem, scans: seq<seq<Op>>, D: nat)
    requires Inv(m) && Whole(m) && During(First, m, D, D) && D <= |m.p| && ScansOf(m, scans, D)
    ensures Complete(m, scans, D) && Traffic(After(m, scans, D), |m.p|, D, |scans| + 1)
  {
    assert During(Fitting, m, 0, D);
    hide Inv;
    hide Whole;
    hide ScansOf;
    hide After;
    hide Complete;
    hide FirstPass;
    FittingScans(m, scans, D);
    FittingTotals(After(m, scans, D), D);
  }

  lemma FittingTotals(r: Mem, D: nat)
    requires During(Fitting, r, 0, D)
    ensures r.totalWrite == 0 && r.totalRead == 0
    ensures D <= |r.v| && forall b :: 0 <= b < D ==> r.v[b].status == InMem
  {
  }

  lemma ExcessTraffic(m: Mem, scans: seq<seq<Op>>, D: nat)
    requires Inv(m) && Whole(m) && During(First, m, D, D) && D > |m.p| > 0 && ScansOf(m, scans, D)
    ensures Complete(m, scans, D) && Traffic(After(m, scans, D), |m.p|, D, |scans| + 1)
  {
    FirstThenLater(m, D);
    hide Inv;
    hide Whole;
    hide ScansOf;
    hide After;
    hide Complete;
    hide During;
    hide DuringLater;
    hide Cost;
    LaterScans(m, scans, D, 0, D - |m.p|);
    LaterTotals(m, After(m, scans, D), D, |scans|, D - |m.p|);
  }

  lemma LaterTotals(m: Mem, r: Mem, D: nat, k: nat, w0: nat)
    requires DuringLater(m, r, D, k, 0, w0)
    ensures r.totalRead == Cost(k, D - |m.p|) && r.totalWrite == w0 + Cost(k, D - |m.p|)
    ensures D <= |r.v| && forall b :: 0 <= b < |r.v| ==> (r.v[b].status == InMem <==> D - |m.p| <= b < D)
  {
    hide Cost;
  }

  lemma ScanStarts(z: Mem, D: nat)
    requires Inv(z) && FirstPass(z, 0)
    ensures |z.p| > 0 && During(First, z, 0, D)
  {
    InvDescriptors(z);
    hide Inv;
    hide FirstPass;
    hide DescriptorsOf;
  }

  lemma ScansFromStart(z: Mem, scans: seq<seq<Op>>, D: nat)
    requires Inv(z) && Whole(z) && FirstPass(z, 0) && scans != [] && ScansOf(z, scans, D)
    ensures Complete(z, scans, D) && Traffic(After(z, scans, D), |z.p|, D, |scans|)
  {
    hide Inv;
    hide FirstPass;
    hide Whole;
    hide During;
    hide ScansOf;
    hide ScanOf;
    hide Values;
    hide Traffic;
    ScanStarts(z, D);
    AfterFirst(z, scans, D);
    hide After;
    hide Complete;
    ScanEnds(First, z, scans[0], D);
    var r := Final(z, scans[0]);
    hide Final;
    if D <= |z.p| {
      FittingTraffic(r, scans[1..], D);
    } else {
      ExcessTraffic(r, scans[1..], D);
    }
  }

  // A reset and then any positive number of scans over D blocks. When they fit in the frames, nothing
  // is ever swapped; otherwise the first scan writes one block for each that does not fit, each later
  // scan writes one block more than that and reads as many, and the last blocks end up resident.
  lemma SwapTrafficOfScans(m: Mem, scans: seq<seq<Op>>, D: nat)
    requires Unmapped(m) && scans != [] && ScansOf(m, scans, D)
    ensures Inv(Reset(m)) && ScansOf(Reset(m), scans, D) && Complete(Reset(m), scans, D)
    ensures Traffic(After(Reset(m), scans, D), |m.p|, D, |scans|)
  {
    ResetStarts(m);
    var z := Reset(m);
    assert |z.p| == |m.p| && ScansOf(z, scans, D);
    hide Reset;
    hide Inv;
    hide Whole;
    hide FirstPass;
    hide Traffic;
    hide After;
    hide Complete;
    hide Unmapped;
    hide ScansOf;
    ScansFromStart(z, scans, D);
  }

  // user_copy: one scan that fills and one scan that reads, over more blocks than there are frames.
  lemma CopyTraffic(m: Mem, filling: seq<Op>, reading: seq<Op>, D: nat)
    requires Unmapped(m) && |m.p| < D && ScanOf(m, filling, D) && ScanOf(m, reading, D)
    ensures Inv(Reset(m)) && ScansOf(Reset(m), [filling, reading], D)
    ensures After(Reset(m), [filling, reading], D).totalWrite == 2 * (D - |m.p|) + 1
    ensures After(Reset(m), [filling, reading], D).totalRead == D - |m.p| + 1
  {
    var scans := [filling, reading];
    assert ScansOf(m, scans, D);
    hide ScanOf;
    hide Unmapped;
    hide After;
    hide Inv;
    hide Reset;
    hide Complete;
    SwapTrafficOfScans(m, scans, D);
  }
}
