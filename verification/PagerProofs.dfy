// What every access keeps: the descriptors, the page table, the books and the content.
module PagerProofs {
  import opened Options
  import opened PagerModel

  // ---- The invariant ----

  // Every block owns a frame exactly when it is resident, and no frame has two owners.
  ghost predicate DescriptorsOf(v: seq<Vmem>, p: seq<Phys>) {
    && (forall i :: 0 <= i < |v| ==> v[i].id == i && (v[i].status == InMem <==> v[i].phy.Some?))
    && (forall i :: 0 <= i < |v| && v[i].phy.Some? ==>
         v[i].phy.value < |p| && p[v[i].phy.value].status == InUse)
    && (forall i, j :: 0 <= i < j < |v| && v[i].phy.Some? && v[j].phy.Some? ==> v[i].phy != v[j].phy)
    && (forall f :: 0 <= f < |p| ==> p[f].pfn == BASE_PFN + f * SUBPAGES && p[f].status != SwapCache)
  }

  ghost predicate Descriptors(m: Mem) {
    Sized(m) && |m.p| > 0 && DescriptorsOf(m.v, m.p)
  }

  predicate Owns(v: seq<Vmem>, f: nat, i: nat) {
    i < |v| && v[i].phy == Some(f)
  }

  ghost predicate Owned(v: seq<Vmem>, f: nat) {
    exists i: nat :: Owns(v, f, i)
  }

  // A frame in use has an owner.
  ghost predicate Owners(v: seq<Vmem>, p: seq<Phys>) {
    forall f :: 0 <= f < |p| && p[f].status == InUse ==> Owned(v, f)
  }

  function Frame(m: Mem, b: nat): nat
    requires HasFrame(m, b)
  {
    m.v[b].phy.value
  }

  predicate Resides(v: seq<Vmem>, x: nat) {
    x / SUBPAGES < |v| && v[x / SUBPAGES].phy.Some?
  }

  function AddressOf(v: seq<Vmem>, x: nat): nat
    requires Resides(v, x)
  {
    v[x / SUBPAGES].phy.value * SUBPAGES + x % SUBPAGES
  }

  // Every present entry belongs to a resident block and maps subpage k to the k-th page of its
  // frame; all subpages of a resident block are mapped, but perhaps the first.
  ghost predicate Tables(v: seq<Vmem>, ptes: map<nat, nat>) {
    && (forall x :: x in ptes ==> Resides(v, x) && ptes[x] == BASE_PFN + AddressOf(v, x))
    && (forall x: nat :: Resides(v, x) && x % SUBPAGES != 0 ==> x in ptes)
  }

  function CountV(v: seq<Vmem>, st: VStatus): nat {
    if v == [] then 0 else CountV(v[..|v| - 1], st) + (if v[|v| - 1].status == st then 1 else 0)
  }

  function CountP(p: seq<Phys>, st: PStatus): nat {
    if p == [] then 0 else CountP(p[..|p| - 1], st) + (if p[|p| - 1].status == st then 1 else 0)
  }

  // Resident blocks and free frames make up the frames; blocks in swap are those written and not
  // read back; and nothing is in swap while a frame is free.
  predicate Books(v: seq<Vmem>, p: seq<Phys>, totalRead: nat, totalWrite: nat) {
    && CountV(v, InMem) + CountP(p, Free) == |p|
    && CountV(v, InSwap) + totalRead == totalWrite
    && (forall i, f :: 0 <= i < |v| && 0 <= f < |p| && v[i].status == InSwap ==> p[f].status != Free)
  }

  predicate BooksOf(m: Mem) {
    Books(m.v, m.p, m.totalRead, m.totalWrite)
  }

  ghost predicate Inv(m: Mem) {
    Descriptors(m) && Owners(m.v, m.p) && Tables(m.v, m.ptes) && BooksOf(m)
  }

  // ---- Counting ----

  lemma {:induction false} CountVUpdate(v: seq<Vmem>, i: nat, d: Vmem, st: VStatus)
    requires i < |v|
    ensures CountV(v[i := d], st) + (if v[i].status == st then 1 else 0) ==
            CountV(v, st) + (if d.status == st then 1 else 0)
    decreases |v|
  {
    var n := |v| - 1;
    if i < n {
      assert v[i := d][..n] == v[..n][i := d];
      CountVUpdate(v[..n], i, d, st);
    } else {
      assert v[i := d][..n] == v[..n];
    }
  }

  lemma {:induction false} CountPUpdate(p: seq<Phys>, i: nat, d: Phys, st: PStatus)
    requires i < |p|
    ensures CountP(p[i := d], st) + (if p[i].status == st then 1 else 0) ==
            CountP(p, st) + (if d.status == st then 1 else 0)
    decreases |p|
  {
    var n := |p| - 1;
    if i < n {
      assert p[i := d][..n] == p[..n][i := d];
      CountPUpdate(p[..n], i, d, st);
    } else {
      assert p[i := d][..n] == p[..n];
    }
  }

  lemma {:induction false} CountVZero(v: seq<Vmem>, st: VStatus)
    ensures CountV(v, st) == 0 <==> forall i :: 0 <= i < |v| ==> v[i].status != st
    decreases |v|
  {
    if v != [] {
      var n := |v| - 1;
      CountVZero(v[..n], st);
      assert forall i :: 0 <= i < n ==> v[..n][i] == v[i];
    }
  }

  lemma {:induction false} CountPZero(p: seq<Phys>, st: PStatus)
    ensures CountP(p, st) == 0 <==> forall i :: 0 <= i < |p| ==> p[i].status != st
    decreases |p|
  {
    if p != [] {
      var n := |p| - 1;
      CountPZero(p[..n], st);
      assert forall i :: 0 <= i < n ==> p[..n][i] == p[i];
    }
  }

  lemma {:induction false} CountPAll(p: seq<Phys>, st: PStatus)
    requires forall i :: 0 <= i < |p| ==> p[i].status == st
    ensures CountP(p, st) == |p|
    decreases |p|
  {
    if p != [] {
      CountPAll(p[..|p| - 1], st);
    }
  }

  // ---- Reset ----

  lemma ResetInv(m: Mem)
    requires Unmapped(m)
    ensures Inv(Reset(m))
  {
    var r := Reset(m);
    CountPAll(r.p, Free);
    CountVZero(r.v, InMem);
    CountVZero(r.v, InSwap);
  }

  // ---- A free frame ----

  predicate FreeFor(m: Mem, b: nat, f: nat) {
    Sized(m) && b < |m.v| && m.v[b].status == NoMap && f < |m.p| && m.p[f].status == Free
  }

  function WithFree(m: Mem, b: nat, f: nat): Mem
    requires b < |m.v| && f < |m.p|
  {
    m.(v := m.v[b := Vmem(Some(f), InMem, b)], p := m.p[f := m.p[f].(status := InUse)])
  }

  // A block that is filled from a free frame is read back from its slot exactly if it is in swap,
  // whatever the state is; where the invariant holds, it is not.
  lemma FreeFillReads(m: Mem, b: nat, f: nat)
    requires Sized(m) && b < |m.v| && m.v[b].status != InMem && FirstFree(m.p, 0) == Some(f)
    ensures Fill(m, b).Done? && |Fill(m, b).mem.ram| == |m.ram| && (f + 1) * SUBPAGES <= |m.ram|
    ensures var r, back := Fill(m, b).mem, m.v[b].status == InSwap;
      && r.totalRead == m.totalRead + (if back then 1 else 0)
      && (!back ==> r.ram == m.ram)
      && forall k :: f * SUBPAGES <= k < (f + 1) * SUBPAGES && back ==>
           r.ram[k] == m.swap[b * SUBPAGES + k - f * SUBPAGES]
  {
    forall k | f * SUBPAGES <= k < (f + 1) * SUBPAGES
      ensures k / SUBPAGES == f && k % SUBPAGES == k - f * SUBPAGES
    {
    }
  }

  // Filling from a free frame never reads from swap.
  lemma FillFree(m: Mem, b: nat, f: nat)
    requires Descriptors(m) && BooksOf(m) && b < |m.v| && m.v[b].status != InMem && FirstFree(m.p, 0) == Some(f)
    ensures FreeFor(m, b, f) && Fill(m, b) == Done(WithFree(m, b, f))
  {
    var v1 := m.v[b := m.v[b].(phy := Some(f))];
    assert v1[b := v1[b].(status := InMem)] == m.v[b := Vmem(Some(f), InMem, b)];
  }

  lemma FillFreeDescriptors(m: Mem, b: nat, f: nat)
    requires Descriptors(m) && FreeFor(m, b, f)
    ensures Descriptors(WithFree(m, b, f))
  {
  }

  lemma FillFreeOwners(m: Mem, b: nat, f: nat)
    requires Owners(m.v, m.p) && FreeFor(m, b, f) && m.v[b].phy == None
    ensures Owners(WithFree(m, b, f).v, WithFree(m, b, f).p)
  {
    var r := WithFree(m, b, f);
    forall g | 0 <= g < |r.p| && r.p[g].status == InUse
      ensures Owned(r.v, g)
    {
      if g == f {
        assert Owns(r.v, g, b);
      } else {
        assert Owned(m.v, g);
        var i: nat :| Owns(m.v, g, i);
        assert Owns(r.v, g, i);
      }
    }
  }

  lemma FillFreeBooks(m: Mem, b: nat, f: nat)
    requires BooksOf(m) && FreeFor(m, b, f)
    ensures BooksOf(WithFree(m, b, f))
  {
    CountVUpdate(m.v, b, Vmem(Some(f), InMem, b), InMem);
    CountVUpdate(m.v, b, Vmem(Some(f), InMem, b), InSwap);
    CountPUpdate(m.p, f, m.p[f].(status := InUse), Free);
  }

  // ---- No free frame ----

  // With no frame free, some block is resident: the search for a victim succeeds.
  lemma VictimExists(m: Mem)
    requires Descriptors(m) && BooksOf(m) && FirstFree(m.p, 0) == None
    ensures FirstResident(m.v, 0).Some?
  {
    CountPZero(m.p, Free);
    CountVZero(m.v, InMem);
  }

  // Block e is resident and block b is not.
  predicate Swaps(m: Mem, e: nat, b: nat) {
    e < |m.v| && b < |m.v| && m.v[e].status == InMem && m.v[b].status != InMem
  }

  function Swapped(v: seq<Vmem>, e: nat, b: nat): seq<Vmem>
    requires e < |v| && b < |v|
  {
    v[e := Vmem(None, InSwap, e)][b := Vmem(v[e].phy, InMem, b)]
  }

  predicate SameStatus(p: seq<Phys>, q: seq<Phys>) {
    |p| == |q| && forall g :: 0 <= g < |p| ==> p[g].status == q[g].status && p[g].pfn == q[g].pfn
  }

  // What eviction of e for b does, field by field.
  lemma EvictEffect(m: Mem, e: nat, b: nat)
    requires Descriptors(m) && Swaps(m, e, b)
    ensures var r := Evict(m, e, b);
      var f := Frame(m, e);
      var back := m.v[b].status == InSwap;
      && r.v == Swapped(m.v, e, b) && SameStatus(m.p, r.p)
      && r.swap == CopyBlock(m.swap, e, m.ram, f)
      && r.ram == (if back then CopyBlock(m.ram, f, r.swap, b) else m.ram)
      && r.ptes == Zap(m.ptes, e)
      && r.totalWrite == m.totalWrite + 1
      && r.totalRead == m.totalRead + (if back then 1 else 0)
  {
    var f := Frame(m, e);
    var v1 := m.v[e := m.v[e].(status := InSwap)];
    var v3 := v1[b := v1[b].(phy := Some(f))][e := v1[e].(phy := None)];
    assert v3[b := v3[b].(status := InMem)] == Swapped(m.v, e, b);
  }

  lemma SwappedDescriptors(v: seq<Vmem>, p: seq<Phys>, q: seq<Phys>, e: nat, b: nat)
    requires DescriptorsOf(v, p) && SameStatus(p, q)
    requires e < |v| && b < |v| && v[e].status == InMem && v[b].status != InMem
    ensures DescriptorsOf(Swapped(v, e, b), q)
  {
  }

  lemma SwappedOwners(v: seq<Vmem>, p: seq<Phys>, q: seq<Phys>, e: nat, b: nat)
    requires Owners(v, p) && SameStatus(p, q)
    requires e < |v| && b < |v| && e != b && v[b].phy == None
    ensures Owners(Swapped(v, e, b), q)
  {
    forall g | 0 <= g < |q| && q[g].status == InUse
      ensures Owned(Swapped(v, e, b), g)
    {
      assert Owned(v, g);
      var i: nat :| Owns(v, g, i);
      assert Owns(Swapped(v, e, b), g, if i == e then b else i);
    }
  }

  lemma {:induction false} CountPSame(p: seq<Phys>, q: seq<Phys>, st: PStatus)
    requires SameStatus(p, q)
    ensures CountP(p, st) == CountP(q, st)
    decreases |p|
  {
    if p != [] {
      CountPSame(p[..|p| - 1], q[..|q| - 1], st);
    }
  }

  lemma SwappedCounts(v: seq<Vmem>, e: nat, b: nat)
    requires e < |v| && b < |v| && v[e].status == InMem && v[b].status != InMem
    ensures CountV(Swapped(v, e, b), InMem) == CountV(v, InMem)
    ensures CountV(Swapped(v, e, b), InSwap) == CountV(v, InSwap) + (if v[b].status == InSwap then 0 else 1)
  {
    var out, into := Vmem(None, InSwap, e), Vmem(v[e].phy, InMem, b);
    CountVUpdate(v, e, out, InMem);
    CountVUpdate(v, e, out, InSwap);
    CountVUpdate(v[e := out], b, into, InMem);
    CountVUpdate(v[e := out], b, into, InSwap);
  }

  lemma EvictKeeps(m: Mem, e: nat, b: nat)
    requires Descriptors(m) && BooksOf(m) && FirstFree(m.p, 0) == None && Swaps(m, e, b)
    ensures var r := Evict(m, e, b);
      Descriptors(r) && BooksOf(r)
  {
    hide CountV;
    hide CountP;
    hide Evict;
    hide DescriptorsOf;
    hide Books;
    ResidentHasFrame(m, e);
    EvictEffect(m, e, b);
    var r := Evict(m, e, b);
    SwappedDescriptors(m.v, m.p, r.p, e, b);
    SwappedSized(m, r, e, b);
    SwappedBooks(m, r, e, b);
  }

  lemma ResidentHasFrame(m: Mem, e: nat)
    requires Descriptors(m) && e < |m.v| && m.v[e].status == InMem
    ensures HasFrame(m, e)
  {
  }

  lemma SwappedSized(m: Mem, r: Mem, e: nat, b: nat)
    requires Sized(m) && e < |m.v| && b < |m.v| && r.v == Swapped(m.v, e, b)
    requires |r.p| == |m.p| && |r.ram| == |m.ram| && |r.swap| == |m.swap|
    ensures Sized(r)
  {
  }

  lemma SwappedBooks(m: Mem, r: Mem, e: nat, b: nat)
    requires BooksOf(m) && FirstFree(m.p, 0) == None && Swaps(m, e, b)
    requires r.v == Swapped(m.v, e, b) && SameStatus(m.p, r.p)
    requires r.totalWrite == m.totalWrite + 1
    requires r.totalRead == m.totalRead + (if m.v[b].status == InSwap then 1 else 0)
    ensures BooksOf(r)
  {
    hide CountV;
    hide CountP;
    SwappedCounts(m.v, e, b);
    CountPSame(m.p, r.p, Free);
  }

  // ---- The content of a page, wherever it is ----

  predicate Touched(m: Mem, x: nat) {
    x / SUBPAGES < |m.v| && m.v[x / SUBPAGES].status != NoMap
  }

  function Cell(m: Mem, x: nat): Page
    requires Sized(m) && x / SUBPAGES < |m.v|
  {
    if Resides(m.v, x) then m.ram[AddressOf(m.v, x)] else m.swap[x]
  }

  lemma BlockIndex(f: nat, k: nat)
    requires k < SUBPAGES
    ensures (f * SUBPAGES + k) / SUBPAGES == f && (f * SUBPAGES + k) % SUBPAGES == k
  {
  }

  // An eviction, as far as content is concerned.
  predicate Moves(m: Mem, r: Mem, e: nat, b: nat) {
    && Sized(m) && Sized(r) && |r.v| == |m.v| && |r.ram| == |m.ram| && b != e
    && HasFrame(m, e) && b < |m.v| && m.v[b].phy == None
    && r.v[e].phy == None && r.v[b].phy == m.v[e].phy
    && (forall i :: 0 <= i < |m.v| && i != e && i != b ==> r.v[i].phy == m.v[i].phy)
    && r.swap == CopyBlock(m.swap, e, m.ram, Frame(m, e))
    && (r.ram == m.ram || r.ram == CopyBlock(m.ram, Frame(m, e), r.swap, b))
    && (m.v[b].status == InSwap ==> r.ram == CopyBlock(m.ram, Frame(m, e), r.swap, b))
  }

  lemma VictimKeepsCell(m: Mem, r: Mem, e: nat, b: nat, x: nat)
    requires Moves(m, r, e, b) && x / SUBPAGES == e
    ensures Cell(r, x) == Cell(m, x)
  {
  }

  lemma SwappedInKeepsCell(m: Mem, r: Mem, e: nat, b: nat, x: nat)
    requires Moves(m, r, e, b) && x / SUBPAGES == b && m.v[b].status == InSwap
    ensures Cell(r, x) == Cell(m, x)
  {
    var j := Frame(m, e) * SUBPAGES + x % SUBPAGES;
    BlockIndex(Frame(m, e), x % SUBPAGES);
    assert r.ram[j] == r.swap[b * SUBPAGES + x % SUBPAGES];
  }

  lemma OtherKeepsCell(m: Mem, r: Mem, e: nat, b: nat, x: nat)
    requires Moves(m, r, e, b)
    requires x / SUBPAGES < |m.v| && x / SUBPAGES != b && x / SUBPAGES != e
    requires m.v[x / SUBPAGES].phy != m.v[e].phy
    ensures Cell(r, x) == Cell(m, x)
  {
    if Resides(m.v, x) {
      BlockIndex(Frame(m, x / SUBPAGES), x % SUBPAGES);
    }
  }

  lemma EvictMoves(m: Mem, e: nat, b: nat)
    requires Descriptors(m) && Swaps(m, e, b)
    ensures Moves(m, Evict(m, e, b), e, b)
  {
    EvictEffect(m, e, b);
  }

  lemma OnlyOwner(m: Mem, e: nat, c: nat)
    requires Descriptors(m) && e < |m.v| && c < |m.v| && e != c && m.v[e].phy.Some?
    ensures m.v[c].phy != m.v[e].phy
  {
  }

  lemma EvictKeepsCell(m: Mem, e: nat, b: nat, x: nat)
    requires Descriptors(m) && Swaps(m, e, b) && Touched(m, x)
    ensures var r := Evict(m, e, b);
      Sized(r) && |r.v| == |m.v| && Touched(r, x) && Cell(r, x) == Cell(m, x)
  {
    EvictMoves(m, e, b);
    EvictEffect(m, e, b);
    var r := Evict(m, e, b);
    if x / SUBPAGES != e {
      OnlyOwner(m, e, x / SUBPAGES);
    }
    hide DescriptorsOf;
    hide Cell;
    if x / SUBPAGES == e {
      VictimKeepsCell(m, r, e, b, x);
    } else if x / SUBPAGES == b {
      SwappedInKeepsCell(m, r, e, b, x);
    } else {
      OtherKeepsCell(m, r, e, b, x);
    }
  }

  // ---- Filling a block ----

  predicate Fillable(m: Mem, b: nat) {
    b < |m.v| && m.v[b].status != InMem
  }

  // Filling never stops, and keeps the descriptors and the books.
  lemma FillKeeps(m: Mem, b: nat)
    requires Descriptors(m) && BooksOf(m) && Fillable(m, b)
    ensures Fill(m, b).Done?
    ensures var r := Fill(m, b).mem;
      Descriptors(r) && BooksOf(r) && |r.v| == |m.v| && |r.p| == |m.p| && r.v[b].status == InMem
  {
    if FirstFree(m.p, 0).Some? {
      var f := FirstFree(m.p, 0).value;
      FillFree(m, b, f);
      FillFreeDescriptors(m, b, f);
      FillFreeBooks(m, b, f);
    } else {
      VictimExists(m);
      var e := FirstResident(m.v, 0).value;
      EvictEffect(m, e, b);
      EvictKeeps(m, e, b);
    }
  }

  lemma FillKeepsOwners(m: Mem, b: nat)
    requires Descriptors(m) && BooksOf(m) && Owners(m.v, m.p) && Fillable(m, b)
    ensures Fill(m, b).Done? && Owners(Fill(m, b).mem.v, Fill(m, b).mem.p)
  {
    if FirstFree(m.p, 0).Some? {
      var f := FirstFree(m.p, 0).value;
      FillFree(m, b, f);
      FillFreeOwners(m, b, f);
    } else {
      VictimExists(m);
      var e := FirstResident(m.v, 0).value;
      EvictEffect(m, e, b);
      SwappedOwners(m.v, m.p, Evict(m, e, b).p, e, b);
    }
  }

  lemma FreeKeepsCell(m: Mem, b: nat, f: nat, x: nat)
    requires FreeFor(m, b, f) && Sized(WithFree(m, b, f)) && Touched(m, x)
    ensures var r := WithFree(m, b, f);
      Touched(r, x) && Cell(r, x) == Cell(m, x)
  {
  }

  lemma FillKeepsCell(m: Mem, b: nat, x: nat)
    requires Descriptors(m) && BooksOf(m) && Fillable(m, b) && Touched(m, x)
    ensures Fill(m, b).Done?
    ensures var r := Fill(m, b).mem;
      Sized(r) && |r.v| == |m.v| && Touched(r, x) && Cell(r, x) == Cell(m, x)
  {
    if FirstFree(m.p, 0).Some? {
      var f := FirstFree(m.p, 0).value;
      FillFree(m, b, f);
      FreeKeepsCell(m, b, f, x);
    } else {
      VictimExists(m);
      EvictKeepsCell(m, FirstResident(m.v, 0).value, b, x);
    }
  }

  // The entries after Fill(m, b): right for every block, complete for all but b, and none for b.
  ghost predicate TablesBut(v: seq<Vmem>, ptes: map<nat, nat>, b: nat) {
    && (forall x :: x in ptes ==> x / SUBPAGES != b && Resides(v, x) && ptes[x] == BASE_PFN + AddressOf(v, x))
    && (forall x: nat :: Resides(v, x) && x / SUBPAGES != b && x % SUBPAGES != 0 ==> x in ptes)
  }

  lemma FreeTables(v: seq<Vmem>, w: seq<Vmem>, ptes: map<nat, nat>, b: nat)
    requires Tables(v, ptes) && b < |v| && v[b].phy == None && |w| == |v|
    requires forall i :: 0 <= i < |v| && i != b ==> w[i].phy == v[i].phy
    ensures TablesBut(w, ptes, b)
  {
    forall x | x in ptes
      ensures x / SUBPAGES != b && Resides(w, x)
    {
      assert Resides(v, x);
    }
    forall x: nat | Resides(w, x) && x / SUBPAGES != b && x % SUBPAGES != 0
      ensures x in ptes
    {
      assert Resides(v, x);
    }
  }

  lemma SwappedTables(v: seq<Vmem>, ptes: map<nat, nat>, e: nat, b: nat)
    requires Tables(v, ptes) && e < |v| && b < |v| && e != b && v[b].phy == None
    ensures TablesBut(Swapped(v, e, b), Zap(ptes, e), b)
  {
    var w := Swapped(v, e, b);
    forall x | x in Zap(ptes, e)
      ensures x / SUBPAGES != b && Resides(w, x) && AddressOf(w, x) == AddressOf(v, x)
    {
      assert Resides(v, x) && x / SUBPAGES != e;
    }
    forall x: nat | Resides(w, x) && x / SUBPAGES != b && x % SUBPAGES != 0
      ensures x in Zap(ptes, e)
    {
      assert x / SUBPAGES != e && Resides(v, x);
    }
  }

  lemma FillTables(m: Mem, b: nat)
    requires Descriptors(m) && BooksOf(m) && Tables(m.v, m.ptes) && Fillable(m, b)
    ensures Fill(m, b).Done? && TablesBut(Fill(m, b).mem.v, Fill(m, b).mem.ptes, b)
  {
    assert m.v[b].phy == None;
    if FirstFree(m.p, 0).Some? {
      var f := FirstFree(m.p, 0).value;
      FillFree(m, b, f);
      hide Tables;
      hide TablesBut;
      FreeTables(m.v, WithFree(m, b, f).v, m.ptes, b);
    } else {
      VictimExists(m);
      var e := FirstResident(m.v, 0).value;
      EvictEffect(m, e, b);
      hide Tables;
      hide TablesBut;
      SwappedTables(m.v, m.ptes, e, b);
    }
  }

  // The entries q after mapping block b, at frame number pfn, for a fault on page x.
  ghost predicate Mapped(ptes: map<nat, nat>, q: map<nat, nat>, b: nat, pfn: nat, x: nat) {
    && (forall y {:trigger y in q} :: y in q <==> y in ptes || InRest(b, y) || y == x)
    && (forall y {:trigger q[y]} :: y in q && y / SUBPAGES != b ==> y in ptes && q[y] == ptes[y])
    && (forall y {:trigger q[y]} :: y in q && y / SUBPAGES == b ==> q[y] == pfn + y % SUBPAGES)
  }

  lemma InRestIsBlock(b: nat, y: nat)
    ensures InRest(b, y) <==> y / SUBPAGES == b && y % SUBPAGES != 0
  {
  }

  lemma RemapMaps(ptes: map<nat, nat>, b: nat, pfn: nat, x: nat)
    requires x / SUBPAGES == b
    requires forall y :: y in ptes ==> y / SUBPAGES != b
    ensures ptes.Keys * Rest(b) == {}
    ensures Mapped(ptes, Install(Remap(ptes, b, pfn), x, pfn), b, pfn, x)
  {
    forall y: nat
      ensures y in Rest(b) <==> InRest(b, y)
      ensures InRest(b, y) <==> y / SUBPAGES == b && y % SUBPAGES != 0
    {
      InRestIsBlock(b, y);
    }
    var r := Remap(ptes, b, pfn);
    assert forall y {:trigger y in r} :: y in r <==> y in ptes || y in Rest(b);
  }

  // All pages of block b are mapped.
  ghost predicate WholeBlock(ptes: map<nat, nat>, b: nat) {
    forall y: nat :: y / SUBPAGES == b ==> y in ptes
  }

  lemma MappedTables(v: seq<Vmem>, ptes: map<nat, nat>, q: map<nat, nat>, b: nat, x: nat)
    requires TablesBut(v, ptes, b) && b < |v| && v[b].phy.Some? && x / SUBPAGES == b
    requires Mapped(ptes, q, b, BASE_PFN + v[b].phy.value * SUBPAGES, x)
    ensures Tables(v, q) && x in q
    ensures x % SUBPAGES == 0 ==> WholeBlock(q, b)
  {
    forall y | y in q
      ensures Resides(v, y) && q[y] == BASE_PFN + AddressOf(v, y)
    {
    }
    forall y: nat | y / SUBPAGES == b && y % SUBPAGES != 0
      ensures y in q
    {
      InRestIsBlock(b, y);
    }
  }

  lemma MapBlockTables(m: Mem, b: nat, x: nat)
    requires Descriptors(m) && TablesBut(m.v, m.ptes, b) && b < |m.v| && m.v[b].status == InMem
    requires x / SUBPAGES == b
    ensures MapBlock(m, b, x).Done?
    ensures var r := MapBlock(m, b, x).mem;
      && r == m.(ptes := r.ptes) && Tables(r.v, r.ptes) && x in r.ptes
      && (x % SUBPAGES == 0 ==> WholeBlock(r.ptes, b))
  {
    var pfn := BASE_PFN + Frame(m, b) * SUBPAGES;
    assert m.p[Frame(m, b)].pfn == pfn;
    RemapMaps(m.ptes, b, pfn, x);
    hide DescriptorsOf;
    hide Remap;
    hide Install;
    hide Mapped;
    hide TablesBut;
    MappedTables(m.v, m.ptes, Install(Remap(m.ptes, b, pfn), x, pfn), b, x);
  }

  // ---- Accesses ----

  lemma FaultMaps(m: Mem, x: nat)
    requires Descriptors(m) && BooksOf(m) && Fillable(m, x / SUBPAGES)
    ensures Fill(m, x / SUBPAGES).Done? && HasFrame(Fill(m, x / SUBPAGES).mem, x / SUBPAGES)
    ensures Fault(m, x) == MapBlock(Fill(m, x / SUBPAGES).mem, x / SUBPAGES, x)
  {
    FillKeeps(m, x / SUBPAGES);
  }

  // A fault for a block that is not resident ends with the page mapped.
  lemma FaultKeeps(m: Mem, x: nat)
    requires Inv(m) && Fillable(m, x / SUBPAGES)
    ensures Fault(m, x).Done?
    ensures var r := Fault(m, x).mem;
      && Inv(r) && |r.v| == |m.v| && |r.p| == |m.p| && x in r.ptes
      && Fill(m, x / SUBPAGES).Done? && r == Fill(m, x / SUBPAGES).mem.(ptes := r.ptes)
      && (x % SUBPAGES == 0 ==> WholeBlock(r.ptes, x / SUBPAGES))
  {
    hide DescriptorsOf;
    hide Tables;
    hide TablesBut;
    hide BooksOf;
    hide Owners;
    hide Fill;
    hide Fault;
    hide MapBlock;
    var b := x / SUBPAGES;
    FillKeeps(m, b);
    FillKeepsOwners(m, b);
    FillTables(m, b);
    FaultMaps(m, x);
    MapBlockTables(Fill(m, b).mem, b, x);
    SameBooks(Fill(m, b).mem, Fault(m, x).mem);
  }

  lemma SameBooks(m: Mem, r: Mem)
    requires Descriptors(m) && BooksOf(m) && r == m.(ptes := r.ptes)
    ensures Descriptors(r) && BooksOf(r)
  {
    hide DescriptorsOf;
    hide Books;
  }

  // A fault on a resident block finds most of it mapped already.
  lemma ResidentFaultStops(m: Mem, x: nat)
    requires Inv(m) && x / SUBPAGES < |m.v| && m.v[x / SUBPAGES].status == InMem
    ensures Fault(m, x) == Stopped(RemapBusy)
  {
    var b := x / SUBPAGES;
    var y := b * SUBPAGES + 1;
    BlockIndex(b, 1);
    assert Resides(m.v, y);
    InRestIsBlock(b, y);
    assert y in m.ptes.Keys * Rest(b);
  }

  lemma PartlyMapped(m: Mem, x: nat)
    requires Inv(m) && Resides(m.v, x) && x !in m.ptes
    ensures x % SUBPAGES == 0
  {
  }

  // No access reaches a BUG(). The only way to stop is to fault on a block that is resident,
  // which can only be on its first page; any other access ends with the page mapped.
  lemma TouchOutcome(m: Mem, x: nat)
    requires Inv(m) && x / SUBPAGES < |m.v|
    ensures Touch(m, x).Done? <==> x in m.ptes || m.v[x / SUBPAGES].status != InMem
    ensures Touch(m, x).Stopped? ==> Touch(m, x).why == RemapBusy && x % SUBPAGES == 0
    ensures Touch(m, x).Done? ==>
      var r := Touch(m, x).mem;
      Inv(r) && x in r.ptes && |r.v| == |m.v| && |r.p| == |m.p|
  {
    if x !in m.ptes {
      if m.v[x / SUBPAGES].status == InMem {
        ResidentFaultStops(m, x);
        PartlyMapped(m, x);
      } else {
        hide Inv;
        FaultKeeps(m, x);
      }
    }
  }

  lemma InvDescriptors(m: Mem)
    requires Inv(m)
    ensures Descriptors(m) && BooksOf(m) && |m.p| > 0
  {
  }

  lemma CellIgnoresTables(m: Mem, r: Mem, x: nat)
    requires Sized(m) && x / SUBPAGES < |m.v| && r == m.(ptes := r.ptes)
    ensures Cell(r, x) == Cell(m, x)
  {
  }

  lemma FaultKeepsCell(m: Mem, x: nat, y: nat)
    requires Inv(m) && Fillable(m, x / SUBPAGES) && Touched(m, y)
    ensures Fault(m, x).Done?
    ensures var r := Fault(m, x).mem;
      Sized(r) && |r.v| == |m.v| && Touched(r, y) && Cell(r, y) == Cell(m, y)
  {
    InvDescriptors(m);
    hide Inv;
    hide DescriptorsOf;
    hide BooksOf;
    hide Fill;
    hide Fault;
    hide Cell;
    FaultKeeps(m, x);
    FillKeepsCell(m, x / SUBPAGES, y);
    CellIgnoresTables(Fill(m, x / SUBPAGES).mem, Fault(m, x).mem, y);
  }

  lemma TouchKeepsCell(m: Mem, x: nat, y: nat)
    requires Inv(m) && x / SUBPAGES < |m.v| && Touch(m, x).Done? && Touched(m, y)
    ensures var r := Touch(m, x).mem;
      Sized(r) && Touched(r, y) && Cell(r, y) == Cell(m, y)
  {
    if x !in m.ptes {
      TouchOutcome(m, x);
      hide Inv;
      FaultKeepsCell(m, x, y);
    }
  }

  lemma AddressesDiffer(m: Mem, x: nat, y: nat)
    requires Descriptors(m) && Resides(m.v, x) && Resides(m.v, y) && x != y
    ensures AddressOf(m.v, x) != AddressOf(m.v, y)
  {
    var b, c := x / SUBPAGES, y / SUBPAGES;
    if b == c {
      assert x % SUBPAGES != y % SUBPAGES;
    } else {
      OnlyOwner(m, b, c);
      hide DescriptorsOf;
    }
  }

  lemma PteIsAddress(m: Mem, x: nat)
    requires Inv(m) && x in m.ptes
    ensures Resides(m.v, x) && Touched(m, x) && m.v[x / SUBPAGES].status == InMem
    ensures m.ptes[x] == BASE_PFN + AddressOf(m.v, x) && AddressOf(m.v, x) < |m.ram|
  {
  }

  // Through the page table one sees the content of the page, at an address in the reserved range,
  // and no other page has that address.
  lemma Translation(m: Mem, x: nat)
    requires Inv(m) && x in m.ptes
    ensures Touched(m, x) && Translates(m, x) && Fetch(m, x) == Cell(m, x)
    ensures forall y :: y in m.ptes && y != x ==> m.ptes[y] != m.ptes[x]
  {
    InvDescriptors(m);
    hide Inv;
    hide DescriptorsOf;
    hide BooksOf;
    PteIsAddress(m, x);
    forall y | y in m.ptes && y != x
      ensures m.ptes[y] != m.ptes[x]
    {
      PteIsAddress(m, y);
      AddressesDiffer(m, x, y);
    }
  }

  lemma PutKeeps(m: Mem, x: nat, page: Page)
    requires Inv(m) && x in m.ptes && Translates(m, x)
    ensures Inv(Put(m, x, page))
  {
    hide DescriptorsOf;
    hide Owners;
    hide Tables;
    hide Books;
  }

  lemma PutCell(m: Mem, x: nat, page: Page, y: nat)
    requires Inv(m) && x in m.ptes && Translates(m, x) && Touched(m, y)
    ensures var r := Put(m, x, page);
      Sized(r) && Touched(r, y) && Cell(r, y) == if x == y then page else Cell(m, y)
  {
    InvDescriptors(m);
    PteIsAddress(m, x);
    hide Inv;
    if Resides(m.v, y) && x != y {
      AddressesDiffer(m, x, y);
    }
    hide DescriptorsOf;
    hide BooksOf;
  }
}
