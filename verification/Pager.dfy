// The driver of pcie_mm.c and pcie_swap.c as it is written: static descriptor arrays updated in
// place, and the program of user_copy.c that exercises it.
module Pager {
  import opened Options
  import opened PagerModel
  import opened PagerProofs
  import opened PagerRuns
  import opened SwapTraffic

  const PAGE_SIZE := 4096
  const MY_PAGE_SIZE := SUBPAGES * PAGE_SIZE
  const SECTOR_SIZE := 512
  const SECTORS := PAGE_SIZE / SECTOR_SIZE

  class Driver {
    // pcie_vmem_descs and pcie_phymem_descs.
    const vmem: array<Vmem>
    const phymem: array<Phys>
    // The pages of the reserved range and of the swap device.
    const ram: array<Page>
    const swap: array<Page>
    // The page table of the one process that has mapped the device.
    var ptes: map<nat, nat>
    var totalRead: nat
    var totalWrite: nat

    ghost predicate Shape() {
      && ram != swap && phymem.Length > 0
      && ram.Length == phymem.Length * SUBPAGES && swap.Length == vmem.Length * SUBPAGES
    }

    ghost function Abs(): Mem
      reads this, vmem, phymem, ram, swap
    {
      Mem(vmem[..], phymem[..], ram[..], swap[..], ptes, totalRead, totalWrite)
    }

    // pcie_init_vmem.
    method InitVmem()
      modifies vmem
      ensures vmem[..] == seq(vmem.Length, i requires 0 <= i < vmem.Length => Vmem(None, NoMap, i))
    {
      for i := 0 to vmem.Length
        invariant forall j :: 0 <= j < i ==> vmem[j] == Vmem(None, NoMap, j)
      {
        vmem[i] := Vmem(None, NoMap, i);
      }
    }

    // The second loop of pcie_init_phymem. The counts it clears are always those of frame 0.
    method InitPhymem()
      requires phymem.Length > 0
      modifies phymem
      ensures phymem[..] == Reset(old(Abs())).p
    {
      var pfnTemp := BASE_PFN;
      for i := 0 to phymem.Length
        invariant pfnTemp == BASE_PFN + i * SUBPAGES
        invariant forall j :: 0 <= j < i ==>
          phymem[j].pfn == BASE_PFN + j * SUBPAGES && phymem[j].status == Free
        invariant forall j :: i <= j < phymem.Length ==>
          phymem[j].pfn == old(phymem[j].pfn) && phymem[j].status == old(phymem[j].status)
        invariant forall j :: 0 < j < phymem.Length ==>
          phymem[j].writeCnt == old(phymem[j].writeCnt) && phymem[j].readCnt == old(phymem[j].readCnt)
        invariant i > 0 ==> phymem[0].writeCnt == 0 && phymem[0].readCnt == 0
      {
        phymem[i] := phymem[i].(pfn := pfnTemp, status := Free);
        pfnTemp := pfnTemp + SUBPAGES;
        phymem[0] := phymem[0].(readCnt := 0, writeCnt := 0);
      }
    }

    // pcie_mm_reset.
    method MmReset()
      requires Shape()
      modifies this, vmem, phymem
      ensures Abs() == Reset(old(Abs()))
    {
      InitVmem();
      InitPhymem();
      totalRead := 0;
      totalWrite := 0;
    }

    // The block descriptor d has a frame, whose page frame number and slot are the expected ones.
    ghost predicate Placed(d: nat)
      reads this, vmem, phymem, ram, swap
    {
      && Shape() && HasFrame(Abs(), d) && vmem[d].id == d
      && phymem[vmem[d].phy.value].pfn == BASE_PFN + vmem[d].phy.value * SUBPAGES
    }

    // The pages a bio covers, as my_swap_writepages and my_swap_readpages add them.
    method AddPages(first: nat) returns (pages: seq<nat>)
      ensures |pages| == SUBPAGES && forall k :: 0 <= k < SUBPAGES ==> pages[k] == first + k
    {
      pages := [];
      var pfn := first;
      for i := 0 to SUBPAGES
        invariant pfn == first + i && |pages| == i
        invariant forall k :: 0 <= k < i ==> pages[k] == first + k
      {
        pages := pages + [pfn];
        pfn := pfn + 1;
      }
    }

    // The block device carries out a write: page k of the bio goes to the sectors after those of
    // page k - 1.
    method SubmitWrite(sector: nat, pages: seq<nat>)
      requires ram != swap && sector % SECTORS == 0 && sector / SECTORS + |pages| <= swap.Length
      requires forall k :: 0 <= k < |pages| ==> BASE_PFN <= pages[k] < BASE_PFN + ram.Length
      modifies swap
      ensures forall j :: 0 <= j < swap.Length ==>
        swap[j] == if sector / SECTORS <= j < sector / SECTORS + |pages|
                   then ram[pages[j - sector / SECTORS] - BASE_PFN] else old(swap[j])
    {
      var at := sector / SECTORS;
      for k := 0 to |pages|
        invariant forall j :: 0 <= j < swap.Length ==>
          swap[j] == if at <= j < at + k then ram[pages[j - at] - BASE_PFN] else old(swap[j])
      {
        swap[at + k] := ram[pages[k] - BASE_PFN];
      }
    }

    method SubmitRead(sector: nat, pages: seq<nat>)
      requires ram != swap && sector % SECTORS == 0 && sector / SECTORS + |pages| <= swap.Length
      requires forall k :: 0 <= k < |pages| ==> pages[k] == pages[0] + k
      requires |pages| > 0 && BASE_PFN <= pages[0] <= BASE_PFN + ram.Length - |pages|
      modifies ram
      ensures forall j :: 0 <= j < ram.Length ==>
        ram[j] == if pages[0] - BASE_PFN <= j < pages[0] - BASE_PFN + |pages|
                  then swap[sector / SECTORS + (j - (pages[0] - BASE_PFN))] else old(ram[j])
    {
      var at, to := sector / SECTORS, pages[0] - BASE_PFN;
      for k := 0 to |pages|
        invariant forall j :: 0 <= j < ram.Length ==>
          ram[j] == if to <= j < to + k then swap[at + (j - to)] else old(ram[j])
      {
        ram[pages[k] - BASE_PFN] := swap[at + k];
      }
    }

    // my_swap_writepages, when nothing fails.
    method SwapWritepages(d: nat)
      requires Placed(d)
      modifies swap
      ensures swap[..] == CopyBlock(old(swap[..]), d, ram[..], vmem[d].phy.value)
    {
      var f := vmem[d].phy.value;
      var pages := AddPages(phymem[f].pfn);
      var sector := vmem[d].id * MY_PAGE_SIZE / SECTOR_SIZE;
      SectorOfBlock(d);
      BlockFits(f, phymem.Length);
      BlockFits(d, vmem.Length);
      SubmitWrite(sector, pages);
      forall j | 0 <= j < swap.Length
        ensures swap[j] == CopyBlock(old(swap[..]), d, ram[..], f)[j]
      {
        InBlock(d, j);
      }
    }

    // my_swap_readpages, when nothing fails.
    method SwapReadpages(d: nat)
      requires Placed(d)
      modifies ram
      ensures ram[..] == CopyBlock(old(ram[..]), vmem[d].phy.value, swap[..], d)
    {
      var f := vmem[d].phy.value;
      var pages := AddPages(phymem[f].pfn);
      var sector := vmem[d].id * MY_PAGE_SIZE / SECTOR_SIZE;
      SectorOfBlock(d);
      BlockFits(f, phymem.Length);
      BlockFits(d, vmem.Length);
      SubmitRead(sector, pages);
      forall j | 0 <= j < ram.Length
        ensures ram[j] == CopyBlock(old(ram[..]), f, swap[..], d)[j]
      {
        InBlock(f, j);
      }
    }

    // read_pages.
    method DoReadPages(d: nat)
      requires Placed(d)
      modifies this, phymem, ram
      ensures HasFrame(old(Abs()), d) && Abs() == ReadPages(old(Abs()), d)
    {
      SwapReadpages(d);
      var f := vmem[d].phy.value;
      phymem[f] := phymem[f].(readCnt := phymem[f].readCnt + 1);
      totalRead := totalRead + 1;
    }

    // write_pages.
    method DoWritePages(d: nat)
      requires Placed(d)
      modifies this, vmem, phymem, swap
      ensures HasFrame(old(Abs()), d) && Abs() == WritePages(old(Abs()), d)
    {
      SwapWritepages(d);
      vmem[d] := vmem[d].(status := InSwap);
      var f := vmem[d].phy.value;
      phymem[f] := phymem[f].(writeCnt := phymem[f].writeCnt + 1);
      totalWrite := totalWrite + 1;
    }

    // zap_vma_ptes over the pages of one block.
    method ZapVmaPtes(start: nat, count: nat)
      modifies `ptes
      ensures ptes == map x | x in old(ptes) && !(start <= x < start + count) :: old(ptes)[x]
    {
      ptes := map x | x in ptes && !(start <= x < start + count) :: ptes[x];
    }

    // evict_page.
    method EvictPage(e: nat, b: nat)
      requires Placed(e) && b < vmem.Length && b != e && vmem[b].id == b
      modifies this, vmem, phymem, ram, swap
      ensures HasFrame(old(Abs()), e) && Abs() == Evict(old(Abs()), e, b)
    {
      ghost var m := Abs();
      hide CopyBlock;
      DoWritePages(e);
      ZapVmaPtes(vmem[e].id * SUBPAGES, SUBPAGES);
      ZapIsZap(WritePages(m, e).ptes, e);
      vmem[b] := vmem[b].(phy := vmem[e].phy);
      vmem[e] := vmem[e].(phy := None);
      ghost var m3 := Handed(m, e, b);
      assert Abs() == m3;
      if vmem[b].status == InSwap {
        DoReadPages(b);
      }
      ghost var m4 := if m3.v[b].status == InSwap then ReadPages(m3, b) else m3;
      assert Abs() == m4;
      vmem[b] := vmem[b].(status := InMem);
    }

    // my_swap_pagein.
    method SwapPagein(d: nat)
      requires Placed(d)
      modifies this, phymem, ram
      ensures HasFrame(old(Abs()), d) && Abs() == ReadPages(old(Abs()), d)
    {
      DoReadPages(d);
    }

    // fill_vpage. The result names the BUG() reached, if any.
    method FillVpage(b: nat) returns (bug: Option<Stop>)
      requires Shape() && Descriptors(Abs()) && b < vmem.Length && vmem[b].status != InMem
      modifies this, vmem, phymem, ram, swap
      ensures match Fill(old(Abs()), b)
        case Done(r) => bug == None && Abs() == r
        case Stopped(why) => bug == Some(why)
    {
      ghost var m := Abs();
      var free: Option<nat> := None;
      var i := 0;
      while i < phymem.Length
        invariant i <= phymem.Length && free == None
        invariant FirstFree(m.p, 0) == FirstFree(m.p, i)
      {
        if phymem[i].status == Free {
          free := Some(i);
          break;
        }
        i := i + 1;
      }
      assert free == FirstFree(m.p, 0);
      if free.Some? {
        vmem[b] := vmem[b].(phy := free);
        if vmem[b].status == InSwap {
          SwapPagein(b);
        }
        phymem[free.value] := phymem[free.value].(status := InUse);
        vmem[b] := vmem[b].(status := InMem);
        return None;
      }
      var victim: Option<nat> := None;
      i := 0;
      while i < vmem.Length
        invariant i <= vmem.Length && victim == None
        invariant FirstResident(m.v, 0) == FirstResident(m.v, i)
      {
        if vmem[i].status == InMem {
          if vmem[i].phy == None {
            return Some(ResidentWithoutFrame);
          }
          victim := Some(i);
          break;
        }
        i := i + 1;
      }
      assert victim == FirstResident(m.v, 0);
      if victim == None {
        return Some(NoVictim);
      }
      EvictPage(victim.value, b);
      return None;
    }

    // remap_pfn_range: page by page, until an entry is present already.
    method RemapPfnRange(start: nat, pfn: nat, count: nat) returns (busy: bool)
      modifies `ptes
      ensures busy <==> old(ptes).Keys * Span(start, count) != {}
      ensures !busy ==> ptes == WithSpan(old(ptes), start, pfn, count)
    {
      hide WithSpan;
      hide Span;
      NoSpan(ptes, start, pfn);
      ghost var before := ptes;
      for i := 0 to count
        invariant before.Keys * Span(start, i) == {}
        invariant ptes == WithSpan(before, start, pfn, i)
      {
        SpanNext(before, start, pfn, i, count);
        if start + i in ptes {
          return true;
        }
        ptes := ptes[start + i := pfn + i];
      }
      return false;
    }

    // pcieBase_fault on virtual page x, and the mapping of the page it hands back.
    method HandleFault(x: nat) returns (stop: Option<Stop>)
      requires Shape() && Descriptors(Abs()) && x < vmem.Length * SUBPAGES
      modifies this, vmem, phymem, ram, swap
      ensures match Fault(old(Abs()), x)
        case Done(r) => stop == None && Abs() == r
        case Stopped(why) => stop == Some(why)
    {
      hide DescriptorsOf;
      hide Fill;
      hide MapBlock;
      var b := x / SUBPAGES;
      DescriptorId(Abs(), b);
      if vmem[b].status == InSwap || vmem[b].status == NoMap {
        if vmem[b].phy.Some? {
          return Some(MappedButAbsent);
        }
        FillShape(Abs(), b);
        stop := FillVpage(b);
        if stop.Some? {
          return;
        }
      }
      if vmem[b].phy == None {
        return Some(FilledWithoutFrame);
      }
      stop := InstallBlock(b, x);
    }

    // The mapping part of pcieBase_fault, and what the kernel does with the page in vmf->page.
    method InstallBlock(b: nat, x: nat) returns (stop: Option<Stop>)
      requires HasFrame(Abs(), b) && vmem[b].id == b
      modifies `ptes
      ensures match MapBlock(old(Abs()), b, x)
        case Done(r) => stop == None && Abs() == r
        case Stopped(why) => stop == Some(why)
    {
      hide Sized;
      hide Install;
      hide WithSpan;
      hide Remap;
      hide Span;
      hide Rest;
      ghost var m := Abs();
      FrameInRange(m, b);
      var pfn := phymem[vmem[b].phy.value].pfn;
      SpanIsRest(ptes, b, pfn);
      var busy := RemapPfnRange(vmem[b].id * SUBPAGES + 1, pfn + 1, SUBPAGES - 1);
      if busy {
        return Some(RemapBusy);
      }
      assert ptes == Remap(m.ptes, b, pfn);
      InstallIs(ptes, x, pfn);
      if x !in ptes {
        ptes := ptes[x := pfn];
      }
      return None;
    }

    // The processor reaches virtual page x, with a fault when it is not mapped.
    method Reach(x: nat) returns (stop: Option<Stop>)
      requires Shape() && Inv(Abs()) && x / SUBPAGES < vmem.Length
      modifies this, vmem, phymem, ram, swap
      ensures match Touch(old(Abs()), x)
        case Done(r) => stop == None && Abs() == r
        case Stopped(why) => stop == Some(why)
    {
      InvDescriptors(Abs());
      hide Inv;
      hide Fault;
      hide DescriptorsOf;
      if x !in ptes {
        stop := HandleFault(x);
      } else {
        stop := None;
      }
    }

    // A load that stops, on the first page of a resident block, reads nothing.
    method Load(x: nat) returns (page: Option<Page>)
      requires Shape() && Inv(Abs()) && x / SUBPAGES < vmem.Length
      modifies this, vmem, phymem, ram, swap
      ensures match Access(old(Abs()), Op.Load(x))
        case Some((r, read)) => page == Some(read) && Abs() == r
        case None => page == None
    {
      hide Inv;
      hide Touch;
      hide Access;
      ghost var m := Abs();
      AccessReaches(m, Op.Load(x));
      var stop := Reach(x);
      if stop.Some? {
        return None;
      }
      AccessAfterReach(m, Op.Load(x), Abs());
      page := Some(ram[ptes[x] - BASE_PFN]);
    }

    method Store(x: nat, page: Page) returns (done: bool)
      requires Shape() && Inv(Abs()) && x / SUBPAGES < vmem.Length
      modifies this, vmem, phymem, ram, swap
      ensures match Access(old(Abs()), Op.Store(x, page))
        case Some((r, _)) => done && Abs() == r
        case None => !done
    {
      hide Inv;
      hide Touch;
      hide Access;
      ghost var m := Abs();
      AccessReaches(m, Op.Store(x, page));
      var stop := Reach(x);
      if stop.Some? {
        return false;
      }
      AccessAfterReach(m, Op.Store(x, page), Abs());
      ram[ptes[x] - BASE_PFN] := page;
      return true;
    }

    // Step 2 of main in user_copy.c: copy a buffer to every page of D blocks.
    method CopyIn(D: nat, buf: Page, ghost pass: Pass)
      requires Shape() && Inv(Abs()) && Whole(Abs()) && During(pass, Abs(), 0, D) && D <= vmem.Length
      modifies this, vmem, phymem, ram, swap
      ensures InRange(old(Abs()), Filling(D, buf)) && Abs() == Final(old(Abs()), Filling(D, buf))
      ensures Inv(Abs()) && FilledWith(Abs(), D * SUBPAGES, buf)
    {
      ghost var m := Abs();
      hide Inv;
      hide Access;
      hide Copied;
      hide Whole;
      hide During;
      hide Filling;
      hide FilledWith;
      hide Final;
      CopyBegins(pass, m, Filling(D, buf), D, buf);
      var dataSize := D * MY_PAGE_SIZE;
      var tmp, totalSize := 0, 0;
      while totalSize != dataSize
        invariant totalSize == tmp * PAGE_SIZE && tmp <= D * SUBPAGES
        invariant Copied(pass, m, Filling(D, buf), D, tmp, Abs(), tmp, buf)
        decreases D * SUBPAGES - tmp
      {
        CopiedStore(pass, m, D, tmp, Abs(), buf);
        var done := Store(tmp, buf);
        tmp := tmp + 1;
        totalSize := totalSize + PAGE_SIZE;
      }
      CopyEnds(pass, m, Filling(D, buf), D, Abs(), tmp, buf);
    }

    // Step 3: copy every page of the D blocks to the buffer.
    method CopyOut(D: nat, ghost buf: Page, ghost pass: Pass) returns (got: seq<Page>)
      requires Shape() && Inv(Abs()) && Whole(Abs()) && During(pass, Abs(), 0, D) && D <= vmem.Length
      requires FilledWith(Abs(), D * SUBPAGES, buf)
      modifies this, vmem, phymem, ram, swap
      ensures InRange(old(Abs()), Reading(D)) && Abs() == Final(old(Abs()), Reading(D))
      ensures Inv(Abs()) && |got| == D * SUBPAGES && forall page <- got :: page == buf
    {
      ghost var m := Abs();
      hide Inv;
      hide Access;
      hide Copied;
      hide Whole;
      hide During;
      hide Reading;
      hide FilledWith;
      hide Final;
      ReadBegins(pass, m, Reading(D), D, buf);
      got := [];
      var dataSize := D * MY_PAGE_SIZE;
      var tmp, totalSize := 0, 0;
      while totalSize != dataSize
        invariant totalSize == tmp * PAGE_SIZE && tmp <= D * SUBPAGES
        invariant Copied(pass, m, Reading(D), D, tmp, Abs(), D * SUBPAGES, buf)
        invariant |got| == tmp && forall page <- got :: page == buf
        decreases D * SUBPAGES - tmp
      {
        CopiedLoad(pass, m, D, tmp, Abs(), buf);
        var page := Load(tmp);
        got := got + [page.value];
        tmp := tmp + 1;
        totalSize := totalSize + PAGE_SIZE;
      }
      CopyEnds(pass, m, Reading(D), D, Abs(), D * SUBPAGES, buf);
    }

    // Steps 1 to 3: whatever was evicted meanwhile, the program reads back what it wrote, and the
    // counters show exactly how much was swapped.
    method UserCopy(D: nat, buf: Page) returns (got: seq<Page>)
      requires Shape() && ptes == map[] && D <= vmem.Length
      modifies this, vmem, phymem, ram, swap
      ensures |got| == D * SUBPAGES && forall page <- got :: page == buf
      ensures Inv(Abs())
      ensures D > phymem.Length ==>
        totalWrite == 2 * (D - phymem.Length) + 1 && totalRead == D - phymem.Length + 1
      ensures D <= phymem.Length ==> totalWrite == 0 && totalRead == 0
    {
      ghost var m := Abs();
      CopyCounts(m, D, buf);
      ResetStarts(m);
      hide Inv;
      hide Whole;
      hide FirstPass;
      hide During;
      hide Filling;
      hide Reading;
      hide FilledWith;
      hide Final;
      hide Reset;
      hide Unmapped;
      hide Traffic;
      MmReset();
      AfterFilling(Abs(), D, buf);
      CopyIn(D, buf, First);
      got := CopyOut(D, buf, NextPass(phymem.Length, D));
      TwoScans(Abs(), phymem.Length, D);
    }
  }

  lemma AccessReaches(m: Mem, op: Op)
    requires Inv(m) && op.x / SUBPAGES < |m.v|
    ensures Sized(m) && (Access(m, op).Some? <==> Touch(m, op.x).Done?)
  {
    TouchOutcome(m, op.x);
    InvSized(m);
    hide Inv;
    hide Touch;
  }

  lemma AccessAfterReach(m: Mem, op: Op, r: Mem)
    requires Inv(m) && op.x / SUBPAGES < |m.v| && Touch(m, op.x) == Done(r)
    ensures Translates(r, op.x)
    ensures op.Load? ==> Access(m, op) == Some((r, Fetch(r, op.x)))
    ensures op.Store? ==> Access(m, op) == Some((Put(r, op.x, op.page), op.page))
  {
    TouchOutcome(m, op.x);
    hide Inv;
    hide Touch;
    Translation(r, op.x);
  }

  // ---- The program of user_copy.c ----

  function Filling(D: nat, buf: Page): (ops: seq<Op>) {
    seq(D * SUBPAGES, x requires 0 <= x < D * SUBPAGES => Op.Store(x, buf))
  }

  function Reading(D: nat): (ops: seq<Op>) {
    seq(D * SUBPAGES, x requires 0 <= x < D * SUBPAGES => Op.Load(x))
  }

  predicate Holds(m: Mem, y: nat, buf: Page) {
    Sized(m) && Touched(m, y) && Cell(m, y) == buf
  }

  // The first n pages have been touched and hold buf.
  ghost predicate FilledWith(m: Mem, n: nat, buf: Page) {
    forall y: nat :: y < n ==> Holds(m, y, buf)
  }

  // Storing buf, or loading, changes no page that holds buf already.
  lemma StillHolds(m: Mem, op: Op, y: nat, buf: Page)
    requires Inv(m) && op.x / SUBPAGES < |m.v| && Access(m, op).Some? && Holds(m, y, buf)
    requires op.Store? ==> op.page == buf
    ensures Holds(Access(m, op).value.0, y, buf)
  {
    InvSized(Access(m, op).value.0);
    hide Inv;
    hide Access;
    hide Cell;
    AccessCell(m, op, y);
  }

  lemma InvSized(m: Mem)
    requires Inv(m)
    ensures Sized(m)
  {
  }

  lemma AccessHolds(m: Mem, op: Op)
    requires Inv(m) && op.x / SUBPAGES < |m.v| && Access(m, op).Some?
    ensures Holds(Access(m, op).value.0, op.x, Access(m, op).value.1)
    ensures op.Store? ==> Access(m, op).value.1 == op.page
    ensures op.Load? ==> forall buf :: Holds(m, op.x, buf) ==> Access(m, op).value.1 == buf
  {
    InvSized(Access(m, op).value.0);
    hide Inv;
    hide Access;
    hide Cell;
    AccessValue(m, op);
  }

  lemma FilledStore(m: Mem, n: nat, buf: Page)
    requires Inv(m) && n / SUBPAGES < |m.v| && FilledWith(m, n, buf) && Access(m, Op.Store(n, buf)).Some?
    ensures FilledWith(Access(m, Op.Store(n, buf)).value.0, n + 1, buf)
  {
    var op := Op.Store(n, buf);
    hide Inv;
    hide Access;
    hide Holds;
    AccessHolds(m, op);
    forall y: nat | y < n
      ensures Holds(Access(m, op).value.0, y, buf)
    {
      StillHolds(m, op, y, buf);
    }
  }

  lemma FilledLoad(m: Mem, x: nat, n: nat, buf: Page)
    requires Inv(m) && x / SUBPAGES < |m.v| && x < n && FilledWith(m, n, buf) && Access(m, Op.Load(x)).Some?
    ensures Access(m, Op.Load(x)).value.1 == buf
    ensures FilledWith(Access(m, Op.Load(x)).value.0, n, buf)
  {
    var op := Op.Load(x);
    hide Inv;
    hide Access;
    hide Holds;
    assert Holds(m, x, buf);
    AccessHolds(m, op);
    forall y: nat | y < n
      ensures Holds(Access(m, op).value.0, y, buf)
    {
      StillHolds(m, op, y, buf);
    }
  }

  // A scan that has copied x pages, has reached r, and finds buf in the first n pages.
  ghost predicate Copied(pass: Pass, m: Mem, ops: seq<Op>, D: nat, x: nat, r: Mem, n: nat, buf: Page) {
    && Inv(m) && ScanOf(m, ops, D) && x <= |ops| && InRange(m, ops[..x])
    && At(pass, m, ops, D, x) && r == Final(m, ops[..x]) && FilledWith(r, n, buf)
  }

  lemma CopyBegins(pass: Pass, m: Mem, ops: seq<Op>, D: nat, buf: Page)
    requires Inv(m) && Whole(m) && During(pass, m, 0, D) && D <= |m.v| && ops in {Filling(D, buf), Reading(D)}
    ensures Copied(pass, m, ops, D, 0, m, 0, buf)
  {
    CopyScans(m, D, buf);
    AtStart(pass, m, ops, D);
    assert ops[..0] == [];
    hide Inv;
    hide At;
  }

  lemma ReadBegins(pass: Pass, m: Mem, ops: seq<Op>, D: nat, buf: Page)
    requires Inv(m) && Whole(m) && During(pass, m, 0, D) && D <= |m.v| && ops == Reading(D)
    requires FilledWith(m, D * SUBPAGES, buf)
    ensures Copied(pass, m, ops, D, 0, m, D * SUBPAGES, buf)
  {
    hide Inv;
    hide At;
    hide FilledWith;
    hide During;
    hide Whole;
    CopyBegins(pass, m, ops, D, buf);
  }

  lemma CopyEnds(pass: Pass, m: Mem, ops: seq<Op>, D: nat, r: Mem, n: nat, buf: Page)
    requires Copied(pass, m, ops, D, D * SUBPAGES, r, n, buf)
    ensures InRange(m, ops) && r == Final(m, ops) && Inv(r) && FilledWith(r, n, buf)
  {
    assert ops[..D * SUBPAGES] == ops;
    hide Inv;
    hide At;
    hide FilledWith;
  }

  // The access with which the scan goes on.
  lemma CopiedNext(pass: Pass, m: Mem, ops: seq<Op>, D: nat, x: nat, r: Mem, n: nat, k: nat, buf: Page)
    requires Copied(pass, m, ops, D, x, r, n, buf) && x < |ops|
    ensures Inv(r) && ops[x].x == x && x / SUBPAGES < |r.v| && |r.v| == |m.v| && FilledWith(r, n, buf)
    ensures Access(r, ops[x]).Some?
    ensures FilledWith(Access(r, ops[x]).value.0, k, buf) ==>
      Copied(pass, m, ops, D, x + 1, Access(r, ops[x]).value.0, k, buf)
  {
    hide Inv;
    hide At;
    hide Access;
    hide Final;
    hide FilledWith;
    AtNext(pass, m, ops, D, x);
  }

  lemma CopiedStore(pass: Pass, m: Mem, D: nat, x: nat, r: Mem, buf: Page)
    requires Copied(pass, m, Filling(D, buf), D, x, r, x, buf) && x < D * SUBPAGES
    ensures Inv(r) && x / SUBPAGES < |r.v| && |r.v| == |m.v| && Access(r, Op.Store(x, buf)).Some?
    ensures Copied(pass, m, Filling(D, buf), D, x + 1, Access(r, Op.Store(x, buf)).value.0, x + 1, buf)
  {
    hide Inv;
    hide Access;
    hide Copied;
    hide FilledWith;
    CopiedNext(pass, m, Filling(D, buf), D, x, r, x, x + 1, buf);
    FilledStore(r, x, buf);
  }

  lemma CopiedLoad(pass: Pass, m: Mem, D: nat, x: nat, r: Mem, buf: Page)
    requires Copied(pass, m, Reading(D), D, x, r, D * SUBPAGES, buf) && x < D * SUBPAGES
    ensures Inv(r) && x / SUBPAGES < |r.v| && |r.v| == |m.v| && Access(r, Op.Load(x)).Some?
    ensures Access(r, Op.Load(x)).value.1 == buf
    ensures Copied(pass, m, Reading(D), D, x + 1, Access(r, Op.Load(x)).value.0, D * SUBPAGES, buf)
  {
    hide Inv;
    hide Access;
    hide Copied;
    hide FilledWith;
    CopiedNext(pass, m, Reading(D), D, x, r, D * SUBPAGES, D * SUBPAGES, buf);
    FilledLoad(r, x, D * SUBPAGES, buf);
  }

  lemma CopyScans(m: Mem, D: nat, buf: Page)
    requires D <= |m.v|
    ensures ScanOf(m, Filling(D, buf), D) && ScanOf(m, Reading(D), D)
    ensures InRange(m, Filling(D, buf)) && InRange(m, Reading(D))
  {
    ScanInRange(m, Filling(D, buf), D);
    ScanInRange(m, Reading(D), D);
  }

  function NextPass(M: nat, D: nat): Pass {
    if D <= M then Fitting else Later(0, D - M)
  }

  lemma FirstThenNext(r: Mem, D: nat)
    requires |r.p| > 0 && During(First, r, D, D)
    ensures During(NextPass(|r.p|, D), r, 0, D)
  {
    if D > |r.p| {
      hide During;
      FirstThenLater(r, D);
    }
  }

  lemma AfterFilling(z: Mem, D: nat, buf: Page)
    requires Inv(z) && Whole(z) && FirstPass(z, 0) && D <= |z.v|
    ensures During(First, z, 0, D) && InRange(z, Filling(D, buf))
    ensures var r := Final(z, Filling(D, buf));
      Whole(r) && During(NextPass(|z.p|, D), r, 0, D)
  {
    var filling := Filling(D, buf);
    CopyScans(z, D, buf);
    hide Inv;
    hide FirstPass;
    hide Filling;
    hide ScanOf;
    hide Whole;
    hide Values;
    hide During;
    ScanStarts(z, D);
    ScanEnds(First, z, filling, D);
    FirstThenNext(Final(z, filling), D);
  }

  lemma AfterTwo(z: Mem, a: seq<Op>, b: seq<Op>, D: nat)
    requires Inv(z) && ScanOf(z, a, D) && ScanOf(z, b, D)
    ensures InRange(z, a) && InRange(Final(z, a), b) && ScansOf(z, [a, b], D)
    ensures After(z, [a, b], D) == Final(Final(z, a), b)
  {
    hide Inv;
    hide ScanOf;
    AfterFirst(z, [a, b], D);
    assert [a, b][1..] == [b];
    AfterFirst(Final(z, a), [b], D);
    assert [b][1..] == [];
  }

  lemma ScanCounts(m: Mem, filling: seq<Op>, reading: seq<Op>, D: nat)
    requires Unmapped(m) && ScanOf(m, filling, D) && ScanOf(m, reading, D)
    ensures Inv(Reset(m)) && InRange(Reset(m), filling) && InRange(Final(Reset(m), filling), reading)
    ensures Traffic(Final(Final(Reset(m), filling), reading), |m.p|, D, 2)
  {
    var scans := [filling, reading];
    assert ScansOf(m, scans, D);
    hide Unmapped;
    SwapTrafficOfScans(m, scans, D);
    assert |Reset(m).v| == |m.v|;
    hide Inv;
    hide Reset;
    hide Complete;
    hide Traffic;
    AfterTwo(Reset(m), filling, reading, D);
  }

  lemma CopyCounts(m: Mem, D: nat, buf: Page)
    requires Unmapped(m) && D <= |m.v|
    ensures Inv(Reset(m)) && |Reset(m).v| == |m.v| && |Reset(m).p| == |m.p|
    ensures InRange(Reset(m), Filling(D, buf)) && InRange(Final(Reset(m), Filling(D, buf)), Reading(D))
    ensures Traffic(Final(Final(Reset(m), Filling(D, buf)), Reading(D)), |m.p|, D, 2)
  {
    CopyScans(m, D, buf);
    ScanCounts(m, Filling(D, buf), Reading(D), D);
  }

  lemma TwoScans(r: Mem, M: nat, D: nat)
    requires Traffic(r, M, D, 2)
    ensures D > M ==> r.totalWrite == 2 * (D - M) + 1 && r.totalRead == D - M + 1
    ensures D <= M ==> r.totalWrite == 0 && r.totalRead == 0
  {
  }

  // The state of evict_page once the frame has changed hands.
  function Handed(m: Mem, e: nat, b: nat): Mem
    requires HasFrame(m, e) && b < |m.v| && e != b
  {
    var m1 := WritePages(m, e);
    m1.(ptes := Zap(m1.ptes, e), v := m1.v[b := m1.v[b].(phy := m1.v[e].phy)][e := m1.v[e].(phy := None)])
  }

  lemma ZapIsZap(ptes: map<nat, nat>, e: nat)
    ensures (map x | x in ptes && !(e * SUBPAGES <= x < e * SUBPAGES + SUBPAGES) :: ptes[x]) == Zap(ptes, e)
  {
    forall x | x in ptes
      ensures x / SUBPAGES == e <==> e * SUBPAGES <= x < e * SUBPAGES + SUBPAGES
    {
      InBlock(e, x);
    }
  }

  // The first sector of a block is a page boundary.
  lemma SectorOfBlock(d: nat)
    ensures var sector := d * MY_PAGE_SIZE / SECTOR_SIZE;
      sector % SECTORS == 0 && sector / SECTORS == d * SUBPAGES
  {
  }

  lemma BlockFits(d: nat, n: nat)
    requires d < n
    ensures (d + 1) * SUBPAGES <= n * SUBPAGES
  {
  }

  lemma InBlock(d: nat, j: nat)
    ensures j / SUBPAGES == d <==> d * SUBPAGES <= j < d * SUBPAGES + SUBPAGES
    ensures j / SUBPAGES == d ==> j - d * SUBPAGES == j % SUBPAGES
  {
  }

  predicate InSpan(start: nat, count: nat, y: nat) {
    start <= y < start + count
  }

  function Span(start: nat, count: nat): set<nat> {
    set y: nat {:trigger InSpan(start, count, y)} | start <= y < start + count && InSpan(start, count, y)
  }

  // The entries of count pages from start, mapped to as many frames from pfn.
  function WithSpan(ptes: map<nat, nat>, start: nat, pfn: nat, count: nat): map<nat, nat> {
    ptes + map y | y in Span(start, count) :: pfn + (y - start)
  }

  lemma NoSpan(ptes: map<nat, nat>, start: nat, pfn: nat)
    ensures Span(start, 0) == {} && WithSpan(ptes, start, pfn, 0) == ptes
  {
    assert Span(start, 0) == {};
  }

  lemma SpanNext(ptes: map<nat, nat>, start: nat, pfn: nat, i: nat, count: nat)
    requires i < count && ptes.Keys * Span(start, i) == {}
    ensures start + i in WithSpan(ptes, start, pfn, i) ==> ptes.Keys * Span(start, count) != {}
    ensures start + i !in WithSpan(ptes, start, pfn, i) ==>
      && ptes.Keys * Span(start, i + 1) == {}
      && WithSpan(ptes, start, pfn, i + 1) == WithSpan(ptes, start, pfn, i)[start + i := pfn + i]
  {
    forall y: nat
      ensures InSpan(start, i + 1, y) <==> InSpan(start, i, y) || y == start + i
    {
    }
    assert Span(start, i + 1) == Span(start, i) + {start + i};
    assert InSpan(start, count, start + i);
    assert start + i in ptes ==> start + i in ptes.Keys * Span(start, count);
  }

  lemma SpanIsRest(ptes: map<nat, nat>, b: nat, pfn: nat)
    ensures Span(b * SUBPAGES + 1, SUBPAGES - 1) == Rest(b)
    ensures WithSpan(ptes, b * SUBPAGES + 1, pfn + 1, SUBPAGES - 1) == Remap(ptes, b, pfn)
  {
    var start, count := b * SUBPAGES + 1, SUBPAGES - 1;
    assert Span(start, count) == Rest(b) by {
      forall y: nat
        ensures InSpan(start, count, y) <==> InRest(b, y)
      {
      }
    }
    forall y | y in Rest(b)
      ensures pfn + 1 + (y - start) == pfn + y % SUBPAGES
    {
      InBlock(b, y);
    }
  }

  lemma FrameInRange(m: Mem, b: nat)
    requires HasFrame(m, b)
    ensures m.v[b].phy.value < |m.p|
  {
  }

  lemma InstallIs(ptes: map<nat, nat>, x: nat, pfn: nat)
    ensures Install(ptes, x, pfn) == if x in ptes then ptes else ptes[x := pfn]
  {
  }

  lemma DescriptorId(m: Mem, b: nat)
    requires Descriptors(m) && b < |m.v|
    ensures m.v[b].id == b && (m.v[b].status == InMem <==> m.v[b].phy.Some?)
  {
  }

  lemma FillShape(m: Mem, b: nat)
    requires Descriptors(m) && b < |m.v| && m.v[b].status != InMem
    ensures Fill(m, b).Done? ==>
      var r := Fill(m, b).mem;
      Sized(r) && |r.v| == |m.v| && r.v[b].id == b && r.v[b].status == InMem
  {
    if FirstFree(m.p, 0) == None && FirstResident(m.v, 0).Some? {
      EvictEffect(m, FirstResident(m.v, 0).value, b);
    }
  }
}
