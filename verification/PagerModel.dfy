// The demand pager of pcie_mm.c and pcie_swap.c as functions on values. Virtual blocks of 4 MiB
// live in fewer physical frames; each block has its own slot on the swap device.
module PagerModel {
  import opened Options

  // MY_PAGE_SIZE / PAGE_SIZE, and RESERVED_PHYS_ADDR >> PAGE_SHIFT.
  const SUBPAGES := 1024
  const BASE_PFN := 0x40_0000

  // The content of a 4 KiB page.
  type Page = seq<int>

  datatype VStatus = InMem | InSwap | NoMap
  datatype PStatus = Free | InUse | SwapCache

  datatype Vmem = Vmem(phy: Option<nat>, status: VStatus, id: nat)
  datatype Phys = Phys(status: PStatus, pfn: nat, writeCnt: nat, readCnt: nat)

  // The descriptors, the pages of the reserved memory and of the swap device, the page table
  // (from virtual page number to page frame number), and the two counters.
  datatype Mem = Mem(
    v: seq<Vmem>,
    p: seq<Phys>,
    ram: seq<Page>,
    swap: seq<Page>,
    ptes: map<nat, nat>,
    totalRead: nat,
    totalWrite: nat)

  // Why a fault does not end: the four BUG() sites, and a remap over entries already present.
  datatype Stop = MappedButAbsent | ResidentWithoutFrame | NoVictim | FilledWithoutFrame | RemapBusy

  datatype Outcome = Done(mem: Mem) | Stopped(why: Stop)

  predicate Sized(m: Mem) {
    |m.ram| == |m.p| * SUBPAGES && |m.swap| == |m.v| * SUBPAGES &&
    forall i :: 0 <= i < |m.v| && m.v[i].phy.Some? ==> m.v[i].phy.value < |m.p|
  }

  function FirstFree(p: seq<Phys>, from: nat): (r: Option<nat>)
    requires from <= |p|
    ensures r.Some? ==> from <= r.value < |p| && p[r.value].status == Free
    ensures forall i :: from <= i < (if r.Some? then r.value else |p|) ==> p[i].status != Free
    decreases |p| - from
  {
    if from == |p| then None
    else if p[from].status == Free then Some(from)
    else FirstFree(p, from + 1)
  }

  function FirstResident(v: seq<Vmem>, from: nat): (r: Option<nat>)
    requires from <= |v|
    ensures r.Some? ==> from <= r.value < |v| && v[r.value].status == InMem
    ensures forall i :: from <= i < (if r.Some? then r.value else |v|) ==> v[i].status != InMem
    decreases |v| - from
  {
    if from == |v| then None
    else if v[from].status == InMem then Some(from)
    else FirstResident(v, from + 1)
  }

  // dst with its block d replaced by block s of src.
  function CopyBlock(dst: seq<Page>, d: nat, src: seq<Page>, s: nat): (r: seq<Page>)
    requires (s + 1) * SUBPAGES <= |src|
    ensures |r| == |dst|
    ensures forall j {:trigger r[j]} :: 0 <= j < |dst| ==>
      r[j] == if j / SUBPAGES == d then src[s * SUBPAGES + j % SUBPAGES] else dst[j]
  {
    seq(|dst|, j requires 0 <= j < |dst| =>
      if j / SUBPAGES == d then src[s * SUBPAGES + j % SUBPAGES] else dst[j])
  }

  predicate HasFrame(m: Mem, b: nat) {
    Sized(m) && b < |m.v| && m.v[b].phy.Some?
  }

  function WritePages(m: Mem, e: nat): Mem
    requires HasFrame(m, e)
  {
    var f := m.v[e].phy.value;
    m.(swap := CopyBlock(m.swap, e, m.ram, f),
       v := m.v[e := m.v[e].(status := InSwap)],
       p := m.p[f := m.p[f].(writeCnt := m.p[f].writeCnt + 1)],
       totalWrite := m.totalWrite + 1)
  }

  function ReadPages(m: Mem, b: nat): Mem
    requires HasFrame(m, b)
  {
    var f := m.v[b].phy.value;
    m.(ram := CopyBlock(m.ram, f, m.swap, b),
       p := m.p[f := m.p[f].(readCnt := m.p[f].readCnt + 1)],
       totalRead := m.totalRead + 1)
  }

  function Zap(ptes: map<nat, nat>, e: nat): map<nat, nat> {
    map x | x in ptes && x / SUBPAGES != e :: ptes[x]
  }

  // Block e gives its frame to block b.
  function Evict(m: Mem, e: nat, b: nat): Mem
    requires HasFrame(m, e) && b < |m.v| && e != b
  {
    var m1 := WritePages(m, e);
    var m2 := m1.(ptes := Zap(m1.ptes, e));
    var m3 := m2.(v := m2.v[b := m2.v[b].(phy := m2.v[e].phy)][e := m2.v[e].(phy := None)]);
    var m4 := if m3.v[b].status == InSwap then ReadPages(m3, b) else m3;
    m4.(v := m4.v[b := m4.v[b].(status := InMem)])
  }

  // The lowest-numbered free frame, or else the frame of the lowest-numbered resident block.
  function Fill(m: Mem, b: nat): Outcome
    requires Sized(m) && b < |m.v|
    requires m.v[b].status != InMem
  {
    match FirstFree(m.p, 0)
    case Some(f) =>
      var m1 := m.(v := m.v[b := m.v[b].(phy := Some(f))]);
      var m2 := if m1.v[b].status == InSwap then ReadPages(m1, b) else m1;
      Done(m2.(p := m2.p[f := m2.p[f].(status := InUse)],
               v := m2.v[b := m2.v[b].(status := InMem)]))
    case None =>
      match FirstResident(m.v, 0)
      case None => Stopped(NoVictim)
      case Some(e) =>
        if m.v[e].phy == None then Stopped(ResidentWithoutFrame) else Done(Evict(m, e, b))
  }

  // The virtual pages of a block that remap_pfn_range maps: all but the first.
  predicate InRest(b: nat, x: nat) {
    b * SUBPAGES < x < (b + 1) * SUBPAGES
  }

  function Rest(b: nat): set<nat> {
    set x: nat {:trigger InRest(b, x)} | 0 <= x < (b + 1) * SUBPAGES && InRest(b, x)
  }

  function Remap(ptes: map<nat, nat>, b: nat, pfn: nat): map<nat, nat> {
    ptes + map y | y in Rest(b) :: pfn + y % SUBPAGES
  }

  function Install(ptes: map<nat, nat>, x: nat, pfn: nat): map<nat, nat> {
    if x in ptes then ptes else ptes[x := pfn]
  }

  // Map block b after a fault on virtual page x: the remap, then the page handed back in vmf->page,
  // which is the first of the frame and goes where the fault was unless something is mapped there.
  function MapBlock(m: Mem, b: nat, x: nat): Outcome
    requires HasFrame(m, b) && m.v[b].phy.value < |m.p|
  {
    var pfn := m.p[m.v[b].phy.value].pfn;
    if m.ptes.Keys * Rest(b) != {} then Stopped(RemapBusy)
    else
      Done(m.(ptes := Install(Remap(m.ptes, b, pfn), x, pfn)))
  }

  function Fault(m: Mem, x: nat): Outcome
    requires Sized(m) && x < |m.v| * SUBPAGES
  {
    var b := x / SUBPAGES;
    if m.v[b].status == InMem then
      if m.v[b].phy == None then Stopped(FilledWithoutFrame) else MapBlock(m, b, x)
    else if m.v[b].phy.Some? then Stopped(MappedButAbsent)
    else
      match Fill(m, b)
      case Stopped(why) => Stopped(why)
      case Done(m1) =>
        if HasFrame(m1, b) then MapBlock(m1, b, x) else Stopped(FilledWithoutFrame)
  }

  // pcie_mm_reset. The read and write counts of frame 0 are cleared, those of the others are not.
  function Reset(m: Mem): Mem {
    m.(v := seq(|m.v|, i requires 0 <= i < |m.v| => Vmem(None, NoMap, i)),
       p := seq(|m.p|, f requires 0 <= f < |m.p| =>
              if f == 0 then Phys(Free, BASE_PFN, 0, 0)
              else m.p[f].(status := Free, pfn := BASE_PFN + f * SUBPAGES)),
       totalRead := 0, totalWrite := 0)
  }

  // Memory sized as the driver's constants size it, and nothing mapped.
  predicate Unmapped(m: Mem) {
    |m.ram| == |m.p| * SUBPAGES && |m.swap| == |m.v| * SUBPAGES && |m.p| > 0 && m.ptes == map[]
  }

  // ---- Accesses by the program that has mapped the device ----

  datatype Op = Load(x: nat) | Store(x: nat, page: Page)

  // The page an access reaches through the page table, after a fault if it has none.
  function Touch(m: Mem, x: nat): Outcome
    requires Sized(m) && x < |m.v| * SUBPAGES
  {
    if x in m.ptes then Done(m) else Fault(m, x)
  }

  predicate Translates(m: Mem, x: nat) {
    x in m.ptes && BASE_PFN <= m.ptes[x] < BASE_PFN + |m.ram|
  }

  function Fetch(m: Mem, x: nat): Page
    requires Translates(m, x)
  {
    m.ram[m.ptes[x] - BASE_PFN]
  }

  function Put(m: Mem, x: nat, page: Page): Mem
    requires Translates(m, x)
  {
    m.(ram := m.ram[m.ptes[x] - BASE_PFN := page])
  }
}
