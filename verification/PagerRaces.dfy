// Stores by other threads while evict_page is at work: after the victim has been written out, and
// before its page-table entries are removed, they still reach its frame.
module PagerRaces {
  import opened Options
  import opened PagerModel
  import opened PagerProofs

  // evict_page after write_pages.
  function EvictRest(m: Mem, e: nat, b: nat): Mem
    requires HasFrame(m, e) && b < |m.v| && e != b
  {
    var m2 := m.(ptes := Zap(m.ptes, e));
    var m3 := m2.(v := m2.v[b := m2.v[b].(phy := m2.v[e].phy)][e := m2.v[e].(phy := None)]);
    var m4 := if m3.v[b].status == InSwap then ReadPages(m3, b) else m3;
    m4.(v := m4.v[b := m4.v[b].(status := InMem)])
  }

  datatype Write = Write(x: nat, page: Page)

  // Every store goes through an entry that is present.
  predicate Live(m: Mem, ws: seq<Write>) {
    forall w <- ws :: Translates(m, w.x)
  }

  function StoreAll(m: Mem, ws: seq<Write>): (r: Mem)
    requires Live(m, ws)
    ensures r == m.(ram := r.ram) && |r.ram| == |m.ram|
    decreases |ws|
  {
    if ws == [] then m else StoreAll(Put(m, ws[0].x, ws[0].page), ws[1..])
  }

  // What a page holds after the stores, in a flat memory.
  function Latest(ws: seq<Write>, y: nat, was: Page): Page
    decreases |ws|
  {
    if ws == [] then was else Latest(ws[1..], y, if ws[0].x == y then ws[0].page else was)
  }

  // Eviction of e for b, with the stores ws between writing out and removing the entries.
  function RacedEvict(m: Mem, e: nat, b: nat, ws: seq<Write>): Mem
    requires HasFrame(m, e) && b < |m.v| && e != b && Live(m, ws)
  {
    StoresAfterWriteOut(m, e, ws);
    EvictRest(StoreAll(WritePages(m, e), ws), e, b)
  }

  // write_pages leaves memory and entries as they are.
  lemma StoresAfterWriteOut(m: Mem, e: nat, ws: seq<Write>)
    requires HasFrame(m, e) && Live(m, ws)
    ensures Live(WritePages(m, e), ws)
    ensures StoreAll(WritePages(m, e), ws) == WritePages(m, e).(ram := StoreAll(m, ws).ram)
  {
    SameRam(m, WritePages(m, e), ws);
  }

  lemma {:induction false} SameRam(m: Mem, n: Mem, ws: seq<Write>)
    requires Live(m, ws) && n.ram == m.ram && n.ptes == m.ptes
    ensures Live(n, ws) && StoreAll(n, ws).ram == StoreAll(m, ws).ram
    decreases |ws|
  {
    if ws != [] {
      SameRam(Put(m, ws[0].x, ws[0].page), Put(n, ws[0].x, ws[0].page), ws[1..]);
    }
  }

  // Without stores, it is the eviction of the sequential model.
  lemma NoRace(m: Mem, e: nat, b: nat)
    requires HasFrame(m, e) && b < |m.v| && e != b
    ensures RacedEvict(m, e, b, []) == Evict(m, e, b)
  {
  }

  lemma {:induction false} StoreAllCells(m: Mem, ws: seq<Write>, y: nat)
    requires Inv(m) && Live(m, ws) && Touched(m, y)
    ensures Inv(StoreAll(m, ws)) && Touched(StoreAll(m, ws), y)
    ensures Cell(StoreAll(m, ws), y) == Latest(ws, y, Cell(m, y))
    decreases |ws|
  {
    hide Cell;
    InvSized(m);
    if ws != [] {
      var w := ws[0];
      PutKeeps(m, w.x, w.page);
      PutCell(m, w.x, w.page, y);
      StoreAllCells(Put(m, w.x, w.page), ws[1..], y);
    }
    InvSized(StoreAll(m, ws));
    hide Inv;
  }

  lemma InvSized(m: Mem)
    requires Inv(m)
    ensures Sized(m)
  {
  }

  // An eviction that writes out memory as it is in m and works on as it is in n, against the one
  // that starts in n: only the slot of the victim differs.
  lemma SlotDiffers(m: Mem, n: Mem, e: nat, b: nat)
    requires HasFrame(m, e) && b < |m.v| && e != b && n == m.(ram := n.ram) && |n.ram| == |m.ram|
    ensures HasFrame(n, e)
    ensures var r, s := EvictRest(WritePages(m, e).(ram := n.ram), e, b), Evict(n, e, b);
      && r == s.(swap := r.swap) && r.swap == CopyBlock(m.swap, e, m.ram, Frame(m, e))
      && s.swap == CopyBlock(m.swap, e, n.ram, Frame(m, e))
  {
    var f := Frame(m, e);
    SameBlock(CopyBlock(m.swap, e, m.ram, f), CopyBlock(m.swap, e, n.ram, f), n.ram, f, b);
    hide CopyBlock;
  }

  lemma RacedSlot(m: Mem, e: nat, b: nat, ws: seq<Write>)
    requires HasFrame(m, e) && b < |m.v| && e != b && Live(m, ws)
    ensures HasFrame(StoreAll(m, ws), e)
    ensures var r, s := RacedEvict(m, e, b, ws), Evict(StoreAll(m, ws), e, b);
      && r == s.(swap := r.swap) && r.swap == CopyBlock(m.swap, e, m.ram, Frame(m, e))
      && s.swap == CopyBlock(m.swap, e, StoreAll(m, ws).ram, Frame(m, e))
  {
    hide Live;
    hide StoreAll;
    hide EvictRest;
    hide Evict;
    hide WritePages;
    hide CopyBlock;
    StoresAfterWriteOut(m, e, ws);
    SlotDiffers(m, StoreAll(m, ws), e, b);
  }

  lemma SameBlock(a: seq<Page>, c: seq<Page>, ram: seq<Page>, f: nat, b: nat)
    requires (b + 1) * SUBPAGES <= |a| == |c|
    requires forall j :: b * SUBPAGES <= j < (b + 1) * SUBPAGES ==> a[j] == c[j]
    ensures CopyBlock(ram, f, a, b) == CopyBlock(ram, f, c, b)
  {
  }

  // A page that is neither in block e nor in a frame has its content in its slot, as before.
  lemma OtherSlot(r: Mem, s: Mem, y: nat)
    requires Sized(s) && r == s.(swap := r.swap) && |r.swap| == |s.swap|
    requires y / SUBPAGES < |s.v| && (Resides(s.v, y) || r.swap[y] == s.swap[y])
    ensures Sized(r) && Cell(r, y) == Cell(s, y)
  {
  }

  lemma VictimSlot(m: Mem, r: Mem, e: nat, y: nat)
    requires HasFrame(m, e) && y / SUBPAGES == e
    requires Sized(r) && |r.v| == |m.v| && r.v[e].phy == None
    requires r.swap == CopyBlock(m.swap, e, m.ram, Frame(m, e))
    ensures Cell(r, y) == Cell(m, y)
  {
  }

  // After the eviction, the pages of the victim are what they were when it was written out, and all
  // others are what a flat memory has after the stores.
  lemma RacedCell(m: Mem, e: nat, b: nat, ws: seq<Write>, y: nat)
    requires Inv(m) && Swaps(m, e, b) && Live(m, ws) && Touched(m, y)
    ensures HasFrame(m, e) && Sized(RacedEvict(m, e, b, ws)) && |RacedEvict(m, e, b, ws).v| == |m.v|
    ensures Cell(RacedEvict(m, e, b, ws), y) ==
            if y / SUBPAGES == e then Cell(m, y) else Latest(ws, y, Cell(m, y))
  {
    hide Inv;
    hide StoreAll;
    hide Live;
    hide Cell;
    hide RacedEvict;
    hide Latest;
    hide Evict;
    VictimHasFrame(m, e);
    var n := StoreAll(m, ws);
    StoreAllCells(m, ws, y);
    RacedSlot(m, e, b, ws);
    InvDescriptors(n);
    EvictKeepsCell(n, e, b, y);
    EvictEffect(n, e, b);
    hide DescriptorsOf;
    hide BooksOf;
    var r, s := RacedEvict(m, e, b, ws), Evict(n, e, b);
    if y / SUBPAGES == e {
      VictimSlot(m, r, e, y);
    } else {
      OtherSlot(r, s, y);
    }
  }

  lemma VictimHasFrame(m: Mem, e: nat)
    requires Inv(m) && e < |m.v| && m.v[e].status == InMem
    ensures HasFrame(m, e)
  {
  }

  // A store to the victim is lost, whatever it stores.
  lemma StoreIsLost(m: Mem, e: nat, b: nat, w: Write)
    requires Inv(m) && Swaps(m, e, b) && Live(m, [w]) && w.x / SUBPAGES == e
    ensures HasFrame(m, e) && Sized(RacedEvict(m, e, b, [w])) && |RacedEvict(m, e, b, [w]).v| == |m.v|
    ensures Cell(RacedEvict(m, e, b, [w]), w.x) == Cell(m, w.x)
  {
    hide Inv;
    hide Cell;
    RacedCell(m, e, b, [w], w.x);
  }

  // The pager is a flat memory over such an eviction if and only if the stores leave every page of
  // the victim with the content it had when it was written out.
  lemma FlatMemoryExactly(m: Mem, e: nat, b: nat, ws: seq<Write>)
    requires Inv(m) && Swaps(m, e, b) && Live(m, ws)
    ensures Sized(m) && HasFrame(m, e)
    ensures var r := RacedEvict(m, e, b, ws);
      && Sized(r) && |r.v| == |m.v|
      && ((forall y: nat :: Touched(m, y) ==> Cell(r, y) == Latest(ws, y, Cell(m, y))) <==>
          (forall y: nat :: y / SUBPAGES == e ==> Latest(ws, y, Cell(m, y)) == Cell(m, y)))
  {
    VictimHasFrame(m, e);
    hide Inv;
    hide Cell;
    hide RacedEvict;
    hide Latest;
    BlockIndex(e, 0);
    RacedCell(m, e, b, ws, e * SUBPAGES);
    forall y: nat | Touched(m, y)
      ensures Cell(RacedEvict(m, e, b, ws), y) ==
              if y / SUBPAGES == e then Cell(m, y) else Latest(ws, y, Cell(m, y))
    {
      RacedCell(m, e, b, ws, y);
    }
    assert forall y: nat :: y / SUBPAGES == e ==> Touched(m, y);
  }
}
