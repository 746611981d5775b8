// virt_set_memmap and virt_kvm_type of the emulated machine: where the high regions go, and how
// many address bits they need.
module VirtMemmap {
  import opened Arithmetic

  const MiB := 0x10_0000
  const GiB := 0x4000_0000
  const TWO64 := 0x1_0000_0000_0000_0000

  type u64 = x: int | 0 <= x < 0x1_0000_0000_0000_0000

  type size64 = x: int | 0 < x < 0x1_0000_0000_0000_0000 witness 1

  // An entry of the memory map.
  datatype Region = Region(base: u64, size: u64)

  // VIRT_MEM, the entry of RAM in base_memmap.
  const VIRT_MEM := 1
  const LEGACY_RAMLIMIT_BYTES := 255 * GiB
  const RAM := Region(GiB, LEGACY_RAMLIMIT_BYTES)

  // The sizes in extended_memmap, from VIRT_LOWMEMMAP_LAST on.
  const HIGH_SIZES: seq<size64> := [64 * MiB, 256 * MiB, 512 * GiB]

  // What unsigned 64-bit arithmetic keeps of n.
  function Wrap(n: int): u64 {
    n % TWO64
  }

  // The least multiple of d not below n.
  function RoundUp(n: nat, d: nat): (r: nat)
    requires d > 0
  {
    (n + d - 1) / d * d
  }

  function RoundUp64(n: u64, d: u64): u64
    requires d > 0
  {
    Wrap(RoundUp(n, d))
  }

  // ---- Rounding ----

  // RoundUp is a multiple, not below n, and no larger than any other such.
  lemma RoundUpLeast(n: nat, d: nat)
    requires d > 0
    ensures n <= RoundUp(n, d) < n + d && RoundUp(n, d) % d == 0
    ensures forall m: nat {:trigger m % d} :: n <= m && m % d == 0 ==> RoundUp(n, d) <= m
  {
    var q := (n + d - 1) / d;
    DivModDef(n + d - 1, d);
    MultipleMod(q, d);
    assert RoundUp(n, d) == q * d;
    hide RoundUp;
    forall m: nat | n <= m && m % d == 0
      ensures q * d <= m
    {
      NoSmallerMultiple(n, d, q, m);
    }
  }

  lemma NoSmallerMultiple(n: nat, d: nat, q: nat, m: nat)
    requires d > 0 && n <= m && m % d == 0 && q * d < n + d
    ensures q * d <= m
  {
    DivModDef(m, d);
    if m / d < q {
      Larger(m / d, q, d);
    }
  }

  lemma RoundUpFixed(n: nat, d: nat)
    requires d > 0 && n % d == 0
    ensures RoundUp(n, d) == n
  {
    RoundUpLeast(n, d);
    hide RoundUp;
  }

  lemma NoWrap(n: nat)
    requires n < TWO64
    ensures Wrap(n) == n
  {
  }

  lemma WrapKeepsMultiple(n: nat)
    requires n % GiB == 0
    ensures Wrap(n) % GiB == 0
  {
  }

  // ---- The layout, as the code computes it ----

  // The regions of the given sizes placed from base on, and the base after them.
  function Place(base: u64, sizes: seq<size64>): (seq<Region>, u64)
    decreases |sizes|
  {
    if sizes == [] then ([], base)
    else
      var b := RoundUp64(base, sizes[0]);
      var (rest, end) := Place(Wrap(b + sizes[0]), sizes[1..]);
      ([Region(b, sizes[0])] + rest, end)
  }

  lemma PlaceNext(base: u64, sizes: seq<size64>)
    requires sizes != []
    ensures var b := RoundUp64(base, sizes[0]);
      var (rest, end) := Place(Wrap(b + sizes[0]), sizes[1..]);
      Place(base, sizes) == ([Region(b, sizes[0])] + rest, end)
  {
  }

  lemma PlaceNone(base: u64, sizes: seq<size64>)
    requires sizes == []
    ensures Place(base, sizes) == ([], base)
  {
  }

  datatype Layout =
    | TooManySlots
    | TooHuge
    | Laid(deviceBase: u64, deviceSize: u64, high: seq<Region>, highestGpa: u64)

  function DeviceSize(ram: u64, maxram: u64, slots: u64): u64 {
    Wrap(maxram - ram + slots * GiB)
  }

  function LayoutOf(ram: u64, maxram: u64, slots: u64, maxSlots: u64): Layout {
    if slots > maxSlots then TooManySlots
    else
      var deviceBase := RoundUp64(Wrap(GiB + ram), GiB);
      var deviceSize := DeviceSize(ram, maxram, slots);
      var base := Wrap(deviceBase + RoundUp64(deviceSize, GiB));
      if base < deviceBase then TooHuge
      else
        var (high, end) := Place(Floor(base), HIGH_SIZES);
        Laid(deviceBase, deviceSize, high, Wrap(end - 1))
  }

  // The high regions never start below the end of the legacy RAM limit.
  function Floor(base: u64): u64 {
    if base < GiB + LEGACY_RAMLIMIT_BYTES then GiB + LEGACY_RAMLIMIT_BYTES else base
  }

  // ---- What a layout should be ----

  // Regions one above the other from a given address on, each aligned to its own size.
  predicate Stacked(from: nat, regions: seq<Region>)
    decreases |regions|
  {
    regions == [] ||
    var r := regions[0];
    from <= r.base && r.size > 0 && r.base % r.size == 0 && Stacked(r.base + r.size, regions[1..])
  }

  function Top(from: nat, regions: seq<Region>): nat
    decreases |regions|
  {
    if regions == [] then from else Top(regions[0].base + regions[0].size, regions[1..])
  }

  predicate SizedAs(regions: seq<Region>, sizes: seq<size64>) {
    |regions| == |sizes| && forall i :: 0 <= i < |sizes| ==> regions[i].size == sizes[i]
  }

  // Device memory above RAM, the high regions above both, everything within 64 bits.
  predicate Sound(l: Layout, ram: u64) {
    && l.Laid? && GiB + ram <= l.deviceBase
    && Stacked(l.deviceBase + l.deviceSize, l.high) && SizedAs(l.high, HIGH_SIZES)
    && l.high != [] && Top(0, l.high) <= TWO64 && l.highestGpa == Top(0, l.high) - 1
  }

  lemma {:induction false} StackedDisjoint(from: nat, regions: seq<Region>, i: nat, j: nat)
    requires Stacked(from, regions) && i < |regions|
    ensures from <= regions[i].base && regions[i].size > 0 && regions[i].base % regions[i].size == 0
    ensures i < j < |regions| ==> regions[i].base + regions[i].size <= regions[j].base
    ensures regions[i].base + regions[i].size <= Top(from, regions)
    decreases |regions|
  {
    var r := regions[0];
    if i > 0 {
      StackedDisjoint(r.base + r.size, regions[1..], i - 1, if j > 0 then j - 1 else 0);
    } else {
      if 0 < j < |regions| {
        StackedDisjoint(r.base + r.size, regions[1..], j - 1, j - 1);
      }
      TopAbove(r.base + r.size, regions[1..]);
    }
  }

  lemma {:induction false} TopAbove(from: nat, regions: seq<Region>)
    requires Stacked(from, regions)
    ensures from <= Top(from, regions)
    decreases |regions|
  {
    if regions != [] {
      TopAbove(regions[0].base + regions[0].size, regions[1..]);
    }
  }

  // The least address at which regions of these sizes, placed from base on, can end.
  function LeastTop(base: nat, sizes: seq<size64>): nat
    decreases |sizes|
  {
    if sizes == [] then base else LeastTop(RoundUp(base, sizes[0]) + sizes[0], sizes[1..])
  }

  lemma {:induction false} LeastTopAbove(base: nat, sizes: seq<size64>)
    ensures base <= LeastTop(base, sizes) && (sizes != [] ==> base < LeastTop(base, sizes))
    decreases |sizes|
  {
    if sizes != [] {
      RoundUpLeast(base, sizes[0]);
      LeastTopAbove(RoundUp(base, sizes[0]) + sizes[0], sizes[1..]);
    }
  }

  // No stack of these sizes above base ends lower.
  lemma {:induction false} LeastTopIsLeast(base: nat, from: nat, regions: seq<Region>, sizes: seq<size64>)
    requires SizedAs(regions, sizes) && Stacked(from, regions) && base <= from
    ensures LeastTop(base, sizes) <= Top(from, regions)
    decreases |sizes|
  {
    if sizes != [] {
      var r := regions[0];
      RoundUpLeast(base, sizes[0]);
      LeastTopIsLeast(RoundUp(base, sizes[0]) + sizes[0], r.base + r.size, regions[1..], sizes[1..]);
    }
  }

  // While nothing exceeds 64 bits, the loop places the regions in a stack that ends as low as any.
  lemma {:induction false} PlaceStacks(base: u64, sizes: seq<size64>)
    requires sizes != [] && LeastTop(base, sizes) <= TWO64
    ensures var (regions, end) := Place(base, sizes);
      && SizedAs(regions, sizes) && Stacked(base, regions)
      && Top(base, regions) == LeastTop(base, sizes) && end == Wrap(LeastTop(base, sizes))
    decreases |sizes|
  {
    var b := RoundUp(base, sizes[0]);
    RoundUpLeast(base, sizes[0]);
    hide RoundUp;
    LeastTopAbove(b + sizes[0], sizes[1..]);
    NoWrap(b);
    if |sizes| > 1 {
      NoWrap(b + sizes[0]);
      hide Wrap;
      PlaceStacks(b + sizes[0], sizes[1..]);
    } else {
      hide Wrap;
      assert sizes[1..] == [];
    }
  }

  // ---- When the layout is sound ----

  // Where the high regions may start: above RAM and device memory, each rounded up to a GiB.
  function HighStart(ram: u64, deviceSize: nat): nat {
    var above := RoundUp(GiB + ram, GiB) + RoundUp(deviceSize, GiB);
    if above < GiB + LEGACY_RAMLIMIT_BYTES then GiB + LEGACY_RAMLIMIT_BYTES else above
  }

  // Everything, rounded up, fits in 64 bits, for device memory of this size.
  predicate Fits(ram: u64, deviceSize: nat) {
    LeastTop(HighStart(ram, deviceSize), HIGH_SIZES) <= TWO64
  }

  lemma HighStartBound(ram: u64, deviceSize: nat)
    requires Fits(ram, deviceSize)
    ensures HighStart(ram, deviceSize) < TWO64
  {
    LeastTopAbove(HighStart(ram, deviceSize), HIGH_SIZES);
  }

  lemma TopFromAnywhere(a: nat, b: nat, regions: seq<Region>)
    requires regions != []
    ensures Top(a, regions) == Top(b, regions)
  {
  }

  lemma StackedLower(a: nat, b: nat, regions: seq<Region>)
    requires Stacked(b, regions) && a <= b
    ensures Stacked(a, regions)
  {
  }

  // The base the code computes before the floor, when it does not wrap.
  lemma BaseBelowFloor(ram: u64, deviceSize: u64)
    requires HighStart(ram, deviceSize) < TWO64
    ensures GiB + ram <= RoundUp(GiB + ram, GiB) && deviceSize <= RoundUp(deviceSize, GiB)
    ensures Wrap(GiB + ram) == GiB + ram
    ensures RoundUp64(GiB + ram, GiB) == RoundUp(GiB + ram, GiB)
    ensures RoundUp64(deviceSize, GiB) == RoundUp(deviceSize, GiB)
    ensures var base := Wrap(RoundUp(GiB + ram, GiB) + RoundUp(deviceSize, GiB));
      && base == RoundUp(GiB + ram, GiB) + RoundUp(deviceSize, GiB)
      && Floor(base) == HighStart(ram, deviceSize)
  {
    hide RoundUp;
    hide Wrap;
    RoundUpLeast(GiB + ram, GiB);
    RoundUpLeast(deviceSize, GiB);
    NoWrap(GiB + ram);
    NoWrap(RoundUp(GiB + ram, GiB));
    NoWrap(RoundUp(deviceSize, GiB));
    NoWrap(RoundUp(GiB + ram, GiB) + RoundUp(deviceSize, GiB));
  }

  lemma FitsIsSound(ram: u64, maxram: u64, slots: u64, maxSlots: u64)
    requires slots <= maxSlots && Fits(ram, DeviceSize(ram, maxram, slots))
    ensures Sound(LayoutOf(ram, maxram, slots, maxSlots), ram)
    ensures var l := LayoutOf(ram, maxram, slots, maxSlots);
      && l.deviceBase == RoundUp(GiB + ram, GiB) && l.deviceSize == DeviceSize(ram, maxram, slots)
      && Stacked(HighStart(ram, l.deviceSize), l.high)
      && Top(0, l.high) == LeastTop(HighStart(ram, l.deviceSize), HIGH_SIZES)
  {
    var size := DeviceSize(ram, maxram, slots);
    hide RoundUp;
    hide RoundUp64;
    HighStartBound(ram, size);
    BaseBelowFloor(ram, size);
    var start := HighStart(ram, size);
    assert RoundUp(GiB + ram, GiB) + size <= start;
    hide HighStart;
    hide DeviceSize;
    PlaceStacks(start, HIGH_SIZES);
    var high := Place(start, HIGH_SIZES).0;
    hide Place;
    LeastTopAbove(start, HIGH_SIZES);
    TopFromAnywhere(start, 0, high);
    WrapTop(LeastTop(start, HIGH_SIZES));
    hide Wrap;
    hide LeastTop;
    hide Floor;
    StackedLower(RoundUp(GiB + ram, GiB) + size, start, high);
  }

  lemma WrapTop(n: nat)
    requires 0 < n <= TWO64
    ensures Wrap(Wrap(n) - 1) == n - 1
  {
  }

  // The code starts the high regions on a GiB boundary, at 256 GiB or above.
  lemma FirstRegion(l: Layout, ram: u64, maxram: u64, slots: u64, maxSlots: u64)
    requires l == LayoutOf(ram, maxram, slots, maxSlots) && l.Laid?
    ensures l.high != [] && l.deviceBase % GiB == 0
    ensures l.high[0].base % GiB == 0 && l.high[0].base >= GiB + LEGACY_RAMLIMIT_BYTES
  {
    RoundedToGiB(Wrap(GiB + ram));
    RoundedToGiB(DeviceSize(ram, maxram, slots));
    hide DeviceSize;
    hide RoundUp64;
    SumOfMultiples(l.deviceBase, RoundUp64(l.deviceSize, GiB));
    hide Wrap;
    hide Floor;
    PlaceFirst(Floor(Wrap(l.deviceBase + RoundUp64(l.deviceSize, GiB))));
    hide Place;
  }

  lemma RoundedToGiB(n: u64)
    ensures RoundUp64(n, GiB) % GiB == 0
  {
    RoundUpLeast(n, GiB);
    hide RoundUp;
    WrapKeepsMultiple(RoundUp(n, GiB));
  }

  lemma SumOfMultiples(a: u64, b: u64)
    requires a % GiB == 0 && b % GiB == 0
    ensures Floor(Wrap(a + b)) % GiB == 0 && Floor(Wrap(a + b)) >= GiB + LEGACY_RAMLIMIT_BYTES
  {
    MultipleSum(a, b);
    WrapKeepsMultiple(a + b);
    hide Wrap;
  }

  lemma MultipleSum(a: nat, b: nat)
    requires a % GiB == 0 && b % GiB == 0
    ensures (a + b) % GiB == 0
  {
  }

  lemma MultipleOf64MiB(n: nat)
    requires n % GiB == 0
    ensures n % (64 * MiB) == 0
  {
    assert n == 16 * (n / GiB) * (64 * MiB);
    MultipleMod(16 * (n / GiB), 64 * MiB);
  }

  lemma PlaceFirst(base: u64)
    requires base % GiB == 0
    ensures Place(base, HIGH_SIZES).0 != [] && Place(base, HIGH_SIZES).0[0].base == base
  {
    MultipleOf64MiB(base);
    RoundUpFixed(base, HIGH_SIZES[0]);
    NoWrap(base);
    hide RoundUp;
  }

  lemma SoundFits(l: Layout, ram: u64, maxram: u64, slots: u64, maxSlots: u64)
    requires l == LayoutOf(ram, maxram, slots, maxSlots) && Sound(l, ram)
    ensures Fits(ram, l.deviceSize)
  {
    FirstRegion(l, ram, maxram, slots, maxSlots);
    var first := l.high[0].base;
    RoundUpLeast(GiB + ram, GiB);
    RoundUpLeast(l.deviceSize, GiB);
    hide RoundUp;
    hide LayoutOf;
    MultipleDifference(first, l.deviceBase);
    assert RoundUp(l.deviceSize, GiB) <= first - l.deviceBase;
    assert HighStart(ram, l.deviceSize) <= first;
    assert Stacked(first, l.high);
    hide HighStart;
    LeastTopIsLeast(HighStart(ram, l.deviceSize), first, l.high, HIGH_SIZES);
    TopFromAnywhere(first, 0, l.high);
  }

  lemma MultipleDifference(a: nat, b: nat)
    requires b <= a && a % GiB == 0 && b % GiB == 0
    ensures (a - b) % GiB == 0
  {
  }

  // For device memory of the size that the code has stored: sound exactly when everything fits.
  lemma SoundForStoredSize(ram: u64, maxram: u64, slots: u64, maxSlots: u64)
    requires slots <= maxSlots
    ensures Sound(LayoutOf(ram, maxram, slots, maxSlots), ram) <==> Fits(ram, DeviceSize(ram, maxram, slots))
  {
    var l := LayoutOf(ram, maxram, slots, maxSlots);
    if Fits(ram, DeviceSize(ram, maxram, slots)) {
      FitsIsSound(ram, maxram, slots, maxSlots);
    } else if Sound(l, ram) {
      SoundFits(l, ram, maxram, slots, maxSlots);
    }
  }

  // What the options ask for, without any wrap-around.
  function Asked(ram: u64, maxram: u64, slots: u64): int {
    maxram - ram + slots * GiB
  }

  // A sound layout with all the device memory that was asked for.
  predicate SoundAsAsked(l: Layout, ram: u64, maxram: u64, slots: u64) {
    Sound(l, ram) && l.deviceSize == Asked(ram, maxram, slots)
  }

  // The check a caller can make: maxram and the slots cover RAM, and RAM and device memory, each
  // rounded up to a GiB, and the high regions above them fit in 64 bits.
  predicate AskedFits(ram: u64, maxram: u64, slots: u64) {
    ram <= maxram + slots * GiB && Fits(ram, Asked(ram, maxram, slots))
  }

  lemma FitsIsStored(ram: u64, maxram: u64, slots: u64)
    requires AskedFits(ram, maxram, slots)
    ensures DeviceSize(ram, maxram, slots) == Asked(ram, maxram, slots)
  {
    var asked := Asked(ram, maxram, slots);
    HighStartBound(ram, asked);
    RoundUpLeast(asked, GiB);
    RoundUpLeast(GiB + ram, GiB);
    hide RoundUp;
    NoWrap(asked);
  }

  // The layout is sound, with the device memory that was asked for, exactly when everything fits.
  lemma SoundExactlyWhenFits(ram: u64, maxram: u64, slots: u64, maxSlots: u64)
    requires slots <= maxSlots
    ensures SoundAsAsked(LayoutOf(ram, maxram, slots, maxSlots), ram, maxram, slots) <==>
            AskedFits(ram, maxram, slots)
  {
    var l := LayoutOf(ram, maxram, slots, maxSlots);
    SoundForStoredSize(ram, maxram, slots, maxSlots);
    if AskedFits(ram, maxram, slots) {
      FitsIsStored(ram, maxram, slots);
      FitsIsSound(ram, maxram, slots, maxSlots);
    } else if SoundAsAsked(l, ram, maxram, slots) {
      SoundFits(l, ram, maxram, slots, maxSlots);
    }
  }

  // Another wrap-around passes the test: of 2^64 bytes of device memory nothing is left, and the
  // layout is the one of a machine that asks for none.
  lemma DeviceMemoryLost()
    ensures var (ram, maxram, slots) := (GiB, TWO64 - GiB, 2);
      var l := LayoutOf(ram, maxram, slots, slots);
      && Asked(ram, maxram, slots) == TWO64 && l.Laid? && l.deviceSize == 0 && l.high == LEGACY
      && Sound(l, ram) && !SoundAsAsked(l, ram, maxram, slots)
  {
    var (ram, maxram, slots) := (GiB, TWO64 - GiB, 2);
    assert DeviceSize(ram, maxram, slots) == 0;
    assert RoundUp(GiB + ram, GiB) == 2 * GiB && RoundUp(0, GiB) == 0;
    LegacyLayout(ram, maxram, slots, slots);
    SoundForStoredSize(ram, maxram, slots, slots);
    hide RoundUp;
    hide LayoutOf;
    hide Sound;
    hide DeviceSize;
  }

  // ---- When there is no layout ----

  // The machine exits for its slots exactly when there are more than it supports.
  lemma TooManySlotsExactly(ram: u64, maxram: u64, slots: u64, maxSlots: u64)
    ensures LayoutOf(ram, maxram, slots, maxSlots) == TooManySlots <==> slots > maxSlots
  {
    hide RoundUp64;
    hide DeviceSize;
    hide Wrap;
    hide Place;
    hide Floor;
  }

  lemma SumWraps(a: u64, b: u64)
    ensures Wrap(a + b) < a <==> a + b >= TWO64
  {
  }

  // It exits for its memory exactly when the base of device memory and its size, as they are stored
  // and rounded up, add up to 2^64 or more.
  lemma TooHugeExactly(ram: u64, maxram: u64, slots: u64, maxSlots: u64)
    ensures LayoutOf(ram, maxram, slots, maxSlots) == TooHuge <==>
            && slots <= maxSlots
            && RoundUp64(Wrap(GiB + ram), GiB) + RoundUp64(DeviceSize(ram, maxram, slots), GiB) >= TWO64
  {
    hide RoundUp64;
    hide DeviceSize;
    hide Wrap;
    hide Place;
    hide Floor;
    SumWraps(RoundUp64(Wrap(GiB + ram), GiB), RoundUp64(DeviceSize(ram, maxram, slots), GiB));
  }

  // The same while RAM itself fits, without wrap-around in the condition: the size rounded up is one
  // that 64 bits hold, and the sum is not.
  lemma TooHugeForFittingRam(ram: u64, maxram: u64, slots: u64, maxSlots: u64)
    requires RoundUp(GiB + ram, GiB) < TWO64
    ensures var d := RoundUp(DeviceSize(ram, maxram, slots), GiB);
      LayoutOf(ram, maxram, slots, maxSlots) == TooHuge <==>
      slots <= maxSlots && d < TWO64 <= RoundUp(GiB + ram, GiB) + d
  {
    TooHugeExactly(ram, maxram, slots, maxSlots);
    var size := DeviceSize(ram, maxram, slots);
    RoundUpLeast(GiB + ram, GiB);
    RoundUpLeast(size, GiB);
    hide LayoutOf;
    hide DeviceSize;
    hide RoundUp;
    NoWrap(GiB + ram);
    NoWrap(RoundUp(GiB + ram, GiB));
    RoundedSize(RoundUp(size, GiB));
  }

  // A multiple of a GiB that exceeds a 64-bit number by less than a GiB is 2^64 at most.
  lemma RoundedSize(d: nat)
    requires d % GiB == 0 && d < TWO64 + GiB
    ensures Wrap(d) == if d < TWO64 then d else 0
  {
  }

  // The test for wrap-around does not catch every case: here RAM ends at 2^64, and the regions are
  // put in the middle of it.
  lemma WrapEscapesTheTest()
    ensures var ram := TWO64 - GiB;
      && LayoutOf(ram, ram, 0, 0).Laid? && LayoutOf(ram, ram, 0, 0).high[0].base == 256 * GiB
      && !Sound(LayoutOf(ram, ram, 0, 0), ram)
  {
    var ram := TWO64 - GiB;
    var l := LayoutOf(ram, ram, 0, 0);
    assert RoundUp(0, GiB) == 0;
    assert RoundUp(256 * GiB, HIGH_SIZES[0]) == 256 * GiB;
    assert l.Laid? && l.high[0].base == 256 * GiB;
  }

  // ---- The legacy layout ----

  const LEGACY: seq<Region> := [
    Region(256 * GiB, 64 * MiB), Region(256 * GiB + 256 * MiB, 256 * MiB), Region(512 * GiB, 512 * GiB)]

  predicate DeviceMemoryEndsBy256GiB(ram: u64, deviceSize: u64) {
    RoundUp(GiB + ram, GiB) + RoundUp(deviceSize, GiB) <= 256 * GiB
  }

  // One region placed at b, given the rest.
  lemma PlaceStep(base: u64, b: u64, sizes: seq<size64>, rest: seq<Region>, top: nat)
    requires sizes != [] && RoundUp(base, sizes[0]) == b && b + sizes[0] < TWO64 && top < TWO64
    requires Place(b + sizes[0], sizes[1..]) == (rest, top) && LeastTop(b + sizes[0], sizes[1..]) == top
    ensures Place(base, sizes) == ([Region(b, sizes[0])] + rest, top) && LeastTop(base, sizes) == top
  {
    hide RoundUp;
    NoWrap(b);
    NoWrap(b + sizes[0]);
    hide Wrap;
    PlaceNext(base, sizes);
    hide Place;
  }

  lemma PlaceLegacy()
    ensures LeastTop(256 * GiB, HIGH_SIZES) == 1024 * GiB
    ensures Place(256 * GiB, HIGH_SIZES) == (LEGACY, 1024 * GiB)
  {
    assert RoundUp(256 * GiB, 64 * MiB) == 256 * GiB;
    assert RoundUp(256 * GiB + 64 * MiB, 256 * MiB) == 256 * GiB + 256 * MiB;
    assert RoundUp(256 * GiB + 512 * MiB, 512 * GiB) == 512 * GiB;
    var ecam, mmio := [256 * MiB, 512 * GiB], [512 * GiB];
    assert HIGH_SIZES[1..] == ecam && ecam[1..] == mmio && mmio[1..] == [];
    PlaceNone(1024 * GiB, []);
    assert LeastTop(1024 * GiB, []) == 1024 * GiB;
    hide RoundUp;
    hide Place;
    hide LeastTop;
    var r2 := Region(512 * GiB, 512 * GiB);
    PlaceStep(256 * GiB + 512 * MiB, 512 * GiB, mmio, [], 1024 * GiB);
    assert [r2] + [] == [r2];
    var r1 := Region(256 * GiB + 256 * MiB, 256 * MiB);
    PlaceStep(256 * GiB + 64 * MiB, 256 * GiB + 256 * MiB, ecam, [r2], 1024 * GiB);
    assert [r1] + [r2] == [r1, r2];
    PlaceStep(256 * GiB, 256 * GiB, HIGH_SIZES, [r1, r2], 1024 * GiB);
    assert [Region(256 * GiB, 64 * MiB)] + [r1, r2] == LEGACY;
  }

  // When device memory ends by 256 GiB, the layout is always the same one, of 40 bits.
  lemma LegacyLayout(ram: u64, maxram: u64, slots: u64, maxSlots: u64)
    requires slots <= maxSlots && DeviceMemoryEndsBy256GiB(ram, DeviceSize(ram, maxram, slots))
    ensures var size := DeviceSize(ram, maxram, slots);
      && Fits(ram, size)
      && LayoutOf(ram, maxram, slots, maxSlots) == Laid(RoundUp(GiB + ram, GiB), size, LEGACY, 0xFF_FFFF_FFFF)
  {
    hide RoundUp;
    hide RoundUp64;
    hide Place;
    hide LeastTop;
    hide DeviceSize;
    hide Wrap;
    var size := DeviceSize(ram, maxram, slots);
    assert HighStart(ram, size) == 256 * GiB;
    BaseBelowFloor(ram, size);
    PlaceLegacy();
    NoWrap(1024 * GiB - 1);
  }

  // And only then, among the layouts that fit.
  lemma LegacyOnlyThen(ram: u64, maxram: u64, slots: u64, maxSlots: u64)
    requires slots <= maxSlots && Fits(ram, DeviceSize(ram, maxram, slots))
    ensures LayoutOf(ram, maxram, slots, maxSlots).Laid?
    ensures LayoutOf(ram, maxram, slots, maxSlots).high == LEGACY <==>
            DeviceMemoryEndsBy256GiB(ram, DeviceSize(ram, maxram, slots))
  {
    hide RoundUp;
    hide Place;
    var l := LayoutOf(ram, maxram, slots, maxSlots);
    FitsIsSound(ram, maxram, slots, maxSlots);
    hide LayoutOf;
    assert l.Laid?;
    if DeviceMemoryEndsBy256GiB(ram, l.deviceSize) {
      LegacyLayout(ram, maxram, slots, maxSlots);
    } else {
      FirstAbove(HighStart(ram, l.deviceSize), l.high);
    }
  }

  lemma FirstAbove(from: nat, regions: seq<Region>)
    requires Stacked(from, regions) && regions != []
    ensures from <= regions[0].base
  {
  }

  // Less than 255 GiB of memory is not enough for that: the slots count too.
  lemma SlotsLeaveLegacy()
    ensures var (ram, maxram, slots) := (100 * GiB, 254 * GiB, 3);
      LayoutOf(ram, maxram, slots, slots).Laid? && LayoutOf(ram, maxram, slots, slots).high != LEGACY
  {
    var (ram, maxram, slots) := (100 * GiB, 254 * GiB, 3);
    assert DeviceSize(ram, maxram, slots) == 157 * GiB;
    assert RoundUp(GiB + ram, GiB) == 101 * GiB && RoundUp(157 * GiB, GiB) == 157 * GiB;
    FirstAt258GiB();
  }

  lemma FirstAt258GiB()
    ensures Place(258 * GiB, HIGH_SIZES).0 != [] && Place(258 * GiB, HIGH_SIZES).0[0].base == 258 * GiB
  {
    PlaceFirst(258 * GiB);
  }

  // ---- The width of guest physical addresses ----

  function Pow2(n: nat): (p: nat)
    ensures p > 0
  {
    if n == 0 then 1 else 2 * Pow2(n - 1)
  }

  lemma DoubleProduct(x: nat, y: nat)
    ensures x * (2 * y) == 2 * (x * y)
  {
  }

  lemma {:induction false} Pow2Sum(a: nat, b: nat)
    ensures Pow2(a + b) == Pow2(a) * Pow2(b)
    decreases b
  {
    if b > 0 {
      Pow2Sum(a, b - 1);
      DoubleProduct(Pow2(a), Pow2(b - 1));
    }
  }

  lemma {:induction false} Pow2Monotonic(a: nat, b: nat)
    requires a <= b
    ensures Pow2(a) <= Pow2(b)
    decreases b
  {
    if a < b {
      Pow2Monotonic(a, b - 1);
    }
  }

  lemma Pow2Values()
    ensures Pow2(32) == 0x1_0000_0000 && Pow2(39) == 0x80_0000_0000 && Pow2(40) == 0x100_0000_0000
    ensures Pow2(64) == TWO64
  {
    assert Pow2(8) == 256;
    Pow2Sum(8, 8);
    Pow2Sum(16, 16);
    Pow2Sum(32, 32);
    Pow2Sum(32, 7);
    assert Pow2(7) == 128;
  }

  // The leading zeros of n in a word of w bits.
  function Clz(n: nat, w: nat): (z: nat)
    ensures z <= w
  {
    if w == 0 || n >= Pow2(w - 1) then 0 else 1 + Clz(n, w - 1)
  }

  lemma {:induction false} ClzIsWidth(n: nat, w: nat)
    requires n < Pow2(w)
    ensures n < Pow2(w - Clz(n, w))
    ensures n > 0 ==> Clz(n, w) < w && Pow2(w - Clz(n, w) - 1) <= n
    ensures n == 0 ==> Clz(n, w) == w
    decreases w
  {
    if w > 0 && n < Pow2(w - 1) {
      ClzIsWidth(n, w - 1);
    }
  }

  function RequestedBits(highestGpa: u64): int {
    var bits := 64 - Clz(highestGpa, 64);
    if bits < 32 then 32 else bits
  }

  datatype Kvm = Exit | Kind(kind: int)

  function KvmTypeOf(highestGpa: u64, maxBits: int, fixedIpa: bool): Kvm {
    if RequestedBits(highestGpa) > maxBits then Exit
    else Kind(if fixedIpa then 0 else RequestedBits(highestGpa))
  }

  // The width asked for is the least of at least 32 bits that holds every address.
  lemma RequestedBitsLeast(highestGpa: u64)
    ensures 32 <= RequestedBits(highestGpa) <= 64 && highestGpa < Pow2(RequestedBits(highestGpa))
    ensures forall w: nat {:trigger Pow2(w)} :: 32 <= w && highestGpa < Pow2(w) ==> RequestedBits(highestGpa) <= w
  {
    hide Clz;
    hide Pow2;
    Pow2Values();
    ClzIsWidth(highestGpa, 64);
    var bits := 64 - Clz(highestGpa, 64);
    if bits < 32 {
      Pow2Monotonic(bits, 32);
    }
    forall w: nat | 32 <= w && highestGpa < Pow2(w)
      ensures RequestedBits(highestGpa) <= w
    {
      if w < bits {
        Pow2Monotonic(w, bits - 1);
      }
    }
  }

  // What virt_kvm_type answers, for a highest address h and a host with maxBits bits: it exits exactly
  // when the host has fewer than 32 or too few for h; else it answers 0 when the width is fixed, and
  // when it is not, the least width of at least 32 that holds h.
  lemma KvmAnswer(h: u64, maxBits: nat, fixedIpa: bool)
    ensures KvmTypeOf(h, maxBits, fixedIpa) == Exit <==> maxBits < 32 || h >= Pow2(maxBits)
    ensures !(maxBits < 32 || h >= Pow2(maxBits)) && fixedIpa ==> KvmTypeOf(h, maxBits, fixedIpa) == Kind(0)
    ensures !(maxBits < 32 || h >= Pow2(maxBits)) && !fixedIpa ==>
      var k := KvmTypeOf(h, maxBits, fixedIpa);
      && k.Kind? && 32 <= k.kind <= maxBits && h < Pow2(k.kind)
      && forall w: nat {:trigger Pow2(w)} :: 32 <= w && h < Pow2(w) ==> k.kind <= w
  {
    RequestedBitsLeast(h);
    hide RequestedBits;
    hide Pow2;
    if RequestedBits(h) <= maxBits {
      Pow2Monotonic(RequestedBits(h), maxBits);
    }
  }

  // An address of RAM, of device memory or of a high region.
  predicate Used(l: Layout, ram: u64, a: nat)
    requires l.Laid?
  {
    || GiB <= a < GiB + ram
    || l.deviceBase <= a < l.deviceBase + l.deviceSize
    || exists r <- l.high :: r.base <= a < r.base + r.size
  }

  // Every address of a sound layout can be reached with the width asked for.
  lemma UsedAddressesFit(l: Layout, ram: u64, a: nat)
    requires Sound(l, ram) && Used(l, ram, a)
    ensures a <= l.highestGpa && a < Pow2(RequestedBits(l.highestGpa))
  {
    RequestedBitsLeast(l.highestGpa);
    hide RequestedBits;
    hide Pow2;
    var from := l.deviceBase + l.deviceSize;
    TopFromAnywhere(from, 0, l.high);
    StackedDisjoint(from, l.high, 0, 0);
    if r :| r in l.high && r.base <= a < r.base + r.size {
      var i :| 0 <= i < |l.high| && l.high[i] == r;
      StackedDisjoint(from, l.high, i, i);
    }
  }

  lemma LegacyNeeds40Bits()
    ensures RequestedBits(0xFF_FFFF_FFFF) == 40
  {
    RequestedBitsLeast(0xFF_FFFF_FFFF);
    Pow2Values();
    hide RequestedBits;
    if RequestedBits(0xFF_FFFF_FFFF) < 40 {
      Pow2Monotonic(RequestedBits(0xFF_FFFF_FFFF), 39);
    }
  }

  // ---- The machine ----

  class VirtMachine {
    // base_memmap, and the map the machine works with.
    const low: seq<Region>
    const memmap: array<Region>
    var highestGpa: u64
    var deviceMemory: seq<Region>

    ghost predicate Shape()
      reads memmap
    {
      && |low| > VIRT_MEM && low[VIRT_MEM] == RAM
      && memmap.Length == |low| + |HIGH_SIZES|
      && forall k :: 0 <= k < |HIGH_SIZES| ==> memmap[|low| + k].size == HIGH_SIZES[k]
    }

    // virt_set_memmap. The result says whether the machine goes on.
    method SetMemmap(ram: u64, maxram: u64, slots: u64, maxSlots: u64) returns (ok: bool)
      requires Shape()
      modifies this, memmap
      ensures Shape()
      ensures match LayoutOf(ram, maxram, slots, maxSlots)
        case Laid(deviceBase, deviceSize, high, highest) =>
          && ok && memmap[..] == low + high && highestGpa == highest
          && deviceMemory == if deviceSize > 0 then [Region(deviceBase, deviceSize)] else old(deviceMemory)
        case _ => !ok
    {
      hide RoundUp64;
      hide Place;
      hide Wrap;
      for i := 0 to |low|
        modifies memmap
        invariant Shape() && forall j :: 0 <= j < i ==> memmap[j] == low[j]
      {
        memmap[i] := low[i];
      }
      if slots > maxSlots {
        return false;
      }
      var deviceBase := RoundUp64(Wrap(memmap[VIRT_MEM].base + ram), GiB);
      var deviceSize := Wrap(maxram - ram + slots * GiB);
      var base := Wrap(deviceBase + RoundUp64(deviceSize, GiB));
      if base < deviceBase {
        return false;
      }
      if base < memmap[VIRT_MEM].base + LEGACY_RAMLIMIT_BYTES {
        base := memmap[VIRT_MEM].base + LEGACY_RAMLIMIT_BYTES;
      }
      assert memmap[..|low|] == low;
      base := PlaceHigh(base);
      assert memmap[..] == memmap[..|low|] + memmap[|low|..];
      highestGpa := Wrap(base - 1);
      if deviceSize > 0 {
        deviceMemory := [Region(deviceBase, deviceSize)];
      }
      return true;
    }

    // The loop of virt_set_memmap over the high regions.
    method PlaceHigh(start: u64) returns (base: u64)
      requires Shape()
      modifies memmap
      ensures Shape() && memmap[..|low|] == old(memmap[..|low|])
      ensures (memmap[|low|..], base) == Place(start, HIGH_SIZES)
    {
      hide RoundUp;
      hide RoundUp64;
      hide Wrap;
      hide Place;
      base := start;
      for i := |low| to memmap.Length
        invariant Shape() && memmap[..|low|] == old(memmap[..|low|])
        invariant Place(start, HIGH_SIZES).0 == memmap[|low|..i] + Place(base, HIGH_SIZES[i - |low|..]).0
        invariant Place(start, HIGH_SIZES).1 == Place(base, HIGH_SIZES[i - |low|..]).1
      {
        var size := memmap[i].size;
        ghost var rest := HIGH_SIZES[i - |low|..];
        assert rest[0] == size && rest[1..] == HIGH_SIZES[i + 1 - |low|..];
        PlaceNext(base, rest);
        base := RoundUp64(base, size);
        memmap[i] := Region(base, size);
        base := Wrap(base + size);
        assert memmap[|low|..i + 1] == memmap[|low|..i] + [memmap[i]];
      }
      PlaceNone(base, HIGH_SIZES[|HIGH_SIZES|..]);
      assert memmap[|low|..memmap.Length] == memmap[|low|..];
      assert Place(start, HIGH_SIZES).0 == memmap[|low|..] && Place(start, HIGH_SIZES).1 == base;
    }

    // virt_kvm_type, given what the host says of its address width.
    method KvmType(ram: u64, maxram: u64, slots: u64, maxSlots: u64, maxBits: int, fixedIpa: bool)
      returns (kvm: Kvm)
      requires Shape()
      modifies this, memmap
      ensures Shape()
      ensures match LayoutOf(ram, maxram, slots, maxSlots)
        case Laid(_, _, high, highest) =>
          memmap[..] == low + high && kvm == KvmTypeOf(highest, maxBits, fixedIpa)
        case _ => kvm == Exit
    {
      var ok := SetMemmap(ram, maxram, slots, maxSlots);
      if !ok {
        return Exit;
      }
      var requested := 64 - Clz(highestGpa, 64);
      if requested < 32 {
        requested := 32;
      }
      if requested > maxBits {
        return Exit;
      }
      return Kind(if fixedIpa then 0 else requested);
    }
  }
}
