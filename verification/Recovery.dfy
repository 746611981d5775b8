// How a receiver that has lost its place gets back into a stream of clean frames.
module Recovery {
  import opened Wire
  import opened RxMachine
  import opened Resync
  import opened RoundTrip
  import opened Sequences

  // ---- After the first return to RxIdle ----

  // Where the header of frame k is.
  function HeaderAt(items: seq<Item>, k: nat): nat
    requires k < |items|
  {
    |Stream(items[..k])| + |items[k].noise|
  }

  function Part(i: Item): seq<byte> {
    i.noise + Frame(i.payload)
  }

  lemma HeaderNext(items: seq<Item>, k: nat)
    requires k + 1 < |items|
    ensures HeaderAt(items, k + 1) == |Part(items[0])| + HeaderAt(items[1..], k)
  {
    hide Frame;
    assert items[..k + 1][1..] == items[1..][..k];
  }

  // The rest of a frame is noise.
  lemma FrameRest(p: seq<byte>, j: nat)
    requires 0 < j <= |Frame(p)|
    ensures FRAME_HEADER !in Frame(p)[j..]
  {
    forall i | 0 <= i < |Frame(p)[j..]|
      ensures Frame(p)[j..][i] != FRAME_HEADER
    {
      DelimitersOnlyAtEnds(p, j + i);
    }
  }

  lemma InNoise(s: Rx, items: seq<Item>, c: nat)
    requires RxInv(s) && Decodable(items) && items != [] && c <= |items[0].noise|
    requires Run(s, Stream(items)[..c]).phase == RxIdle
    ensures var r := Run(s, Stream(items)[..c]);
      var t := Run(s, Stream(items));
      t.phase == RxIdle && t.log.delivered == r.log.delivered + Payloads(items)
  {
    hide RxInv;
    hide Frame;
    hide Clean;
    hide RxRun;
    var w, i := Stream(items), items[0];
    var later := [Item(i.noise[c..], i.payload)] + items[1..];
    assert later[1..] == items[1..];
    assert w[c..] == Stream(later);
    RunKeepsInv(s, w[..c]);
    RunConcat(s, w[..c], w[c..]);
    assert w[..c] + w[c..] == w;
    DecodeStream(Run(s, w[..c]), later);
    assert Payloads(later) == Payloads(items);
  }

  lemma InFrame(s: Rx, items: seq<Item>, c: nat)
    requires RxInv(s) && Decodable(items) && items != []
    requires |items[0].noise| < c <= |Part(items[0])|
    requires Run(s, Stream(items)[..c]).phase == RxIdle
    ensures var r := Run(s, Stream(items)[..c]);
      var t := Run(s, Stream(items));
      t.phase == RxIdle && t.log.delivered == r.log.delivered + Payloads(items[1..])
  {
    hide RxInv;
    hide Clean;
    hide Run;
    hide Frame;
    hide Stream;
    var w, p := Stream(items), items[0].payload;
    var j := c - |items[0].noise|;
    SplitInFrame(items, c);
    FrameRest(p, j);
    var rest := Frame(p)[j..];
    var r := Run(s, w[..c]);
    RunKeepsInv(s, w[..c]);
    RunConcat(s, w[..c], rest + Stream(items[1..]));
    RunConcat(r, rest, Stream(items[1..]));
    SkipNoise(r, rest);
    DecodeStream(r, items[1..]);
  }

  lemma SplitInFrame(items: seq<Item>, c: nat)
    requires items != [] && |items[0].noise| < c <= |Part(items[0])|
    ensures c <= |Stream(items)| && 0 < c - |items[0].noise| <= |Frame(items[0].payload)|
    ensures Stream(items) == Stream(items)[..c] + (Frame(items[0].payload)[c - |items[0].noise|..] + Stream(items[1..]))
  {
    hide Frame;
    DropInMiddle(items[0].noise, Frame(items[0].payload), Stream(items[1..]), c);
  }

  // Wherever in the stream the receiver is in RxIdle, every frame whose header is still to come is
  // delivered, in order, and nothing else.
  lemma {:induction false} AfterIdle(s: Rx, items: seq<Item>, c: nat) returns (k: nat)
    requires RxInv(s) && Decodable(items) && c <= |Stream(items)|
    requires Run(s, Stream(items)[..c]).phase == RxIdle
    ensures k <= |items|
    ensures k < |items| ==> c <= HeaderAt(items, k)
    ensures k > 0 ==> HeaderAt(items, k - 1) < c
    ensures var r := Run(s, Stream(items)[..c]);
      var t := Run(s, Stream(items));
      t.phase == RxIdle && t.log.delivered == r.log.delivered + Payloads(items[k..])
    decreases |items|
  {
    hide RxInv;
    hide Frame;
    hide Run;
    hide Clean;
    if items == [] {
      k := 0;
      assert Stream(items)[..c] == Stream(items);
    } else if c <= |items[0].noise| {
      k := 0;
      InNoise(s, items, c);
      assert items[..0] == [];
    } else if c <= |Part(items[0])| {
      k := 1;
      InFrame(s, items, c);
      assert items[..0] == [];
      assert items[..1][1..] == [];
    } else {
      k := AfterPart(s, items, c);
    }
  }

  lemma {:induction false} AfterPart(s: Rx, items: seq<Item>, c: nat) returns (k: nat)
    requires RxInv(s) && Decodable(items) && items != [] && |Part(items[0])| < c <= |Stream(items)|
    requires Run(s, Stream(items)[..c]).phase == RxIdle
    ensures k <= |items|
    ensures k < |items| ==> c <= HeaderAt(items, k)
    ensures k > 0 ==> HeaderAt(items, k - 1) < c
    ensures var r := Run(s, Stream(items)[..c]);
      var t := Run(s, Stream(items));
      t.phase == RxIdle && t.log.delivered == r.log.delivered + Payloads(items[k..])
    decreases |items|, 0
  {
    hide RxInv;
    hide Frame;
    hide Run;
    hide Clean;
    var part, rest := Part(items[0]), items[1..];
    var n := |part|;
    var w := Stream(items);
    assert w == part + Stream(rest);
    assert w[..c] == part + Stream(rest)[..c - n];
    RunConcat(s, part, Stream(rest));
    RunConcat(s, part, Stream(rest)[..c - n]);
    RunKeepsInv(s, part);
    var j := AfterIdle(Run(s, part), rest, c - n);
    k := j + 1;
    if j < |rest| {
      HeaderNext(items, j);
    }
    if j > 0 {
      HeaderNext(items, j - 1);
    } else {
      assert items[..0] == [];
    }
    assert rest[j..] == items[k..];
  }

  // ---- How soon it returns ----

  // The receiver is neither in RxIdle nor in RxEscape.
  predicate Midway(s: Rx) {
    s.phase != RxIdle && s.phase != RxEscape
  }

  lemma PlainByte(s: Rx, b: byte)
    requires RxInv(s) && Midway(s) && b != ESCAPE_CHAR && RxByte(s, In(b, true)).phase != RxIdle
    ensures var t := RxByte(s, In(b, true));
      RxInv(t) && Midway(t) && Needed(t) < Needed(s)
  {
    ByteProgress(s, In(b, true));
  }

  lemma EscapedByte(s: Rx, b: byte)
    requires RxInv(s) && s.phase == RxEscape && b != 0x7A && RxByte(s, In(b, true)).phase != RxIdle
    ensures var t := RxByte(s, In(b, true));
      RxInv(t) && Midway(t) && Needed(t) < Needed(s)
  {
    ByteProgress(s, In(b, true));
  }

  lemma EscapeCharByte(s: Rx)
    requires RxInv(s) && Midway(s) && RxByte(s, In(ESCAPE_CHAR, true)).phase != RxIdle
    ensures var t := RxByte(s, In(ESCAPE_CHAR, true));
      RxInv(t) && t.phase == RxEscape && Needed(t) == Needed(s)
  {
    ByteProgress(s, In(ESCAPE_CHAR, true));
  }

  // The receiver is out of RxIdle before every byte of w and after the last one.
  predicate Out(s: Rx, w: seq<byte>) {
    NeverIdle(s, Ins(w))
  }

  lemma OutOne(s: Rx, b: byte)
    ensures Out(s, [b]) <==> s.phase != RxIdle && RxByte(s, In(b, true)).phase != RxIdle
  {
    hide RxByte;
    var t := RxByte(s, In(b, true));
    assert Ins([b]) == [In(b, true)];
    assert [In(b, true)][1..] == [];
    assert NeverIdle(t, []) == (t.phase != RxIdle);
    assert NeverIdle(s, [In(b, true)]) == (s.phase != RxIdle && NeverIdle(t, []));
  }

  lemma {:induction false} OutConcat(s: Rx, a: seq<byte>, b: seq<byte>)
    ensures Out(s, a + b) <==> Out(s, a) && Out(Run(s, a), b)
    decreases |a|
  {
    hide RxByte;
    if a == [] {
      assert a + b == b;
      assert Run(s, a) == s;
      if Out(s, b) {
        OutHere(s, b);
      }
    } else {
      assert Ins(a + b)[1..] == Ins(a[1..] + b);
      assert Ins(a)[1..] == Ins(a[1..]);
      OutConcat(RxByte(s, In(a[0], true)), a[1..], b);
    }
  }

  lemma OutHere(s: Rx, w: seq<byte>)
    requires Out(s, w)
    ensures s.phase != RxIdle
  {
  }

  lemma ByteForward(s: Rx, b: byte)
    requires RxInv(s) && Midway(s) && b != ESCAPE_CHAR && Out(s, EscapeByte(b))
    ensures var t := Run(s, EscapeByte(b));
      RxInv(t) && Midway(t) && Needed(t) < Needed(s)
  {
    hide RxInv;
    hide Needed;
    hide RxRun;
    if Special(b) {
      var t := Run(s, [ESCAPE_CHAR]);
      assert EscapeByte(b) == [ESCAPE_CHAR] + [Xor20(b)];
      OutConcat(s, [ESCAPE_CHAR], [Xor20(b)]);
      RunConcat(s, [ESCAPE_CHAR], [Xor20(b)]);
      OutOne(s, ESCAPE_CHAR);
      RunOne(s, ESCAPE_CHAR);
      hide RxByte;
      EscapeCharByte(s);
      OutOne(t, Xor20(b));
      RunOne(t, Xor20(b));
      EscapedByte(t, Xor20(b));
    } else {
      OutOne(s, b);
      RunOne(s, b);
      hide RxByte;
      PlainByte(s, b);
    }
  }

  // Each byte of an escaped field brings the receiver on by one, as long as it stays out of RxIdle.
  lemma {:induction false} FieldForward(s: Rx, d: seq<byte>)
    requires RxInv(s) && Midway(s) && ESCAPE_CHAR !in d && Out(s, Escape(d))
    ensures var t := Run(s, Escape(d));
      RxInv(t) && Midway(t) && Needed(t) + |d| <= Needed(s)
    decreases |d|
  {
    hide RxInv;
    hide Needed;
    hide Out;
    hide EscapeByte;
    if d == [] {
      RunEmpty(s);
    } else {
      hide Run;
      OutConcat(s, EscapeByte(d[0]), Escape(d[1..]));
      RunConcat(s, EscapeByte(d[0]), Escape(d[1..]));
      ByteForward(s, d[0]);
      FieldForward(Run(s, EscapeByte(d[0])), d[1..]);
    }
  }

  lemma HeaderForward(s: Rx)
    requires RxInv(s) && Out(s, [FRAME_HEADER])
    ensures var t := Run(s, [FRAME_HEADER]);
      RxInv(t) && Midway(t) && Needed(t) < Needed(s)
  {
    OutOne(s, FRAME_HEADER);
    RunOne(s, FRAME_HEADER);
    if s.phase == RxEscape {
      EscapedByte(s, FRAME_HEADER);
    } else {
      PlainByte(s, FRAME_HEADER);
    }
  }

  lemma FooterForward(s: Rx)
    requires RxInv(s) && Midway(s) && Out(s, [FRAME_FOOTER])
    ensures var t := Run(s, [FRAME_FOOTER]);
      RxInv(t) && Needed(t) < Needed(s)
  {
    OutOne(s, FRAME_FOOTER);
    RunOne(s, FRAME_FOOTER);
    PlainByte(s, FRAME_FOOTER);
  }

  // A clean frame: its header, two length bytes, payload and footer.
  lemma FrameForward(s: Rx, p: seq<byte>)
    requires RxInv(s) && Clean(p) && Out(s, Frame(p))
    ensures RxInv(Run(s, Frame(p))) && Needed(Run(s, Frame(p))) + |p| + 4 <= Needed(s)
  {
    var len, data := Escape(LengthBytes(|p|)), Escape(p);
    assert Frame(p) == [FRAME_HEADER] + (len + (data + [FRAME_FOOTER]));
    hide RxInv;
    hide Needed;
    hide Run;
    hide Out;
    hide Escape;
    hide Frame;
    OutConcat(s, [FRAME_HEADER], len + (data + [FRAME_FOOTER]));
    RunConcat(s, [FRAME_HEADER], len + (data + [FRAME_FOOTER]));
    HeaderForward(s);
    var s1 := Run(s, [FRAME_HEADER]);
    OutConcat(s1, len, data + [FRAME_FOOTER]);
    RunConcat(s1, len, data + [FRAME_FOOTER]);
    FieldForward(s1, LengthBytes(|p|));
    var s2 := Run(s1, len);
    OutConcat(s2, data, [FRAME_FOOTER]);
    RunConcat(s2, data, [FRAME_FOOTER]);
    FieldForward(s2, p);
    FooterForward(Run(s2, data));
  }

  lemma {:induction false} NoiseForward(s: Rx, w: seq<byte>)
    requires RxInv(s) && Out(s, w)
    ensures RxInv(Run(s, w)) && Needed(Run(s, w)) <= Needed(s)
    decreases |w|
  {
    hide RxInv;
    hide Needed;
    hide RxByte;
    if w == [] {
      RunEmpty(s);
    } else {
      assert Ins(w)[1..] == Ins(w[1..]);
      ByteProgress(s, In(w[0], true));
      NoiseForward(RxByte(s, In(w[0], true)), w[1..]);
    }
  }

  lemma PartForward(s: Rx, i: Item)
    requires RxInv(s) && Clean(i.payload) && Out(s, Part(i))
    ensures RxInv(Run(s, Part(i))) && Needed(Run(s, Part(i))) + |i.payload| + 4 <= Needed(s)
  {
    hide RxInv;
    hide Needed;
    hide Run;
    hide Out;
    hide Frame;
    hide Clean;
    OutConcat(s, i.noise, Frame(i.payload));
    RunConcat(s, i.noise, Frame(i.payload));
    NoiseForward(s, i.noise);
    FrameForward(Run(s, i.noise), i.payload);
  }

  lemma {:induction false} IdleSomewhere(s: Rx, w: seq<byte>) returns (c: nat)
    requires !Out(s, w)
    ensures c <= |w| && Run(s, w[..c]).phase == RxIdle
    decreases |w|
  {
    hide RxByte;
    if s.phase == RxIdle {
      c := 0;
      RunEmpty(s);
    } else {
      assert Ins(w)[1..] == Ins(w[1..]);
      var j := IdleSomewhere(RxByte(s, In(w[0], true)), w[1..]);
      c := j + 1;
      assert Ins(w[..c])[1..] == Ins(w[1..][..j]);
    }
  }

  // What the frames of a stream bring a lost receiver on by, at least.
  function Weight(items: seq<Item>): nat {
    if items == [] then 0 else |items[0].payload| + 4 + Weight(items[1..])
  }

  lemma IdleNeedsNothing(s: Rx)
    requires RxInv(s)
    ensures Needed(s) == 0 ==> s.phase == RxIdle
    ensures Needed(s) <= 273
  {
  }

  lemma {:induction false} IdleWithin(s: Rx, items: seq<Item>, j: nat) returns (c: nat)
    requires RxInv(s) && Decodable(items) && j <= |items| && Needed(s) <= Weight(items[..j])
    ensures c <= |Stream(items[..j])| <= |Stream(items)| && Run(s, Stream(items)[..c]).phase == RxIdle
    decreases j
  {
    hide RxInv;
    hide Needed;
    hide Run;
    hide Out;
    hide Clean;
    hide Frame;
    IdleNeedsNothing(s);
    PrefixLength(items, j);
    if j == 0 {
      c := 0;
      assert Stream(items)[..0] == [];
      RunEmpty(s);
    } else {
      var part, rest := Part(items[0]), items[1..];
      StreamBegins(items, j);
      hide Stream;
      hide Part;
      if Out(s, part) {
        PartForward(s, items[0]);
        var d := IdleWithin(Run(s, part), rest, j - 1);
        c := |part| + d;
        RunConcat(s, part, Stream(rest)[..d]);
        assert Stream(items)[..c] == part + Stream(rest)[..d];
      } else {
        c := IdleSomewhere(s, part);
        assert Stream(items)[..c] == part[..c];
      }
    }
  }

  lemma StreamBegins(items: seq<Item>, j: nat)
    requires 0 < j <= |items|
    ensures Stream(items) == Part(items[0]) + Stream(items[1..])
    ensures Stream(items[..j]) == Part(items[0]) + Stream(items[1..][..j - 1])
    ensures Weight(items[..j]) == |items[0].payload| + 4 + Weight(items[1..][..j - 1])
  {
    hide Frame;
    assert items[..j][1..] == items[1..][..j - 1];
  }

  lemma {:induction false} PrefixLength(items: seq<Item>, j: nat)
    requires j <= |items|
    ensures |Stream(items[..j])| <= |Stream(items)|
    decreases j
  {
    hide Frame;
    if j > 0 {
      assert items[..j][1..] == items[1..][..j - 1];
      PrefixLength(items[1..], j - 1);
    }
  }

  lemma PrefixBelow(items: seq<Item>, j: nat, i: nat)
    requires j <= i <= |items|
    ensures |Stream(items[..j])| <= |Stream(items[..i])|
  {
    PrefixLength(items[..i], j);
    assert items[..i][..j] == items[..j];
  }

  // ---- Recovery ----

  // From any reachable state, when j frames of the stream weigh 273, at most j frames are lost: all
  // later ones are delivered, in order, and nothing after what has been delivered until then.
  lemma Recovers(s: Rx, items: seq<Item>, j: nat) returns (k: nat)
    requires RxInv(s) && Decodable(items) && j <= |items| && Weight(items[..j]) >= 273
    ensures k <= j
    ensures var t := Run(s, Stream(items));
      && t.phase == RxIdle && |t.log.delivered| >= |s.log.delivered| + |items| - k
      && s.log.delivered <= t.log.delivered
      && t.log.delivered[|t.log.delivered| - (|items| - k)..] == Payloads(items[k..])
  {
    hide RxInv;
    hide Needed;
    hide RxRun;
    hide Clean;
    hide Stream;
    hide Weight;
    IdleNeedsNothing(s);
    var c := IdleWithin(s, items, j);
    var w := Stream(items);
    k := AfterIdle(s, items, c);
    RxRunExtends(s, Ins(w[..c]));
    if k > j {
      PrefixBelow(items, j, k - 1);
    }
  }

  lemma {:induction false} LightestFrames(items: seq<Item>)
    requires Decodable(items)
    ensures Weight(items) >= 5 * |items|
    decreases |items|
  {
    if items != [] {
      LightestFrames(items[1..]);
      assert items[0] in items;
    }
  }

  // Whatever the frames are, at most 55 are lost.
  lemma RecoversWithin55(s: Rx, items: seq<Item>) returns (k: nat)
    requires RxInv(s) && Decodable(items) && |items| >= 55
    ensures k <= 55
    ensures var t := Run(s, Stream(items));
      && t.phase == RxIdle && |t.log.delivered| >= |s.log.delivered| + |items| - k
      && s.log.delivered <= t.log.delivered
      && t.log.delivered[|t.log.delivered| - (|items| - k)..] == Payloads(items[k..])
  {
    LightestFrames(items[..55]);
    hide RxInv;
    hide Run;
    hide Stream;
    k := Recovers(s, items, 55);
  }
}
