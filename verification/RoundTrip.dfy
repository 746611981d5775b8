// The receiver run on what the transmitter sends, with an allocator that succeeds.
module RoundTrip {
  import opened Options
  import opened Wire
  import opened RxMachine
  import opened Sequences

  function Ins(w: seq<byte>): seq<In> {
    seq(|w|, i requires 0 <= i < |w| => In(w[i], true))
  }

  function Run(s: Rx, w: seq<byte>): Rx {
    RxRun(s, Ins(w))
  }

  lemma RunConcat(s: Rx, a: seq<byte>, b: seq<byte>)
    ensures Run(s, a + b) == Run(Run(s, a), b)
  {
    assert Ins(a + b) == Ins(a) + Ins(b);
    RxRunConcat(s, Ins(a), Ins(b));
  }

  lemma RunOne(s: Rx, b: byte)
    ensures Run(s, [b]) == RxByte(s, In(b, true))
  {
    var ins := Ins([b]);
    assert RxRun(s, ins) == RxRun(RxByte(s, ins[0]), ins[1..]);
  }

  lemma RunKeepsInv(s: Rx, w: seq<byte>)
    requires RxInv(s)
    ensures RxInv(Run(s, w))
  {
    RxRunKeepsInv(s, Ins(w));
  }

  // The state without saved_state, which only matters in RxEscape.
  function Core(s: Rx): Rx {
    s.(saved := RxIdle)
  }

  // A byte other than the escape character comes through escaping unharmed.
  lemma StoreEscaped(s: Rx, b: byte)
    requires s.phase == RxLength || s.phase == RxData
    requires b != ESCAPE_CHAR
    ensures Core(Run(s, EscapeByte(b))) == Core(Switch(s, b, true))
  {
    if Special(b) {
      RunConcat(s, [ESCAPE_CHAR], [Xor20(b)]);
      assert EscapeByte(b) == [ESCAPE_CHAR] + [Xor20(b)];
      RunOne(s, ESCAPE_CHAR);
      RunOne(Run(s, [ESCAPE_CHAR]), Xor20(b));
    } else {
      RunOne(s, b);
    }
  }

  function WithData(s: Rx, d: seq<byte>): Rx
    requires s.skb.Some?
  {
    s.(skb := Some(s.skb.value.(data := s.skb.value.data + d)), received := s.received + |d|,
       phase := if s.received + |d| >= s.frameLength then RxEnd else RxData)
  }

  lemma {:induction false} ReceiveData(s: Rx, d: seq<byte>)
    requires RxInv(s) && s.phase == RxData && s.received + |d| <= s.frameLength
    requires ESCAPE_CHAR !in d
    ensures Core(Run(s, Escape(d))) == Core(WithData(s, d))
    decreases |d|
  {
    if d == [] {
      assert s.skb.value.data + [] == s.skb.value.data;
    } else {
      StoreEscaped(s, d[0]);
      RunConcat(s, EscapeByte(d[0]), Escape(d[1..]));
      var s1 := Run(s, EscapeByte(d[0]));
      RunKeepsInv(s, EscapeByte(d[0]));
      assert s.skb.value.data + [d[0]] + d[1..] == s.skb.value.data + d;
      if |d| > 1 {
        ReceiveData(s1, d[1..]);
      } else {
        assert d == [d[0]];
      }
    }
  }

  // A receiver that has just accepted a length and got a buffer for it.
  predicate ExpectsData(t: Rx, n: nat, log: RxLog) {
    t.phase == RxData && t.frameLength == n && t.received == 0 && t.skb == Some(Skb(n, [])) && t.log == log
  }

  lemma LengthAccepted(s: Rx, n: nat)
    requires RxInv(s) && s.phase == RxLength && s.lengthIndex == 0
    requires 1 <= n <= MAX_FRAME
    ensures var t := LengthByte(LengthByte(s, LengthBytes(n)[0], true), LengthBytes(n)[1], true);
      ExpectsData(t, n, s.log.(buffers := s.log.buffers + 1))
  {
    LengthBytesJoin(n);
    hide LengthBytes;
    hide JoinLength;
  }

  lemma ReceiveLength(s: Rx, n: nat)
    requires RxInv(s) && s.phase == RxLength && s.lengthIndex == 0
    requires 1 <= n <= MAX_FRAME && ESCAPE_CHAR !in LengthBytes(n)
    ensures var t := Run(s, Escape(LengthBytes(n)));
      RxInv(t) && ExpectsData(t, n, s.log.(buffers := s.log.buffers + 1))
  {
    var len := LengthBytes(n);
    var s1 := Run(s, EscapeByte(len[0]));
    var t := Run(s1, EscapeByte(len[1]));
    assert t == Run(s, Escape(len)) by {
      EscapePair(len);
      RunConcat(s, EscapeByte(len[0]), EscapeByte(len[1]));
    }
    assert Core(s1) == Core(LengthByte(s, len[0], true)) by {
      StoreEscaped(s, len[0]);
    }
    assert Core(t) == Core(LengthByte(s1, len[1], true)) by {
      StoreEscaped(s1, len[1]);
    }
    LengthAccepted(s, n);
    RunKeepsInv(s, Escape(len));
  }

  // A clean frame seen in RxIdle is delivered, and nothing else happens.
  lemma DeliverFrame(s: Rx, p: seq<byte>)
    requires RxInv(s) && s.phase == RxIdle && Clean(p)
    ensures var t := Run(s, Frame(p));
      && RxInv(t) && t.phase == RxIdle
      && t.log == s.log.(headers := s.log.headers + 1, packets := s.log.packets + 1,
                         buffers := s.log.buffers + 1, delivered := s.log.delivered + [p])
  {
    var len := Escape(LengthBytes(|p|));
    var s1 := Run(s, [FRAME_HEADER]);
    var s2 := Run(s1, len);
    var s3 := Run(s2, Escape(p));
    var t := Run(s3, [FRAME_FOOTER]);
    assert t == Run(s, Frame(p)) by {
      RunConcat(s, [FRAME_HEADER], len);
      RunConcat(s, [FRAME_HEADER] + len, Escape(p));
      RunConcat(s, [FRAME_HEADER] + len + Escape(p), [FRAME_FOOTER]);
    }
    RunOne(s, FRAME_HEADER);
    RunKeepsInv(s, [FRAME_HEADER]);
    ReceiveLength(s1, |p|);
    ReceiveData(s2, p);
    RunKeepsInv(s2, Escape(p));
    assert [] + p == p;
    RunOne(s3, FRAME_FOOTER);
    RunKeepsInv(s, Frame(p));
  }

  // From any idle state, whatever has been received before, the receiver delivers exactly the payload
  // and comes back to RxIdle if and only if the payload is clean. For every payload, of any length.
  lemma ExactRoundTrip(s: Rx, p: seq<byte>)
    requires RxInv(s) && s.phase == RxIdle
    ensures var t := Run(s, Frame(p));
      var all := s.log.delivered + [p];
      && (t.log.delivered == all <==> Clean(p))
      && (t.phase == RxIdle && t.log.delivered == all <==> Clean(p))
  {
    RunKeepsInv(s, Frame(p));
    var t := Run(s, Frame(p));
    if t.log.delivered == s.log.delivered + [p] {
      assert p in t.log.delivered;
    }
    if Clean(p) {
      DeliverFrame(s, p);
    }
  }

  // A concrete payload that is lost: its single byte is the escape character.
  lemma EscapeCharIsLost(s: Rx)
    requires RxInv(s) && s.phase == RxIdle
    ensures Run(s, Frame([ESCAPE_CHAR])).log.delivered != s.log.delivered + [[ESCAPE_CHAR]]
  {
    ExactRoundTrip(s, [ESCAPE_CHAR]);
  }

  // ---- Streams of frames between noise ----

  datatype Item = Item(noise: seq<byte>, payload: seq<byte>)

  function Stream(items: seq<Item>): seq<byte> {
    if items == [] then [] else items[0].noise + Frame(items[0].payload) + Stream(items[1..])
  }

  function Payloads(items: seq<Item>): seq<seq<byte>> {
    seq(|items|, i requires 0 <= i < |items| => items[i].payload)
  }

  predicate Decodable(items: seq<Item>) {
    forall i <- items :: FRAME_HEADER !in i.noise && Clean(i.payload)
  }

  lemma {:induction false} SkipNoise(s: Rx, noise: seq<byte>)
    requires s.phase == RxIdle && FRAME_HEADER !in noise
    ensures Run(s, noise) == s
    decreases |noise|
  {
    if noise != [] {
      assert noise == [noise[0]] + noise[1..];
      RunOne(s, noise[0]);
      RunConcat(s, [noise[0]], noise[1..]);
      SkipNoise(s, noise[1..]);
    }
  }

  lemma RunEmpty(s: Rx)
    ensures Run(s, []) == s
  {
  }

  // All the frames of a stream are delivered, in order and once each.
  lemma {:induction false} DecodeStream(s: Rx, items: seq<Item>)
    requires RxInv(s) && s.phase == RxIdle && Decodable(items)
    ensures var t := Run(s, Stream(items));
      RxInv(t) && t.phase == RxIdle && t.log.delivered == s.log.delivered + Payloads(items)
    decreases |items|
  {
    hide RxInv;
    hide Run;
    hide Frame;
    hide Clean;
    if items == [] {
      RunEmpty(s);
      assert s.log.delivered + [] == s.log.delivered;
    } else {
      var i := items[0];
      SkipNoise(s, i.noise);
      DeliverFrame(s, i.payload);
      RunConcat(s, i.noise, Frame(i.payload));
      RunConcat(s, i.noise + Frame(i.payload), Stream(items[1..]));
      DecodeStream(Run(s, Frame(i.payload)), items[1..]);
      assert [i.payload] + Payloads(items[1..]) == Payloads(items);
    }
  }

  // At every point of the stream, what has been delivered of it is a prefix of what was sent.
  lemma DecodePrefix(s: Rx, items: seq<Item>, c: nat)
    requires RxInv(s) && s.phase == RxIdle && Decodable(items) && c <= |Stream(items)|
    ensures s.log.delivered <= Run(s, Stream(items)[..c]).log.delivered <= s.log.delivered + Payloads(items)
  {
    hide RxInv;
    hide Stream;
    hide Decodable;
    hide RxRun;
    var w := Stream(items);
    DecodeStream(s, items);
    RunConcat(s, w[..c], w[c..]);
    assert w[..c] + w[c..] == w;
    RxRunExtends(s, Ins(w[..c]));
    RxRunExtends(Run(s, w[..c]), Ins(w[c..]));
  }

  // ---- Polling ----

  // How many of the bytes in the FIFO one poll takes: it stops when it has delivered budget
  // packets, or sees the FIFO empty.
  function PollTake(s: Rx, fifo: seq<In>, budget: nat): (n: nat)
    ensures n <= |fifo|
    ensures |RxRun(s, fifo[..n]).log.delivered| <= |s.log.delivered| + budget
    ensures n < |fifo| ==> |RxRun(s, fifo[..n]).log.delivered| == |s.log.delivered| + budget
    decreases |fifo|
  {
    if fifo == [] || budget == 0 then
      assert fifo[..0] == [];
      0
    else
      var s1 := RxByte(s, fifo[0]);
      var done := |s1.log.delivered| - |s.log.delivered|;
      var m := PollTake(s1, fifo[1..], budget - done);
      assert fifo[..m + 1][1..] == fifo[1..][..m];
      m + 1
  }

  // It does not stop later than it must.
  lemma {:induction false} PollStopsInTime(s: Rx, fifo: seq<In>, budget: nat, k: nat)
    requires k < PollTake(s, fifo, budget)
    ensures |RxRun(s, fifo[..k]).log.delivered| < |s.log.delivered| + budget
    decreases k
  {
    hide RxByte;
    if k > 0 {
      var s1 := RxByte(s, fifo[0]);
      RxByteExtends(s, fifo[0]);
      assert fifo[..k][1..] == fifo[1..][..k - 1];
      PollStopsInTime(s1, fifo[1..], budget - (|s1.log.delivered| - |s.log.delivered|), k - 1);
    }
  }

  // One call of the poll function: its budget, and how many bytes of the stream it can read
  // before it sees the FIFO empty.
  datatype Call = Call(budget: nat, visible: nat)

  function Visible(stream: seq<In>, c: Call): seq<In> {
    if c.visible <= |stream| then stream[..c.visible] else stream
  }

  // The state after a sequence of polls, and how much of the stream they have read.
  function Drive(s: Rx, stream: seq<In>, calls: seq<Call>): (Rx, nat)
    decreases |calls|
  {
    if calls == [] then (s, 0)
    else
      var n := PollTake(s, Visible(stream, calls[0]), calls[0].budget);
      var (t, m) := Drive(RxRun(s, stream[..n]), stream[n..], calls[1..]);
      (t, n + m)
  }

  lemma TakesSome(s: Rx, fifo: seq<In>, budget: nat)
    requires fifo != [] && budget > 0
    ensures PollTake(s, fifo, budget) > 0
  {
  }

  lemma SplitRun(s: Rx, stream: seq<In>, n: nat, m: nat)
    requires n + m <= |stream|
    ensures RxRun(RxRun(s, stream[..n]), stream[n..][..m]) == RxRun(s, stream[..n + m])
  {
    hide RxRun;
    TakeOfDrop(stream, n, m);
    RxRunConcat(s, stream[..n], stream[n..n + m]);
  }

  lemma RunNothing(s: Rx, stream: seq<In>)
    ensures RxRun(s, stream[..0]) == s
  {
  }

  // However the polls cut the stream, their state depends only on how much they have read;
  // and polls that each may and can do something get to the end of it.
  lemma {:induction false} BatchingIsIrrelevant(s: Rx, stream: seq<In>, calls: seq<Call>)
    ensures var (t, n) := Drive(s, stream, calls);
      && n <= |stream| && t == RxRun(s, stream[..n])
      && ((forall c <- calls :: c.budget > 0 && c.visible > 0) && |stream| <= |calls| ==> n == |stream|)
    decreases |calls|
  {
    hide PollTake;
    hide RxRun;
    hide RxByte;
    if calls == [] {
      RunNothing(s, stream);
    } else {
      var c := calls[0];
      var n := PollTake(s, Visible(stream, c), c.budget);
      var s1 := RxRun(s, stream[..n]);
      BatchingIsIrrelevant(s1, stream[n..], calls[1..]);
      if c.budget > 0 && c.visible > 0 && stream != [] {
        TakesSome(s, Visible(stream, c), c.budget);
      }
      SplitRun(s, stream, n, Drive(s1, stream[n..], calls[1..]).1);
    }
  }

  // Any part w of a stream of clean frames between noise, polled in any way: at any time a prefix
  // of the sent payloads has been delivered, and all of them once the whole stream has been read.
  lemma PolledStream(s: Rx, items: seq<Item>, w: seq<byte>, calls: seq<Call>)
    requires RxInv(s) && s.phase == RxIdle && Decodable(items) && w <= Stream(items)
    ensures var (t, n) := Drive(s, Ins(w), calls);
      && s.log.delivered <= t.log.delivered <= s.log.delivered + Payloads(items)
      && (n == |Stream(items)| ==> t.phase == RxIdle && t.log.delivered == s.log.delivered + Payloads(items))
  {
    hide RxRun;
    hide Drive;
    hide Stream;
    hide RxInv;
    var (t, n) := Drive(s, Ins(w), calls);
    BatchingIsIrrelevant(s, Ins(w), calls);
    assert Ins(w)[..n] == Ins(Stream(items)[..n]);
    DecodePrefix(s, items, n);
    if n == |Stream(items)| {
      assert Stream(items)[..n] == Stream(items);
      DecodeStream(s, items);
    }
  }
}
