// The byte-stuffed frame format that uart_net.c puts on the serial line:
//   0xAA, escaped length (two bytes, high first), escaped payload, 0x55.
module Wire {

  import opened Options

  type byte = b: int | 0 <= b < 256

  const FRAME_HEADER: byte := 0xAA
  const FRAME_FOOTER: byte := 0x55
  const ESCAPE_CHAR: byte := 0x5A

  // UARTNET_MTU + ETH_HLEN, the longest payload the receiver accepts.
  const MAX_FRAME := 256 + 14

  // byte ^ 0x20.
  function Xor20(b: byte): byte {
    if b / 0x20 % 2 == 1 then b - 0x20 else b + 0x20
  }

  predicate Special(b: byte) {
    b == FRAME_HEADER || b == FRAME_FOOTER || b == ESCAPE_CHAR
  }

  function EscapeByte(b: byte): seq<byte> {
    if Special(b) then [ESCAPE_CHAR, Xor20(b)] else [b]
  }

  function Escape(s: seq<byte>): seq<byte> {
    if s == [] then [] else EscapeByte(s[0]) + Escape(s[1..])
  }

  // (bytes[0] << 8) | bytes[1], as the receiver reads the length.
  function JoinLength(high: byte, low: byte): nat {
    (high as nat) * 256 + low as nat
  }

  // The two length bytes as the transmitter computes them from skb->len.
  function LengthBytes(len: nat): (r: seq<byte>)
    ensures |r| == 2
  {
    [len / 256 % 256, len % 256]
  }

  lemma LengthBytesJoin(len: nat)
    requires len < 0x1_0000
    ensures JoinLength(LengthBytes(len)[0], LengthBytes(len)[1]) == len
  {
    assert len / 256 < 256;
  }

  function Frame(payload: seq<byte>): seq<byte> {
    [FRAME_HEADER] + Escape(LengthBytes(|payload|)) + Escape(payload) + [FRAME_FOOTER]
  }

  // A reference decoder: an escaped byte is taken as it is, whatever its value.

  function TakeByte(w: seq<byte>): Option<(byte, seq<byte>)> {
    if w == [] || w[0] == FRAME_HEADER || w[0] == FRAME_FOOTER then None
    else if w[0] != ESCAPE_CHAR then Some((w[0], w[1..]))
    else if |w| < 2 then None
    else Some((Xor20(w[1]), w[2..]))
  }

  function TakeBytes(w: seq<byte>, n: nat): Option<(seq<byte>, seq<byte>)> {
    if n == 0 then Some(([], w))
    else match TakeByte(w)
      case None => None
      case Some((b, rest)) =>
        match TakeBytes(rest, n - 1)
        case None => None
        case Some((bs, rest')) => Some(([b] + bs, rest'))
  }

  function Decode(w: seq<byte>): Option<(seq<byte>, seq<byte>)> {
    if w == [] || w[0] != FRAME_HEADER then None
    else match TakeBytes(w[1..], 2)
      case None => None
      case Some((len, rest)) =>
        if |len| != 2 then None
        else match TakeBytes(rest, JoinLength(len[0], len[1]))
          case None => None
          case Some((payload, rest')) =>
            if rest' == [] || rest'[0] != FRAME_FOOTER then None else Some((payload, rest'[1..]))
  }

  lemma {:induction false} TakeEscaped(s: seq<byte>, rest: seq<byte>)
    ensures TakeBytes(Escape(s) + rest, |s|) == Some((s, rest))
  {
    if s == [] {
      assert Escape(s) + rest == rest;
    } else {
      var tail := Escape(s[1..]) + rest;
      assert Escape(s) + rest == EscapeByte(s[0]) + tail;
      if Special(s[0]) {
        assert (EscapeByte(s[0]) + tail)[2..] == tail;
      } else {
        assert (EscapeByte(s[0]) + tail)[1..] == tail;
      }
      assert TakeByte(Escape(s) + rest) == Some((s[0], tail));
      TakeEscaped(s[1..], rest);
      assert [s[0]] + s[1..] == s;
    }
  }

  // The format loses nothing: whatever follows a frame, the reference decoder
  // returns the payload and what follows.
  lemma DecodeFrame(payload: seq<byte>, rest: seq<byte>)
    requires |payload| < 0x1_0000
    ensures Decode(Frame(payload) + rest) == Some((payload, rest))
  {
    var w := Frame(payload) + rest;
    var afterLength := Escape(payload) + ([FRAME_FOOTER] + rest);
    var len := LengthBytes(|payload|);
    assert w[1..] == Escape(len) + afterLength;
    LengthBytesJoin(|payload|);
    hide Escape;
    hide TakeBytes;
    hide LengthBytes;
    TakeEscaped(len, afterLength);
    TakeEscaped(payload, [FRAME_FOOTER] + rest);
    assert ([FRAME_FOOTER] + rest)[1..] == rest;
  }

  // Hence no frame is a prefix of another one, and a stream of frames splits in one way only.
  lemma FrameSplitsUniquely(p: seq<byte>, r: seq<byte>, q: seq<byte>, t: seq<byte>)
    requires |p| < 0x1_0000 && |q| < 0x1_0000
    requires Frame(p) + r == Frame(q) + t
    ensures p == q && r == t
  {
    DecodeFrame(p, r);
    DecodeFrame(q, t);
  }

  lemma PrefixFree(p: seq<byte>, q: seq<byte>)
    requires |p| < 0x1_0000 && |q| < 0x1_0000
    requires Frame(p) <= Frame(q)
    ensures p == q
  {
    var r := Frame(q)[|Frame(p)|..];
    assert Frame(p) + r == Frame(q) + [];
    FrameSplitsUniquely(p, r, q, []);
  }

  lemma {:induction false} EscapeHasNoDelimiter(s: seq<byte>)
    ensures FRAME_HEADER !in Escape(s) && FRAME_FOOTER !in Escape(s)
  {
    if s != [] {
      EscapeHasNoDelimiter(s[1..]);
    }
  }

  // The two delimiters stand at the two ends of a frame and nowhere else.
  lemma DelimitersOnlyAtEnds(payload: seq<byte>, i: nat)
    requires i < |Frame(payload)|
    ensures Frame(payload)[i] == FRAME_HEADER <==> i == 0
    ensures Frame(payload)[i] == FRAME_FOOTER <==> i == |Frame(payload)| - 1
  {
    var body := Escape(LengthBytes(|payload|)) + Escape(payload);
    EscapeHasNoDelimiter(LengthBytes(|payload|));
    EscapeHasNoDelimiter(payload);
    assert Frame(payload) == [FRAME_HEADER] + body + [FRAME_FOOTER];
    if 0 < i < |Frame(payload)| - 1 {
      assert Frame(payload)[i] == body[i - 1];
      assert body[i - 1] in body;
    }
  }

  // Two frames as they are on the wire: the high length byte comes first, and 0x55 is escaped as 0x5A 0x75.
  lemma FramesOnTheWire()
    ensures Frame([0x41]) == [0xAA, 0x00, 0x01, 0x41, 0x55]
    ensures Frame([0x55, 0x5A, 0xAA]) == [0xAA, 0x00, 0x03, 0x5A, 0x75, 0x5A, 0x7A, 0x5A, 0x8A, 0x55]
    ensures LengthBytes(270) == [0x01, 0x0E]
  {
    hide Escape;
    assert LengthBytes(1) == [0x00, 0x01] && LengthBytes(3) == [0x00, 0x03];
    EscapeOfNone();
    EscapeNext([0x41]);
    assert [0x41][1..] == [];
    EscapePair([0x00, 0x01]);
    EscapePair([0x00, 0x03]);
    EscapeNext([0x55, 0x5A, 0xAA]);
    assert [0x55, 0x5A, 0xAA][1..] == [0x5A, 0xAA];
    EscapePair([0x5A, 0xAA]);
  }

  lemma EscapePair(w: seq<byte>)
    requires |w| == 2
    ensures Escape(w) == EscapeByte(w[0]) + EscapeByte(w[1])
  {
    hide Escape;
    EscapeOfNone();
    EscapeNext(w);
    EscapeNext([w[1]]);
    assert w[1..] == [w[1]] && [w[1]][1..] == [];
  }

  lemma EscapeOfNone()
    ensures Escape([]) == []
  {
  }

  lemma EscapeNext(s: seq<byte>)
    requires s != []
    ensures Escape(s) == EscapeByte(s[0]) + Escape(s[1..])
  {
  }

  // Xor20 is the bitwise operation.
  lemma Xor20IsBitwise(b: bv8)
    ensures Xor20(b as int) == (b ^ 0x20) as int
  {
    if b & 0x20 == 0 {
      assert b ^ 0x20 == b + 0x20;
    } else {
      assert b ^ 0x20 == b - 0x20;
    }
  }
}
