/** How `ApplePS2Keyboard` cuts the bytes it is handed into key events. */
module PS2ScanCodes {
  import opened PS2Port
  import opened PS2Requests

  const EXTEND: byte := 0xE0
  const PAUSE: byte := 0xE1
  const UP_BIT: byte := 0x80

  datatype RawKey = RawKey(code: byte, extended: bool, down: bool)

  datatype Parsed = Parsed(extendCount: nat, keys: seq<RawKey>)

  function KeyOf(scan: byte, extended: bool): RawKey { RawKey(scan & 0x7F, extended, scan & UP_BIT == 0) }

  /** The parser: a prefix sets the count, a byte under a count above one is dropped, any other ends a key. */
  function Parse(extendCount: nat, scan: byte): Parsed {
    if scan == EXTEND then Parsed(1, [])
    else if scan == PAUSE then Parsed(2, [])
    else if extendCount == 0 then Parsed(0, [KeyOf(scan, false)])
    else if extendCount > 1 then Parsed(extendCount - 1, [])
    else Parsed(0, [KeyOf(scan, true)])
  }

  /** The interrupt routine: acknowledge and resend bytes never reach the parser. */
  function Hear(extendCount: nat, scan: byte): Parsed {
    if scan == ACKNOWLEDGE || scan == RESEND then Parsed(extendCount, []) else Parse(extendCount, scan)
  }

  function Decode(extendCount: nat, bytes: seq<byte>): Parsed
    decreases |bytes|
  {
    if bytes == [] then Parsed(extendCount, [])
    else
      var first := Hear(extendCount, bytes[0]);
      var rest := Decode(first.extendCount, bytes[1..]);
      Parsed(rest.extendCount, first.keys + rest.keys)
  }

  // ---------------------------------------------------------------- frames

  /** A key that goes down or up, on its own, behind one prefix, or behind the pause prefix and a byte `x`. */
  datatype Frame =
    | Plain(code: byte, down: bool)
    | Extended(code: byte, down: bool)
    | Paused(x: byte, code: byte, down: bool)

  /** The byte of a key: the high bit says that it comes up. */
  function Scan(code: byte, down: bool): byte { if down then code else code | 0x80 }

  predicate Payload(b: byte) { b !in {0xE0, 0xE1, 0xFA, 0xFE} }

  /** What a keyboard can send as a frame. The dropped byte of a pause frame may even be the extend prefix. */
  predicate Sendable(f: Frame) {
    && f.code < 0x80 && Payload(Scan(f.code, f.down))
    && (f.Paused? ==> Payload(f.x) || f.x == 0xE0)
  }

  function Encode(f: Frame): seq<byte> {
    match f
    case Plain(code, down) => [Scan(code, down)]
    case Extended(code, down) => [0xE0, Scan(code, down)]
    case Paused(x, code, down) => [0xE1, x, Scan(code, down)]
  }

  function Key(f: Frame): RawKey { RawKey(f.code, !f.Plain?, f.down) }

  function EncodeAll(fs: seq<Frame>): seq<byte> { if fs == [] then [] else Encode(fs[0]) + EncodeAll(fs[1..]) }

  function Keys(fs: seq<Frame>): seq<RawKey> { if fs == [] then [] else [Key(fs[0])] + Keys(fs[1..]) }

  lemma {:induction false} DecodeConcat(c: nat, a: seq<byte>, b: seq<byte>)
    ensures var first := Decode(c, a);
      var rest := Decode(first.extendCount, b);
      Decode(c, a + b) == Parsed(rest.extendCount, first.keys + rest.keys)
    decreases |a|
  {
    if a == [] {
      assert a + b == b;
      assert [] + Decode(c, b).keys == Decode(c, b).keys;
    } else {
      var h := Hear(c, a[0]);
      DecodeConcat(h.extendCount, a[1..], b);
      assert (a + b)[1..] == a[1..] + b;
      var x := Decode(h.extendCount, a[1..]);
      Assoc(h.keys, x.keys, Decode(x.extendCount, b).keys);
    }
  }

  lemma DecodeOne(c: nat, b: byte)
    ensures Decode(c, [b]) == Hear(c, b)
  {
    assert [b][1..] == [];
    assert Hear(c, b).keys + [] == Hear(c, b).keys;
  }

  lemma DecodeTwo(c: nat, a: byte, b: byte)
    ensures var first := Hear(c, a);
      var second := Hear(first.extendCount, b);
      Decode(c, [a] + [b]) == Parsed(second.extendCount, first.keys + second.keys)
  {
    DecodeConcat(c, [a], [b]);
    DecodeOne(c, a);
    DecodeOne(Hear(c, a).extendCount, b);
  }

  lemma DecodeFrame(c: nat, f: Frame)
    ensures var b := Scan(f.code, f.down);
      match f
      case Plain(_, _) => Decode(c, Encode(f)) == Hear(c, b)
      case Extended(_, _) => Decode(c, Encode(f)) == Hear(1, b)
      case Paused(x, _, _) =>
        var first := Hear(2, x);
        var second := Hear(first.extendCount, b);
        Decode(c, Encode(f)) == Parsed(second.extendCount, first.keys + second.keys)
  {
    hide Scan;
    var b := Scan(f.code, f.down);
    match f
    case Plain(_, _) => DecodeOne(c, b);
    case Extended(_, _) =>
      assert Encode(f) == [0xE0] + [b];
      DecodeTwo(c, 0xE0, b);
      assert [] + Hear(1, b).keys == Hear(1, b).keys;
    case Paused(x, _, _) =>
      assert Encode(f) == [0xE1] + ([x] + [b]);
      DecodeConcat(c, [0xE1], [x] + [b]);
      DecodeOne(c, 0xE1);
      DecodeTwo(2, x, b);
      var two := Decode(2, [x] + [b]);
      assert [] + two.keys == two.keys;
  }

  /** The byte of a key gives its code and direction back. */
  lemma KeyOfScan(code: byte, down: bool, extended: bool)
    ensures code < 0x80 <==> KeyOf(Scan(code, down), extended) == RawKey(code, extended, down)
  {
  }

  lemma HearPayload(c: nat, b: byte)
    ensures Payload(b) ==> Hear(c, b) == if c > 1 then Parsed(c - 1, []) else Parsed(0, [KeyOf(b, c == 1)])
    ensures !Payload(b) ==> Hear(c, b) == Parsed(if b == 0xE0 then 1 else if b == 0xE1 then 2 else c, [])
  {
    hide KeyOf;
  }

  lemma PauseDecodes(c: nat, f: Frame)
    requires f.Paused?
    ensures Decode(c, Encode(f)) == Parsed(0, [Key(f)]) <==> Sendable(f)
  {
    hide Scan, KeyOf, Decode, Hear, Encode, Payload;
    var b := Scan(f.code, f.down);
    DecodeFrame(c, f);
    KeyOfScan(f.code, f.down, true);
    HearPayload(2, f.x);
    var first := Hear(2, f.x);
    HearPayload(first.extendCount, b);
    KnownBytes();
    var second := Hear(first.extendCount, b);
    assert [] + second.keys == second.keys;
    assert [KeyOf(b, true)] == [Key(f)] ==> [KeyOf(b, true)][0] == [Key(f)][0];
  }

  lemma KnownBytes()
    ensures !Payload(0xE0) && !Payload(0xE1)
  {
  }

  /** A frame on its own decodes to its key exactly when the keyboard can send it. */
  lemma FrameDecodes(f: Frame)
    ensures Decode(0, Encode(f)) == Parsed(0, [Key(f)]) <==> Sendable(f)
  {
    hide Scan, KeyOf, Decode, Hear, Encode, Payload;
    if f.Paused? {
      PauseDecodes(0, f);
    } else {
      var b, extended := Scan(f.code, f.down), f.Extended?;
      DecodeFrame(0, f);
      KeyOfScan(f.code, f.down, extended);
      HearPayload(if extended then 1 else 0, b);
      assert [KeyOf(b, extended)] == [Key(f)] ==> [KeyOf(b, extended)][0] == [Key(f)][0];
    }
  }

  /** Every byte is that of one key going one way, so the frames are all there is. */
  lemma EveryByteScans(b: byte)
    ensures Scan(b & 0x7F, b & 0x80 == 0) == b && b & 0x7F < 0x80
  {
  }

  /** Any list of frames parses to exactly its keys, in order, and leaves the parser at rest. */
  lemma {:induction false} RoundTrip(fs: seq<Frame>)
    requires forall i :: 0 <= i < |fs| ==> Sendable(fs[i])
    ensures Decode(0, EncodeAll(fs)) == Parsed(0, Keys(fs))
  {
    if fs != [] {
      FrameDecodes(fs[0]);
      RoundTrip(fs[1..]);
      DecodeConcat(0, Encode(fs[0]), EncodeAll(fs[1..]));
    }
  }

  /** From any state a prefixed frame brings the parser back in step. */
  lemma Resynchronises(c: nat, f: Frame, fs: seq<Frame>)
    requires !f.Plain? && Sendable(f) && forall i :: 0 <= i < |fs| ==> Sendable(fs[i])
    ensures Decode(c, Encode(f) + EncodeAll(fs)) == Parsed(0, [Key(f)] + Keys(fs))
  {
    hide Scan, KeyOf, Decode, Hear, Encode, Payload;
    if f.Paused? {
      PauseDecodes(c, f);
    } else {
      DecodeFrame(c, f);
      KeyOfScan(f.code, f.down, true);
      HearPayload(1, Scan(f.code, f.down));
    }
    RoundTrip(fs);
    DecodeConcat(c, Encode(f), EncodeAll(fs));
  }

  function WithoutReplies(bytes: seq<byte>): seq<byte> {
    if bytes == [] then []
    else (if bytes[0] == ACKNOWLEDGE || bytes[0] == RESEND then [] else [bytes[0]]) + WithoutReplies(bytes[1..])
  }

  /** Acknowledge and resend bytes anywhere in the stream, also inside a frame, change nothing. */
  lemma {:induction false} RepliesAreSilent(c: nat, bytes: seq<byte>)
    ensures Decode(c, bytes) == Decode(c, WithoutReplies(bytes))
    decreases |bytes|
  {
    if bytes != [] {
      var h := Hear(c, bytes[0]);
      RepliesAreSilent(h.extendCount, bytes[1..]);
      var rest := WithoutReplies(bytes[1..]);
      if bytes[0] == ACKNOWLEDGE || bytes[0] == RESEND {
        assert [] + rest == rest;
        assert [] + Decode(c, rest).keys == Decode(c, rest).keys;
      } else {
        assert ([bytes[0]] + rest)[1..] == rest;
      }
    }
  }
}
