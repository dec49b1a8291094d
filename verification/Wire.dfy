/** The ChatServer wire format (MsgNode.cpp, const.h): a frame is a signed 16-bit
    message id, a signed 16-bit payload length, both big-endian, then the payload. */
module Wire {
  import Bytes

  const MAX_LENGTH := 2048
  const HEAD_TOTAL_LEN := 4
  const HEAD_ID_LEN := 2

  type Byte = Bytes.Byte

  type Short = x: int | -0x8000 <= x < 0x8000

  /** The conversion of a wider integer to `short`. */
  function ToShort(n: int): Short {
    var w := n % 0x1_0000;
    if w < 0x8000 then w else w - 0x1_0000
  }

  /** The two bytes `memcpy` copies out of a `short` in network order. */
  function ShortBytes(s: Short): seq<Byte> {
    var w := s % 0x1_0000;
    [(w / 0x100) as Byte, (w % 0x100) as Byte]
  }

  /** The `short` read back from two bytes in network order. */
  function ShortOf(b: seq<Byte>): Short
    requires |b| == 2
  {
    ToShort(b[0] as int * 0x100 + b[1] as int)
  }

  /** The high byte comes first, and a negative value is meant modulo 65536. */
  lemma HighByteFirst(s: Short, b: seq<Byte>)
    requires |b| == 2
    ensures (256 * ShortBytes(s)[0] as int + ShortBytes(s)[1] as int - s) % 65536 == 0
    ensures (256 * b[0] as int + b[1] as int - ShortOf(b)) % 65536 == 0
  {
    var w := s % 0x1_0000;
    assert w / 0x100 * 0x100 + w % 0x100 == w;
    assert w == if s >= 0 then s else s + 0x1_0000;
    var n := b[0] as int * 0x100 + b[1] as int;
    assert n % 0x1_0000 == n;
  }

  lemma ShortBytesThenShort(s: Short)
    ensures ShortOf(ShortBytes(s)) == s
  {
    var w := s % 0x1_0000;
    assert w / 0x100 * 0x100 + w % 0x100 == w;
    assert w == if s >= 0 then s else s + 0x1_0000;
  }

  lemma ShortThenShortBytes(b: seq<Byte>)
    requires |b| == 2
    ensures ShortBytes(ShortOf(b)) == b
  {
    var n := b[0] as int * 0x100 + b[1] as int;
    assert n % 0x1_0000 == n && ToShort(n) % 0x1_0000 == n;
    assert n / 0x100 == b[0] as int && n % 0x100 == b[1] as int;
  }

  /** What one SendNode carries. Its total length, payload plus head, must fit a `short`. */
  datatype Frame = Frame(id: Short, payload: Payload)

  const MAX_PAYLOAD := 0x7FFF - HEAD_TOTAL_LEN

  type Payload = p: seq<Byte> | |p| <= MAX_PAYLOAD

  function Head(id: Short, len: Short): (h: seq<Byte>)
    ensures |h| == HEAD_TOTAL_LEN
  {
    ShortBytes(id) + ShortBytes(len)
  }

  /** The id comes first, in two bytes, then the length of the payload, in two. */
  lemma FrameLayout(f: Frame)
    ensures Encode(f) == ShortBytes(f.id) + ShortBytes(|f.payload|) + f.payload
    ensures |Encode(f)| == 4 + |f.payload| && |f.payload| <= 32763
  {
  }

  function HeadId(h: seq<Byte>): Short
    requires |h| == HEAD_TOTAL_LEN
  {
    ShortOf(h[..HEAD_ID_LEN])
  }

  function HeadLen(h: seq<Byte>): Short
    requires |h| == HEAD_TOTAL_LEN
  {
    ShortOf(h[HEAD_ID_LEN..])
  }

  lemma HeadRoundTrip(id: Short, len: Short)
    ensures HeadId(Head(id, len)) == id && HeadLen(Head(id, len)) == len
  {
    var h := Head(id, len);
    assert h[..HEAD_ID_LEN] == ShortBytes(id) && h[HEAD_ID_LEN..] == ShortBytes(len);
    ShortBytesThenShort(id);
    ShortBytesThenShort(len);
  }

  lemma HeadOfBytes(h: seq<Byte>)
    requires |h| == HEAD_TOTAL_LEN
    ensures Head(HeadId(h), HeadLen(h)) == h
  {
    ShortThenShortBytes(h[..HEAD_ID_LEN]);
    ShortThenShortBytes(h[HEAD_ID_LEN..]);
  }

  function Encode(f: Frame): (b: seq<Byte>)
    ensures |b| == HEAD_TOTAL_LEN + |f.payload|
  {
    Head(f.id, |f.payload|) + f.payload
  }

  /** Decoding the head of a frame's bytes gives back its id and length, and what follows
      is its payload, whatever comes after it. */
  lemma EncodeParts(f: Frame, rest: seq<Byte>)
    ensures var b := Encode(f) + rest; var n := HEAD_TOTAL_LEN + |f.payload|;
      && HeadId(b[..HEAD_TOTAL_LEN]) == f.id && HeadLen(b[..HEAD_TOTAL_LEN]) == |f.payload|
      && b[HEAD_TOTAL_LEN..n] == f.payload && b[n..] == rest
  {
    HeadRoundTrip(f.id, |f.payload|);
    assert (Encode(f) + rest)[..HEAD_TOTAL_LEN] == Head(f.id, |f.payload|);
  }

  function EncodeAll(fs: seq<Frame>): seq<Byte> {
    if fs == [] then [] else Encode(fs[0]) + EncodeAll(fs[1..])
  }

  lemma {:induction false} EncodeAllAppend(a: seq<Frame>, b: seq<Frame>)
    ensures EncodeAll(a + b) == EncodeAll(a) + EncodeAll(b)
  {
    if a == [] {
      assert a + b == b;
    } else {
      assert (a + b)[1..] == a[1..] + b;
      EncodeAllAppend(a[1..], b);
    }
  }

  lemma EncodeAllOne(f: Frame)
    ensures EncodeAll([f]) == Encode(f)
  {
  }

  /** Two encodings that agree on their first bytes start with the same frame. */
  lemma FirstFrameDetermined(f: Frame, g: Frame, x: seq<Byte>, y: seq<Byte>)
    requires Encode(f) + x <= Encode(g) + y
    ensures f == g && x <= y
  {
    var a, b := Encode(f) + x, Encode(g) + y;
    EncodeParts(f, x);
    EncodeParts(g, y);
    hide Encode;
    assert a == b[..|a|];
    assert a[..HEAD_TOTAL_LEN] == b[..HEAD_TOTAL_LEN];
    var n := HEAD_TOTAL_LEN + |f.payload|;
    assert a[HEAD_TOTAL_LEN..n] == b[HEAD_TOTAL_LEN..n];
    assert a[n..] == b[n..][..|x|];
  }

  /** Unique decodability, in its strongest form: whoever has read only the first part of
      an encoded stream knows the first frames, and the rest of its bytes are the first
      bytes of the remaining frames. */
  lemma {:induction false} PrefixDecodes(a: seq<Frame>, rest: seq<Byte>, b: seq<Frame>)
    requires EncodeAll(a) + rest <= EncodeAll(b)
    ensures a <= b && rest <= EncodeAll(b[|a|..])
  {
    if a == [] {
      assert EncodeAll(a) + rest == rest && b[0..] == b;
    } else {
      var tail := EncodeAll(a[1..]) + rest;
      assert EncodeAll(a) + rest == Encode(a[0]) + tail;
      assert b != [] by { assert |EncodeAll(a) + rest| > 0; }
      FirstFrameDetermined(a[0], b[0], tail, EncodeAll(b[1..]));
      PrefixDecodes(a[1..], rest, b[1..]);
      assert b[1..][|a| - 1..] == b[|a|..];
      assert a == [a[0]] + a[1..] && b == [b[0]] + b[1..];
    }
  }

  /** Two frame lists with the same bytes are the same list. */
  lemma UniquelyDecodable(a: seq<Frame>, b: seq<Frame>)
    ensures EncodeAll(a) == EncodeAll(b) <==> a == b
  {
    if EncodeAll(a) == EncodeAll(b) {
      assert EncodeAll(a) + [] == EncodeAll(b) && EncodeAll(b) + [] == EncodeAll(a);
      PrefixDecodes(a, [], b);
      PrefixDecodes(b, [], a);
    }
  }

  /** Send(std::string) converts the length to `short` without a test. Over all strings, a
      frame is built and carries the whole string exactly up to MAX_PAYLOAD bytes. */
  lemma StringFramedWhole(msg: seq<Byte>)
    ensures 0 <= ToShort(|msg|) ==> ToShort(|msg|) <= |msg|
    ensures (0 <= ToShort(|msg|) <= MAX_PAYLOAD && msg[..ToShort(|msg|)] == msg) <==> |msg| <= MAX_PAYLOAD
  {
  }

  /** A longer string may still be framed, and is then cut: 65536 + k bytes to the first k. */
  lemma LongStringIsCut(msg: seq<Byte>, k: nat)
    requires |msg| == 0x1_0000 + k && k <= MAX_PAYLOAD
    ensures ToShort(|msg|) == k && msg[..ToShort(|msg|)] != msg
  {
  }

  /** The frames a reader accepts before the first one whose payload exceeds its buffer. */
  function Deliverable(fs: seq<Frame>): seq<Frame> {
    if fs == [] || |fs[0].payload| > MAX_LENGTH then [] else [fs[0]] + Deliverable(fs[1..])
  }

  predicate Readable(fs: seq<Frame>) {
    forall i :: 0 <= i < |fs| ==> |fs[i].payload| <= MAX_LENGTH
  }

  lemma {:induction false} DeliverableSplits(fs: seq<Frame>)
    ensures var d := Deliverable(fs);
      d <= fs && Readable(d) && (|d| < |fs| ==> |fs[|d|].payload| > MAX_LENGTH)
  {
    if fs != [] && |fs[0].payload| <= MAX_LENGTH {
      var d := Deliverable(fs[1..]);
      DeliverableSplits(fs[1..]);
      assert fs == [fs[0]] + fs[1..];
      assert forall i :: 0 < i < |d| + 1 ==> ([fs[0]] + d)[i] == d[i - 1];
    }
  }

  /** Deliverable is the longest prefix of fs that consists of readable frames only. */
  lemma DeliverableIsLongest(p: seq<Frame>, fs: seq<Frame>)
    requires p <= fs && Readable(p)
    ensures p <= Deliverable(fs) <= fs
  {
    DeliverableSplits(fs);
  }

  lemma DeliverableCons(f: Frame, fs: seq<Frame>)
    ensures Deliverable([f] + fs) ==
      if |f.payload| > MAX_LENGTH then [] else [f] + Deliverable(fs)
    ensures Deliverable([f] + fs) == [f] + fs <==>
      |f.payload| <= MAX_LENGTH && Deliverable(fs) == fs
  {
  }
}
