/** The receiving half of a session as a value: AsyncReadHead, AsyncReadBody and
    asyncReadLen (CSession.cpp), one transition per completed async_read_some. */
module Reader {
  import Bytes
  import opened Wire

  /** What the outstanding asyncReadFull is for. Refused: a length outside 0..MAX_LENGTH
      was read and no further read was started. */
  datatype Phase = AtHead | AtBody(id: Short, len: BodyLen) | Refused

  type BodyLen = n: nat | n <= MAX_LENGTH

  /** got is data_[..read_len]; failed says that a read completed with an error. */
  datatype State = State(phase: Phase, got: seq<Byte>, posted: seq<Frame>, failed: bool)

  const START := State(AtHead, [], [], false)

  /** total_len of the outstanding read. */
  function Need(p: Phase): nat {
    match p
    case AtHead => HEAD_TOTAL_LEN
    case AtBody(_, len) => len
    case Refused => HEAD_TOTAL_LEN
  }

  ghost predicate Valid(r: State) {
    && (match r.phase
        case AtHead => |r.got| < HEAD_TOTAL_LEN
        case AtBody(_, len) => |r.got| < len || (len == 0 && r.got == [])
        case Refused => |r.got| == HEAD_TOTAL_LEN && LengthRefused(HeadLen(r.got)))
    && Readable(r.posted)
  }

  /** Over-large lengths are tested for; a negative one makes RecvNode's `new char[]`
      throw, and the handler's catch ends the reading without posting. */
  predicate LengthRefused(len: Short) {
    len > MAX_LENGTH || len < 0
  }

  /** A head is four bytes, and announces a body of at most 2048. */
  lemma Limits(len: Short)
    ensures LengthRefused(len) <==> !(0 <= len <= 2048)
    ensures Need(AtHead) == 4
  {
  }

  predicate Reading(r: State) {
    !r.failed && !r.phase.Refused?
  }

  /** async_read_some delivers between one byte and the space left, or nothing at all
      when the buffer it was given is empty. */
  predicate CanRead(r: State, n: nat) {
    Reading(r) && |r.got| + n <= Need(r.phase) && (n > 0 || Need(r.phase) == 0)
  }

  /** n more bytes run AsyncReadBody's handler, which posts. */
  predicate Completes(r: State, n: nat) {
    r.phase.AtBody? && |r.got| + n == r.phase.len
  }

  /** asyncReadLen's completion handler. */
  function OnBytes(r: State, chunk: seq<Byte>): State
    requires CanRead(r, |chunk|)
  {
    var got := r.got + chunk;
    if |got| < Need(r.phase) then r.(got := got)
    else if r.phase.AtHead? then OnHead(r, got)
    else r.(phase := AtHead, got := [], posted := r.posted + [Frame(r.phase.id, got)])
  }

  function OnHead(r: State, head: seq<Byte>): State
    requires |head| == HEAD_TOTAL_LEN
  {
    if LengthRefused(HeadLen(head)) then r.(phase := Refused, got := head)
    else r.(phase := AtBody(HeadId(head), HeadLen(head)), got := [])
  }

  function OnError(r: State): State {
    r.(failed := true)
  }

  /** A read that fails is the last one, whether it would succeed or fail again, and leaves
      what was read and posted before. */
  lemma OnErrorEndsReading(r: State, n: nat)
    ensures !CanRead(OnError(r), n) && !Reading(OnError(r))
    ensures OnError(r).posted == r.posted && OnError(r).phase == r.phase && OnError(r).got == r.got
    ensures Valid(r) ==> Valid(OnError(r))
  {
  }

  /** The bytes read since the last posted frame. */
  ghost function Pending(r: State): seq<Byte> {
    if r.phase.AtBody? then Head(r.phase.id, r.phase.len) + r.got else r.got
  }

  /** The bytes of all posted frames and of the one being read. */
  ghost function Consumed(r: State): seq<Byte> {
    EncodeAll(r.posted) + Pending(r)
  }

  /** No byte is dropped, repeated or altered by a read step. */
  lemma OnBytesConsumes(r: State, chunk: seq<Byte>)
    requires Valid(r) && CanRead(r, |chunk|)
    ensures Valid(OnBytes(r, chunk))
    ensures Consumed(OnBytes(r, chunk)) == Consumed(r) + chunk
  {
    hide Head, HeadId, HeadLen, EncodeAll;
    var got := r.got + chunk;
    if r.phase.AtHead? {
      if |got| == HEAD_TOTAL_LEN { OnHeadConsumes(r, got); }
      Bytes.Reassociate(EncodeAll(r.posted), r.got, chunk);
    } else {
      var head := Head(r.phase.id, r.phase.len);
      if |got| == r.phase.len { OnBodyConsumes(r, got); }
      Bytes.Reassociate(head, r.got, chunk);
      Bytes.Reassociate(EncodeAll(r.posted), head + r.got, chunk);
    }
  }

  lemma OnHeadConsumes(r: State, head: seq<Byte>)
    requires Valid(r) && |head| == HEAD_TOTAL_LEN
    ensures Valid(OnHead(r, head)) && OnHead(r, head).posted == r.posted
    ensures Pending(OnHead(r, head)) == head
  {
    HeadOfBytes(head);
    hide Head, HeadLen, HeadId;
    if !LengthRefused(HeadLen(head)) {
      assert Head(HeadId(head), HeadLen(head)) + [] == head;
    }
  }

  lemma OnBodyConsumes(r: State, body: seq<Byte>)
    requires Valid(r) && r.phase.AtBody? && |body| == r.phase.len
    ensures EncodeAll(r.posted + [Frame(r.phase.id, body)])
      == EncodeAll(r.posted) + (Head(r.phase.id, r.phase.len) + body)
  {
    var f := Frame(r.phase.id, body);
    EncodeAllAppend(r.posted, [f]);
    EncodeAllOne(f);
  }

  /** Each non-empty read shortens what asyncReadLen still asks for, until its handler
      runs; the handler never sees more or fewer bytes than were asked for. */
  lemma ReadProgress(r: State, chunk: seq<Byte>)
    requires Valid(r) && CanRead(r, |chunk|)
    ensures var r' := OnBytes(r, chunk);
      if |r.got| + |chunk| < Need(r.phase) then
        r'.phase == r.phase && r'.posted == r.posted && (
          var left := Need(r.phase) - |r.got|;
          0 < Need(r'.phase) - |r'.got| < left)
      else
        |r.got| + |chunk| == Need(r.phase) && (
          if r.phase.AtHead? then r'.posted == r.posted && !r'.phase.AtHead?
          else r'.phase.AtHead? && r'.posted == r.posted + [Frame(r.phase.id, r.got + chunk)])
  {
  }

  lemma PostsIfComplete(r: State, chunk: seq<Byte>)
    requires Valid(r) && CanRead(r, |chunk|)
    ensures OnBytes(r, chunk).posted ==
      if Completes(r, |chunk|) then r.posted + [Frame(r.phase.id, r.got + chunk)] else r.posted
  {
    ReadProgress(r, chunk);
  }

  // ----- whole streams -----

  /** An independent reading of a byte stream, without phases or buffers. */
  datatype Parsed = Parsed(frames: seq<Frame>, refused: bool)

  function Parse(b: seq<Byte>): Parsed {
    if |b| < HEAD_TOTAL_LEN then Parsed([], false)
    else
      var len := HeadLen(b[..HEAD_TOTAL_LEN]);
      if LengthRefused(len) then Parsed([], true)
      else
        var n := HEAD_TOTAL_LEN + len as nat;
        if |b| < n then Parsed([], false)
        else
          var tail := Parse(b[n..]);
          tail.(frames := [Frame(HeadId(b[..HEAD_TOTAL_LEN]), b[HEAD_TOTAL_LEN..n])] + tail.frames)
  }

  lemma ParseFirst(f: Frame, rest: seq<Byte>)
    ensures Parse(Encode(f) + rest) ==
      if |f.payload| > MAX_LENGTH then Parsed([], true)
      else Parsed([f] + Parse(rest).frames, Parse(rest).refused)
  {
    EncodeParts(f, rest);
  }

  lemma {:induction false} ParseEncoded(fs: seq<Frame>, rest: seq<Byte>)
    ensures Parse(EncodeAll(fs) + rest) ==
      if Deliverable(fs) == fs then Parsed(fs + Parse(rest).frames, Parse(rest).refused)
      else Parsed(Deliverable(fs), true)
  {
    hide Parse, Encode, Deliverable;
    DeliverableOfNone();
    if fs == [] {
      assert EncodeAll(fs) + rest == rest;
      assert fs + Parse(rest).frames == Parse(rest).frames;
    } else {
      var f, tail := fs[0], fs[1..];
      assert EncodeAll(fs) == Encode(f) + EncodeAll(tail);
      assert fs == [f] + tail;
      Bytes.Reassociate(Encode(f), EncodeAll(tail), rest);
      Bytes.Reassociate([f], tail, Parse(rest).frames);
      ParseFirst(f, EncodeAll(tail) + rest);
      ParseEncoded(tail, rest);
      DeliverableCons(f, tail);
    }
  }

  lemma DeliverableOfNone()
    ensures Deliverable([]) == []
  {
  }

  /** Parsing any list of sent frames, cut off anywhere inside one more, gives the frames
      before the first over-large one. */
  lemma ParseSent(fs: seq<Frame>, last: Frame, cut: nat)
    requires cut < |Encode(last)|
    ensures Parse(EncodeAll(fs) + Encode(last)[..cut]).frames == Deliverable(fs)
    ensures Parse(EncodeAll(fs) + Encode(last)[..cut]).refused <==>
      Deliverable(fs) != fs || (cut >= HEAD_TOTAL_LEN && |last.payload| > MAX_LENGTH)
  {
    var p := Encode(last)[..cut];
    if cut >= HEAD_TOTAL_LEN {
      assert p[..HEAD_TOTAL_LEN] == (Encode(last) + [])[..HEAD_TOTAL_LEN];
      EncodeParts(last, []);
    }
    ParseEncoded(fs, p);
  }

  function Concat(chunks: seq<seq<Byte>>): seq<Byte> {
    if chunks == [] then [] else chunks[0] + Concat(chunks[1..])
  }

  /** Each chunk is one that async_read_some may deliver when its turn comes. */
  predicate CanFeed(r: State, chunks: seq<seq<Byte>>)
    decreases |chunks|
  {
    chunks == [] || (CanRead(r, |chunks[0]|) && CanFeed(OnBytes(r, chunks[0]), chunks[1..]))
  }

  function Feed(r: State, chunks: seq<seq<Byte>>): State
    requires CanFeed(r, chunks)
    decreases |chunks|
  {
    if chunks == [] then r else Feed(OnBytes(r, chunks[0]), chunks[1..])
  }

  lemma {:induction false} FeedConsumes(r: State, chunks: seq<seq<Byte>>)
    requires Valid(r) && CanFeed(r, chunks)
    ensures Valid(Feed(r, chunks)) && Consumed(Feed(r, chunks)) == Consumed(r) + Concat(chunks)
    decreases |chunks|
  {
    hide OnBytes, Valid, Consumed, CanRead;
    if chunks != [] {
      var rest := Concat(chunks[1..]);
      OnBytesConsumes(r, chunks[0]);
      FeedConsumes(OnBytes(r, chunks[0]), chunks[1..]);
      Bytes.Reassociate(Consumed(r), chunks[0], rest);
    }
  }

  /** The reader has nothing left to do with the bytes it was given: it gave up, or all of
      them were read and no completion for an empty body is outstanding. */
  ghost predicate Settled(r: State, unread: seq<Byte>) {
    r.phase.Refused? || (unread == [] && Need(r.phase) > 0)
  }

  lemma ParsePending(r: State, unread: seq<Byte>)
    requires Valid(r) && Settled(r, unread)
    ensures Parse(Pending(r) + unread) == Parsed([], r.phase.Refused?)
  {
    if r.phase.AtBody? {
      assert (Pending(r) + unread)[..HEAD_TOTAL_LEN] == Head(r.phase.id, r.phase.len);
      HeadRoundTrip(r.phase.id, r.phase.len);
    } else if r.phase.Refused? {
      assert (Pending(r) + unread)[..HEAD_TOTAL_LEN] == r.got;
    }
  }

  lemma ParseConsumed(r: State, unread: seq<Byte>)
    requires Valid(r) && Settled(r, unread)
    ensures Parse(Consumed(r) + unread) == Parsed(r.posted, r.phase.Refused?)
  {
    DeliverableIsLongest(r.posted, r.posted);
    ParseEncoded(r.posted, Pending(r) + unread);
    ParsePending(r, unread);
    hide Parse, EncodeAll, Pending, Deliverable;
    assert Consumed(r) + unread == EncodeAll(r.posted) + (Pending(r) + unread);
    assert r.posted + [] == r.posted;
  }

  /** Chunking independence: however async_read_some splits a stream, what has been posted
      once the reader settles is the parse of the stream. */
  lemma PostsTheParse(chunks: seq<seq<Byte>>, unread: seq<Byte>)
    requires CanFeed(START, chunks) && Settled(Feed(START, chunks), unread)
    ensures var r := Feed(START, chunks);
      Parse(Concat(chunks) + unread) == Parsed(r.posted, r.phase.Refused?)
  {
    FeedConsumes(START, chunks);
    assert Consumed(START) + Concat(chunks) == Concat(chunks);
    hide Parse, Consumed, Concat, Feed, CanFeed;
    ParseConsumed(Feed(START, chunks), unread);
  }

  /** The same for a stream that carries sent frames, possibly cut off inside the last one:
      the reader posts exactly the frames before the first over-large length. */
  lemma PostsTheSentFrames(chunks: seq<seq<Byte>>, unread: seq<Byte>,
                           fs: seq<Frame>, last: Frame, cut: nat)
    requires CanFeed(START, chunks) && Settled(Feed(START, chunks), unread)
    requires cut < |Encode(last)| && Concat(chunks) + unread == EncodeAll(fs) + Encode(last)[..cut]
    ensures var r := Feed(START, chunks);
      r.posted == Deliverable(fs) &&
      (r.phase.Refused? <==>
        Deliverable(fs) != fs || (cut >= HEAD_TOTAL_LEN && |last.payload| > MAX_LENGTH))
  {
    PostsTheParse(chunks, unread);
    ParseSent(fs, last, cut);
  }
}
