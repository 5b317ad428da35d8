/** HTTP/2 frames: of one stream, the splitting of a byte string into DATA frames, and the bytes
    on the wire. */
module Http2Frames {
  import opened Basics

  /** A HEADERS frame carries an opaque header block. */
  datatype Frame =
    | Headers(block: seq<byte>, endStream: bool)
    | Data(payload: seq<byte>, endStream: bool)

  function FrameBytes(f: Frame): seq<byte> {
    if f.Data? then f.payload else []
  }

  /** What the DATA frames carry, in order. */
  function Payload(frames: seq<Frame>): seq<byte> {
    if frames == [] then []
    else Payload(frames[..|frames| - 1]) + FrameBytes(frames[|frames| - 1])
  }

  lemma PayloadSnoc(frames: seq<Frame>, f: Frame)
    ensures Payload(frames + [f]) == Payload(frames) + FrameBytes(f)
  {
    assert (frames + [f])[..|frames|] == frames;
  }

  lemma {:induction false} PayloadConcat(a: seq<Frame>, b: seq<Frame>)
    ensures Payload(a + b) == Payload(a) + Payload(b)
    decreases |b|
  {
    if b == [] {
      assert a + b == a;
    } else {
      var init := b[..|b| - 1];
      assert (a + b)[..|a + b| - 1] == a + init;
      PayloadConcat(a, init);
      assert Payload(a) + (Payload(init) + FrameBytes(b[|b| - 1])) == (Payload(a) + Payload(init)) + FrameBytes(b[|b| - 1]);
    }
  }

  /** DATA frames are never empty and never exceed the frame size; only DATA occurs. */
  predicate DataWithin(frames: seq<Frame>, max: nat) {
    forall i | 0 <= i < |frames| :: frames[i].Data? && 1 <= |frames[i].payload| <= max
  }

  predicate NoEnd(frames: seq<Frame>) {
    forall i | 0 <= i < |frames| :: !frames[i].endStream
  }

  /** END_STREAM on the last frame and nowhere else. */
  predicate EndsOnce(frames: seq<Frame>) {
    frames != [] && frames[|frames| - 1].endStream && NoEnd(frames[..|frames| - 1])
  }

  /** DATA frames that carry exactly `bytes`, with END_STREAM once at the end when asked for
      and there is a frame to put it on, and otherwise not at all. */
  predicate Carries(frames: seq<Frame>, bytes: seq<byte>, end: bool, max: nat) {
    && DataWithin(frames, max)
    && Payload(frames) == bytes
    && (if end && bytes != [] then EndsOnce(frames) else NoEnd(frames))
  }

  lemma CarriesEmpty(frames: seq<Frame>, bytes: seq<byte>, end: bool, max: nat)
    requires Carries(frames, bytes, end, max)
    ensures bytes == [] <==> frames == []
  {
    if frames != [] {
      assert |frames[|frames| - 1].payload| >= 1;
    }
  }

  lemma CarriesSnoc(frames: seq<Frame>, bytes: seq<byte>, more: seq<byte>, end: bool, max: nat)
    requires Carries(frames, bytes, false, max) && 1 <= |more| <= max
    ensures Carries(frames + [Data(more, end)], bytes + more, end, max)
  {
    PayloadSnoc(frames, Data(more, end));
    assert (frames + [Data(more, end)])[..|frames|] == frames;
  }

  /** A body cut at the frame size, the flag on the last frame only. */
  function Split(bytes: seq<byte>, end: bool, max: nat): seq<Frame>
    requires max > 0
    decreases |bytes|
  {
    if bytes == [] then []
    else if |bytes| > max then [Data(bytes[..max], false)] + Split(bytes[max..], end, max)
    else [Data(bytes, end)]
  }

  lemma SplitStep(bytes: seq<byte>, end: bool, max: nat, n: nat)
    requires bytes != [] && max > 0 && n == if |bytes| > max then max else |bytes|
    ensures Split(bytes, end, max) == [Data(bytes[..n], if |bytes| > max then false else end)] + Split(bytes[n..], end, max)
  {
    if |bytes| <= max {
      assert bytes[..n] == bytes && bytes[n..] == [];
    }
  }

  lemma PayloadOfHeaders(block: seq<byte>, end: bool)
    ensures Payload([Headers(block, end)]) == []
  {
    PayloadSnoc([], Headers(block, end));
    assert [] + [Headers(block, end)] == [Headers(block, end)];
  }

  lemma PayloadOfNothing()
    ensures Payload([]) == []
  {
  }

  lemma PayloadOfData(bytes: seq<byte>, end: bool)
    ensures Payload([Data(bytes, end)]) == bytes
  {
    PayloadSnoc([], Data(bytes, end));
    assert [] + [Data(bytes, end)] == [Data(bytes, end)];
  }

  lemma CarriesCons(first: seq<byte>, rest: seq<Frame>, bytes: seq<byte>, end: bool, max: nat)
    requires Carries(rest, bytes, end, max) && 1 <= |first| <= max
    requires bytes != []
    ensures Carries([Data(first, false)] + rest, first + bytes, end, max)
  {
    hide Payload;
    PayloadConcat([Data(first, false)], rest);
    PayloadOfData(first, false);
    CarriesEmpty(rest, bytes, end, max);
    assert ([Data(first, false)] + rest)[..|rest|] == [Data(first, false)] + rest[..|rest| - 1];
  }

  lemma {:induction false} SplitCarries(bytes: seq<byte>, end: bool, max: nat)
    requires max > 0
    ensures Carries(Split(bytes, end, max), bytes, end, max)
    decreases |bytes|
  {
    hide Payload;
    if |bytes| > max {
      hide Carries;
      SplitCarries(bytes[max..], end, max);
      CarriesCons(bytes[..max], Split(bytes[max..], end, max), bytes[max..], end, max);
      assert bytes[..max] + bytes[max..] == bytes;
    } else if bytes != [] {
      PayloadOfData(bytes, end);
    } else {
      PayloadOfNothing();
    }
  }

  /** What a body cut at `max` needs of its longest piece. */
  lemma {:induction false} SplitShort(bytes: seq<byte>, end: bool, max: nat)
    requires max > 0
    ensures ShortFrames(Split(bytes, end, max)) <==> Min(|bytes|, max) < LENGTH_LIMIT
    decreases |bytes|
  {
    if |bytes| > max {
      var rest := Split(bytes[max..], end, max);
      SplitShort(bytes[max..], end, max);
      ShortCons(Data(bytes[..max], false), rest);
    } else if bytes != [] {
      assert [Data(bytes, end)][0] == Data(bytes, end);
    }
  }

  // ---------------------------------------------------------------------------
  // On the wire.

  /** The length field of a frame has 24 bits, the id is read as 31 bits. */
  const LENGTH_LIMIT: nat := 0x100_0000
  const WIRE: nat := 0x8000_0000

  datatype Addressed = Addressed(id: nat, frame: Frame)

  function Content(f: Frame): seq<byte> {
    if f.Data? then f.payload else f.block
  }

  predicate ShortFrames(frames: seq<Frame>) {
    forall i | 0 <= i < |frames| :: |Content(frames[i])| < LENGTH_LIMIT
  }

  lemma ShortCons(f: Frame, rest: seq<Frame>)
    ensures ShortFrames([f] + rest) <==> |Content(f)| < LENGTH_LIMIT && ShortFrames(rest)
  {
    var fs := [f] + rest;
    assert fs[0] == f && forall i | 0 <= i < |rest| :: fs[i + 1] == rest[i];
  }

  predicate AllShort(frames: seq<Addressed>) {
    forall i | 0 <= i < |frames| :: |Content(frames[i].frame)| < LENGTH_LIMIT
  }

  predicate Ids32(frames: seq<Addressed>) {
    forall i | 0 <= i < |frames| :: frames[i].id < UINT32
  }

  /** DATA is type 0 and HEADERS type 1; END_STREAM is flag 1 and END_HEADERS flag 4. */
  function Kind(f: Frame): byte {
    if f.Data? then 0 else 1
  }

  function Flags(f: Frame): byte {
    (if f.endStream then 1 else 0) + (if f.Headers? then 4 else 0)
  }

  /** set_frame_header: three bytes of length, type, flags, four bytes of id. */
  function FrameHeader(length: nat, kind: byte, flags: byte, id: nat): (h: seq<byte>)
    ensures |h| == 9
  {
    [length / 65536 % 256, length / 256 % 256, length % 256, kind, flags,
     id / 16777216 % 256, id / 65536 % 256, id / 256 % 256, id % 256]
  }

  function EncodeFrame(a: Addressed): seq<byte> {
    FrameHeader(|Content(a.frame)|, Kind(a.frame), Flags(a.frame), a.id) + Content(a.frame)
  }

  function Encode(frames: seq<Addressed>): seq<byte> {
    if frames == [] then [] else EncodeFrame(frames[0]) + Encode(frames[1..])
  }

  /** A frame as a peer reads it. */
  datatype Seen = Seen(id: nat, kind: byte, endStream: bool, endHeaders: bool, content: seq<byte>)

  /** What is meant by a frame: type 0 for DATA; type 1 for HEADERS, which are complete. */
  function See(a: Addressed): Seen {
    match a.frame
    case Data(payload, end) => Seen(a.id % 0x8000_0000, 0, end, false, payload)
    case Headers(block, end) => Seen(a.id % 0x8000_0000, 1, end, true, block)
  }

  function SeeAll(frames: seq<Addressed>): seq<Seen> {
    if frames == [] then [] else [See(frames[0])] + SeeAll(frames[1..])
  }

  function ReadLength(s: seq<byte>): nat
    requires |s| >= 9
  {
    65536 * (s[0] as int) + 256 * (s[1] as int) + s[2] as int
  }

  function ReadId(s: seq<byte>): nat
    requires |s| >= 9
  {
    (16777216 * (s[5] as int) + 65536 * (s[6] as int) + 256 * (s[7] as int) + s[8] as int) % WIRE
  }

  /** Flag bit 0 is END_STREAM and bit 2 END_HEADERS (sections 6.1 and 6.2 of RFC 7540). */
  function ReadFrame(s: seq<byte>, n: nat): Seen
    requires 9 <= n <= |s|
  {
    Seen(ReadId(s), s[3], s[4] % 2 == 1, s[4] / 4 % 2 == 1, s[9..n])
  }

  /** What a peer makes of the bytes, or None when they end inside a frame. */
  function Decode(s: seq<byte>): Option<seq<Seen>>
    decreases |s|
  {
    if s == [] then Some([])
    else if |s| < 9 || |s| < 9 + ReadLength(s) then None
    else
      var n := 9 + ReadLength(s);
      match Decode(s[n..])
      case None => None
      case Some(rest) => Some([ReadFrame(s, n)] + rest)
  }

  lemma Bytes24(n: nat)
    ensures n / 65536 % 256 * 65536 + n / 256 % 256 * 256 + n % 256 == n % LENGTH_LIMIT
  {
    var a, b := n / 256, n / 65536;
    assert n == a * 256 + n % 256;
    assert b == a / 256 && a == b * 256 + a % 256;
    var c := b / 256;
    assert b == c * 256 + b % 256;
    var low := b % 256 * 65536 + a % 256 * 256 + n % 256;
    assert n == c * LENGTH_LIMIT + low && 0 <= low < LENGTH_LIMIT;
  }

  lemma Bytes32(n: nat)
    requires n < UINT32
    ensures n / 16777216 % 256 * 16777216 + n / 65536 % 256 * 65536 + n / 256 % 256 * 256 + n % 256 == n
  {
    Bytes24(n);
    assert n == n / LENGTH_LIMIT * LENGTH_LIMIT + n % LENGTH_LIMIT && n / LENGTH_LIMIT < 256;
  }

  /** The header of any frame, read back. */
  lemma ReadHeader(a: Addressed, rest: seq<byte>)
    requires a.id < UINT32
    ensures var s := EncodeFrame(a) + rest;
      && |s| >= 9 && ReadLength(s) == |Content(a.frame)| % LENGTH_LIMIT && ReadId(s) == a.id % WIRE
      && s[3] == (if a.frame.Data? then 0 else 1)
      && (s[4] % 2 == 1 <==> a.frame.endStream) && (s[4] / 4 % 2 == 1 <==> a.frame.Headers?)
      && s[9..] == Content(a.frame) + rest
  {
    var h := FrameHeader(|Content(a.frame)|, Kind(a.frame), Flags(a.frame), a.id);
    var s := EncodeFrame(a) + rest;
    assert s == h + (Content(a.frame) + rest);
    assert s[..9] == h && forall i | 0 <= i < 9 :: s[i] == h[i];
    Bytes24(|Content(a.frame)|);
    Bytes32(a.id);
  }

  lemma DecodeFirst(a: Addressed, rest: seq<byte>)
    requires a.id < UINT32 && |Content(a.frame)| < LENGTH_LIMIT
    ensures Decode(EncodeFrame(a) + rest) ==
      match Decode(rest) { case None => None case Some(more) => Some([See(a)] + more) }
  {
    hide ReadLength, ReadId, FrameHeader, EncodeFrame, Decode;
    var s := EncodeFrame(a) + rest;
    ReadHeader(a, rest);
    var n := 9 + |Content(a.frame)|;
    HeadAndTail(s, Content(a.frame), rest);
    DecodeStep(s);
  }

  lemma HeadAndTail(s: seq<byte>, content: seq<byte>, rest: seq<byte>)
    requires |s| >= 9 && s[9..] == content + rest
    ensures var n := 9 + |content|; n <= |s| && s[9..n] == content && s[n..] == rest
  {
    var n := 9 + |content|;
    assert |s| == 9 + |s[9..]|;
    assert s[9..n] == s[9..][..n - 9] && s[n..] == s[9..][n - 9..];
  }

  lemma DecodeStep(s: seq<byte>)
    requires |s| >= 9 && |s| >= 9 + ReadLength(s)
    ensures var n := 9 + ReadLength(s);
      Decode(s) == match Decode(s[n..])
        case None => None
        case Some(more) => Some([ReadFrame(s, n)] + more)
  {
    hide ReadLength, ReadId;
  }

  lemma {:induction false} DecodeEncode(frames: seq<Addressed>)
    requires Ids32(frames) && AllShort(frames)
    ensures Decode(Encode(frames)) == Some(SeeAll(frames))
  {
    hide EncodeFrame, Decode, See;
    if frames == [] {
      DecodeNothing();
    } else {
      DecodeEncode(frames[1..]);
      DecodeFirst(frames[0], Encode(frames[1..]));
    }
  }

  lemma DecodeNothing()
    ensures Decode([]) == Some([])
  {
  }

  /** Whatever a peer reads is within the length field. */
  lemma {:induction false} DecodedShort(s: seq<byte>)
    requires Decode(s).Some?
    ensures forall i | 0 <= i < |Decode(s).value| :: |Decode(s).value[i].content| < LENGTH_LIMIT
    decreases |s|
  {
    if s != [] {
      var n := 9 + ReadLength(s);
      DecodedShort(s[n..]);
      assert |s[9..n]| == ReadLength(s) < LENGTH_LIMIT;
    }
  }

  lemma {:induction false} SeeAllAt(frames: seq<Addressed>, i: nat)
    requires i < |frames|
    ensures |SeeAll(frames)| == |frames| && SeeAll(frames)[i] == See(frames[i])
  {
    if i > 0 {
      SeeAllAt(frames[1..], i - 1);
    } else if |frames| > 1 {
      SeeAllAt(frames[1..], 0);
    }
  }

  /** A peer reads the frames that were meant. */
  predicate AsMeant(frames: seq<Addressed>) {
    Decode(Encode(frames)) == Some(SeeAll(frames))
  }

  /** Exactly when every frame fits the length field. */
  lemma AsMeantExactly(frames: seq<Addressed>)
    requires Ids32(frames)
    ensures AsMeant(frames) <==> AllShort(frames)
  {
    hide Decode, Encode, SeeAll;
    if AllShort(frames) {
      DecodeEncode(frames);
    } else if AsMeant(frames) {
      var i :| 0 <= i < |frames| && |Content(frames[i].frame)| >= LENGTH_LIMIT;
      DecodedShort(Encode(frames));
      SeeAllAt(frames, i);
      assert false;
    }
  }

  /** A longer frame is read as one with the length modulo 2^24, and the rest of its payload as
      the frames that follow. */
  lemma LongFrameIsCut(id: nat, data: seq<byte>, end: bool)
    ensures var n := |data| % LENGTH_LIMIT;
      EncodeFrame(Addressed(id, Data(data, end))) == EncodeFrame(Addressed(id, Data(data[..n], end))) + data[n..]
  {
    var n := |data| % LENGTH_LIMIT;
    SameHeader(|data|, n, if end then 1 else 0, id);
    hide FrameHeader;
    assert data == data[..n] + data[n..];
  }

  lemma SameHeader(a: nat, b: nat, flags: byte, id: nat)
    requires b == a % LENGTH_LIMIT
    ensures FrameHeader(a, 0, flags, id) == FrameHeader(b, 0, flags, id)
  {
    var q := a / LENGTH_LIMIT;
    assert a == q * LENGTH_LIMIT + b;
    assert a % 256 == b % 256 by { assert a == q * 65536 * 256 + b; Shift(b, q * 65536, 256); }
    assert a / 256 == q * 65536 + b / 256 by { Shift(b, q * 65536, 256); }
    Shift(b / 256, q * 256, 256);
    assert a / 65536 == q * 256 + b / 65536 by { Shift(b, q * 256, 65536); }
    Shift(b / 65536, q, 256);
  }

  lemma Shift(x: nat, k: nat, m: nat)
    requires m > 0
    ensures (k * m + x) % m == x % m && (k * m + x) / m == k + x / m
  {
    var q, r := x / m, x % m;
    assert k * m + x == (k + q) * m + r;
    DivMod(k + q, m, r);
  }

  lemma DivMod(q: nat, m: nat, r: nat)
    requires r < m
    ensures (q * m + r) / m == q && (q * m + r) % m == r
  {
    var x := q * m + r;
    var d := x / m - q;
    assert x == x / m * m + x % m;
    assert d * m == r - x % m;
    Multiple(d, m);
  }

  lemma Multiple(d: int, m: int)
    requires m > 0
    ensures (d >= 1 ==> d * m >= m) && (d <= -1 ==> d * m <= -m)
  {
  }

  /** Frames with the id they are sent under. */
  function Under(id: nat, frames: seq<Frame>): seq<Addressed> {
    if frames == [] then [] else [Addressed(id, frames[0])] + Under(id, frames[1..])
  }

  lemma UnderOne(id: nat, f: Frame)
    ensures Under(id, [f]) == [Addressed(id, f)]
  {
    assert [f][1..] == [];
  }

  lemma {:induction false} UnderJoin(id: nat, a: seq<Frame>, b: seq<Frame>)
    ensures Under(id, a + b) == Under(id, a) + Under(id, b)
  {
    if a == [] {
      assert a + b == b;
    } else {
      assert (a + b)[0] == a[0] && (a + b)[1..] == a[1..] + b;
      UnderJoin(id, a[1..], b);
    }
  }

  lemma ShortJoin(a: seq<Addressed>, b: seq<Addressed>)
    ensures AllShort(a + b) <==> AllShort(a) && AllShort(b)
  {
    var c := a + b;
    assert forall i | 0 <= i < |a| :: c[i] == a[i];
    assert forall i | 0 <= i < |b| :: c[|a| + i] == b[i];
  }

  lemma {:induction false} UnderShort(id: nat, frames: seq<Frame>)
    ensures AllShort(Under(id, frames)) <==> ShortFrames(frames)
    ensures id < UINT32 ==> Ids32(Under(id, frames))
  {
    hide ShortFrames, AllShort;
    if frames == [] {
      NothingIsShort();
    } else {
      UnderShort(id, frames[1..]);
      ShortCons(frames[0], frames[1..]);
      assert [frames[0]] + frames[1..] == frames;
      ShortJoin([Addressed(id, frames[0])], Under(id, frames[1..]));
      OneShort(Addressed(id, frames[0]));
    }
  }

  lemma NothingIsShort()
    ensures ShortFrames([]) && AllShort([])
  {
  }

  lemma OneShort(a: Addressed)
    ensures AllShort([a]) <==> |Content(a.frame)| < LENGTH_LIMIT
  {
    assert [a][0] == a;
  }

  lemma ShortConcat(a: seq<Frame>, b: seq<Frame>)
    ensures ShortFrames(a + b) <==> ShortFrames(a) && ShortFrames(b)
  {
    var c := a + b;
    assert forall i | 0 <= i < |a| :: c[i] == a[i];
    assert forall i | 0 <= i < |b| :: c[|a| + i] == b[i];
  }
}
