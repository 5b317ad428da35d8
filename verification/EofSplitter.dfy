/** The `open_eof_check` branch of the synchronous client's `recv`: a growing buffer that is
    filled from the kernel until it holds one packet ended by `package_eof`, the rest being
    carried over to the next call. */
module EofSplitter {
  import opened Basics
  import opened Search

  const BIG: nat := 65536            // initial buffer size, and the largest single read
  const EOF_MAX: nat := 8            // longest end marker the settings accept

  /** The used part of a string buffer and its allocated size. */
  datatype Buffer = Buffer(data: seq<byte>, size: nat)

  datatype Result =
    | Packet(bytes: seq<byte>)
    | NoPackageEof      // warning "no package eof", false
    | Closed            // empty string
    | Failed            // recv() error, false
    | Aborted           // the assertion in String::extend
    | Blocked           // the call is still waiting for the peer

  /** What the kernel reports once the segments are used up. */
  datatype Tail = Waiting | PeerClosed | RecvError

  datatype Outcome = Outcome(result: Result, buffer: Option<Buffer>, segs: seq<seq<byte>>)

  datatype Protocol = Protocol(eof: seq<byte>, max: nat) {
    predicate Valid() {
      1 <= |eof| <= EOF_MAX && max < UINT32
    }

    /** The limits for which the size arithmetic is exact. */
    predicate Regular() {
      BIG <= max <= 0x8000_0000 && max % 8 == 0
    }
  }

  /** String::reserve rounds every size up to the machine word. */
  function Align(n: nat): (r: nat)
    ensures n <= r < n + 8 && r % 8 == 0
    ensures n % 8 == 0 ==> r == n
  {
    (n + 7) / 8 * 8
  }

  predicate NonEmpty(segs: seq<seq<byte>>) {
    forall i | 0 <= i < |segs| :: segs[i] != []
  }

  // ---------------------------------------------------------------------------
  // The code, as functions of the buffer and of how the kernel cuts the stream.

  /** Doubling in uint32, capped, then aligned; None when `extend` would assert. */
  function Grow(size: nat, max: nat): (r: Option<nat>)
    ensures r.Some? ==> r.value > size
  {
    var doubled := size * 2 % UINT32;
    var target := if doubled > max then max else doubled;
    if target > size then Some(Align(target)) else None
  }

  lemma ConcatAssoc(a: seq<byte>, b: seq<byte>, c: seq<byte>)
    ensures (a + b) + c == a + (b + c)
  {
  }

  /** One successful recv: at most the free room, at most BIG, at most what the segment holds. */
  function Receive(b: Buffer, segs: seq<seq<byte>>): (r: (Buffer, seq<seq<byte>>))
    requires NonEmpty(segs) && segs != [] && |b.data| < b.size
    ensures NonEmpty(r.1) && |Flatten(r.1)| < |Flatten(segs)|
    ensures r.0.size == b.size && |b.data| < |r.0.data| <= b.size && |r.0.data| <= |b.data| + BIG
    ensures r.0.data[..|b.data|] == b.data
    ensures r.0.data + Flatten(r.1) == b.data + Flatten(segs)
  {
    var n := Min(Min(b.size - |b.data|, BIG), |segs[0]|);
    FlattenTake(segs, n);
    ConcatAssoc(b.data, segs[0][..n], Flatten(if n < |segs[0]| then [segs[0][n..]] + segs[1..] else segs[1..]));
    (b.(data := b.data + segs[0][..n]), if n < |segs[0]| then [segs[0][n..]] + segs[1..] else segs[1..])
  }

  /** The loop head: read into the free part of the buffer.  A read of zero bytes returns 0. */
  function Fill(p: Protocol, b: Buffer, segs: seq<seq<byte>>, tail: Tail): Outcome
    requires NonEmpty(segs) && |b.data| <= b.size
    decreases |Flatten(segs)|, 1
  {
    if |b.data| == b.size then
      Outcome(Closed, Some(b.(data := [])), segs)
    else if segs == [] then
      if tail.Waiting? then Outcome(Blocked, Some(b), segs)
      else Outcome(if tail.PeerClosed? then Closed else Failed, Some(b.(data := [])), segs)
    else
      var (b', rest) := Receive(b, segs);
      if |b'.data| < |p.eof| then Fill(p, b', rest, tail) else Examine(p, b', rest, tail)
  }

  /** The label `_find_eof`: look for the marker, hand out a packet or make room. */
  function Examine(p: Protocol, b: Buffer, segs: seq<seq<byte>>, tail: Tail): Outcome
    requires NonEmpty(segs) && |b.data| <= b.size
    decreases |Flatten(segs)|, 2
  {
    var at := Find(b.data, p.eof, 0);
    if at >= 0 then
      var e := at + |p.eof|;
      Outcome(Packet(b.data[..e]), if |b.data| > e then Some(Buffer(b.data[e..], BIG)) else None, segs)
    else if |b.data| == p.max then
      Outcome(NoPackageEof, Some(b.(data := [])), segs)
    else if |b.data| == b.size && b.size < p.max then
      match Grow(b.size, p.max)
      case None => Outcome(Aborted, Some(b), segs)
      case Some(size) => Fill(p, b.(size := size), segs, tail)
    else
      Fill(p, b, segs, tail)
  }

  function Call(p: Protocol, buffer: Option<Buffer>, segs: seq<seq<byte>>, tail: Tail): Outcome
    requires NonEmpty(segs)
    requires buffer.Some? ==> |buffer.value.data| <= buffer.value.size
  {
    var b := if buffer.None? then Buffer([], BIG) else buffer.value;
    if |b.data| > 0 then Examine(p, b, segs, tail) else Fill(p, b, segs, tail)
  }

  lemma FlattenCons(first: seq<byte>, rest: seq<seq<byte>>)
    ensures Flatten([first] + rest) == first + Flatten(rest)
  {
    assert ([first] + rest)[1..] == rest;
  }

  lemma SplitAssoc(a: seq<byte>, n: nat, b: seq<byte>)
    requires n <= |a|
    ensures a[..n] + (a[n..] + b) == a + b
  {
  }

  lemma {:induction false} FlattenTake(segs: seq<seq<byte>>, n: nat)
    requires NonEmpty(segs) && segs != [] && 0 < n <= |segs[0]|
    ensures var rest := if n < |segs[0]| then [segs[0][n..]] + segs[1..] else segs[1..];
      && NonEmpty(rest)
      && segs[0][..n] + Flatten(rest) == Flatten(segs)
  {
    var rest := if n < |segs[0]| then [segs[0][n..]] + segs[1..] else segs[1..];
    assert Flatten(segs) == segs[0] + Flatten(segs[1..]);
    hide Flatten;
    if n < |segs[0]| {
      FlattenCons(segs[0][n..], segs[1..]);
      SplitAssoc(segs[0], n, Flatten(segs[1..]));
    } else {
      assert segs[0][..n] == segs[0];
    }
  }

  // ---------------------------------------------------------------------------
  // What a call is meant to do, as a function of the unread bytes alone.

  datatype Verdict = Verdict(result: Result, consumed: nat)

  function NextPacket(p: Protocol, unread: seq<byte>, tail: Tail): (v: Verdict)
    ensures v.consumed <= |unread|
  {
    var at := Find(unread, p.eof, 0);
    if at >= 0 && at + |p.eof| <= p.max then
      Verdict(Packet(unread[..at + |p.eof|]), at + |p.eof|)
    else if |unread| >= p.max then
      Verdict(NoPackageEof, p.max)
    else
      match tail
      case Waiting => Verdict(Blocked, 0)
      case PeerClosed => Verdict(Closed, |unread|)
      case RecvError => Verdict(Failed, |unread|)
  }

  /** Bytes received but not handed out yet: those carried over and those still to come. */
  function Unread(buffer: Option<Buffer>, segs: seq<seq<byte>>): seq<byte> {
    (if buffer.Some? then buffer.value.data else []) + Flatten(segs)
  }

  /** The outcome agrees with the verdict, and nothing is lost or duplicated. */
  predicate Meets(p: Protocol, unread: seq<byte>, tail: Tail, o: Outcome) {
    var v := NextPacket(p, unread, tail);
    o.result == v.result && NonEmpty(o.segs) && Unread(o.buffer, o.segs) == unread[v.consumed..]
  }

  /** Length within size within the limit; a fresh buffer always has room for what it carries. */
  predicate BufferOk(p: Protocol, buffer: Option<Buffer>) {
    buffer.Some? ==>
      && |buffer.value.data| < buffer.value.size <= p.max
      && BIG <= buffer.value.size && buffer.value.size % 8 == 0
  }

  /** What is carried from one call to the next is strictly shorter than a fresh buffer. */
  predicate CarriesLittle(buffer: Option<Buffer>) {
    buffer.Some? ==> |buffer.value.data| < BIG
  }

  predicate Awaiting(p: Protocol, b: Buffer) {
    BufferOk(p, Some(b)) && Find(b.data, p.eof, 0) == -1
  }

  lemma {:induction false} GrowRegular(size: nat, p: Protocol)
    requires p.Valid() && p.Regular() && BIG <= size < p.max && size % 8 == 0
    ensures Grow(size, p.max).Some?
    ensures var s := Grow(size, p.max).value; size < s <= p.max && s % 8 == 0
  {
  }

  lemma {:induction false} FillMeets(p: Protocol, b: Buffer, segs: seq<seq<byte>>, tail: Tail)
    requires p.Valid() && p.Regular() && NonEmpty(segs) && Awaiting(p, b)
    ensures Meets(p, b.data + Flatten(segs), tail, Fill(p, b, segs, tail))
    ensures var o := Fill(p, b, segs, tail); BufferOk(p, o.buffer) && (!o.result.Blocked? ==> CarriesLittle(o.buffer))
    decreases |Flatten(segs)|, 1
  {
    var unread := b.data + Flatten(segs);
    if segs == [] {
      assert unread == b.data;
    } else {
      var (b', rest) := Receive(b, segs);
      if |b'.data| < |p.eof| {
        FillMeets(p, b', rest, tail);
      } else {
        FindInPrefix(b'.data, p.eof, |b.data|);
        ExamineMeets(p, b', rest, tail, |b'.data| - |b.data|);
      }
    }
  }

  /** `recent` bounds the bytes that arrived since the buffer was last known to hold no marker. */
  lemma {:induction false} ExamineMeets(p: Protocol, b: Buffer, segs: seq<seq<byte>>, tail: Tail, recent: nat)
    requires p.Valid() && p.Regular() && NonEmpty(segs)
    requires |b.data| <= b.size <= p.max && BIG <= b.size && b.size % 8 == 0
    requires recent <= BIG && recent <= |b.data|
    requires var at := Find(b.data, p.eof, 0); at >= 0 ==> at + |p.eof| > |b.data| - recent
    ensures Meets(p, b.data + Flatten(segs), tail, Examine(p, b, segs, tail))
    ensures var o := Examine(p, b, segs, tail); BufferOk(p, o.buffer) && (!o.result.Blocked? ==> CarriesLittle(o.buffer))
    decreases |Flatten(segs)|, 2
  {
    hide Find, Flatten, Grow;
    var unread := b.data + Flatten(segs);
    assert unread[..|b.data|] == b.data;
    FindInPrefix(unread, p.eof, |b.data|);
    var at := Find(b.data, p.eof, 0);
    if at >= 0 {
      var e := at + |p.eof|;
      assert unread[..e] == b.data[..e];
      assert unread[e..] == b.data[e..] + Flatten(segs);
    } else if |b.data| == p.max {
      assert unread[p.max..] == Flatten(segs);
    } else if |b.data| == b.size {
      GrowRegular(b.size, p);
      FillMeets(p, b.(size := Grow(b.size, p.max).value), segs, tail);
    } else {
      FillMeets(p, b, segs, tail);
    }
  }

  /** One call, for a regular limit: the result and what stays unread depend on the unread
      bytes alone, and the buffer bounds are kept. */
  lemma {:induction false} CallMeets(p: Protocol, buffer: Option<Buffer>, segs: seq<seq<byte>>, tail: Tail)
    requires p.Valid() && p.Regular() && NonEmpty(segs) && BufferOk(p, buffer)
    requires CarriesLittle(buffer)
    ensures var o := Call(p, buffer, segs, tail);
      && Meets(p, Unread(buffer, segs), tail, o)
      && BufferOk(p, o.buffer)
      && (!o.result.Blocked? ==> CarriesLittle(o.buffer))
      && (o.result.Packet? || o.result.NoPackageEof? ==> |Unread(o.buffer, o.segs)| < |Unread(buffer, segs)|)
  {
    var b := if buffer.None? then Buffer([], BIG) else buffer.value;
    if |b.data| > 0 {
      ExamineMeets(p, b, segs, tail, |b.data|);
    } else {
      FillMeets(p, b, segs, tail);
      assert [] + Flatten(segs) == b.data + Flatten(segs);
    }
  }

  // ---------------------------------------------------------------------------
  // Repeated calls.

  /** All results of calling until a call blocks, closes or fails at the end of the input. */
  function Run(p: Protocol, buffer: Option<Buffer>, segs: seq<seq<byte>>, tail: Tail): seq<Result>
    requires p.Valid() && p.Regular() && NonEmpty(segs) && BufferOk(p, buffer) && CarriesLittle(buffer)
    decreases |Unread(buffer, segs)|
  {
    CallMeets(p, buffer, segs, tail);
    var o := Call(p, buffer, segs, tail);
    if o.result.Packet? || o.result.NoPackageEof?
    then [o.result] + Run(p, o.buffer, o.segs, tail)
    else [o.result]
  }

  /** Cutting a byte stream into packets, with no buffer and no segments in sight. */
  function Packets(p: Protocol, stream: seq<byte>, tail: Tail): seq<Result>
    requires p.Valid() && p.Regular()
    decreases |stream|
  {
    var v := NextPacket(p, stream, tail);
    if v.result.Packet? || v.result.NoPackageEof?
    then [v.result] + Packets(p, stream[v.consumed..], tail)
    else [v.result]
  }

  lemma {:induction false} RunIsPackets(p: Protocol, buffer: Option<Buffer>, segs: seq<seq<byte>>, tail: Tail)
    requires p.Valid() && p.Regular() && NonEmpty(segs) && BufferOk(p, buffer) && CarriesLittle(buffer)
    ensures Run(p, buffer, segs, tail) == Packets(p, Unread(buffer, segs), tail)
    decreases |Unread(buffer, segs)|
  {
    CallMeets(p, buffer, segs, tail);
    var o := Call(p, buffer, segs, tail);
    if o.result.Packet? || o.result.NoPackageEof? {
      RunIsPackets(p, o.buffer, o.segs, tail);
    }
  }

  /** Packetisation is a function of the byte stream alone: two ways of cutting the same
      stream give the same results, call by call. */
  lemma CutIndependence(p: Protocol, cut1: seq<seq<byte>>, cut2: seq<seq<byte>>, tail: Tail)
    requires p.Valid() && p.Regular() && NonEmpty(cut1) && NonEmpty(cut2)
    requires Flatten(cut1) == Flatten(cut2)
    ensures Run(p, None, cut1, tail) == Run(p, None, cut2, tail)
  {
    RunIsPackets(p, None, cut1, tail);
    RunIsPackets(p, None, cut2, tail);
  }

  /** Every packet ends with the marker at its first occurrence and is within the limit. */
  predicate WellFormed(p: Protocol, r: Result) {
    r.Packet? ==> |p.eof| <= |r.bytes| <= p.max && Find(r.bytes, p.eof, 0) == |r.bytes| - |p.eof|
  }

  predicate NoOverrun(results: seq<Result>) {
    results == [] || (!results[0].NoPackageEof? && NoOverrun(results[1..]))
  }

  function Bytes(results: seq<Result>): seq<byte> {
    if results == [] then []
    else (if results[0].Packet? then results[0].bytes else []) + Bytes(results[1..])
  }

  lemma {:induction false} PacketsWellFormed(p: Protocol, stream: seq<byte>, tail: Tail)
    requires p.Valid() && p.Regular()
    ensures forall r | r in Packets(p, stream, tail) :: WellFormed(p, r)
    decreases |stream|
  {
    hide Find;
    var v := NextPacket(p, stream, tail);
    if v.result.Packet? || v.result.NoPackageEof? {
      PacketsWellFormed(p, stream[v.consumed..], tail);
      FindInPrefix(stream, p.eof, v.consumed);
    }
  }

  lemma BytesCons(r: Result, rest: seq<Result>)
    ensures Bytes([r] + rest) == (if r.Packet? then r.bytes else []) + Bytes(rest)
    ensures rest == [] ==> [r] + rest == [r] && Bytes(rest) == []
  {
    assert ([r] + rest)[1..] == rest;
  }

  /** When no stretch of the stream overruns the limit, packets and leftover are the stream. */
  lemma {:induction false} PacketsConserve(p: Protocol, stream: seq<byte>) returns (leftover: seq<byte>)
    requires p.Valid() && p.Regular() && NoOverrun(Packets(p, stream, Waiting))
    ensures Bytes(Packets(p, stream, Waiting)) + leftover == stream
    ensures Find(leftover, p.eof, 0) == -1
    decreases |stream|
  {
    hide Find, Bytes;
    var v := NextPacket(p, stream, Waiting);
    if v.result.Packet? {
      var rest := Packets(p, stream[v.consumed..], Waiting);
      assert Packets(p, stream, Waiting)[1..] == rest;
      leftover := PacketsConserve(p, stream[v.consumed..]);
      BytesCons(v.result, rest);
      assert stream[..v.consumed] + (Bytes(rest) + leftover) == stream;
    } else {
      leftover := stream;
      BytesCons(v.result, []);
    }
  }

  // ---------------------------------------------------------------------------
  // Limits outside the regular range.

  ghost predicate AlwaysCorrect(max: nat) {
    forall eof: seq<byte>, segs, tail | 1 <= |eof| <= EOF_MAX && NonEmpty(segs) ::
      Meets(Protocol(eof, max), Flatten(segs), tail, Call(Protocol(eof, max), None, segs, tail))
  }

  function Zeros(n: nat): (r: seq<byte>)
    ensures |r| == n && Find(r, [1], 0) == -1
    ensures forall i | 0 <= i < n :: r[i] == 0
  {
    var r: seq<byte> := seq(n, i => 0);
    assert forall i: nat | i < n :: MatchAt(r, [1], i) ==> r[i] == r[i..i + 1][0];
    r
  }

  lemma ReceiveZeros(k: nat, size: nat, m: nat, rest: seq<seq<byte>>)
    requires k < size && 0 < m && NonEmpty(rest)
    ensures var n := Min(Min(size - k, BIG), m);
      Receive(Buffer(Zeros(k), size), [Zeros(m)] + rest)
      == (Buffer(Zeros(k + n), size), if n < m then [Zeros(m - n)] + rest else rest)
  {
    var n := Min(Min(size - k, BIG), m);
    assert Zeros(k) + Zeros(m)[..n] == Zeros(k + n);
    assert Zeros(m)[n..] == Zeros(m - n);
    assert ([Zeros(m)] + rest)[1..] == rest;
  }

  /** Reading part of a run of zeros: no marker, and the buffer stays clear of the limit. */
  lemma FillZeros(p: Protocol, k: nat, size: nat, m: nat, n: nat, rest: seq<seq<byte>>)
    requires p.eof == [1] && k < size && 0 < m && NonEmpty(rest)
    requires n == Min(Min(size - k, BIG), m) && k + n != p.max
    ensures var segs := if n < m then [Zeros(m - n)] + rest else rest;
      Fill(p, Buffer(Zeros(k), size), [Zeros(m)] + rest, Waiting) ==
      if k + n == size && size < p.max && Grow(size, p.max).None?
      then Outcome(Aborted, Some(Buffer(Zeros(k + n), size)), segs)
      else Fill(p, Buffer(Zeros(k + n), if k + n == size && size < p.max then Grow(size, p.max).value else size),
                segs, Waiting)
  {
    hide Zeros, Find, Grow, Flatten;
    ReceiveZeros(k, size, m, rest);
    var segs := if n < m then [Zeros(m - n)] + rest else rest;
    assert Fill(p, Buffer(Zeros(k), size), [Zeros(m)] + rest, Waiting)
        == Examine(p, Buffer(Zeros(k + n), size), segs, Waiting);
  }

  lemma GrowUnaligned(max: nat, size: nat)
    requires BIG <= size < max < 0x8000_0000 && max % 8 != 0 && size % 8 == 0
    ensures Grow(size, max).Some?
    ensures var g := Grow(size, max).value; g % 8 == 0 && g > size && (g < max || g == Align(max))
  {
    assert size * 2 % UINT32 == size * 2;
    hide Align;
    assert (size * 2) % 8 == 0;
  }

  predicate Overran(r: Result) {
    r.Closed? || r.Blocked?
  }

  lemma StuckFill(p: Protocol, b: Buffer)
    requires |b.data| <= b.size
    ensures Overran(Fill(p, b, [], Waiting).result)
  {
  }

  /** A limit that is no multiple of the word size: the buffer outgrows the limit, so two bytes
      that arrive together can step over it. */
  lemma {:induction false} FillUnaligned(p: Protocol, k: nat, size: nat, m: nat)
    requires p.eof == [1] && BIG < p.max < 0x8000_0000 && p.max % 8 != 0
    requires k + m == p.max - 1 && k < size && BIG <= size && (size < p.max || size == Align(p.max))
    requires size % 8 == 0
    ensures Overran(Fill(p, Buffer(Zeros(k), size), if m == 0 then [Zeros(2)] else [Zeros(m)] + [Zeros(2)], Waiting).result)
    decreases m
  {
    hide Examine, Fill, Grow, Zeros;
    if m == 0 {
      assert [Zeros(2)] == [Zeros(2)] + [];
      FillZeros(p, k, size, 2, 2, []);
      StuckFill(p, Buffer(Zeros(k + 2), size));
    } else {
      var n := Min(Min(size - k, BIG), m);
      FillZeros(p, k, size, m, n, [Zeros(2)]);
      if k + n == size {
        GrowUnaligned(p.max, size);
        FillUnaligned(p, k + n, Grow(size, p.max).value, m - n);
      } else {
        FillUnaligned(p, k + n, size, m - n);
      }
    }
  }

  predicate PowerSize(size: nat) {
    size in {0x1_0000, 0x2_0000, 0x4_0000, 0x8_0000, 0x10_0000, 0x20_0000, 0x40_0000, 0x80_0000,
             0x100_0000, 0x200_0000, 0x400_0000, 0x800_0000, 0x1000_0000, 0x2000_0000, 0x4000_0000, 0x8000_0000}
  }

  lemma GrowWraps(max: nat, size: nat)
    requires 0x8000_0000 < max < UINT32 && PowerSize(size)
    ensures size <= 0x8000_0000
    ensures if size < 0x8000_0000 then Grow(size, max) == Some(size * 2) && PowerSize(size * 2) else Grow(size, max) == None
  {
    assert size * 2 <= UINT32 && size % 8 == 0;
    if size < 0x8000_0000 {
      assert size * 2 % UINT32 == size * 2;
      assert size * 2 % 8 == 0;
    }
  }

  /** A limit above 2^31: the doubled size wraps to zero and `extend` asserts. */
  lemma {:induction false} FillWraps(p: Protocol, k: nat, size: nat, m: nat)
    requires p.eof == [1] && 0x8000_0000 < p.max < UINT32
    requires k + m == 0x8000_0000 && k < size && PowerSize(size)
    ensures m > 0 && Fill(p, Buffer(Zeros(k), size), [Zeros(m)] + [], Waiting).result == Aborted
    decreases m
  {
    hide Examine, Fill, Grow, Zeros, PowerSize;
    GrowWraps(p.max, size);
    var n := Min(Min(size - k, BIG), m);
    FillZeros(p, k, size, m, n, []);
    if k + n < size {
      FillWraps(p, k + n, size, m - n);
    } else if size < 0x8000_0000 {
      FillWraps(p, k + n, size * 2, m - n);
    }
  }

  lemma FlattenOne(a: seq<byte>)
    ensures Flatten([a] + []) == a
  {
    assert ([a] + [])[1..] == [];
  }

  lemma FlattenTwo(a: seq<byte>, b: seq<byte>)
    ensures Flatten([a] + [b]) == a + b
  {
    assert ([a] + [b])[1..] == [b] + [];
    FlattenOne(b);
  }

  /** Outside the regular range some cutting of a stream of zeros goes wrong. */
  lemma IrregularFails(p: Protocol) returns (segs: seq<seq<byte>>)
    requires p.eof == [1] && p.Valid() && !p.Regular()
    ensures NonEmpty(segs)
    ensures !Meets(p, Flatten(segs), Waiting, Call(p, None, segs, Waiting))
  {
    hide Examine, Fill, Grow, Zeros, Flatten;
    assert Zeros(0) == [];
    if p.max < BIG {
      segs := [Zeros(p.max + 1)] + [];
      FillZeros(p, 0, BIG, p.max + 1, p.max + 1, []);
      StuckFill(p, Buffer(Zeros(p.max + 1), BIG));
      FlattenOne(Zeros(p.max + 1));
    } else if p.max > 0x8000_0000 {
      segs := [Zeros(0x8000_0000)] + [];
      FillWraps(p, 0, BIG, 0x8000_0000);
      FlattenOne(Zeros(0x8000_0000));
    } else {
      segs := [Zeros(p.max - 1)] + [Zeros(2)];
      FillUnaligned(p, 0, BIG, p.max - 1);
      FlattenTwo(Zeros(p.max - 1), Zeros(2));
      assert Zeros(p.max - 1) + Zeros(2) == Zeros(p.max + 1);
    }
  }

  /** The splitter does what it promises, for every marker and every cutting of every stream,
      exactly when the limit is a multiple of the word size between 2^16 and 2^31. */
  lemma CorrectExactlyWhenRegular(max: nat)
    requires max < UINT32
    ensures AlwaysCorrect(max) <==> Protocol([1], max).Regular()
  {
    if Protocol([1], max).Regular() {
      forall eof: seq<byte>, segs, tail | 1 <= |eof| <= EOF_MAX && NonEmpty(segs)
        ensures Meets(Protocol(eof, max), Flatten(segs), tail, Call(Protocol(eof, max), None, segs, tail))
      {
        CallMeets(Protocol(eof, max), None, segs, tail);
        assert Unread(None, segs) == Flatten(segs);
      }
    } else {
      var segs := IrregularFails(Protocol([1], max));
    }
  }

  /** Nothing to read at all. */
  lemma NothingUnread(p: Protocol, tail: Tail)
    requires p.Valid() && p.Regular()
    ensures Call(p, None, [], tail).result ==
      match tail { case Waiting => Blocked case PeerClosed => Closed case RecvError => Failed }
  {
  }

  // ---------------------------------------------------------------------------
  // The method itself.

  class Client {
    const protocol: Protocol
    var buffer: Option<Buffer>
    var segs: seq<seq<byte>>      // what the kernel will deliver, recv by recv
    const tail: Tail

    ghost predicate Valid()
      reads this
    {
      protocol.Valid() && NonEmpty(segs) && (buffer.Some? ==> |buffer.value.data| <= buffer.value.size)
    }

    constructor (protocol: Protocol, segs: seq<seq<byte>>, tail: Tail)
      requires protocol.Valid() && NonEmpty(segs)
      ensures Valid() && buffer == None && this.segs == segs && this.protocol == protocol && this.tail == tail
    {
      this.protocol, this.segs, this.tail, buffer := protocol, segs, tail, None;
    }

    /** One call; carried-over bytes enter the loop at the search, as the jump does.  Whatever
        the limit, the copy of the leftover stays inside the fresh buffer. */
    method Recv() returns (result: Result)
      requires Valid() && CarriesLittle(buffer)
      modifies this
      ensures Valid()
      ensures result.Blocked? || result.Aborted? || CarriesLittle(buffer)
      ensures Outcome(result, buffer, segs) == Call(protocol, old(buffer), old(segs), tail)
      ensures protocol.Regular() && BufferOk(protocol, old(buffer)) ==>
        Meets(protocol, Unread(old(buffer), old(segs)), tail, Outcome(result, buffer, segs))
      ensures protocol.Regular() && old(buffer) == None && old(segs) == [] ==>
        result == match tail { case Waiting => Blocked case PeerClosed => Closed case RecvError => Failed }
    {
      if protocol.Regular() && BufferOk(protocol, buffer) {
        CallMeets(protocol, buffer, segs, tail);
        if buffer == None && segs == [] {
          NothingUnread(protocol, tail);
        }
      }
      hide Call, Meets;
      result := EofLoop();
    }

    /** The loop of the call. */
    method EofLoop() returns (result: Result)
      requires Valid() && CarriesLittle(buffer)
      modifies this
      ensures Valid()
      ensures result.Blocked? || result.Aborted? || CarriesLittle(buffer)
      ensures Outcome(result, buffer, segs) == Call(protocol, old(buffer), old(segs), tail)
    {
      hide Find, Grow, Flatten, Receive;
      var b := if buffer.None? then Buffer([], BIG) else buffer.value;
      var atSearch := |b.data| > 0;
      ghost var goal := Call(protocol, buffer, segs, tail);
      while true
        invariant NonEmpty(segs) && |b.data| <= b.size
        invariant if atSearch then |b.data| < BIG else Find(b.data, protocol.eof, 0) == -1
        invariant goal == if atSearch then Examine(protocol, b, segs, tail) else Fill(protocol, b, segs, tail)
        decreases |Flatten(segs)|, if atSearch then 1 else 0
      {
        if !atSearch {
          if |b.data| == b.size {
            buffer := Some(b.(data := []));
            return Closed;
          }
          if segs == [] {
            if tail.Waiting? {
              buffer := Some(b);
              return Blocked;
            }
            buffer := Some(b.(data := []));
            if tail.RecvError? {
              return Failed;
            } else {
              return Closed;
            }
          }
          var (b', rest) := Receive(b, segs);
          FindInPrefix(b'.data, protocol.eof, |b.data|);
          b, segs := b', rest;
          if |b.data| < |protocol.eof| {
            continue;
          }
        }
        assert goal == Examine(protocol, b, segs, tail);
        var eof := Strnpos(b.data, protocol.eof);
        if eof >= 0 {
          eof := eof + |protocol.eof|;
          buffer := if |b.data| > eof then Some(Buffer(b.data[eof..], BIG)) else None;
          return Packet(b.data[..eof]);
        }
        if |b.data| == protocol.max {
          buffer := Some(b.(data := []));
          return NoPackageEof;
        }
        if |b.data| == b.size && b.size < protocol.max {
          var size := Grow(b.size, protocol.max);
          if size.None? {
            buffer := Some(b);
            return Aborted;
          }
          b := b.(size := size.value);
        }
        atSearch := false;
      }
    }
  }
}
