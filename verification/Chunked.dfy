/** The HTTP/1 response writer: `write`, `trailer` and `end`, with chunked transfer coding
    read back by the rules of section 4.1 of RFC 7230.  Sends succeed and nothing is
    compressed. */
module Chunked {
  import opened Basics
  import opened Search

  const CR: byte := 13
  const LF: byte := 10
  const CRLF: seq<byte> := [CR, LF]

  // ---------------------------------------------------------------------------
  // Hexadecimal sizes.

  const LOWER_A: byte := 97

  predicate AllDigits(s: seq<byte>) {
    forall i | 0 <= i < |s| :: IsHex(s[i])
  }

  /** The number a string of hexadecimal digits stands for. */
  function Value(s: seq<byte>): nat
    requires AllDigits(s)
  {
    if s == [] then 0 else 16 * Value(s[..|s| - 1]) + UnHex(s[|s| - 1])
  }

  function Hex(n: nat): (s: seq<byte>)
    ensures s != [] && AllDigits(s)
  {
    if n < 16 then [HexDigit(n, LOWER_A)] else Hex(n / 16) + [HexDigit(n % 16, LOWER_A)]
  }

  lemma {:induction false} HexValue(n: nat)
    ensures Value(Hex(n)) == n
  {
    if n < 16 {
      assert [HexDigit(n, LOWER_A)][..0] == [];
    } else {
      HexValue(n / 16);
      assert Hex(n)[..|Hex(n)| - 1] == Hex(n / 16);
    }
  }

  function Power(k: nat): nat {
    if k == 0 then 1 else 16 * Power(k - 1)
  }

  lemma HexStep(v: nat, s: seq<byte>)
    ensures Hex(v) + s == (if v / 16 == 0 then [] else Hex(v / 16)) + ([HexDigit(v % 16, LOWER_A)] + s)
  {
  }

  lemma PowerStep(v: nat, k: nat)
    requires k > 0 && v < Power(k)
    ensures v / 16 < Power(k - 1)
  {
  }

  /** The conversion loop, with its bound on the digits the buffer has room for. */
  method Dec2Hex(value: nat) returns (s: seq<byte>)
    requires value < 0x1_0000_0000_0000_0000
    ensures s == Hex(value)
  {
    SixteenDigits();
    hide Hex, Power;
    HexStep(value, []);
    PowerStep(value, 16);
    assert Hex(value) + [] == Hex(value);
    var v: nat, room := value / 16, 63;
    s := [HexDigit(value % 16, LOWER_A)];
    ghost var k := 15;
    while room > 0 && v > 0
      invariant 0 <= k <= 15 && room == k + 48 && v < Power(k)
      invariant Hex(value) == (if v == 0 then [] else Hex(v)) + s
      decreases room
    {
      if k == 0 {
        PowerZero();
      }
      HexStep(v, s);
      PowerStep(v, k);
      s := [HexDigit(v % 16, LOWER_A)] + s;
      v, room, k := v / 16, room - 1, k - 1;
    }
  }

  lemma SixteenDigits()
    ensures Power(16) == 0x1_0000_0000_0000_0000
  {
    assert Power(4) == 0x1_0000;
    assert Power(8) == 0x1_0000_0000;
    assert Power(12) == 0x1_0000_0000_0000;
  }

  lemma PowerZero()
    ensures Power(0) == 1
  {
  }

  // ---------------------------------------------------------------------------
  // Reading a chunked message.

  datatype Message = Message(body: seq<byte>, trailers: seq<seq<byte>>, rest: seq<byte>) | Bad

  /** Trailer lines up to the empty line. */
  function ReadTrailers(s: seq<byte>): Message
    decreases |s|
  {
    var n := Find(s, CRLF, 0);
    if n == -1 then Bad
    else if n == 0 then Message([], [], s[2..])
    else
      match ReadTrailers(s[n + 2..])
      case Bad => Bad
      case Message(b, ts, rest) => Message(b, [s[..n]] + ts, rest)
  }

  function Prepend(data: seq<byte>, m: Message): Message {
    if m.Bad? then Bad else m.(body := data + m.body)
  }

  function ReadChunks(s: seq<byte>): Message
    decreases |s|
  {
    var n := Find(s, CRLF, 0);
    if n <= 0 || !AllDigits(s[..n]) then Bad
    else
      var size := Value(s[..n]);
      var data := s[n + 2..];
      if size == 0 then ReadTrailers(data)
      else if |data| < size + 2 || data[size..size + 2] != CRLF then Bad
      else Prepend(data[..size], ReadChunks(data[size + 2..]))
  }

  predicate HasCrlf(s: seq<byte>) {
    Find(s, CRLF, 0) != -1
  }

  /** A line without a line break ends at the first line break after it. */
  lemma FindLine(line: seq<byte>, rest: seq<byte>)
    requires !HasCrlf(line)
    ensures Find(line + CRLF + rest, CRLF, 0) == |line|
  {
    var s := line + CRLF + rest;
    assert s[|line|..|line| + 2] == CRLF;
    assert MatchAt(s, CRLF, |line|);
    forall i: nat | i < |line| ensures !MatchAt(s, CRLF, i) {
      if i + 2 <= |line| {
        assert s[i..i + 2] == line[i..i + 2];
        assert !MatchAt(line, CRLF, i);
      } else {
        assert s[i..i + 2][1] == s[i + 1] == CR;
      }
    }
    hide Find, MatchAt;
  }

  lemma NoCrNoCrlf(s: seq<byte>)
    requires CR !in s
    ensures !HasCrlf(s)
  {
    forall i: nat | i + 2 <= |s| ensures !MatchAt(s, CRLF, i) {
      assert s[i] in s && s[i..i + 2][0] == s[i];
    }
  }

  lemma DigitsHaveNoCrlf(s: seq<byte>)
    requires AllDigits(s)
    ensures !HasCrlf(s)
  {
    assert CR !in s;
    NoCrNoCrlf(s);
  }

  // ---------------------------------------------------------------------------
  // Writing one.

  function Chunk(data: seq<byte>): seq<byte> {
    Hex(|data|) + CRLF + data + CRLF
  }

  /** Empty writes produce no chunk. */
  function ChunkOrNothing(data: seq<byte>): seq<byte> {
    if data == [] then [] else Chunk(data)
  }

  function Chunks(writes: seq<seq<byte>>): seq<byte> {
    if writes == [] then [] else ChunkOrNothing(writes[0]) + Chunks(writes[1..])
  }

  lemma {:induction false} ChunksSnoc(writes: seq<seq<byte>>, data: seq<byte>)
    ensures Chunks(writes + [data]) == Chunks(writes) + ChunkOrNothing(data)
  {
    hide ChunkOrNothing;
    if writes == [] {
      assert [data][1..] == [] && [] + [data] == [data];
      assert Chunks([data]) == ChunkOrNothing(data) + Chunks([]);
    } else {
      assert (writes + [data])[0] == writes[0] && (writes + [data])[1..] == writes[1..] + [data];
      ChunksSnoc(writes[1..], data);
    }
  }

  lemma ReadOneChunk(data: seq<byte>, rest: seq<byte>)
    requires data != []
    ensures ReadChunks(Chunk(data) + rest) == Prepend(data, ReadChunks(rest))
  {
    var h := Hex(|data|);
    var tail := data + CRLF + rest;
    var s := Chunk(data) + rest;
    assert s == h + CRLF + tail;
    DigitsHaveNoCrlf(h);
    FindLine(h, tail);
    HexValue(|data|);
    hide Find, Hex, Value;
    assert s[..|h|] == h && s[|h| + 2..] == tail;
    assert tail[..|data|] == data && tail[|data|..|data| + 2] == CRLF && tail[|data| + 2..] == rest;
  }

  lemma {:induction false} ReadAllChunks(writes: seq<seq<byte>>, rest: seq<byte>)
    ensures ReadChunks(Chunks(writes) + rest) == Prepend(Flatten(writes), ReadChunks(rest))
  {
    hide ReadChunks, Chunk;
    if writes == [] {
      assert [] + rest == rest;
      PrependNothing(ReadChunks(rest));
    } else {
      var more := Chunks(writes[1..]) + rest;
      ReadAllChunks(writes[1..], rest);
      assert Chunks(writes) + rest == ChunkOrNothing(writes[0]) + more;
      if writes[0] == [] {
        assert [] + more == more && writes[0] + Flatten(writes[1..]) == Flatten(writes[1..]);
      } else {
        ReadOneChunk(writes[0], more);
        PrependTwice(writes[0], Flatten(writes[1..]), ReadChunks(rest));
      }
    }
  }

  lemma PrependNothing(m: Message)
    ensures Prepend([], m) == m
  {
    assert m.Message? ==> [] + m.body == m.body;
  }

  lemma PrependTwice(a: seq<byte>, b: seq<byte>, m: Message)
    ensures Prepend(a, Prepend(b, m)) == Prepend(a + b, m)
  {
    assert m.Message? ==> a + (b + m.body) == (a + b) + m.body;
  }

  // ---------------------------------------------------------------------------
  // Trailers.

  /** A trailer under the name it is stored by; None is a null value. */
  datatype Trailer = Trailer(name: seq<byte>, value: Option<seq<byte>>)

  predicate Decimal(s: seq<byte>) {
    forall i | 0 <= i < |s| :: 48 <= s[i] <= 57
  }

  function DecimalValue(s: seq<byte>): nat
    requires Decimal(s)
  {
    if s == [] then 0 else 10 * DecimalValue(s[..|s| - 1]) + s[|s| - 1] - 48
  }

  /** A name that PHP stores as an integer key: a 64-bit integer in its shortest form. */
  predicate IntegerKey(name: seq<byte>) {
    var negative := name != [] && name[0] == 45;
    var digits := if negative then name[1..] else name;
    && digits != [] && Decimal(digits)
    && (digits[0] != 48 || name == [48])
    && DecimalValue(digits) < 0x8000_0000_0000_0000 + (if negative then 1 else 0)
  }

  /** The shortest decimal form of an integer. */
  function DecimalText(n: nat): seq<byte> {
    if n < 10 then [48 + n] else DecimalText(n / 10) + [48 + n % 10]
  }

  function IntegerText(n: int): seq<byte> {
    if n < 0 then [45] + DecimalText(-n) else DecimalText(n)
  }

  lemma {:induction false} TextValue(n: nat)
    ensures var s := DecimalText(n);
      s != [] && Decimal(s) && (s[0] == 48 <==> n == 0) && (n == 0 ==> s == [48]) && DecimalValue(s) == n
  {
    if n < 10 {
      assert [48 + n][..0] == [];
    } else {
      TextValue(n / 10);
      assert DecimalText(n)[..|DecimalText(n)| - 1] == DecimalText(n / 10);
    }
  }

  lemma {:induction false} ValueText(s: seq<byte>)
    requires s != [] && Decimal(s) && (s[0] != 48 || s == [48])
    ensures DecimalText(DecimalValue(s)) == s && (DecimalValue(s) == 0 <==> s == [48])
    decreases |s|
  {
    var t := s[..|s| - 1];
    if t == [] {
      assert DecimalValue(t) == 0;
    } else {
      ValueText(t);
      assert s == t + [s[|s| - 1]];
    }
  }

  /** Integer keys are the shortest decimal forms of the 64-bit integers. */
  lemma IntegerKeyMeaning(name: seq<byte>)
    ensures IntegerKey(name) <==>
      exists n: int :: -0x8000_0000_0000_0000 <= n < 0x8000_0000_0000_0000 && name == IntegerText(n)
  {
    if IntegerKey(name) {
      KeyIsText(name);
    }
    forall n: int | -0x8000_0000_0000_0000 <= n < 0x8000_0000_0000_0000 ensures IntegerKey(IntegerText(n)) {
      TextIsKey(n);
    }
  }

  lemma KeyIsText(name: seq<byte>)
    requires IntegerKey(name)
    ensures exists n: int :: -0x8000_0000_0000_0000 <= n < 0x8000_0000_0000_0000 && name == IntegerText(n)
  {
    if name[0] == 45 {
      ValueText(name[1..]);
      hide DecimalValue, DecimalText;
      var m: int := DecimalValue(name[1..]);
      var n := -m;
      assert name == [45] + name[1..] == IntegerText(n);
    } else {
      ValueText(name);
      hide DecimalValue, DecimalText;
      assert name == IntegerText(DecimalValue(name));
    }
  }

  lemma TextIsKey(n: int)
    requires -0x8000_0000_0000_0000 <= n < 0x8000_0000_0000_0000
    ensures IntegerKey(IntegerText(n))
  {
    TextValue(if n < 0 then -n else n);
    hide DecimalValue, DecimalText;
    if n < 0 {
      assert IntegerText(n)[1..] == DecimalText(-n);
    }
  }

  /** Null values and integer keys are skipped. */
  predicate Shown(t: Trailer) {
    t.value.Some? && !IntegerKey(t.name)
  }

  function LineText(name: seq<byte>, value: seq<byte>): seq<byte> {
    name + [58, 32] + value
  }

  /** What one trailer adds to the buffer: printed up to a NUL, into a line buffer. */
  function PrintedLine(t: Trailer, size: nat): seq<byte>
    requires t.value.Some? && size > 0
  {
    Truncated(LineText(UpTo(t.name, 0), UpTo(t.value.value, 0)) + CRLF, size)
  }

  function PrintedLines(ts: seq<Trailer>, size: nat): seq<byte>
    requires size > 0
  {
    if ts == [] then []
    else (if Shown(ts[0]) then PrintedLine(ts[0], size) else []) + PrintedLines(ts[1..], size)
  }

  /** The lines a reader should find: every trailer that was given a value. */
  function Expected(ts: seq<Trailer>): seq<seq<byte>> {
    if ts == [] then []
    else if ts[0].value.None? then Expected(ts[1..])
    else [ts[0].name + [58, 32] + ts[0].value.value] + Expected(ts[1..])
  }

  function Block(lines: seq<seq<byte>>): seq<byte> {
    if lines == [] then [] else lines[0] + CRLF + Block(lines[1..])
  }

  predicate NoneShown(ts: seq<Trailer>) {
    forall i | 0 <= i < |ts| :: !Shown(ts[i])
  }

  /** The name is not an integer, nothing is cut at a NUL, and the line fits the buffer. */
  predicate Whole(t: Trailer, size: nat) {
    t.value.Some? ==>
      && !IntegerKey(t.name) && 0 !in t.name && 0 !in t.value.value
      && |t.name| + |t.value.value| + 4 < size
  }

  predicate AllWhole(ts: seq<Trailer>, size: nat) {
    forall i | 0 <= i < |ts| :: Whole(ts[i], size)
  }

  predicate Unbroken(lines: seq<seq<byte>>) {
    forall i | 0 <= i < |lines| :: lines[i] != [] && !HasCrlf(lines[i])
  }

  /** One trailer against the line it should give: never longer, and the same exactly when it
      is whole. */
  lemma LineExact(t: Trailer, size: nat)
    requires t.value.Some? && size > 1
    ensures var line := t.name + [58, 32] + t.value.value + CRLF;
      var printed := if Shown(t) then PrintedLine(t, size) else [];
      && |printed| <= |line|
      && (|printed| == |line| <==> Whole(t, size)) && (Whole(t, size) ==> printed == line)
      && (Shown(t) ==> printed != [])
  {
    hide IntegerKey, UpTo, Truncated;
    var name, value := UpTo(t.name, 0), UpTo(t.value.value, 0);
    assert |LineText(name, value) + CRLF| == |name| + |value| + 4;
    if Whole(t, size) {
      assert name == t.name && value == t.value.value;
    }
  }

  lemma {:induction false} LinesExact(ts: seq<Trailer>, size: nat)
    requires size > 1
    ensures var printed := PrintedLines(ts, size);
      var lines := Block(Expected(ts));
      && |printed| <= |lines|
      && (|printed| == |lines| <==> AllWhole(ts, size)) && (AllWhole(ts, size) ==> printed == lines)
      && (printed == [] <==> NoneShown(ts))
  {
    hide PrintedLine, LineText, Whole, Shown;
    if ts != [] {
      LinesExact(ts[1..], size);
      assert forall i | 1 <= i < |ts| :: ts[i] == ts[1..][i - 1];
      assert AllWhole(ts, size) <==> Whole(ts[0], size) && AllWhole(ts[1..], size);
      assert NoneShown(ts) <==> !Shown(ts[0]) && NoneShown(ts[1..]);
      if ts[0].value.Some? {
        LineExact(ts[0], size);
        assert Expected(ts)[1..] == Expected(ts[1..]);
      } else {
        NullIsWhole(ts[0], size);
      }
    }
  }

  lemma NullIsWhole(t: Trailer, size: nat)
    requires t.value.None?
    ensures Whole(t, size) && !Shown(t)
  {
  }

  /** Reading a block of unbroken lines gives them back. */
  lemma {:induction false} ReadBlock(lines: seq<seq<byte>>)
    requires Unbroken(lines)
    ensures ReadTrailers(Block(lines) + CRLF) == Message([], lines, [])
  {
    hide Find;
    if lines == [] {
      NoCrNoCrlf([]);
      assert [] + CRLF + [] == [] + CRLF == CRLF;
      FindLine([], []);
    } else {
      var s := Block(lines) + CRLF;
      var tail := Block(lines[1..]) + CRLF;
      assert s == lines[0] + CRLF + tail;
      FindLine(lines[0], tail);
      ReadBlock(lines[1..]);
      assert s[..|lines[0]|] == lines[0] && s[|lines[0]| + 2..] == tail;
      assert [lines[0]] + lines[1..] == lines;
    }
  }

  /** And what is read tells what was there. */
  lemma {:induction false} ReadInverse(s: seq<byte>)
    requires ReadTrailers(s).Message?
    ensures var m := ReadTrailers(s);
      m.body == [] && Unbroken(m.trailers) && s == Block(m.trailers) + CRLF + m.rest
    decreases |s|
  {
    hide Find, Block, HasCrlf;
    var n := Find(s, CRLF, 0);
    BreakAt(s, n);
    if n == 0 {
      BlockOfNothing();
      assert s[..0] == [];
    } else {
      var m := ReadTrailers(s[n + 2..]);
      ReadInverse(s[n + 2..]);
      FirstLineUnbroken(s, n);
      BlockCons(s[..n], m.trailers, m.rest);
    }
  }

  lemma BreakAt(s: seq<byte>, n: nat)
    requires Find(s, CRLF, 0) == n
    ensures n + 2 <= |s| && s == s[..n] + CRLF + s[n + 2..]
  {
    hide Find;
    assert MatchAt(s, CRLF, n);
    JoinParts(s, n);
  }

  lemma JoinParts(s: seq<byte>, n: nat)
    requires n + 2 <= |s|
    ensures s == s[..n] + s[n..n + 2] + s[n + 2..]
  {
  }

  lemma BlockOfNothing()
    ensures Block([]) == []
  {
  }

  lemma BlockCons(line: seq<byte>, lines: seq<seq<byte>>, rest: seq<byte>)
    ensures line + CRLF + (Block(lines) + CRLF + rest) == Block([line] + lines) + CRLF + rest
  {
    assert ([line] + lines)[1..] == lines;
  }

  lemma FirstLineUnbroken(s: seq<byte>, n: nat)
    requires Find(s, CRLF, 0) == n && n <= |s|
    ensures !HasCrlf(s[..n])
  {
    FindInPrefix(s, CRLF, n);
  }

  /** What build_trailer leaves in the buffer and send_trailer sends: nothing at all when no
      trailer is shown. */
  function TrailerBytes(ts: seq<Trailer>, size: nat): seq<byte>
    requires size > 0
  {
    if PrintedLines(ts, size) == [] then [] else PrintedLines(ts, size) + CRLF
  }

  /** The trailers come out as they were given. */
  predicate Carried(ts: seq<Trailer>, size: nat) {
    ts == [] || (!NoneShown(ts) && AllWhole(ts, size) && Unbroken(Expected(ts)))
  }

  lemma ReadTrailerBytes(ts: seq<Trailer>, size: nat)
    requires ts != [] && size > 1
    ensures ReadTrailers(TrailerBytes(ts, size)) == Message([], Expected(ts), []) <==> Carried(ts, size)
    ensures NoneShown(ts) ==> ReadTrailers(TrailerBytes(ts, size)) == Bad
  {
    hide ReadTrailers, Expected, PrintedLines, Block, Unbroken, NoneShown, AllWhole;
    var lines := Expected(ts);
    var sent := TrailerBytes(ts, size);
    LinesExact(ts, size);
    if Carried(ts, size) {
      ReadBlock(lines);
    } else if NoneShown(ts) {
      ReadNothing();
    } else if ReadTrailers(sent) == Message([], lines, []) {
      ReadInverse(sent);
      assert false;
    }
  }

  lemma ReadNothing()
    ensures ReadTrailers([]) == Bad
  {
  }

  // ---------------------------------------------------------------------------
  // The response as a state machine.

  /** What the request and the user's headers decide: a HEAD request, a Content-Length of the
      user's, a Transfer-Encoding of the user's, and the size of the line buffer. */
  datatype Config = Config(head: bool, userLength: Option<nat>, userEncoding: bool, lineBuffer: nat)

  /** What a header block announces: the line for chunked coding, and a Content-Length. */
  datatype Header = Header(chunked: bool, length: Option<nat>)

  /** `headers` are the header blocks sent, `body` the bytes sent after them, `writes` the
      history of the data given to write. */
  datatype State = State(
    config: Config, sendHeader: bool, sendChunked: bool, sendTrailer: bool, ended: bool, trailers: seq<Trailer>,
    headers: seq<Header>, body: seq<byte>, writes: seq<seq<byte>>)

  /** `memory` is what lies in the key buffer of a trailer call, for names that hold a NUL. */
  datatype Event =
    | Write(data: seq<byte>)
    | SetTrailer(name: seq<byte>, value: Option<seq<byte>>, memory: seq<byte>)
    | End(data: seq<byte>)

  function Init(config: Config): State {
    State(config, false, false, false, false, [], [], [], [])
  }

  const KEY_SIZE := 128

  function Lower(s: seq<byte>): (r: seq<byte>)
    ensures |r| == |s| && forall i | 0 <= i < |s| :: r[i] == if 65 <= s[i] <= 90 then s[i] + 32 else s[i]
  {
    if s == [] then [] else [if 65 <= s[0] <= 90 then s[0] + 32 else s[0]] + Lower(s[1..])
  }

  /** The name a trailer is stored under: it is copied up to a NUL into an uninitialised buffer,
      and then taken, in lower case, at its full length. */
  function Stored(name: seq<byte>, memory: seq<byte>): seq<byte> {
    var n := |UpTo(name, 0)|;
    if n == |name| || |memory| < |name| then Lower(name) else Lower(UpTo(name, 0) + [0] + memory[n + 1..|name|])
  }

  lemma StoredPlain(name: seq<byte>, memory: seq<byte>)
    requires 0 !in name
    ensures Stored(name, memory) == Lower(name)
  {
  }

  /** An insertion-ordered table: an old name keeps its place.  Names that become integer keys
      are in shortest form, so equal keys are equal names. */
  function Put(ts: seq<Trailer>, t: Trailer): seq<Trailer> {
    if ts == [] then [t]
    else if ts[0].name == t.name then [t] + ts[1..]
    else [ts[0]] + Put(ts[1..], t)
  }

  /** The value last set under a name. */
  function Lookup(ts: seq<Trailer>, name: seq<byte>): Option<Option<seq<byte>>> {
    if ts == [] then None else if ts[0].name == name then Some(ts[0].value) else Lookup(ts[1..], name)
  }

  function Names(ts: seq<Trailer>): seq<seq<byte>> {
    if ts == [] then [] else [ts[0].name] + Names(ts[1..])
  }

  lemma {:induction false} PutMeaning(ts: seq<Trailer>, t: Trailer, name: seq<byte>)
    ensures Lookup(Put(ts, t), name) == if name == t.name then Some(t.value) else Lookup(ts, name)
    ensures Names(Put(ts, t)) == Names(ts) + if t.name in Names(ts) then [] else [t.name]
  {
    var put := Put(ts, t);
    if ts == [] {
      assert [t][1..] == [];
    } else if ts[0].name == t.name {
      assert put[1..] == ts[1..];
    } else {
      assert put[1..] == Put(ts[1..], t);
      PutMeaning(ts[1..], t, name);
    }
  }

  /** A trailer call: too long a name is refused; otherwise the value under the stored name,
      which is the name in lower case if it holds no NUL, changes and no other, names keep
      their order, and a new one comes last. */
  lemma TrailerMeaning(s: State, name: seq<byte>, value: Option<seq<byte>>, memory: seq<byte>, other: seq<byte>)
    requires !s.ended && s.config.lineBuffer > 0
    ensures var t := Next(s, SetTrailer(name, value, memory));
      var key := Stored(name, memory);
      && (0 !in name ==> key == Lower(name))
      && if |name| >= 128 then t == s
         else
           && Lookup(t.trailers, other) == (if other == key then Some(value) else Lookup(s.trailers, other))
           && Names(t.trailers) == Names(s.trailers) + (if key in Names(s.trailers) then [] else [key])
  {
    if 0 !in name {
      StoredPlain(name, memory);
    }
    hide Lookup, Names, Put, Lower, Stored;
    PutMeaning(s.trailers, Trailer(Stored(name, memory), value), other);
  }

  function Terminator(s: State): seq<byte>
    requires s.config.lineBuffer > 0
  {
    [48] + CRLF + if s.sendTrailer then TrailerBytes(s.trailers, s.config.lineBuffer) else CRLF
  }

  /** The Content-Length of a body that is not chunked: the user's, or the length of the data,
      which is left out for an empty answer to HEAD. */
  function Announced(config: Config, length: nat): Option<nat> {
    if config.userLength.Some? then config.userLength
    else if length > 0 || !config.head then Some(length)
    else None
  }

  function Next(s: State, e: Event): State
    requires s.config.lineBuffer > 0
  {
    if s.ended then s
    else
      match e
      case Write(data) =>
        s.(sendHeader := true, sendChunked := s.sendChunked || !s.sendHeader,
           headers := if s.sendHeader then s.headers else s.headers + [Header(!s.config.userEncoding, None)],
           body := s.body + ChunkOrNothing(data), writes := s.writes + [data])
      case SetTrailer(name, value, memory) =>
        if |name| > KEY_SIZE - 1 then s
        else s.(trailers := Put(s.trailers, Trailer(Stored(name, memory), value)), sendTrailer := true)
      case End(data) =>
        if s.sendChunked
        then s.(body := s.body + Terminator(s), sendTrailer := false, sendChunked := false, ended := true)
        else s.(sendHeader := true, headers := s.headers + [Header(false, Announced(s.config, |data|))],
                body := s.body + data, ended := true)
  }

  function Exec(s: State, run: seq<Event>): (t: State)
    requires s.config.lineBuffer > 0
    ensures t.config == s.config
    decreases |run|
  {
    if run == [] then s else Exec(Next(s, run[0]), run[1..])
  }

  /** Before the end: chunks of the writes so far, and a chunked header once there is one. */
  predicate Writing(s: State) {
    && !s.ended && s.body == Chunks(s.writes)
    && s.sendHeader == s.sendChunked == (s.writes != [])
    && s.headers == (if s.writes == [] then [] else [Header(!s.config.userEncoding, None)])
    && (s.sendTrailer <==> s.trailers != [])
  }

  lemma WritingStep(s: State, e: Event)
    requires Writing(s) && !e.End? && s.config.lineBuffer > 0
    ensures Writing(Next(s, e))
  {
    if e.Write? {
      ChunksSnoc(s.writes, e.data);
    }
    hide Chunks, ChunkOrNothing;
  }

  predicate Unended(run: seq<Event>) {
    forall i | 0 <= i < |run| :: !run[i].End?
  }

  lemma ConfigStays(s: State, e: Event)
    requires s.config.lineBuffer > 0
    ensures Next(s, e).config == s.config
  {
  }

  lemma {:induction false} WritingRun(s: State, run: seq<Event>)
    requires Writing(s) && Unended(run) && s.config.lineBuffer > 0
    ensures Writing(Exec(s, run))
    decreases |run|
  {
    hide Writing, Next;
    if run != [] {
      ConfigStays(s, run[0]);
      WritingStep(s, run[0]);
      WritingRun(Next(s, run[0]), run[1..]);
    }
  }

  lemma WritingInit(config: Config)
    ensures Writing(Init(config))
  {
  }

  /** The terminating chunk comes from end alone: before it no reader sees a whole message. */
  lemma OnlyEndTerminates(config: Config, run: seq<Event>)
    requires Unended(run) && config.lineBuffer > 0
    ensures ReadChunks(Exec(Init(config), run).body).Bad?
  {
    var s := Exec(Init(config), run);
    WritingInit(config);
    WritingRun(Init(config), run);
    ReadAllChunks(s.writes, []);
    hide Exec, Chunks, Flatten;
    assert Chunks(s.writes) + [] == Chunks(s.writes);
  }

  lemma ReadLastChunk(tail: seq<byte>)
    ensures ReadChunks([48] + CRLF + tail) == ReadTrailers(tail)
  {
    var t := [48] + CRLF + tail;
    DigitsHaveNoCrlf([48]);
    FindLine([48], tail);
    assert t[..1] == [48] && t[3..] == tail;
    assert Value([48]) == 0 by { assert [48][..0] == []; }
    hide Find, Value;
  }

  lemma ReadTerminator(s: State)
    requires Writing(s) && s.config.lineBuffer > 1
    ensures ReadChunks(Terminator(s)) == Message([], Expected(s.trailers), []) <==>
      Carried(s.trailers, s.config.lineBuffer)
    ensures s.trailers != [] && NoneShown(s.trailers) ==> ReadChunks(Terminator(s)) == Bad
  {
    hide ReadChunks, ReadTrailers, TrailerBytes, Carried, NoneShown;
    var tail := if s.sendTrailer then TrailerBytes(s.trailers, s.config.lineBuffer) else CRLF;
    ReadLastChunk(tail);
    if s.sendTrailer {
      ReadTrailerBytes(s.trailers, s.config.lineBuffer);
    } else {
      NoTrailers(s.config.lineBuffer);
    }
  }

  lemma NoTrailers(size: nat)
    ensures Expected([]) == [] && Carried([], size) && ReadTrailers(CRLF) == Message([], [], [])
  {
    ReadBlock([]);
    assert Block([]) + CRLF == CRLF;
  }

  /** After any sequence of writes and trailers, end leaves exactly one header block.

      With no write, the data given to end is the body.  Its length is announced exactly when
      the user's Content-Length says so, or there is none and the answer is not an empty one
      to HEAD.

      Otherwise the header is the chunked one and the data given to end is not part of the
      body.  The body reads back as the concatenation of the writes, with every trailer that
      was given a value and nothing left over, if and only if no trailer was set, or one is
      shown and every value is under a name that is not an integer, without NUL, within the
      line buffer and unbroken.  When none is shown the message is not even terminated. */
  lemma ChunkedRoundTrip(config: Config, run: seq<Event>, data: seq<byte>)
    requires Unended(run) && config.lineBuffer > 1
    ensures var s := Exec(Init(config), run);
      var t := Next(s, End(data));
      && t.ended
      && (s.writes == [] ==>
            && t.body == data && |t.headers| == 1 && !t.headers[0].chunked
            && (t.headers[0].length == Some(|t.body|) <==>
                if config.userLength.Some? then config.userLength.value == |data| else data != [] || !config.head))
      && (s.writes != [] ==>
            && t.headers == [Header(!config.userEncoding, None)]
            && (ReadChunks(t.body) == Message(Flatten(s.writes), Expected(s.trailers), []) <==>
                Carried(s.trailers, config.lineBuffer))
            && (s.trailers != [] && NoneShown(s.trailers) ==> ReadChunks(t.body) == Bad))
  {
    hide Exec, Writing, Next, ReadChunks, Expected, Flatten, Carried, NoneShown;
    WritingInit(config);
    WritingRun(Init(config), run);
    EndBody(Exec(Init(config), run), data);
  }

  lemma EndBody(s: State, data: seq<byte>)
    requires Writing(s) && s.config.lineBuffer > 1
    ensures var t := Next(s, End(data));
      && t.ended
      && (s.writes == [] ==>
            && t.body == data && |t.headers| == 1 && !t.headers[0].chunked
            && (t.headers[0].length == Some(|t.body|) <==>
                if s.config.userLength.Some? then s.config.userLength.value == |data| else data != [] || !s.config.head))
      && (s.writes != [] ==>
            && t.headers == [Header(!s.config.userEncoding, None)]
            && (ReadChunks(t.body) == Message(Flatten(s.writes), Expected(s.trailers), []) <==>
                Carried(s.trailers, s.config.lineBuffer))
            && (s.trailers != [] && NoneShown(s.trailers) ==> ReadChunks(t.body) == Bad))
  {
    hide Chunks, Flatten, ReadChunks, Expected, Terminator, Carried, NoneShown;
    ReadAllChunks(s.writes, Terminator(s));
    ReadTerminator(s);
    var m := ReadChunks(Terminator(s));
    PrependExact(Flatten(s.writes), m, Expected(s.trailers));
    NoChunks(s.writes);
    assert [] + data == data;
  }

  lemma PrependExact(a: seq<byte>, m: Message, lines: seq<seq<byte>>)
    ensures Prepend(a, m) == Message(a, lines, []) <==> m == Message([], lines, [])
  {
    assert a + [] == a;
    if m.Message? && a + m.body == a {
      assert |m.body| == 0;
    }
  }

  lemma NoChunks(writes: seq<seq<byte>>)
    ensures writes == [] ==> Chunks(writes) == []
  {
  }

  /** One write, one trailer, end. */
  lemma OneTrailer(config: Config, data: seq<byte>, name: seq<byte>, value: Option<seq<byte>>, memory: seq<byte>)
    requires config.lineBuffer > 1 && |name| < KEY_SIZE && !Shown(Trailer(Stored(name, memory), value))
    ensures ReadChunks(Exec(Init(config), [Write(data), SetTrailer(name, value, memory), End([])]).body) == Bad
  {
    hide ReadChunks, Stored, Shown, Next, Writing, Exec, Expected, Carried, Flatten;
    TwoEvents(config, data, name, value, memory);
    var s1 := Next(Init(config), Write(data));
    var s2 := Next(s1, SetTrailer(name, value, memory));
    assert NoneShown(s2.trailers);
    EndBody(s2, []);
    ExecThree(Init(config), Write(data), SetTrailer(name, value, memory), End([]));
  }

  lemma TwoEvents(config: Config, data: seq<byte>, name: seq<byte>, value: Option<seq<byte>>, memory: seq<byte>)
    requires config.lineBuffer > 1 && |name| < KEY_SIZE
    ensures var s1 := Next(Init(config), Write(data));
      var s2 := Next(s1, SetTrailer(name, value, memory));
      && s1.config == s2.config == config && Writing(s2)
      && s2.trailers == [Trailer(Stored(name, memory), value)] && s2.writes == [data]
  {
    WritingInit(config);
    WritingStep(Init(config), Write(data));
    WritingStep(Next(Init(config), Write(data)), SetTrailer(name, value, memory));
    hide Chunks, Chunk, Stored, Writing;
  }

  /** A single trailer set to null leaves the message unterminated. */
  lemma NullTrailerTruncates(config: Config, data: seq<byte>, name: seq<byte>, memory: seq<byte>)
    requires config.lineBuffer > 1 && |name| < KEY_SIZE
    ensures ReadChunks(Exec(Init(config), [Write(data), SetTrailer(name, None, memory), End([])]).body) == Bad
  {
    OneTrailer(config, data, name, None, memory);
  }

  /** So does the single trailer "1" with the value "x". */
  lemma NumericTrailerTruncates(config: Config, data: seq<byte>)
    requires config.lineBuffer > 1
    ensures ReadChunks(Exec(Init(config), [Write(data), SetTrailer([49], Some([120]), []), End([])]).body) == Bad
  {
    assert Lower([49]) == [49] by { assert [49][1..] == []; }
    assert DecimalValue([49]) == 1 by { assert [49][..0] == []; }
    assert IntegerKey([49]);
    StoredPlain([49], []);
    OneTrailer(config, data, [49], Some([120]), []);
  }

  lemma ExecThree(s: State, e: Event, f: Event, g: Event)
    requires s.config.lineBuffer > 0
    ensures Next(s, e).config == Next(Next(s, e), f).config == s.config
    ensures Exec(s, [e, f, g]) == Next(Next(Next(s, e), f), g)
  {
    ConfigStays(s, e);
    ConfigStays(Next(s, e), f);
    ConfigStays(Next(Next(s, e), f), g);
    hide Next;
    var u := Next(Next(s, e), f);
    assert Exec(u, [g]) == Next(u, g) by { assert [g][1..] == []; }
    assert Exec(Next(s, e), [f, g]) == Exec(u, [g]) by { assert [f, g][1..] == [g]; }
    assert [e, f, g][1..] == [f, g];
  }

  // ---------------------------------------------------------------------------
  // The response object.

  class Response {
    const config: Config
    var sendHeader: bool
    var sendChunked: bool
    var sendTrailer: bool
    var ended: bool
    var trailers: seq<Trailer>
    var headers: seq<Header>
    var body: seq<byte>
    ghost var writes: seq<seq<byte>>

    ghost function View(): State
      reads this
    {
      State(config, sendHeader, sendChunked, sendTrailer, ended, trailers, headers, body, writes)
    }

    constructor (config: Config)
      ensures View() == Init(config)
    {
      this.config, sendHeader, sendChunked, sendTrailer, ended := config, false, false, false, false;
      trailers, headers, body, writes := [], [], [], [];
    }

    /** True when a chunk was sent. */
    method Write(data: seq<byte>) returns (ok: bool)
      requires |data| < 0x1_0000_0000_0000_0000 && config.lineBuffer > 0
      modifies this
      ensures View() == Next(old(View()), Event.Write(data))
      ensures ok == (!old(ended) && data != [])
    {
      hide Hex;
      if ended {
        return false;
      }
      writes := writes + [data];
      if !sendHeader {
        sendChunked := true;
        headers := headers + [Header(!config.userEncoding, None)];
        sendHeader := true;
      }
      if |data| == 0 {
        assert body + [] == body;
        return false;
      }
      var hex := Dec2Hex(|data|);
      var buffer := [];
      buffer := buffer + hex;
      buffer := buffer + CRLF;
      buffer := buffer + data;
      buffer := buffer + CRLF;
      assert buffer == Chunk(data);
      body := body + buffer;
      return true;
    }

    /** trailer: `memory` is the key buffer as the call finds it. */
    method SetTrailer(name: seq<byte>, value: Option<seq<byte>>, memory: seq<byte>) returns (ok: bool)
      requires config.lineBuffer > 0 && |memory| == KEY_SIZE
      modifies this
      ensures View() == Next(old(View()), Event.SetTrailer(name, value, memory))
      ensures ok == (!old(ended) && |name| < KEY_SIZE)
    {
      hide Lower;
      if ended || |name| > KEY_SIZE - 1 {
        return false;
      }
      var copied := UpTo(name, 0);
      var key := (copied + [0] + memory[|copied| + 1..])[..|name|];
      assert key == if 0 !in name then name else copied + [0] + memory[|copied| + 1..|name|];
      trailers := Put(trailers, Trailer(Lower(key), value));
      sendTrailer := true;
      return true;
    }

    /** The loop of build_trailer: the buffer, and how many bytes of lines it holds. */
    method BuildTrailer() returns (buffer: seq<byte>, n: nat)
      requires config.lineBuffer > 0
      ensures n == |PrintedLines(trailers, config.lineBuffer)|
      ensures buffer == PrintedLines(trailers, config.lineBuffer) + if trailers == [] then [] else CRLF
    {
      hide IntegerKey, PrintedLine;
      buffer, n := [], 0;
      var i := 0;
      assert trailers[0..] == trailers;
      while i < |trailers|
        invariant 0 <= i <= |trailers| && n == |buffer|
        invariant buffer + PrintedLines(trailers[i..], config.lineBuffer) == PrintedLines(trailers, config.lineBuffer)
      {
        var t := trailers[i];
        assert trailers[i..][1..] == trailers[i + 1..];
        if !IntegerKey(t.name) && t.value.Some? {
          var line := PrintedLine(t, config.lineBuffer);
          ghost var rest := PrintedLines(trailers[i + 1..], config.lineBuffer);
          assert buffer + (line + rest) == (buffer + line) + rest;
          buffer := buffer + line;
          n := n + |line|;
        }
        i := i + 1;
      }
      assert trailers[i..] == [];
      assert buffer == PrintedLines(trailers, config.lineBuffer);
      if |trailers| > 0 {
        buffer := buffer + CRLF;
      }
    }

    /** send_trailer: nothing is sent when there were no lines. */
    method SendTrailer()
      requires config.lineBuffer > 0
      modifies this`body
      ensures body == old(body) + TrailerBytes(trailers, config.lineBuffer)
    {
      var buffer, n := BuildTrailer();
      if n == 0 {
        assert body + [] == body;
        return;
      }
      body := body + buffer;
    }

    method End(data: seq<byte>) returns (ok: bool)
      requires config.lineBuffer > 0
      modifies this
      ensures View() == Next(old(View()), Event.End(data))
      ensures ok == !old(ended)
    {
      hide TrailerBytes;
      if ended {
        return false;
      }
      if sendChunked {
        ghost var before := body;
        if sendTrailer {
          body := body + ([48] + CRLF);
          SendTrailer();
          assert body == before + ([48] + CRLF + TrailerBytes(trailers, config.lineBuffer));
          sendTrailer := false;
        } else {
          body := body + [48, CR, LF, CR, LF];
          assert [48] + CRLF + CRLF == [48, CR, LF, CR, LF];
        }
        sendChunked := false;
      } else {
        var length := config.userLength;
        if length.None? && (|data| > 0 || !config.head) {
          length := Some(|data|);
        }
        headers := headers + [Header(false, length)];
        sendHeader := true;
        body := body + data;
      }
      ended := true;
      return true;
    }
  }
}
