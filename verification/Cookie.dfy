/** The Cookie header: printed by the HTTP client, parsed by the HTTP server. */
module Cookie {
  import opened Basics

  const EQUALS: byte := 61
  const SEMICOLON: byte := 59
  const SPACE: byte := 32
  const QUOTE: byte := 34
  const PERCENT: byte := 37
  const PLUS: byte := 43

  const KEYLEN := 128
  const VALLEN := 4096

  type Jar = map<seq<byte>, seq<byte>>

  /** An entry of the cookies array.  Integer keys and empty values are not printed. */
  datatype Entry = Entry(stringKey: bool, name: seq<byte>, value: seq<byte>)

  predicate IsSpace(b: byte) {
    b == SPACE || 9 <= b <= 13
  }

  predicate Printed(e: Entry) {
    e.stringKey && e.value != []
  }

  // ---------------------------------------------------------------------------
  // PHP's urlencode and urldecode.

  predicate Unreserved(b: byte) {
    48 <= b <= 57 || 65 <= b <= 90 || 97 <= b <= 122 || b == 45 || b == 46 || b == 95
  }

  const UPPER_A: byte := 65

  function EncodeByte(b: byte): seq<byte> {
    if Unreserved(b) then [b] else if b == SPACE then [PLUS] else [PERCENT, HexDigit(b / 16, UPPER_A), HexDigit(b % 16, UPPER_A)]
  }

  function Encode(v: seq<byte>): seq<byte> {
    if v == [] then [] else EncodeByte(v[0]) + Encode(v[1..])
  }

  function Decode(s: seq<byte>): seq<byte> {
    if s == [] then []
    else if s[0] == PLUS then [SPACE] + Decode(s[1..])
    else if s[0] == PERCENT && |s| >= 3 && IsHex(s[1]) && IsHex(s[2])
    then [16 * UnHex(s[1]) + UnHex(s[2])] + Decode(s[3..])
    else [s[0]] + Decode(s[1..])
  }

  lemma DecodeFirst(b: byte, rest: seq<byte>)
    ensures Decode(EncodeByte(b) + rest) == [b] + Decode(rest)
  {
    var s := EncodeByte(b) + rest;
    if Unreserved(b) || b == SPACE {
      assert s[1..] == rest;
    } else {
      assert s[0] == PERCENT && s[1] == HexDigit(b / 16, UPPER_A) && s[2] == HexDigit(b % 16, UPPER_A);
      assert s[3..] == rest;
      assert UnHex(HexDigit(b / 16, UPPER_A)) == b / 16 && UnHex(HexDigit(b % 16, UPPER_A)) == b % 16;
    }
  }

  lemma {:induction false} DecodeEncode(v: seq<byte>)
    ensures Decode(Encode(v)) == v
  {
    if v != [] {
      DecodeFirst(v[0], Encode(v[1..]));
      DecodeEncode(v[1..]);
    }
  }

  /** Letters, digits, and the five signs that encoding leaves or writes. */
  predicate Plain(s: seq<byte>) {
    forall i | 0 <= i < |s| ::
      48 <= s[i] <= 57 || 65 <= s[i] <= 90 || 97 <= s[i] <= 122 || s[i] in [37, 43, 45, 46, 95]
  }

  lemma PlainByte(b: byte)
    ensures Plain(EncodeByte(b)) && |EncodeByte(b)| >= 1
    ensures Plain([b]) && b != PERCENT && b != PLUS ==> EncodeByte(b) == [b]
  {
    if Plain([b]) {
      assert [b][0] == b;
    }
  }

  lemma PlainJoin(a: seq<byte>, b: seq<byte>)
    ensures Plain(a + b) <==> Plain(a) && Plain(b)
  {
    if Plain(a + b) {
      assert forall i | 0 <= i < |a| :: a[i] == (a + b)[i];
      assert forall i | 0 <= i < |b| :: b[i] == (a + b)[|a| + i];
    }
  }

  lemma {:induction false} EncodedPlain(v: seq<byte>)
    ensures Plain(Encode(v)) && |Encode(v)| >= |v|
    ensures Plain(v) && PERCENT !in v && PLUS !in v ==> Encode(v) == v
  {
    if v == [] {
      assert Plain([]);
    } else {
      hide Plain, EncodeByte;
      EncodedPlain(v[1..]);
      PlainByte(v[0]);
      PlainJoin(EncodeByte(v[0]), Encode(v[1..]));
      PlainJoin([v[0]], v[1..]);
      assert v == [v[0]] + v[1..] && v[0] in v;
    }
  }

  /** A percent sign and two hexadecimal digits. */
  predicate EscapeAt(s: seq<byte>, i: nat) {
    i + 2 < |s| && s[i] == 37 && IsHex(s[i + 1]) && IsHex(s[i + 2])
  }

  /** Without an escape only plus signs change; a percent sign that starts none stays. */
  lemma {:induction false} DecodeUnescaped(s: seq<byte>)
    requires forall i | 0 <= i < |s| :: !EscapeAt(s, i)
    ensures |Decode(s)| == |s|
    ensures forall i | 0 <= i < |s| :: Decode(s)[i] == if s[i] == 43 then 32 else s[i]
  {
    if s != [] {
      assert !EscapeAt(s, 0);
      forall i | 0 <= i < |s[1..]| ensures !EscapeAt(s[1..], i) {
        assert !EscapeAt(s, i + 1);
      }
      DecodeUnescaped(s[1..]);
    }
  }

  /** An escape, in digits of either case, stands for one byte. */
  lemma DecodeEscape(s: seq<byte>)
    requires EscapeAt(s, 0)
    ensures var rest := Decode(s[3..]);
      exists b: byte :: Decode(s) == [b] + rest && s[1] in [HexDigit(b / 16, 65), HexDigit(b / 16, 97)] &&
                        s[2] in [HexDigit(b % 16, 65), HexDigit(b % 16, 97)]
  {
    var b: byte := 16 * UnHex(s[1]) + UnHex(s[2]);
    assert Decode(s) == [b] + Decode(s[3..]);
    assert b / 16 == UnHex(s[1]) && b % 16 == UnHex(s[2]);
  }

  // ---------------------------------------------------------------------------
  // Trimming double quotes.

  /** The left trim counts up while the length goes down, so it stops half way. */
  function TrimLeft(v: seq<byte>, i: nat): seq<byte> {
    if i < |v| && v[0] == QUOTE then TrimLeft(v[1..], i + 1) else v
  }

  function TrimRight(v: seq<byte>): seq<byte> {
    if v != [] && v[|v| - 1] == QUOTE then TrimRight(v[..|v| - 1]) else v
  }

  function Trim(v: seq<byte>): seq<byte> {
    TrimRight(TrimLeft(v, 0))
  }

  lemma TrimPlain(v: seq<byte>)
    requires QUOTE !in v
    ensures Trim(v) == v
  {
    if v != [] {
      assert v[0] in v && v[|v| - 1] in v;
    }
  }

  method TrimDoubleQuote(v: seq<byte>) returns (r: seq<byte>)
    ensures r == Trim(v)
  {
    r := v;
    var i := 0;
    while i < |r| && r[0] == QUOTE
      invariant TrimLeft(r, i) == TrimLeft(v, 0)
      decreases |r|
    {
      r := r[1..];
      i := i + 1;
    }
    assert r == TrimLeft(v, 0);
    while r != [] && r[|r| - 1] == QUOTE
      invariant TrimRight(r) == Trim(v)
      decreases |r|
    {
      r := r[..|r| - 1];
    }
  }

  /** All outer quotes removed. */
  function Unquoted(v: seq<byte>): seq<byte> {
    if v != [] && v[0] == QUOTE then Unquoted(v[1..]) else TrimRight(v)
  }

  function LeadingQuotes(v: seq<byte>): (n: nat)
    ensures n <= |v|
  {
    if v != [] && v[0] == QUOTE then 1 + LeadingQuotes(v[1..]) else 0
  }

  // ---------------------------------------------------------------------------
  // What the header means: segments separated by semicolons.

  function IndexOf(s: seq<byte>, b: byte): (k: nat)
    ensures k <= |s| && (forall i | 0 <= i < k :: s[i] != b) && (k < |s| ==> s[k] == b)
  {
    if s == [] || s[0] == b then 0 else IndexOf(s[1..], b) + 1
  }

  lemma IndexIs(s: seq<byte>, b: byte, k: nat)
    requires k <= |s| && (forall i | 0 <= i < k :: s[i] != b) && (k < |s| ==> s[k] == b)
    ensures IndexOf(s, b) == k
  {
    hide IndexOf;
    var n := IndexOf(s, b);
    assert !(n < k) && !(k < n);
  }

  function Strip(s: seq<byte>): (t: seq<byte>)
    ensures t != [] ==> !IsSpace(t[0])
  {
    if s != [] && IsSpace(s[0]) then Strip(s[1..]) else s
  }

  /** The cookies so far and the name read last, or the end of parsing. */
  datatype Progress = Go(jar: Jar, key: seq<byte>) | Stop

  function Put(jar: Jar, name: seq<byte>, value: seq<byte>): Jar {
    if name == [] then jar else jar[name := value]
  }

  /** A segment that is followed by a semicolon. */
  function Take(segment: seq<byte>, jar: Jar): Progress {
    var t := Strip(segment);
    var k := IndexOf(t, EQUALS);
    if k + 1 >= KEYLEN then Stop
    else if k == |t| then Go(Put(jar, t, []), t)
    else if |t| - k - 1 >= VALLEN then Stop
    else Go(Put(jar, t[..k], Decode(Trim(t[k + 1..]))), t[..k])
  }

  /** The last segment: an empty value is dropped, and text without an equals sign becomes
      the value of the name read before. */
  function TakeLast(segment: seq<byte>, jar: Jar, key: seq<byte>): Jar {
    var t := Strip(segment);
    var k := IndexOf(t, EQUALS);
    if k == |t| then
      if t == [] || |t| >= VALLEN then jar else Put(jar, key, Decode(Trim(t)))
    else if k + 1 >= KEYLEN || k + 1 == |t| || |t| - k - 1 >= VALLEN then jar
    else Put(jar, t[..k], Decode(Trim(t[k + 1..])))
  }

  function Read(s: seq<byte>, jar: Jar, key: seq<byte>): Jar
    decreases |s|
  {
    var n := IndexOf(s, SEMICOLON);
    if n == |s| then TakeLast(s, jar, key)
    else
      match Take(s[..n], jar)
      case Stop => jar
      case Go(jar', key') => Read(s[n + 1..], jar', key')
  }

  // ---------------------------------------------------------------------------
  // The parser.

  /** Inside a name: `j` is its first character, or the current one while skipping spaces. */
  ghost predicate Naming(at: seq<byte>, b: nat, j: nat, i: nat) {
    && b <= j <= i <= |at|
    && (forall n | b <= n < j :: IsSpace(at[n]))
    && (j < i ==> !IsSpace(at[j]))
    && (forall n | b <= n < i :: at[n] != EQUALS && at[n] != SEMICOLON)
  }

  /** Inside a value that starts at `j`, of a name that starts at `q`. */
  ghost predicate Valuing(at: seq<byte>, b: nat, q: nat, j: nat, i: nat) {
    && j > 0 && Naming(at, b, q, j - 1)
    && j <= i <= |at| && at[j - 1] == EQUALS
    && (forall n | j <= n < i :: at[n] != SEMICOLON)
  }

  lemma SegmentEnds(at: seq<byte>, b: nat, i: nat)
    requires b <= i <= |at| && (forall n | b <= n < i :: at[n] != SEMICOLON)
    requires i < |at| ==> at[i] == SEMICOLON
    ensures IndexOf(at[b..], SEMICOLON) == i - b && at[b..][..i - b] == at[b..i]
    ensures i < |at| ==> at[b..][i - b + 1..] == at[i + 1..]
  {
    hide IndexOf;
    IndexIs(at[b..], SEMICOLON, i - b);
  }

  lemma {:induction false} StripAt(at: seq<byte>, b: nat, q: nat, e: nat)
    requires b <= q <= e <= |at| && (forall n | b <= n < q :: IsSpace(at[n])) && (q < e ==> !IsSpace(at[q]))
    ensures Strip(at[b..e]) == at[q..e]
    decreases q - b
  {
    if b < q {
      assert at[b..e][1..] == at[b + 1..e];
      StripAt(at, b + 1, q, e);
    }
  }

  /** A segment with a name only. */
  lemma NameSegment(at: seq<byte>, b: nat, j: nat, i: nat)
    requires Naming(at, b, j, i)
    ensures Strip(at[b..i]) == at[j..i] && IndexOf(at[j..i], EQUALS) == i - j
  {
    hide Strip, IndexOf;
    StripAt(at, b, j, i);
    IndexIs(at[j..i], EQUALS, i - j);
  }

  /** A segment with a name and a value. */
  lemma ValueSegment(at: seq<byte>, b: nat, q: nat, j: nat, i: nat)
    requires Valuing(at, b, q, j, i)
    ensures var t := Strip(at[b..i]);
      && t == at[q..i] && IndexOf(t, EQUALS) == j - 1 - q
      && t[..j - 1 - q] == at[q..j - 1] && t[j - q..] == at[j..i]
  {
    hide Strip, IndexOf;
    assert !IsSpace(EQUALS);
    StripAt(at, b, q, i);
    IndexIs(at[q..i], EQUALS, j - 1 - q);
  }

  /** Reading one segment of a text that has a semicolon at `i`. */
  lemma ReadSegment(at: seq<byte>, b: nat, i: nat, jar: Jar, key: seq<byte>)
    requires b <= i < |at| && at[i] == SEMICOLON && (forall n | b <= n < i :: at[n] != SEMICOLON)
    ensures Read(at[b..], jar, key) ==
      match Take(at[b..i], jar)
      case Stop => jar
      case Go(jar', key') => Read(at[i + 1..], jar', key')
  {
    hide Take, IndexOf;
    SegmentEnds(at, b, i);
  }

  lemma NameStep(at: seq<byte>, b: nat, j: nat, i: nat, jar: Jar, key: seq<byte>)
    requires Naming(at, b, j, i) && i < |at| && at[i] == SEMICOLON
    ensures Read(at[b..], jar, key) ==
      if i - j + 1 >= KEYLEN then jar else Read(at[i + 1..], Put(jar, at[j..i], []), at[j..i])
  {
    hide Strip, IndexOf, Read;
    ReadSegment(at, b, i, jar, key);
    NameSegment(at, b, j, i);
  }

  lemma ValueStep(at: seq<byte>, b: nat, q: nat, j: nat, i: nat, jar: Jar, key: seq<byte>)
    requires Valuing(at, b, q, j, i) && i < |at| && at[i] == SEMICOLON && j - q < KEYLEN
    ensures Read(at[b..], jar, key) ==
      if i - j >= VALLEN then jar
      else Read(at[i + 1..], Put(jar, at[q..j - 1], Decode(Trim(at[j..i]))), at[q..j - 1])
  {
    hide Strip, IndexOf, Decode, Trim, Read;
    ReadSegment(at, b, i, jar, key);
    ValueSegment(at, b, q, j, i);
  }

  /** A name too long to store, seen at its equals sign, ends parsing whatever follows. */
  lemma LongName(at: seq<byte>, b: nat, q: nat, j: nat, jar: Jar, key: seq<byte>)
    requires Valuing(at, b, q, j, j) && j - q >= KEYLEN
    ensures Read(at[b..], jar, key) == jar
  {
    hide Strip, IndexOf, Decode, Trim;
    var e := j + IndexOf(at[j..], SEMICOLON);
    forall n | j <= n < e ensures at[n] != SEMICOLON {
      assert at[n] == at[j..][n - j];
    }
    SegmentEnds(at, b, e);
    ValueSegment(at, b, q, j, e);
    if e == |at| {
      assert at[b..e] == at[b..];
    }
  }

  lemma LastName(at: seq<byte>, b: nat, j: nat, jar: Jar, key: seq<byte>)
    requires Naming(at, b, j, |at|)
    ensures Read(at[b..], jar, key) ==
      if j == |at| || |at| - j >= VALLEN then jar else Put(jar, key, Decode(Trim(at[j..])))
  {
    hide Strip, IndexOf, Decode, Trim;
    SegmentEnds(at, b, |at|);
    NameSegment(at, b, j, |at|);
    assert at[b..|at|] == at[b..] && at[j..|at|] == at[j..];
  }

  lemma LastValue(at: seq<byte>, b: nat, q: nat, j: nat, jar: Jar, key: seq<byte>)
    requires Valuing(at, b, q, j, |at|) && j - q < KEYLEN
    ensures Read(at[b..], jar, key) ==
      if j == |at| || |at| - j >= VALLEN then jar else Put(jar, at[q..j - 1], Decode(Trim(at[j..])))
  {
    hide Strip, IndexOf, Decode, Trim;
    SegmentEnds(at, b, |at|);
    ValueSegment(at, b, q, j, |at|);
    assert at[b..|at|] == at[b..] && at[j..|at|] == at[j..];
  }

  /** The character loop: `j` marks the start of the name or value, `state` is -1 before a
      name, 0 inside one and 1 inside a value. */
  method ParseCookie(at: seq<byte>) returns (jar: Jar)
    ensures jar == Read(at, map[], [])
  {
    hide Read, Take, TakeLast, Decode, Trim;
    jar := map[];
    var keybuf: seq<byte> := [];
    var state, i, j := -1, 0, 0;
    ghost var b, q, key := 0, 0, [];
    assert at[0..] == at;
    while i < |at|
      invariant 0 <= i <= |at| && 0 <= b && -1 <= state <= 1
      invariant state <= 0 ==> Naming(at, b, j, i) && keybuf == key && (state < 0 <==> j == i)
      invariant state == 1 ==> Valuing(at, b, q, j, i) && j - q < KEYLEN && keybuf == at[q..j - 1]
      invariant Read(at, map[], []) == Read(at[b..], jar, key)
    {
      if state <= 0 && at[i] == EQUALS {
        q := j;
        if i - j + 1 >= KEYLEN {
          LongName(at, b, q, i + 1, jar, key);
          return;
        }
        keybuf := at[j..i];
        j, state := i + 1, 1;
      } else if state <= 0 && at[i] == SEMICOLON {
        NameStep(at, b, j, i, jar, key);
        if i - j + 1 >= KEYLEN {
          return;
        }
        keybuf := at[j..i];
        if keybuf != [] {
          jar := jar[keybuf := []];
        }
        j, state := i + 1, -1;
        b, key := i + 1, keybuf;
      } else if state == 1 && at[i] == SEMICOLON {
        ValueStep(at, b, q, j, i, jar, key);
        if i - j >= VALLEN {
          return;
        }
        var value := TrimDoubleQuote(at[j..i]);
        value := Decode(value);
        if keybuf != [] {
          jar := jar[keybuf := value];
        }
        j, state := i + 1, -1;
        b, key := i + 1, keybuf;
      } else if state < 0 {
        if IsSpace(at[i]) {
          j := j + 1;
        } else {
          state := 0;
        }
      }
      i := i + 1;
    }
    if state == 1 {
      LastValue(at, b, q, j, jar, key);
    } else {
      LastName(at, b, j, jar, key);
    }
    if j < |at| {
      if i - j >= VALLEN {
        return;
      }
      var value := TrimDoubleQuote(at[j..]);
      value := Decode(value);
      if keybuf != [] {
        jar := jar[keybuf := value];
      }
    }
  }

  // ---------------------------------------------------------------------------
  // The printer.

  /** What one entry adds; a separator follows unless it is the last of the array. */
  function Item(e: Entry, more: bool): seq<byte> {
    if !Printed(e) then []
    else e.name + [EQUALS] + Encode(e.value) + if more then [SEMICOLON, SPACE] else []
  }

  function PrintFrom(cs: seq<Entry>, i: nat): seq<byte>
    requires i <= |cs|
    decreases |cs| - i
  {
    if i == |cs| then [] else Item(cs[i], i + 1 < |cs|) + PrintFrom(cs, i + 1)
  }

  lemma Appended(buffer: seq<byte>, e: Entry, more: bool, rest: seq<byte>)
    ensures buffer + (Item(e, more) + rest) ==
      (if !Printed(e) then buffer
       else if more then buffer + e.name + [EQUALS] + Encode(e.value) + [SEMICOLON, SPACE]
       else buffer + e.name + [EQUALS] + Encode(e.value)) + rest
  {
    hide Encode;
    if Printed(e) {
      var v := Encode(e.value);
      assert e.name + [EQUALS] + v + [] == e.name + [EQUALS] + v;
    }
  }

  /** The loop over the cookies array; the result is the value of the header field. */
  method PrintCookies(cs: seq<Entry>) returns (buffer: seq<byte>)
    ensures buffer == PrintFrom(cs, 0)
  {
    hide Encode;
    buffer := [];
    var k, i := 0, 0;
    while k < |cs|
      invariant k == i <= |cs|
      invariant buffer + PrintFrom(cs, k) == PrintFrom(cs, 0)
    {
      var e := cs[k];
      i := i + 1;
      Appended(buffer, e, i < |cs|, PrintFrom(cs, k + 1));
      if e.stringKey && |e.value| != 0 {
        buffer := buffer + e.name + [EQUALS] + Encode(e.value);
        if i < |cs| {
          buffer := buffer + [SEMICOLON, SPACE];
        }
      }
      k := k + 1;
    }
  }

  // ---------------------------------------------------------------------------
  // Round trip.

  /** Names the parser can produce. */
  predicate GoodName(name: seq<byte>) {
    && 1 <= |name| <= 126 && name[0] !in [9, 10, 11, 12, 13, 32]
    && (forall i | 0 <= i < |name| :: name[i] != EQUALS && name[i] != SEMICOLON)
  }

  predicate Fits(e: Entry) {
    GoodName(e.name) && |Encode(e.value)| < 4096
  }

  /** The printed entries of an array, from `i` on, added to a jar. */
  function Merge(cs: seq<Entry>, i: nat, jar: Jar): Jar
    requires i <= |cs|
    decreases |cs| - i
  {
    if i == |cs| then jar
    else Merge(cs, i + 1, if Printed(cs[i]) then jar[cs[i].name := cs[i].value] else jar)
  }

  /** The same, but only up to the first entry whose value does not fit. */
  function MergeFitting(cs: seq<Entry>, i: nat, jar: Jar): Jar
    requires i <= |cs|
    decreases |cs| - i
  {
    if i == |cs| then jar
    else if !Printed(cs[i]) then MergeFitting(cs, i + 1, jar)
    else if |Encode(cs[i].value)| >= VALLEN then jar
    else MergeFitting(cs, i + 1, jar[cs[i].name := cs[i].value])
  }

  predicate GoodNames(cs: seq<Entry>) {
    forall i | 0 <= i < |cs| && Printed(cs[i]) :: GoodName(cs[i].name)
  }

  /** Keys of a PHP array are distinct. */
  predicate DistinctNames(cs: seq<Entry>) {
    forall i, j | 0 <= i < j < |cs| && cs[i].stringKey && cs[j].stringKey :: cs[i].name != cs[j].name
  }

  /** The text in front of an entry: nothing, or the blank after a separator. */
  predicate Lead(lead: seq<byte>) {
    lead == [] || lead == [SPACE]
  }

  /** A name, an equals sign and a value inside a text. */
  lemma PairShape(lead: seq<byte>, name: seq<byte>, value: seq<byte>, tail: seq<byte>)
    requires Lead(lead) && GoodName(name) && SEMICOLON !in value
    ensures var q := |lead|;
      var j := q + |name| + 1;
      var i := j + |value|;
      var at := lead + (name + [EQUALS] + value + tail);
      Valuing(at, 0, q, j, i) && at[i..] == tail && at[q..j - 1] == name && at[j..i] == value
  {
    var q := |lead|;
    var j := q + |name| + 1;
    var i := j + |value|;
    var at := lead + (name + [EQUALS] + value + tail);
    assert at == lead + name + [EQUALS] + value + tail;
    assert at[q..j - 1] == name && at[j - 1] == EQUALS;
    assert at[j..i] == value;
    assert forall n | q <= n < j - 1 :: at[n] == name[n - q];
    assert forall n | j <= n < i :: at[n] == value[n - j];
  }

  /** The shape of one printed entry inside the text. */
  lemma EntryShape(lead: seq<byte>, e: Entry, tail: seq<byte>)
    requires Lead(lead) && GoodName(e.name) && Printed(e)
    ensures var q := |lead|;
      var j := q + |e.name| + 1;
      var i := j + |Encode(e.value)|;
      var at := lead + (e.name + [EQUALS] + Encode(e.value) + tail);
      && Valuing(at, 0, q, j, i) && j < i && at[i..] == tail
      && at[q..j - 1] == e.name && at[j..i] == Encode(e.value)
      && Decode(Trim(at[j..i])) == e.value
  {
    hide Encode, Decode, Trim, Valuing, GoodName;
    EncodedPlain(e.value);
    TrimPlain(Encode(e.value));
    DecodeEncode(e.value);
    PairShape(lead, e.name, Encode(e.value), tail);
  }

  /** The text from one entry on. */
  lemma PrintStep(cs: seq<Entry>, k: nat)
    requires k < |cs|
    ensures var e := cs[k];
      var rest := PrintFrom(cs, k + 1);
      PrintFrom(cs, k) ==
        if !Printed(e) then rest
        else e.name + [EQUALS] + Encode(e.value) + if k + 1 < |cs| then [SEMICOLON, SPACE] + rest else []
  {
    hide Encode;
    if k + 1 == |cs| {
      assert PrintFrom(cs, k + 1) == [];
    }
  }

  lemma {:induction false} ReadPrinted(cs: seq<Entry>, k: nat, lead: seq<byte>, jar: Jar, key: seq<byte>)
    requires k <= |cs| && GoodNames(cs) && Lead(lead)
    ensures Read(lead + PrintFrom(cs, k), jar, key) == MergeFitting(cs, k, jar)
    decreases |cs| - k
  {
    hide Encode, Decode, Trim, Read, Naming, Valuing, GoodName, PrintFrom;
    if k == |cs| {
      BlankRest(lead, jar, key);
      assert lead + [] == lead && PrintFrom(cs, k) == [] by { NothingLeft(cs); }
    } else {
      var e := cs[k];
      PrintStep(cs, k);
      if !Printed(e) {
        ReadPrinted(cs, k + 1, lead, jar, key);
      } else if k + 1 < |cs| {
        ReadEntry(lead, e, PrintFrom(cs, k + 1), jar, key);
        if |Encode(e.value)| < VALLEN {
          ReadPrinted(cs, k + 1, [SPACE], jar[e.name := e.value], e.name);
        }
      } else {
        ReadLastEntry(lead, e, jar, key);
      }
    }
  }

  lemma NothingLeft(cs: seq<Entry>)
    ensures PrintFrom(cs, |cs|) == []
  {
  }

  lemma BlankRest(lead: seq<byte>, jar: Jar, key: seq<byte>)
    requires Lead(lead)
    ensures Read(lead, jar, key) == jar
  {
    LastName(lead, 0, |lead|, jar, key);
    hide Read;
    assert lead[0..] == lead;
  }

  lemma ReadEntry(lead: seq<byte>, e: Entry, rest: seq<byte>, jar: Jar, key: seq<byte>)
    requires Lead(lead) && GoodName(e.name) && Printed(e)
    ensures Read(lead + (e.name + [EQUALS] + Encode(e.value) + ([SEMICOLON, SPACE] + rest)), jar, key) ==
      if |Encode(e.value)| >= VALLEN then jar else Read([SPACE] + rest, jar[e.name := e.value], e.name)
  {
    hide Encode, Decode, Trim, Read, Valuing, Naming;
    var tail := [SEMICOLON, SPACE] + rest;
    var at := lead + (e.name + [EQUALS] + Encode(e.value) + tail);
    var q := |lead|;
    var j := q + |e.name| + 1;
    var i := j + |Encode(e.value)|;
    EntryShape(lead, e, tail);
    assert at[i] == tail[0];
    assert at[i + 1..] == at[i..][1..] == [SPACE] + rest;
    ValueStep(at, 0, q, j, i, jar, key);
    assert at[0..] == at;
  }

  lemma ReadLastEntry(lead: seq<byte>, e: Entry, jar: Jar, key: seq<byte>)
    requires Lead(lead) && GoodName(e.name) && Printed(e)
    ensures Read(lead + (e.name + [EQUALS] + Encode(e.value) + []), jar, key) ==
      if |Encode(e.value)| >= VALLEN then jar else jar[e.name := e.value]
  {
    hide Encode, Decode, Trim, Read, Valuing, Naming;
    var at := lead + (e.name + [EQUALS] + Encode(e.value) + []);
    var q := |lead|;
    var j := q + |e.name| + 1;
    EntryShape(lead, e, []);
    assert |at| == j + |Encode(e.value)|;
    LastValue(at, 0, q, j, jar, key);
    assert at[0..] == at && at[j..] == at[j..|at|];
  }

  // Which arrays come back.

  predicate GoodKeys(jar: Jar) {
    forall name | name in jar :: GoodName(name)
  }

  lemma {:induction false} StripWithin(s: seq<byte>)
    requires SEMICOLON !in s
    ensures SEMICOLON !in Strip(s)
  {
    if s != [] && IsSpace(s[0]) {
      StripWithin(s[1..]);
    }
  }

  /** What stands before the first equals sign of a segment is empty, too long, or a name. */
  lemma SegmentName(segment: seq<byte>)
    requires SEMICOLON !in segment
    ensures var t := Strip(segment);
      var k := IndexOf(t, EQUALS);
      k == 0 || k + 1 >= KEYLEN || GoodName(t[..k])
  {
    StripWithin(segment);
    hide IndexOf;
  }

  lemma {:induction false} ReadKeys(s: seq<byte>, jar: Jar, key: seq<byte>)
    requires GoodKeys(jar) && (key == [] || GoodName(key))
    ensures GoodKeys(Read(s, jar, key))
    decreases |s|
  {
    hide Strip, IndexOf, Decode, Trim, GoodName;
    var n := IndexOf(s, SEMICOLON);
    var segment := s[..n];
    SegmentName(segment);
    if n == |s| {
      assert segment == s;
    } else {
      var t := Strip(segment);
      var k := IndexOf(t, EQUALS);
      assert t[..k] == if k == |t| then t else t[..k];
      var p := Take(segment, jar);
      if p.Go? {
        assert p.key == t[..k];
        ReadKeys(s[n + 1..], p.jar, p.key);
      }
    }
  }

  lemma {:induction false} MergeHas(cs: seq<Entry>, i: nat, jar: Jar, name: seq<byte>)
    requires i <= |cs|
    ensures name in Merge(cs, i, jar) <==>
      name in jar || exists j :: i <= j < |cs| && Printed(cs[j]) && cs[j].name == name
    decreases |cs| - i
  {
    if i < |cs| {
      MergeHas(cs, i + 1, if Printed(cs[i]) then jar[cs[i].name := cs[i].value] else jar, name);
    }
  }

  /** When everything fits nothing is cut; otherwise the first misfit is missing. */
  lemma {:induction false} CutOrWhole(cs: seq<Entry>, i: nat, jar: Jar)
    requires i <= |cs| && DistinctNames(cs)
    requires forall j | i <= j < |cs| && Printed(cs[j]) :: cs[j].name !in jar
    ensures (MergeFitting(cs, i, jar) == Merge(cs, i, jar)) <==>
      forall j | i <= j < |cs| && Printed(cs[j]) :: |Encode(cs[j].value)| < VALLEN
    decreases |cs| - i
  {
    hide Encode;
    if i < |cs| {
      if !Printed(cs[i]) {
        CutOrWhole(cs, i + 1, jar);
      } else if |Encode(cs[i].value)| >= VALLEN {
        MergeHas(cs, i, jar, cs[i].name);
      } else {
        CutOrWhole(cs, i + 1, jar[cs[i].name := cs[i].value]);
      }
    }
  }

  /** Printing and then parsing gives back exactly the printed entries if and only if every
      one of them has a usable name and a value that fits.  Entries that are skipped, the last
      one included, make no difference. */
  lemma RoundTripExactly(cs: seq<Entry>)
    requires DistinctNames(cs)
    ensures Read(PrintFrom(cs, 0), map[], []) == Merge(cs, 0, map[]) <==>
      forall j | 0 <= j < |cs| && Printed(cs[j]) :: Fits(cs[j])
  {
    hide Read, Encode, Merge, MergeFitting, GoodName, PrintFrom;
    if GoodNames(cs) {
      ReadPrinted(cs, 0, [], map[], []);
      assert [] + PrintFrom(cs, 0) == PrintFrom(cs, 0);
      CutOrWhole(cs, 0, map[]);
    } else {
      var j :| 0 <= j < |cs| && Printed(cs[j]) && !GoodName(cs[j].name);
      ReadKeys(PrintFrom(cs, 0), map[], []);
      MergeHas(cs, 0, map[], cs[j].name);
    }
  }

  // ---------------------------------------------------------------------------
  // Inputs the client does not print.

  /** The last segment read like the others. */
  function TakeEqually(segment: seq<byte>, jar: Jar): Jar {
    match Take(segment, jar)
    case Stop => jar
    case Go(jar', _) => jar'
  }

  /** The last segment is read as if a semicolon followed, whatever came before it, exactly
      when it is blank, or has an equals sign and not an empty value under a usable name, or
      has none and is longer than any value. */
  lemma LastSegmentExactly(segment: seq<byte>)
    requires SEMICOLON !in segment
    ensures var t := Strip(segment);
      var k := IndexOf(t, EQUALS);
      (forall jar, key :: TakeLast(segment, jar, key) == TakeEqually(segment, jar)) <==>
      if k == |t| then t == [] || |t| >= VALLEN else k == 0 || k + 1 >= KEYLEN || k + 1 < |t|
  {
    hide Strip, IndexOf, Decode, Trim;
    var t := Strip(segment);
    var k := IndexOf(t, EQUALS);
    if k == |t| && t != [] && |t| < VALLEN {
      var other: seq<byte> := t + [SPACE];
      assert other in TakeLast(segment, map[], other);
      assert other !in TakeEqually(segment, map[]);
    } else if k < |t| && 0 < k && k + 1 < KEYLEN && k + 1 == |t| {
      assert TakeLast(segment, map[], []) == map[];
      assert t[..k] in TakeEqually(segment, map[]);
    }
  }

  /** In the header a=1;b the second name overwrites the value of the first. */
  lemma LastNameOverwrites()
    ensures Read([97, EQUALS, 49, SEMICOLON, 98], map[], []) == map[[97] := [98]]
  {
    var at := [97, EQUALS, 49, SEMICOLON, 98];
    assert at[0..] == at && at[0..1] == [97] && at[4..] == [98];
    ValueStep(at, 0, 0, 2, 3, map[], []);
    LastName(at, 4, 4, Put(map[], [97], Decode(Trim(at[2..3]))), [97]);
    TrimPlain([98]);
    assert Decode([98]) == [98];
  }

  lemma {:induction false} LeftTrimmed(v: seq<byte>, i: nat)
    ensures TrimRight(TrimLeft(v, i)) == Unquoted(v) <==>
      LeadingQuotes(v) == 0 || LeadingQuotes(v) == |v| || 2 * LeadingQuotes(v) + i <= |v| + 1
    decreases |v|
  {
    if v == [] {
    } else if v[0] != QUOTE {
    } else if i < |v| {
      LeftTrimmed(v[1..], i + 1);
    } else if LeadingQuotes(v) == |v| {
      AllQuotes(v);
    } else {
      UnquotedShorter(v);
    }
  }

  /** All outer quotes are removed exactly when there are no more in front than half the
      length, rounded up, or nothing but quotes. */
  lemma TrimExactly(v: seq<byte>)
    ensures Trim(v) == Unquoted(v) <==> LeadingQuotes(v) == |v| || 2 * LeadingQuotes(v) <= |v| + 1
  {
    LeftTrimmed(v, 0);
  }

  /** What stays of a value: the quotes in front go up to half the length, rounded up, and
      all of those behind go. */
  lemma TrimMeaning(v: seq<byte>)
    ensures var r := Trim(v);
      var a := Min(LeadingQuotes(v), (|v| + 1) / 2);
      && a + |r| <= |v| && r == v[a..a + |r|]
      && (forall k | 0 <= k < a || a + |r| <= k < |v| :: v[k] == 34)
      && (r != [] ==> r[|r| - 1] != 34)
  {
    hide TrimLeft, TrimRight, LeadingQuotes;
    var a := Min(LeadingQuotes(v), (|v| + 1) / 2);
    LeftMeaning(v, 0);
    RightMeaning(v[a..]);
    LeadingAre(v);
    InsideSuffix(v, a, Trim(v));
  }

  lemma InsideSuffix(v: seq<byte>, a: nat, r: seq<byte>)
    requires a <= |v| && r <= v[a..] && (forall k | |r| <= k < |v[a..]| :: v[a..][k] == 34)
    ensures a + |r| <= |v| && r == v[a..a + |r|] && (forall k | a + |r| <= k < |v| :: v[k] == 34)
  {
    forall k | a + |r| <= k < |v| ensures v[k] == 34 {
      assert v[k] == v[a..][k - a];
    }
  }

  lemma {:induction false} LeftMeaning(v: seq<byte>, i: nat)
    requires i <= |v|
    ensures var n := Min(LeadingQuotes(v), (|v| - i + 1) / 2);
      TrimLeft(v, i) == v[n..]
    decreases |v|
  {
    if i < |v| && v[0] == QUOTE {
      if i + 1 <= |v| - 1 {
        LeftMeaning(v[1..], i + 1);
      }
    }
  }

  lemma {:induction false} RightMeaning(v: seq<byte>)
    ensures var r := TrimRight(v);
      r <= v && (forall k | |r| <= k < |v| :: v[k] == 34) && (r != [] ==> r[|r| - 1] != 34)
    decreases |v|
  {
    if v != [] && v[|v| - 1] == QUOTE {
      RightMeaning(v[..|v| - 1]);
    }
  }

  lemma {:induction false} LeadingAre(v: seq<byte>)
    ensures var n := LeadingQuotes(v); (forall k | 0 <= k < n :: v[k] == 34) && (n < |v| ==> v[n] != 34)
  {
    if v != [] && v[0] == QUOTE {
      LeadingAre(v[1..]);
      assert forall k | 1 <= k < |v| :: v[k] == v[1..][k - 1];
    }
  }

  /** What stays when all outer quotes go. */
  lemma {:induction false} UnquotedMeaning(v: seq<byte>)
    ensures var r := Unquoted(v);
      var a := LeadingQuotes(v);
      && a + |r| <= |v| && r == v[a..a + |r|]
      && (forall k | 0 <= k < a || a + |r| <= k < |v| :: v[k] == 34)
      && (r != [] ==> r[0] != 34 && r[|r| - 1] != 34)
  {
    hide TrimRight;
    if v != [] && v[0] == QUOTE {
      UnquotedMeaning(v[1..]);
      assert forall k | 1 <= k < |v| :: v[k] == v[1..][k - 1];
    } else {
      RightMeaning(v);
    }
  }

  lemma {:induction false} AllQuotes(v: seq<byte>)
    requires LeadingQuotes(v) == |v|
    ensures TrimRight(v) == Unquoted(v) == []
    decreases |v|
  {
    if v != [] {
      AllQuotes(v[1..]);
      QuotesEverywhere(v);
      LeadingOfQuotes(v[..|v| - 1]);
      AllQuotes(v[..|v| - 1]);
    }
  }

  lemma {:induction false} QuotesEverywhere(v: seq<byte>)
    ensures LeadingQuotes(v) == |v| <==> forall i | 0 <= i < |v| :: v[i] == QUOTE
  {
    if v != [] {
      QuotesEverywhere(v[1..]);
      assert forall i | 1 <= i < |v| :: v[i] == v[1..][i - 1];
    }
  }

  lemma LeadingOfQuotes(v: seq<byte>)
    requires forall i | 0 <= i < |v| :: v[i] == QUOTE
    ensures LeadingQuotes(v) == |v|
  {
    QuotesEverywhere(v);
  }

  /** A quote left in front stays. */
  lemma UnquotedShorter(v: seq<byte>)
    requires v != [] && v[0] == QUOTE && LeadingQuotes(v) < |v|
    ensures TrimRight(v) != Unquoted(v)
  {
    QuotesEverywhere(v);
    UnquotedStart(v);
    RightKeepsStart(v);
  }

  lemma {:induction false} UnquotedStart(v: seq<byte>)
    requires LeadingQuotes(v) < |v|
    ensures Unquoted(v) != [] && Unquoted(v)[0] != QUOTE
    decreases |v|
  {
    if v[0] == QUOTE {
      UnquotedStart(v[1..]);
    } else {
      RightKeepsStart(v);
    }
  }

  lemma {:induction false} RightKeepsStart(v: seq<byte>)
    requires exists i :: 0 <= i < |v| && v[i] != QUOTE
    ensures TrimRight(v) != [] && TrimRight(v)[0] == v[0]
    decreases |v|
  {
    if v[|v| - 1] == QUOTE {
      var i :| 0 <= i < |v| && v[i] != QUOTE;
      assert v[..|v| - 1][i] != QUOTE;
      RightKeepsStart(v[..|v| - 1]);
    }
  }
}
