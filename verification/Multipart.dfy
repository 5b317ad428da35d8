/** The HTTP client's multipart/form-data request: a Content-Length computed in advance from
    the lengths of names and contents, and the body that is sent afterwards.  Bytes are
    characters; a file does not change between addFile and the request. */
module Multipart {
  import opened Basics
  import opened Search

  const BOUNDARY_SIZE := 38
  const HEADER_BUFFER := 2048
  const PLACEHOLDER := "%.*s"
  const NEWLINE := "\r\n"
  const DASHES := "--"

  const NAME_OPEN := "\r\nContent-Disposition: form-data; name=\""
  const FILENAME_OPEN := "\"; filename=\""
  const TYPE_OPEN := "\"\r\nContent-Type: "
  const RAW_CLOSE := "\"\r\n\r\n"
  const FILE_CLOSE := "\r\n\r\n"

  /** The format strings, with the sizes that the source subtracts for the placeholders. */
  const RAW_FORMAT := DASHES + PLACEHOLDER + NAME_OPEN + PLACEHOLDER + RAW_CLOSE
  const RAW_FORMAT_LEN := 8
  const FILE_FORMAT :=
    DASHES + PLACEHOLDER + NAME_OPEN + PLACEHOLDER + FILENAME_OPEN + PLACEHOLDER + TYPE_OPEN + PLACEHOLDER + FILE_CLOSE
  const FILE_FORMAT_LEN := 16

  const INT_LIMIT: nat := 0x8000_0000

  /** An entry of the body array; integer keys and null values are skipped. */
  datatype Field = Field(stringKey: bool, name: string, value: Option<string>)

  datatype Source = Memory(content: string) | Disk(file: string, offset: nat)

  datatype Upload = Upload(name: string, filename: string, mime: string, size: nat, source: Source)

  // ---------------------------------------------------------------------------
  // What is sent.

  /** A string argument is printed up to its first NUL. */
  function Printable(s: string): string {
    UpTo(s, '\0')
  }

  /** Printing into the header buffer cuts at its size. */
  function Cut(s: string): string {
    Truncated(s, HEADER_BUFFER)
  }

  function RawHeader(boundary: string, name: string): string {
    DASHES + boundary + NAME_OPEN + Printable(name) + RAW_CLOSE
  }

  function FileHeader(boundary: string, u: Upload): string {
    DASHES + boundary + NAME_OPEN + Printable(u.name) + FILENAME_OPEN + Printable(u.filename) +
    TYPE_OPEN + Printable(u.mime) + FILE_CLOSE
  }

  predicate Sent(f: Field) {
    f.stringKey && f.value.Some?
  }

  function FieldPart(boundary: string, f: Field): string {
    if Sent(f) then Cut(RawHeader(boundary, f.name)) + f.value.value + NEWLINE else ""
  }

  /** The size is the number of bytes there are: what addFile and addData guarantee. */
  predicate Valid(u: Upload) {
    match u.source
    case Memory(content) => u.size == |content|
    case Disk(file, offset) => 1 <= u.size && offset + u.size <= |file|
  }

  function Content(u: Upload): string
    requires Valid(u)
  {
    match u.source
    case Memory(content) => content
    case Disk(file, offset) => file[offset..offset + u.size]
  }

  predicate AllValid(us: seq<Upload>) {
    forall i | 0 <= i < |us| :: Valid(us[i])
  }

  function UploadPart(boundary: string, u: Upload): string
    requires Valid(u)
  {
    Cut(FileHeader(boundary, u)) + Content(u) + NEWLINE
  }

  function FieldParts(boundary: string, fs: seq<Field>): string {
    if fs == [] then "" else FieldPart(boundary, fs[0]) + FieldParts(boundary, fs[1..])
  }

  function UploadParts(boundary: string, us: seq<Upload>): string
    requires AllValid(us)
  {
    if us == [] then "" else UploadPart(boundary, us[0]) + UploadParts(boundary, us[1..])
  }

  function Body(boundary: string, fs: seq<Field>, us: seq<Upload>): string
    requires AllValid(us)
  {
    FieldParts(boundary, fs) + UploadParts(boundary, us) + DASHES + boundary + DASHES + NEWLINE
  }

  // ---------------------------------------------------------------------------
  // What is announced.

  function FieldLength(f: Field): nat {
    if Sent(f) then |RAW_FORMAT| - RAW_FORMAT_LEN + BOUNDARY_SIZE + |f.name| + |f.value.value| + 2 else 0
  }

  function UploadLength(u: Upload): nat {
    |FILE_FORMAT| - FILE_FORMAT_LEN + BOUNDARY_SIZE + |u.name| + |u.filename| + |u.mime| + u.size + 2
  }

  function FieldLengths(fs: seq<Field>): nat {
    if fs == [] then 0 else FieldLength(fs[0]) + FieldLengths(fs[1..])
  }

  function UploadLengths(us: seq<Upload>): nat {
    if us == [] then 0 else UploadLength(us[0]) + UploadLengths(us[1..])
  }

  function Computed(fs: seq<Field>, us: seq<Upload>): nat {
    FieldLengths(fs) + UploadLengths(us) + BOUNDARY_SIZE + 6
  }

  /** The length is printed as a 32-bit signed integer. */
  function AsInt(n: nat): (r: int)
    ensures -0x8000_0000 <= r < 0x8000_0000 && (n - r) % 0x1_0000_0000 == 0
  {
    var m := n % (2 * INT_LIMIT);
    if m < INT_LIMIT then m else m - 2 * INT_LIMIT
  }

  // ---------------------------------------------------------------------------
  // Comparison.

  /** The part header fits the buffer and nothing in it is cut at a NUL. */
  predicate FieldFits(f: Field) {
    Sent(f) ==>
      '\0' !in f.name && |RAW_FORMAT| - RAW_FORMAT_LEN + BOUNDARY_SIZE + |f.name| < HEADER_BUFFER
  }

  predicate UploadFits(u: Upload) {
    && '\0' !in u.name && '\0' !in u.filename && '\0' !in u.mime
    && |FILE_FORMAT| - FILE_FORMAT_LEN + BOUNDARY_SIZE + |u.name| + |u.filename| + |u.mime| < HEADER_BUFFER
  }

  lemma FieldExact(boundary: string, f: Field)
    requires |boundary| == BOUNDARY_SIZE
    ensures |FieldPart(boundary, f)| <= FieldLength(f)
    ensures |FieldPart(boundary, f)| == FieldLength(f) <==> FieldFits(f)
  {
    if Sent(f) {
      assert |RawHeader(boundary, f.name)| == |RAW_FORMAT| - RAW_FORMAT_LEN + |boundary| + |Printable(f.name)|;
    }
  }

  lemma UploadExact(boundary: string, u: Upload)
    requires |boundary| == BOUNDARY_SIZE && Valid(u)
    ensures |UploadPart(boundary, u)| <= UploadLength(u)
    ensures |UploadPart(boundary, u)| == UploadLength(u) <==> UploadFits(u)
  {
    assert |FileHeader(boundary, u)| ==
      |FILE_FORMAT| - FILE_FORMAT_LEN + |boundary| + |Printable(u.name)| + |Printable(u.filename)| + |Printable(u.mime)|;
  }

  predicate FieldsFit(fs: seq<Field>) {
    forall i | 0 <= i < |fs| :: FieldFits(fs[i])
  }

  predicate UploadsFit(us: seq<Upload>) {
    forall i | 0 <= i < |us| :: UploadFits(us[i])
  }

  lemma {:induction false} FieldsExact(boundary: string, fs: seq<Field>)
    requires |boundary| == BOUNDARY_SIZE
    ensures |FieldParts(boundary, fs)| <= FieldLengths(fs)
    ensures |FieldParts(boundary, fs)| == FieldLengths(fs) <==> FieldsFit(fs)
  {
    hide FieldPart, FieldLength, FieldFits;
    if fs != [] {
      FieldExact(boundary, fs[0]);
      FieldsExact(boundary, fs[1..]);
      assert FieldsFit(fs) <==> FieldFits(fs[0]) && FieldsFit(fs[1..]) by {
        assert forall i | 1 <= i < |fs| :: fs[i] == fs[1..][i - 1];
      }
    }
  }

  lemma {:induction false} UploadsExact(boundary: string, us: seq<Upload>)
    requires |boundary| == BOUNDARY_SIZE && AllValid(us)
    ensures |UploadParts(boundary, us)| <= UploadLengths(us)
    ensures |UploadParts(boundary, us)| == UploadLengths(us) <==> UploadsFit(us)
  {
    hide UploadPart, UploadLength, UploadFits, Valid;
    if us != [] {
      UploadExact(boundary, us[0]);
      UploadsExact(boundary, us[1..]);
      assert UploadsFit(us) <==> UploadFits(us[0]) && UploadsFit(us[1..]) by {
        assert forall i | 1 <= i < |us| :: us[i] == us[1..][i - 1];
      }
    }
  }

  /** The computed length is never less than the number of bytes sent, and equal exactly when
      every part header fits the header buffer and holds no NUL. */
  lemma LengthExactly(boundary: string, fs: seq<Field>, us: seq<Upload>)
    requires |boundary| == BOUNDARY_SIZE && AllValid(us)
    ensures |Body(boundary, fs, us)| <= Computed(fs, us)
    ensures |Body(boundary, fs, us)| == Computed(fs, us) <==> FieldsFit(fs) && UploadsFit(us)
  {
    hide FieldParts, UploadParts, FieldLengths, UploadLengths, FieldsFit, UploadsFit;
    FieldsExact(boundary, fs);
    UploadsExact(boundary, us);
    assert |Body(boundary, fs, us)| == |FieldParts(boundary, fs)| + |UploadParts(boundary, us)| + |boundary| + 6;
  }

  /** When the headers fit, the announced length is the number of bytes sent exactly as long
      as that is less than 2^31. */
  lemma AnnouncedExactly(boundary: string, fs: seq<Field>, us: seq<Upload>)
    requires |boundary| == BOUNDARY_SIZE && AllValid(us) && FieldsFit(fs) && UploadsFit(us)
    ensures AsInt(Computed(fs, us)) == |Body(boundary, fs, us)| <==> |Body(boundary, fs, us)| < INT_LIMIT
  {
    hide FieldsFit, UploadsFit, AllValid, Computed, Body;
    LengthExactly(boundary, fs, us);
  }

  // ---------------------------------------------------------------------------
  // Reading the body, as section 5.1 of RFC 2046 says.

  datatype Part = Part(header: string, content: string)

  function After(s: string, prefix: string): Option<string> {
    if |s| >= |prefix| && s[..|prefix|] == prefix then Some(s[|prefix|..]) else None
  }

  /** What stands before and after the first occurrence of a text. */
  function Around(s: string, text: string): Option<(string, string)> {
    var n := Find(s, text, 0);
    if n == -1 then None else Some((s[..n], s[n + |text|..]))
  }

  /** The parts that follow a delimiter: the closing one, or the header lines up to an empty
      line, and the content up to the next delimiter. */
  function ReadParts(s: string, boundary: string): Option<seq<Part>>
    decreases |s|
  {
    if s == "--\r\n" then Some([])
    else
      match After(s, "\r\n")
      case None => None
      case Some(t) =>
        match Around(t, "\r\n\r\n")
        case None => None
        case Some((header, u)) =>
          match Around(u, "\r\n--" + boundary)
          case None => None
          case Some((content, more)) =>
            match ReadParts(more, boundary)
            case None => None
            case Some(parts) => Some([Part(header, content)] + parts)
  }

  function ReadBody(s: string, boundary: string): Option<seq<Part>> {
    match After(s, "--" + boundary)
    case None => None
    case Some(t) => ReadParts(t, boundary)
  }

  function WrittenParts(parts: seq<Part>, boundary: string): string {
    if parts == [] then "--\r\n"
    else "\r\n" + (parts[0].header + "\r\n\r\n" +
                   (parts[0].content + ("\r\n--" + boundary) + WrittenParts(parts[1..], boundary)))
  }

  function Written(parts: seq<Part>, boundary: string): string {
    ("--" + boundary) + WrittenParts(parts, boundary)
  }

  /** The header has no empty line, and the content no delimiter. */
  predicate Readable(p: Part, boundary: string) {
    && Find(p.header + "\r\n\r\n", "\r\n\r\n", 0) == |p.header|
    && Find(p.content + ("\r\n--" + boundary), "\r\n--" + boundary, 0) == |p.content|
  }

  predicate AllReadable(parts: seq<Part>, boundary: string) {
    forall i | 0 <= i < |parts| :: Readable(parts[i], boundary)
  }

  lemma AfterOf(prefix: string, rest: string)
    ensures After(prefix + rest, prefix) == Some(rest)
  {
  }

  lemma AfterInverse(s: string, prefix: string)
    requires After(s, prefix).Some?
    ensures s == prefix + After(s, prefix).value
  {
  }

  lemma AroundOf(a: string, text: string, rest: string)
    requires Find(a + text, text, 0) == |a|
    ensures Around(a + text + rest, text) == Some((a, rest))
  {
    hide Find;
    var s := a + text + rest;
    assert s[..|a| + |text|] == a + text && s[..|a|] == a && s[|a| + |text|..] == rest;
    assert MatchAt(s, text, |a|) by { assert MatchAt(a + text, text, |a|); }
    FindInPrefix(s, text, |a| + |text|);
  }

  lemma JoinAt(s: string, n: nat, m: nat)
    requires n + m <= |s|
    ensures s == s[..n] + s[n..n + m] + s[n + m..] && s[..n + m] == s[..n] + s[n..n + m]
  {
  }

  lemma AroundInverse(s: string, text: string)
    requires Around(s, text).Some?
    ensures var (a, rest) := Around(s, text).value; s == a + text + rest && Find(a + text, text, 0) == |a|
  {
    hide Find;
    var n := Find(s, text, 0);
    assert MatchAt(s, text, n);
    JoinAt(s, n, |text|);
    FindInPrefix(s, text, n + |text|);
  }

  lemma NotClosing(rest: string)
    ensures "\r\n" + rest != "--\r\n"
  {
    assert ("\r\n" + rest)[0] == '\r' && "--\r\n"[0] == '-';
  }

  lemma {:induction false} ReadWritten(parts: seq<Part>, boundary: string)
    requires AllReadable(parts, boundary)
    ensures ReadParts(WrittenParts(parts, boundary), boundary) == Some(parts)
  {
    hide Find, After, Around;
    if parts != [] {
      var p := parts[0];
      assert Readable(p, boundary);
      var more := WrittenParts(parts[1..], boundary);
      var u := p.content + ("\r\n--" + boundary) + more;
      var t := p.header + "\r\n\r\n" + u;
      ReadWritten(parts[1..], boundary);
      NotClosing(t);
      AfterOf("\r\n", t);
      AroundOf(p.header, "\r\n\r\n", u);
      AroundOf(p.content, "\r\n--" + boundary, more);
      assert [p] + parts[1..] == parts;
    }
  }

  /** What is read tells what was written. */
  lemma {:induction false} ReadInverse(s: string, boundary: string)
    requires ReadParts(s, boundary).Some?
    ensures var parts := ReadParts(s, boundary).value;
      s == WrittenParts(parts, boundary) && AllReadable(parts, boundary)
    decreases |s|
  {
    hide Find, After, Around;
    if s != "--\r\n" {
      var t := After(s, "\r\n").value;
      AfterInverse(s, "\r\n");
      var (header, u) := Around(t, "\r\n\r\n").value;
      AroundInverse(t, "\r\n\r\n");
      var (content, more) := Around(u, "\r\n--" + boundary).value;
      AroundInverse(u, "\r\n--" + boundary);
      assert |more| < |s|;
      ReadInverse(more, boundary);
      var rest := ReadParts(more, boundary).value;
      var parts := [Part(header, content)] + rest;
      assert ReadParts(s, boundary) == Some(parts);
      assert parts[0] == Part(header, content) && parts[1..] == rest;
      assert Readable(parts[0], boundary);
    }
  }

  // What should be read.

  function MeantField(f: Field): Part
    requires f.value.Some?
  {
    Part("Content-Disposition: form-data; name=\"" + f.name + "\"", f.value.value)
  }

  function MeantUpload(u: Upload): Part
    requires Valid(u)
  {
    Part("Content-Disposition: form-data; name=\"" + u.name + "\"; filename=\"" + u.filename + "\"\r\nContent-Type: " + u.mime,
         match u.source
         case Memory(content) => content
         case Disk(file, offset) => seq(u.size, i requires 0 <= i < u.size => file[offset + i]))
  }

  function MeantFields(fs: seq<Field>): seq<Part> {
    if fs == [] then []
    else if fs[0].stringKey && fs[0].value.Some? then [MeantField(fs[0])] + MeantFields(fs[1..])
    else MeantFields(fs[1..])
  }

  function MeantUploads(us: seq<Upload>): seq<Part>
    requires AllValid(us)
  {
    if us == [] then [] else [MeantUpload(us[0])] + MeantUploads(us[1..])
  }

  /** A part as the client writes it: delimiter first. */
  function PartText(p: Part, boundary: string): string {
    "--" + boundary + "\r\n" + p.header + "\r\n\r\n" + p.content + "\r\n"
  }

  function PartTexts(parts: seq<Part>, boundary: string): string {
    if parts == [] then "" else PartText(parts[0], boundary) + PartTexts(parts[1..], boundary)
  }

  lemma Regroup(a: string, b: string, h: string, e: string, c: string, n: string, d: string, rest: string)
    ensures (a + b + n + h + e + c + n) + (d + rest) == (a + b) + (n + (h + e + (c + (n + d) + rest)))
  {
  }

  /** Delimiters in front of the parts, or between them: the same text. */
  lemma {:induction false} SameText(parts: seq<Part>, boundary: string)
    ensures PartTexts(parts, boundary) + ("--" + boundary + "--\r\n") == Written(parts, boundary)
  {
    if parts == [] {
      assert PartTexts(parts, boundary) == "";
    } else {
      SameText(parts[1..], boundary);
      var p := parts[0];
      var rest := WrittenParts(parts[1..], boundary);
      assert "\r\n" + ("--" + boundary) == "\r\n--" + boundary;
      Regroup("--", boundary, p.header, "\r\n\r\n", p.content, "\r\n", "--" + boundary, rest);
      assert PartTexts(parts, boundary) + ("--" + boundary + "--\r\n") ==
        PartText(p, boundary) + (PartTexts(parts[1..], boundary) + ("--" + boundary + "--\r\n"));
    }
  }

  lemma Literals()
    ensures DASHES == "--" && NEWLINE == "\r\n" && FILE_CLOSE == "\r\n\r\n"
    ensures NAME_OPEN == "\r\n" + "Content-Disposition: form-data; name=\""
    ensures RAW_CLOSE == "\"" + "\r\n\r\n"
    ensures FILENAME_OPEN == "\"; filename=\"" && TYPE_OPEN == "\"\r\nContent-Type: "
  {
  }

  lemma RegroupField(d: string, b: string, n: string, o: string, name: string, q: string, e: string)
    ensures d + b + (n + o) + name + (q + e) == d + b + n + (o + name + q) + e
  {
  }

  lemma FieldAsMeant(boundary: string, f: Field)
    requires |boundary| == BOUNDARY_SIZE && Sent(f)
    ensures |PartText(MeantField(f), boundary)| == FieldLength(f)
    ensures FieldFits(f) ==> FieldPart(boundary, f) == PartText(MeantField(f), boundary)
  {
    Literals();
    RegroupField("--", boundary, "\r\n", "Content-Disposition: form-data; name=\"", f.name, "\"", "\r\n\r\n");
    if FieldFits(f) {
      assert Printable(f.name) == f.name;
      assert |RawHeader(boundary, f.name)| < HEADER_BUFFER;
      assert Cut(RawHeader(boundary, f.name)) == RawHeader(boundary, f.name);
    }
  }

  lemma RegroupFile(d: string, b: string, n: string, o: string, name: string, f: string, file: string, t: string, mime: string, e: string)
    ensures d + b + (n + o) + name + f + file + t + mime + e == d + b + n + (o + name + f + file + t + mime) + e
  {
  }

  lemma Kept(s: string)
    ensures '\0' !in s ==> Printable(s) == s
    ensures |s| < HEADER_BUFFER ==> Cut(s) == s
  {
    assert '\0' !in s ==> |UpTo(s, '\0')| == |s|;
  }

  lemma HeaderAsMeant(boundary: string, u: Upload)
    requires |boundary| == BOUNDARY_SIZE && Valid(u)
    ensures |"--" + boundary + "\r\n" + MeantUpload(u).header + "\r\n\r\n"| + u.size + 2 == UploadLength(u)
    ensures UploadFits(u) ==>
      Cut(FileHeader(boundary, u)) == "--" + boundary + "\r\n" + MeantUpload(u).header + "\r\n\r\n"
  {
    hide Printable, Cut;
    Literals();
    RegroupFile("--", boundary, "\r\n", "Content-Disposition: form-data; name=\"", u.name, "\"; filename=\"", u.filename,
                "\"\r\nContent-Type: ", u.mime, "\r\n\r\n");
    if UploadFits(u) {
      Kept(u.name);
      Kept(u.filename);
      Kept(u.mime);
      Kept(FileHeader(boundary, u));
    }
  }

  lemma UploadAsMeant(boundary: string, u: Upload)
    requires |boundary| == BOUNDARY_SIZE && Valid(u)
    ensures |PartText(MeantUpload(u), boundary)| == UploadLength(u)
    ensures UploadFits(u) ==> UploadPart(boundary, u) == PartText(MeantUpload(u), boundary)
  {
    HeaderAsMeant(boundary, u);
    hide FileHeader, Cut, UploadFits, UploadLength;
    assert Content(u) == MeantUpload(u).content;
  }

  lemma {:induction false} TextsJoin(a: seq<Part>, b: seq<Part>, boundary: string)
    ensures PartTexts(a + b, boundary) == PartTexts(a, boundary) + PartTexts(b, boundary)
  {
    hide PartText;
    if a == [] {
      assert a + b == b;
    } else {
      assert (a + b)[0] == a[0] && (a + b)[1..] == a[1..] + b;
      TextsJoin(a[1..], b, boundary);
    }
  }

  lemma {:induction false} FieldsAsMeant(boundary: string, fs: seq<Field>)
    requires |boundary| == BOUNDARY_SIZE
    ensures |PartTexts(MeantFields(fs), boundary)| == FieldLengths(fs)
    ensures FieldsFit(fs) ==> FieldParts(boundary, fs) == PartTexts(MeantFields(fs), boundary)
  {
    hide FieldPart, FieldLength, FieldFits, PartText, MeantField;
    if fs != [] {
      FieldsAsMeant(boundary, fs[1..]);
      assert FieldsFit(fs) ==> FieldFits(fs[0]) && FieldsFit(fs[1..]);
      if Sent(fs[0]) {
        FieldAsMeant(boundary, fs[0]);
        assert MeantFields(fs)[1..] == MeantFields(fs[1..]);
      } else {
        FieldLengthIs(fs[0]);
        FieldPartIs(boundary, fs[0]);
      }
    }
  }

  lemma {:induction false} UploadsAsMeant(boundary: string, us: seq<Upload>)
    requires |boundary| == BOUNDARY_SIZE && AllValid(us)
    ensures |PartTexts(MeantUploads(us), boundary)| == UploadLengths(us)
    ensures UploadsFit(us) ==> UploadParts(boundary, us) == PartTexts(MeantUploads(us), boundary)
  {
    hide UploadPart, UploadLength, UploadFits, PartText, MeantUpload, Valid;
    if us != [] {
      UploadsAsMeant(boundary, us[1..]);
      assert UploadsFit(us) ==> UploadFits(us[0]) && UploadsFit(us[1..]);
      UploadAsMeant(boundary, us[0]);
      assert MeantUploads(us)[1..] == MeantUploads(us[1..]);
    }
  }

  /** A reader of the body finds exactly the fields and files that were given, in order, with
      their names, types and contents, if and only if every part header fits the buffer without
      a NUL, has no empty line in it, and no content holds the delimiter. */
  lemma BodyReadsBackExactly(boundary: string, fs: seq<Field>, us: seq<Upload>)
    requires |boundary| == BOUNDARY_SIZE && AllValid(us)
    ensures var meant := MeantFields(fs) + MeantUploads(us);
      ReadBody(Body(boundary, fs, us), boundary) == Some(meant) <==>
        FieldsFit(fs) && UploadsFit(us) && AllReadable(meant, boundary)
  {
    hide FieldParts, UploadParts, FieldLengths, UploadLengths, FieldsFit, UploadsFit, AllValid;
    hide MeantFields, MeantUploads, ReadParts, AllReadable, PartTexts, WrittenParts, After;
    var meant := MeantFields(fs) + MeantUploads(us);
    var body := Body(boundary, fs, us);
    FieldsAsMeant(boundary, fs);
    UploadsAsMeant(boundary, us);
    LengthExactly(boundary, fs, us);
    TextsJoin(MeantFields(fs), MeantUploads(us), boundary);
    SameText(meant, boundary);
    assert |Written(meant, boundary)| == Computed(fs, us);
    if FieldsFit(fs) && UploadsFit(us) {
      ClosedBody(boundary, fs, us);
      assert body == Written(meant, boundary);
      AfterOf("--" + boundary, WrittenParts(meant, boundary));
      if AllReadable(meant, boundary) {
        ReadWritten(meant, boundary);
      }
    }
    if ReadBody(body, boundary) == Some(meant) {
      AfterInverse(body, "--" + boundary);
      ReadInverse(After(body, "--" + boundary).value, boundary);
    }
  }

  lemma ClosedBody(boundary: string, fs: seq<Field>, us: seq<Upload>)
    requires AllValid(us)
    ensures Body(boundary, fs, us) == (FieldParts(boundary, fs) + UploadParts(boundary, us)) + ("--" + boundary + "--\r\n")
  {
    hide FieldParts, UploadParts, AllValid;
    Literals();
    assert "--" + boundary + "--" + "\r\n" == "--" + boundary + "--\r\n";
  }

  // ---------------------------------------------------------------------------
  // The client object.

  /** What follows the last slash. */
  function Base(path: string): string {
    if '/' !in path then path else if '/' in path[1..] then Base(path[1..]) else path[1..]
  }

  lemma {:induction false} BaseMeaning(path: string)
    ensures var r := Base(path);
      && '/' !in r && |r| <= |path| && r == path[|path| - |r|..]
      && (r != path ==> |r| < |path| && path[|path| - |r| - 1] == '/')
  {
    if '/' in path {
      assert path == [path[0]] + path[1..];
      if '/' in path[1..] {
        BaseMeaning(path[1..]);
      }
    }
  }

  class Client {
    const boundary: string
    var uploads: seq<Upload>
    var wire: string

    constructor (boundary: string)
      ensures this.boundary == boundary && uploads == [] && wire == ""
    {
      this.boundary, uploads, wire := boundary, [], "";
    }

    /** A file that is missing or empty, or a range outside of it, is refused.  A missing
        length means the rest of the file. */
    method AddFile(path: string, name: string, mime: string, filename: string, offset: int, length: int,
                   file: Option<string>, guessed: string) returns (ok: bool)
      requires AllValid(uploads)
      modifies this`uploads
      ensures AllValid(uploads)
      ensures ok <==>
        (file.Some? && |file.value| > 0 && offset < |file.value| &&
         length <= |file.value| - (if offset < 0 then 0 else offset))
      ensures !ok ==> uploads == old(uploads)
      ensures ok ==>
        var from := if offset < 0 then 0 else offset;
        var size := if length <= 0 then |file.value| - from else length;
        uploads == old(uploads) + [Upload(
          name, if filename == "" then Base(path) else filename, if mime == "" then guessed else mime,
          size, Disk(file.value, from))]
    {
      var from, size := offset, length;
      if from < 0 {
        from := 0;
      }
      if size < 0 {
        size := 0;
      }
      if file.None? || |file.value| == 0 || |file.value| <= from || size > |file.value| - from {
        return false;
      }
      if size == 0 {
        size := |file.value| - from;
      }
      var kind := if mime == "" then guessed else mime;
      var shown := if filename == "" then Base(path) else filename;
      uploads := uploads + [Upload(name, shown, kind, size, Disk(file.value, from))];
      return true;
    }

    method AddData(data: string, name: string, mime: string, filename: string)
      requires AllValid(uploads)
      modifies this`uploads
      ensures AllValid(uploads)
      ensures uploads == old(uploads) + [Upload(
        name, if filename == "" then name else filename, if mime == "" then "application/octet-stream" else mime,
        |data|, Memory(data))]
    {
      var kind := if mime == "" then "application/octet-stream" else mime;
      var shown := if filename == "" then name else filename;
      uploads := uploads + [Upload(name, shown, kind, |data|, Memory(data))];
    }

    /** The two loops that compute the length. */
    method ContentLength(fs: seq<Field>) returns (n: nat)
      ensures n == Computed(fs, uploads)
    {
      hide FieldLength, UploadLength;
      n := 0;
      var i := 0;
      while i < |fs|
        invariant 0 <= i <= |fs|
        invariant n + FieldLengths(fs[i..]) == FieldLengths(fs)
      {
        assert fs[i..][1..] == fs[i + 1..];
        var f := fs[i];
        FieldLengthIs(f);
        if f.stringKey && f.value.Some? {
          n := n + (|RAW_FORMAT| - RAW_FORMAT_LEN) + BOUNDARY_SIZE + |f.name| + |f.value.value| + 2;
        }
        i := i + 1;
      }
      ghost var m := n;
      i := 0;
      while i < |uploads|
        invariant 0 <= i <= |uploads|
        invariant n + UploadLengths(uploads[i..]) == m + UploadLengths(uploads)
      {
        assert uploads[i..][1..] == uploads[i + 1..];
        var u := uploads[i];
        UploadLengthIs(u);
        n := n + (|FILE_FORMAT| - FILE_FORMAT_LEN) + BOUNDARY_SIZE + |u.name| + |u.filename| + |u.mime| + u.size + 2;
        i := i + 1;
      }
      n := n + BOUNDARY_SIZE + 6;
    }

    /** The multipart branch of send: the announced length, then the loops over the fields and
        the uploads, and the closing boundary. */
    method Send(fs: seq<Field>) returns (announced: int)
      requires uploads != [] && AllValid(uploads)
      modifies this`wire
      ensures announced == AsInt(Computed(fs, uploads))
      ensures wire == old(wire) + Body(boundary, fs, uploads)
    {
      hide Computed, FieldParts, UploadParts;
      var n := ContentLength(fs);
      announced := AsInt(n);
      var fields := FieldBytes(fs);
      var files := UploadsBytes();
      wire := wire + (fields + files + DASHES + boundary + DASHES + NEWLINE);
    }

    method FieldBytes(fs: seq<Field>) returns (out: string)
      ensures out == FieldParts(boundary, fs)
    {
      hide FieldPart;
      out := "";
      var i := 0;
      while i < |fs|
        invariant 0 <= i <= |fs|
        invariant out + FieldParts(boundary, fs[i..]) == FieldParts(boundary, fs)
      {
        assert fs[i..][1..] == fs[i + 1..];
        FieldPartIs(boundary, fs[i]);
        ghost var rest := FieldParts(boundary, fs[i + 1..]);
        ghost var was := out;
        var f := fs[i];
        if f.stringKey && f.value.Some? {
          out := out + (Cut(RawHeader(boundary, f.name)) + f.value.value + NEWLINE);
        }
        assert was + (FieldPart(boundary, fs[i]) + rest) == out + rest;
        i := i + 1;
      }
    }

    method UploadsBytes() returns (out: string)
      requires AllValid(uploads)
      ensures out == UploadParts(boundary, uploads)
    {
      hide UploadPart, Valid;
      out := "";
      var i := 0;
      while i < |uploads|
        invariant 0 <= i <= |uploads|
        invariant out + UploadParts(boundary, uploads[i..]) == UploadParts(boundary, uploads)
      {
        assert uploads[i..][1..] == uploads[i + 1..];
        ghost var rest := UploadParts(boundary, uploads[i + 1..]);
        ghost var was := out;
        var part := UploadBytes(uploads[i]);
        out := out + part;
        assert was + (UploadPart(boundary, uploads[i]) + rest) == out + rest;
        i := i + 1;
      }
    }

    /** One upload, from memory or from a file. */
    method UploadBytes(u: Upload) returns (part: string)
      requires Valid(u)
      ensures part == UploadPart(boundary, u)
    {
      var header := Cut(FileHeader(boundary, u));
      if u.source.Memory? {
        part := header + u.source.content + NEWLINE;
      } else {
        part := header;
        part := part + u.source.file[u.source.offset..u.source.offset + u.size];
        part := part + NEWLINE;
      }
    }
  }

  lemma FieldLengthIs(f: Field)
    ensures FieldLength(f) == if f.stringKey && f.value.Some?
      then |RAW_FORMAT| - RAW_FORMAT_LEN + BOUNDARY_SIZE + |f.name| + |f.value.value| + 2 else 0
  {
  }

  lemma UploadLengthIs(u: Upload)
    ensures UploadLength(u) ==
      |FILE_FORMAT| - FILE_FORMAT_LEN + BOUNDARY_SIZE + |u.name| + |u.filename| + |u.mime| + u.size + 2
  {
  }

  lemma FieldPartIs(boundary: string, f: Field)
    ensures FieldPart(boundary, f) == if f.stringKey && f.value.Some?
      then Cut(RawHeader(boundary, f.name)) + f.value.value + NEWLINE else ""
  {
  }
}
