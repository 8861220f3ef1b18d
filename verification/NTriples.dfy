/** The in-crate RDF model and its N-Triples printer and parser. */
module NTriples {
  import opened Text

  datatype Term =
    | Iri(iri: string)
    | BlankNode(id: string)
    | Literal(value: string, datatyp: Option<string>, language: Option<string>)

  datatype Triple = Triple(subject: Term, predicate_: Term, object_: Term)

  // ---------------------------------------------------------------- printer

  function EscapeChar(c: char): string {
    match c
    case '\\' => "\\\\"
    case '"' => "\\\""
    case '\n' => "\\n"
    case '\r' => "\\r"
    case '\t' => "\\t"
    case _ => [c]
  }

  function Escape(s: string): string {
    if s == "" then "" else EscapeChar(s[0]) + Escape(s[1..])
  }

  function Suffix(datatyp: Option<string>, language: Option<string>): string {
    if language.Some? then "@" + language.value
    else if datatyp.Some? then "^^<" + datatyp.value + ">"
    else ""
  }

  function WriteTerm(t: Term): string {
    match t
    case Iri(i) => "<" + i + ">"
    case BlankNode(b) => "_:" + b
    case Literal(v, dt, lang) => "\"" + Escape(v) + "\"" + Suffix(dt, lang)
  }

  function WriteLine(t: Triple): string {
    WriteTerm(t.subject) + " " + WriteTerm(t.predicate_) + " " + WriteTerm(t.object_) + " ."
  }

  function Unlines(lines: seq<string>): string {
    if lines == [] then "" else lines[0] + "\n" + Unlines(lines[1..])
  }

  function Lines(ts: seq<Triple>): (r: seq<string>)
    ensures |r| == |ts| && forall i | 0 <= i < |ts| :: r[i] == WriteLine(ts[i])
  {
    seq(|ts|, i requires 0 <= i < |ts| => WriteLine(ts[i]))
  }

  /** A graph is a set of triples kept in sorted order; `ts` is any listing of
      it, so everything proved here holds for the sorted one. */
  function Print(ts: seq<Triple>): string {
    Unlines(Lines(ts))
  }

  function GraphOf(ts: seq<Triple>): set<Triple> {
    set t | t in ts
  }

  lemma EscapeAppend(s: string, c: char)
    ensures Escape(s + [c]) == Escape(s) + EscapeChar(c)
  {
    if s == "" {
      assert s + [c] == [c];
      assert Escape([c]) == EscapeChar(c) + Escape([c][1..]);
    } else {
      assert (s + [c])[1..] == s[1..] + [c];
      EscapeAppend(s[1..], c);
    }
  }

  lemma UnlinesAppend(lines: seq<string>, line: string)
    ensures Unlines(lines + [line]) == Unlines(lines) + line + "\n"
  {
    if lines == [] {
      assert lines + [line] == [line];
      assert Unlines([line]) == line + "\n" + Unlines([line][1..]);
    } else {
      assert (lines + [line])[1..] == lines[1..] + [line];
      UnlinesAppend(lines[1..], line);
    }
  }

  lemma LineAssoc(buffer: string, s: string, p: string, o: string)
    ensures buffer + s + " " + p + " " + o + " .\n" == buffer + (s + " " + p + " " + o + " .") + "\n"
  {
    assert " .\n" == " ." + "\n";
  }

  /** `Term::write_ntriples`: appends to a buffer, one character at a time. */
  method WriteNTriples(t: Term, buffer: string) returns (out: string)
    ensures out == buffer + WriteTerm(t)
  {
    out := buffer;
    match t
    case Iri(i) => out := out + "<" + i + ">";
    case BlankNode(b) => out := out + "_:" + b;
    case Literal(v, dt, lang) =>
      out := out + "\"";
      for k := 0 to |v|
        invariant out == buffer + "\"" + Escape(v[..k])
      {
        assert v[..k + 1] == v[..k] + [v[k]];
        EscapeAppend(v[..k], v[k]);
        out := out + EscapeChar(v[k]);
      }
      assert v[..|v|] == v;
      out := out + "\"" + Suffix(dt, lang);
      assert out == buffer + ("\"" + Escape(v) + "\"" + Suffix(dt, lang));
  }

  lemma PrintAppend(ts: seq<Triple>, k: nat)
    requires k < |ts|
    ensures Print(ts[..k + 1]) == Print(ts[..k]) + WriteLine(ts[k]) + "\n"
  {
    hide WriteLine, Unlines;
    assert Lines(ts[..k + 1]) == Lines(ts[..k]) + [WriteLine(ts[k])];
    UnlinesAppend(Lines(ts[..k]), WriteLine(ts[k]));
  }

  /** `Graph::to_ntriples` over the listing the graph iterates in. */
  method ToNTriples(ts: seq<Triple>) returns (out: string)
    ensures out == Print(ts)
  {
    out := "";
    assert Lines(ts[..0]) == [] && Print(ts[..0]) == "";
    hide WriteTerm, Print;
    for k := 0 to |ts|
      invariant out == Print(ts[..k])
    {
      ghost var before := out;
      out := WriteNTriples(ts[k].subject, out);
      out := WriteNTriples(ts[k].predicate_, out + " ");
      out := WriteNTriples(ts[k].object_, out + " ");
      out := out + " .\n";
      LineAssoc(before, WriteTerm(ts[k].subject), WriteTerm(ts[k].predicate_), WriteTerm(ts[k].object_));
      PrintAppend(ts, k);
    }
    assert ts[..|ts|] == ts;
  }

  // ------------------------------------------------------------- byte scan

  predicate High(bs: seq<Byte>) {
    forall i | 0 <= i < |bs| :: bs[i] >= 0x80
  }

  /** UTF-8, section 3 of RFC 3629. */
  function Utf8(c: char): (r: seq<Byte>)
    ensures IsAscii(c) ==> r == [c as int]
    ensures !IsAscii(c) ==> |r| >= 2 && High(r)
  {
    var n := c as int;
    if n < 0x80 then [n]
    else if n < 0x800 then [0xC0 + n / 64, 0x80 + n % 64]
    else if n < 0x10000 then [0xE0 + n / 4096, 0x80 + n / 64 % 64, 0x80 + n % 64]
    else [0xF0 + n / 262144, 0x80 + n / 4096 % 64, 0x80 + n / 64 % 64, 0x80 + n % 64]
  }

  function Utf8All(s: string): seq<Byte> {
    if s == "" then [] else Utf8(s[0]) + Utf8All(s[1..])
  }

  /** Each byte read back as a character of its own, which is what
      `value.push(byte as char)` does. */
  function AsChars(bs: seq<Byte>): (r: string)
    ensures |r| == |bs|
  {
    if bs == [] then "" else [bs[0] as char] + AsChars(bs[1..])
  }

  function Unescape(b: Byte): char {
    if b == 'n' as int then '\n'
    else if b == 't' as int then '\t'
    else if b == 'r' as int then '\r'
    else b as char
  }

  /** What the scanning loop of `read_literal` collects from the bytes after
      the opening quote, and the bytes it leaves. */
  function ScanBytes(bs: seq<Byte>): (string, seq<Byte>) {
    if bs == [] then ("", [])
    else if bs[0] == '\\' as int && |bs| > 1 then
      var (v, rest) := ScanBytes(bs[2..]);
      ([Unescape(bs[1])] + v, rest)
    else if bs[0] == '"' as int then ("", bs[1..])
    else
      var (v, rest) := ScanBytes(bs[1..]);
      ([bs[0] as char] + v, rest)
  }

  lemma AppendScan(value: string, b: char, v: string)
    ensures value + ([b] + v) == value + [b] + v
  {
  }

  /** The loop of `read_literal`: from index 1, byte by byte, to just past the
      closing quote or to the end. */
  method ScanLiteral(bytes: seq<Byte>) returns (value: string, i: nat)
    requires bytes != [] && bytes[0] == '"' as int
    ensures 1 <= i <= |bytes|
    ensures (value, bytes[i..]) == ScanBytes(bytes[1..])
  {
    value, i := "", 1;
    assert value + ScanBytes(bytes[1..]).0 == ScanBytes(bytes[1..]).0;
    while i < |bytes|
      invariant 1 <= i <= |bytes|
      invariant ScanBytes(bytes[1..]) == (value + ScanBytes(bytes[i..]).0, ScanBytes(bytes[i..]).1)
    {
      var tail := bytes[i..];
      if bytes[i] == '\\' as int && i + 1 < |bytes| {
        assert tail[2..] == bytes[i + 2..];
        AppendScan(value, Unescape(bytes[i + 1]), ScanBytes(tail[2..]).0);
        value := value + [Unescape(bytes[i + 1])];
        i := i + 2;
      } else if bytes[i] == '"' as int {
        assert tail[1..] == bytes[i + 1..];
        assert value + "" == value;
        i := i + 1;
        return;
      } else {
        assert tail[1..] == bytes[i + 1..];
        AppendScan(value, bytes[i] as char, ScanBytes(tail[1..]).0);
        value := value + [bytes[i] as char];
        i := i + 1;
      }
    }
    assert bytes[i..] == [] && value + "" == value;
  }

  /** One character as the byte-wise reader returns it. */
  function RawChar(c: char): (r: string)
    ensures IsAscii(c) ==> r == [c]
    ensures !IsAscii(c) ==> |r| >= 2
  {
    if IsAscii(c) then [c] else AsChars(Utf8(c))
  }

  function UnescapeChar(c: char): string {
    if IsAscii(c) then [Unescape(c as int)] else RawChar(c)
  }

  /** The same scan on characters: a character above U+007F comes back as one
      character per UTF-8 byte. */
  function ScanChars(s: string): (string, string) {
    if s == "" then ("", "")
    else if s[0] == '\\' && |s| > 1 then
      (UnescapeChar(s[1]) + ScanChars(s[2..]).0, ScanChars(s[2..]).1)
    else if s[0] == '"' then ("", s[1..])
    else (RawChar(s[0]) + ScanChars(s[1..]).0, ScanChars(s[1..]).1)
  }

  lemma ScanHighBytes(hi: seq<Byte>, bs: seq<Byte>)
    requires High(hi)
    ensures ScanBytes(hi + bs) == (AsChars(hi) + ScanBytes(bs).0, ScanBytes(bs).1)
  {
    if hi == [] {
      assert hi + bs == bs;
      assert "" + ScanBytes(bs).0 == ScanBytes(bs).0;
    } else {
      assert (hi + bs)[1..] == hi[1..] + bs;
      ScanHighBytes(hi[1..], bs);
      assert [hi[0] as char] + (AsChars(hi[1..]) + ScanBytes(bs).0) == AsChars(hi) + ScanBytes(bs).0;
    }
  }

  /** Bytes and characters agree on the rest of the input after a prefix. */
  ghost predicate Agrees(s: string) {
    ScanBytes(Utf8All(s)) == (ScanChars(s).0, Utf8All(ScanChars(s).1))
  }

  lemma ScanEscapedBytes(hi: seq<Byte>, tail: seq<Byte>)
    requires hi != [] && (|hi| == 1 || High(hi))
    ensures ScanBytes(['\\' as int] + (hi + tail))
         == ([Unescape(hi[0])] + (AsChars(hi[1..]) + ScanBytes(tail).0), ScanBytes(tail).1)
  {
    var bs := ['\\' as int] + (hi + tail);
    assert bs[2..] == hi[1..] + tail;
    ScanHighBytes(hi[1..], tail);
  }

  lemma AgreesEscaped(s: string)
    requires |s| > 1 && s[0] == '\\' && Agrees(s[2..])
    ensures Agrees(s)
  {
    hide Utf8, ScanBytes, AsChars, Unescape;
    var tail, hi := Utf8All(s[2..]), Utf8(s[1]);
    assert s[1..][1..] == s[2..];
    assert Utf8All(s[1..]) == hi + tail;
    ScanEscapedBytes(hi, tail);
    EscapedChars(s[1]);
    assert [Unescape(hi[0])] + (AsChars(hi[1..]) + ScanBytes(tail).0)
        == [Unescape(hi[0])] + AsChars(hi[1..]) + ScanBytes(tail).0;
  }

  lemma EscapedChars(c: char)
    ensures Utf8(c) != [] && [Unescape(Utf8(c)[0])] + AsChars(Utf8(c)[1..]) == UnescapeChar(c)
  {
    var hi := Utf8(c);
    assert AsChars(hi) == [hi[0] as char] + AsChars(hi[1..]);
  }

  lemma AgreesPlain(s: string)
    requires s != "" && s[0] != '"' && (s[0] == '\\' ==> |s| == 1) && Agrees(s[1..])
    ensures Agrees(s)
  {
    hide Utf8, AsChars;
    var tail := Utf8All(s[1..]);
    if IsAscii(s[0]) {
      assert Utf8All(s)[1..] == tail;
    } else {
      ScanHighBytes(Utf8(s[0]), tail);
    }
  }

  /** Scanning bytes never stops inside a character, so slicing the input at
      the byte index is safe, and both scans agree. */
  lemma {:induction false} ByteScanIsCharScan(s: string)
    ensures ScanBytes(Utf8All(s)) == (ScanChars(s).0, Utf8All(ScanChars(s).1))
  {
    if s == "" {
    } else if s[0] == '\\' && |s| > 1 {
      ByteScanIsCharScan(s[2..]);
      AgreesEscaped(s);
    } else if s[0] == '"' {
      assert Utf8All(s)[1..] == Utf8All(s[1..]);
    } else {
      ByteScanIsCharScan(s[1..]);
      AgreesPlain(s);
    }
  }

  // ----------------------------------------------------------------- parser

  datatype ReadError = UnterminatedIri | UnterminatedDatatype | UnexpectedChar

  predicate EndsLabel(c: char) {
    IsWhitespace(c) || c == '.'
  }

  /** Index of the first white space or full stop, or the length. */
  function LabelEnd(s: string): (r: nat)
    ensures r <= |s| && (forall i | 0 <= i < r :: !EndsLabel(s[i]))
    ensures r < |s| ==> EndsLabel(s[r])
  {
    if s == "" || EndsLabel(s[0]) then 0 else 1 + LabelEnd(s[1..])
  }

  type Read = Result<(Term, string), ReadError>

  function ReadIri(rest: string): Read {
    match SplitOnce(rest, '>')
    case None => Err(UnterminatedIri)
    case Some((iri, after)) => Ok((Iri(iri), after))
  }

  function ReadBlank(rest: string): Read {
    var end := LabelEnd(rest);
    Ok((BlankNode(rest[..end]), rest[end..]))
  }

  /** The optional datatype or language after the closing quote. */
  function ReadSuffix(value: string, rest: string): Read {
    if |rest| >= 3 && rest[0] == '^' && rest[1] == '^' && rest[2] == '<' then
      match SplitOnce(rest[3..], '>')
      case None => Err(UnterminatedDatatype)
      case Some((dt, after)) => Ok((Literal(value, Some(dt), None), after))
    else if |rest| >= 1 && rest[0] == '@' then
      var end := LabelEnd(rest[1..]);
      Ok((Literal(value, None, Some(rest[1..][..end])), rest[1..][end..]))
    else Ok((Literal(value, None, None), rest))
  }

  function ReadLiteral(rest: string): Read {
    var (value, after) := ScanChars(rest);
    ReadSuffix(value, after)
  }

  function ReadTerm(text: string): Read {
    var input := TrimStart(text);
    if |input| >= 1 && input[0] == '<' then ReadIri(input[1..])
    else if |input| >= 2 && input[0] == '_' && input[1] == ':' then ReadBlank(input[2..])
    else if |input| >= 1 && input[0] == '"' then ReadLiteral(input[1..])
    else Err(UnexpectedChar)
  }

  function ParseLine(text: string): Result<Triple, ReadError> {
    var line := Trim(TrimEndChar(text, '.'));
    match ReadTerm(line)
    case Err(e) => Err(e)
    case Ok((s, rest)) =>
      match ReadTerm(TrimStart(rest))
      case Err(e) => Err(e)
      case Ok((p, rest)) =>
        match ReadTerm(TrimStart(rest))
        case Err(e) => Err(e)
        case Ok((o, _)) => Ok(Triple(s, p, o))
  }

  predicate SkipsLine(line: string) {
    line == "" || line[0] == '#'
  }

  datatype ParseError = ParseError(lineNumber: nat, cause: ReadError)

  type Parsed = Result<set<Triple>, ParseError>

  /** First line, trimmed, and the text after its newline. */
  function FirstLine(input: string): (r: (string, string))
    requires input != ""
    ensures |r.1| < |input|
  {
    match SplitOnce(input, '\n')
    case None => (Trim(input), "")
    case Some((line, rest)) => (Trim(line), rest)
  }

  function Union(g: set<Triple>, r: Parsed): Parsed {
    match r
    case Err(e) => Err(e)
    case Ok(h) => Ok(g + h)
  }

  /** `Graph::parse_ntriples`, line by line; the first bad line decides the error. */
  function Parse(input: string, lineNumber: nat := 1): Parsed
    decreases |input|
  {
    if input == "" then Ok({})
    else
      var (line, rest) := FirstLine(input);
      if SkipsLine(line) then Parse(rest, lineNumber + 1)
      else
        match ParseLine(line)
        case Err(e) => Err(ParseError(lineNumber, e))
        case Ok(t) => Union({t}, Parse(rest, lineNumber + 1))
  }

  lemma UnionAssoc(g: set<Triple>, h: set<Triple>, r: Parsed)
    ensures Union(g + h, r) == Union(g, Union(h, r)) && Union({}, r) == r
  {
    if r.Ok? {
      assert g + h + r.value == g + (h + r.value);
      assert {} + r.value == r.value;
    }
  }

  /** The loop of `Graph::parse_ntriples`, which grows one graph in place. */
  method ParseNTriples(input: string) returns (r: Parsed)
    ensures r == Parse(input)
  {
    var g: set<Triple>, rest, n := {}, input, 1;
    UnionAssoc({}, {}, Parse(input));
    while rest != ""
      invariant Union(g, Parse(rest, n)) == Parse(input)
      decreases |rest|
    {
      var (line, after) := FirstLine(rest);
      if !SkipsLine(line) {
        var parsed := ParseLine(line);
        if parsed.Err? {
          return Err(ParseError(n, parsed.error));
        }
        UnionAssoc(g, {parsed.value}, Parse(after, n + 1));
        g := g + {parsed.value};
      }
      rest, n := after, n + 1;
    }
    assert g + {} == g;
    r := Ok(g);
  }
}
