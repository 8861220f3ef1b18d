/** HTTP Signatures (draft-cavage-http-signatures-12): the header printer, the
    character-level header parser, and the two builders of the signed text. */
module HttpSignature {
  import opened Text

  datatype SignatureHeader = SignatureHeader(keyId: string, algorithm: string, headers: seq<string>, signature: string)

  datatype SigError =
    | MissingHeader | MissingKeyId | MissingSignature | UnsupportedAlgorithm
    | DigestMismatch | UnresolvedKey | MissingCovered | VerifyFailed

  // ------------------------------------------------------------ the scanner

  /** The variables of the scanning loop. */
  datatype Scanner = Scanner(
    attrs: seq<(string, string)>, key: string, val: string, inVal: bool, inQuote: bool, expectingEq: bool)

  /** Between attributes. */
  function Clean(attrs: seq<(string, string)>): Scanner {
    Scanner(attrs, "", "", false, false, false)
  }

  function Emit(st: Scanner): Scanner {
    st.(attrs := st.attrs + [(Lower(st.key), st.val)], key := "", val := "")
  }

  function ScanChar(st: Scanner, ch: char): Scanner {
    if !st.inVal then
      if ch == '=' then st.(inVal := true, expectingEq := false)
      else if (ch == ',' || ch == ' ' || ch == '\t') && st.key == "" then st
      else if IsAsciiWhitespace(ch) then st.(expectingEq := true)
      else st.(key := st.key + [ch], expectingEq := false)
    else if ch == '"' then
      if st.inQuote then Emit(st).(inQuote := false, inVal := false) else st.(inQuote := true)
    else if ch == ',' && !st.inQuote then
      (if st.key != "" then Emit(st) else st).(inVal := false)
    else if st.inQuote || !IsAsciiWhitespace(ch) then st.(val := st.val + [ch])
    else st
  }

  function Scan(st: Scanner, text: string): Scanner
    decreases |text|
  {
    if text == "" then st else Scan(ScanChar(st, text[0]), text[1..])
  }

  /** The attributes, after closing one left open at the end. */
  function Finish(st: Scanner): seq<(string, string)> {
    if st.key != "" && (st.inVal || st.val != "") then Emit(st).attrs else st.attrs
  }

  /** The scanning loop of `parse_signature_header`, with its mutable flags. */
  method ScanAttributes(raw: string) returns (attrs: seq<(string, string)>)
    ensures attrs == Finish(Scan(Clean([]), raw))
  {
    hide Lower;
    attrs := [];
    var curKey, curVal, inVal, inQuote, expectingEq := "", "", false, false, false;
    for i := 0 to |raw|
      invariant Scan(Clean([]), raw) == Scan(Scanner(attrs, curKey, curVal, inVal, inQuote, expectingEq), raw[i..])
    {
      assert raw[i..][1..] == raw[i + 1..];
      var ch := raw[i];
      if !inVal {
        if ch == '=' {
          inVal, expectingEq := true, false;
        } else if (ch == ',' || ch == ' ' || ch == '\t') && curKey == "" {
        } else if IsAsciiWhitespace(ch) {
          expectingEq := true;
        } else {
          curKey, expectingEq := curKey + [ch], false;
        }
      } else if ch == '"' {
        if inQuote {
          attrs := attrs + [(Lower(curKey), curVal)];
          curKey, curVal, inQuote, inVal := "", "", false, false;
        } else {
          inQuote := true;
        }
      } else if ch == ',' && !inQuote {
        if curKey != "" {
          attrs := attrs + [(Lower(curKey), curVal)];
          curKey, curVal := "", "";
        }
        inVal := false;
      } else if inQuote || !IsAsciiWhitespace(ch) {
        curVal := curVal + [ch];
      }
    }
    if curKey != "" && (inVal || curVal != "") {
      attrs := attrs + [(Lower(curKey), curVal)];
    }
  }

  // --------------------------------------------------------- the attributes

  /** `split_ascii_whitespace`: maximal runs without white space. */
  function Words(s: string): seq<string> {
    WordsFrom(s, "")
  }

  function WordsFrom(s: string, word: string): seq<string> {
    if s == "" then (if word == "" then [] else [word])
    else if IsAsciiWhitespace(s[0]) then (if word == "" then [] else [word]) + WordsFrom(s[1..], "")
    else WordsFrom(s[1..], word + [s[0]])
  }

  function LowerAll(ss: seq<string>): (r: seq<string>)
    ensures |r| == |ss| && forall i | 0 <= i < |ss| :: r[i] == Lower(ss[i])
  {
    seq(|ss|, i requires 0 <= i < |ss| => Lower(ss[i]))
  }

  const NO_HEADER := SignatureHeader("", "", [], "")

  /** One attribute; a later one of the same name wins, unknown names are skipped. */
  function WithAttr(h: SignatureHeader, attr: (string, string)): SignatureHeader {
    match attr.0
    case "keyid" => h.(keyId := attr.1)
    case "algorithm" => h.(algorithm := Lower(attr.1))
    case "headers" => h.(headers := LowerAll(Words(attr.1)))
    case "signature" => h.(signature := attr.1)
    case _ => h
  }

  function Collect(attrs: seq<(string, string)>): SignatureHeader {
    if attrs == [] then NO_HEADER else WithAttr(Collect(attrs[..|attrs| - 1]), attrs[|attrs| - 1])
  }

  function Parse(raw: string): Result<SignatureHeader, SigError> {
    Completed(Collect(Finish(Scan(Clean([]), raw))))
  }

  /** Required attributes, and the defaults for the optional ones. */
  function Completed(h: SignatureHeader): Result<SignatureHeader, SigError> {
    if h.keyId == "" then Err(MissingKeyId)
    else if h.signature == "" then Err(MissingSignature)
    else
      Ok(h.(algorithm := if h.algorithm == "" then "rsa-sha256" else h.algorithm,
            headers := if h.headers == [] then ["date"] else h.headers))
  }

  /** `parse_signature_header`. */
  method ParseSignatureHeader(raw: string) returns (r: Result<SignatureHeader, SigError>)
    ensures r == Parse(raw)
  {
    hide WithAttr, Scan;
    var attrs := ScanAttributes(raw);
    var h := NO_HEADER;
    for i := 0 to |attrs|
      invariant h == Collect(attrs[..i])
    {
      assert attrs[..i + 1][..i] == attrs[..i];
      h := WithAttr(h, attrs[i]);
    }
    assert attrs[..|attrs|] == attrs;
    r := Completed(h);
  }

  // ------------------------------------------------------------ the printer

  const COVERED: seq<string> := ["(request-target)", "host", "date", "digest"]

  function PrintAttr(name: string, value: string): string {
    name + "=\"" + value + "\""
  }

  /** The header `sign_request` emits. */
  function PrintHeader(keyId: string, signature: string): string {
    PrintAttr("keyId", keyId) + ","
    + (PrintAttr("algorithm", "rsa-sha256") + ","
    + (PrintAttr("headers", Join(COVERED, " ")) + ","
    + PrintAttr("signature", signature)))
  }

  lemma {:induction false} ScanConcat(st: Scanner, a: string, b: string)
    ensures Scan(st, a + b) == Scan(Scan(st, a), b)
    decreases |a|
  {
    hide ScanChar;
    if a == "" {
      assert a + b == b;
    } else {
      assert (a + b)[1..] == a[1..] + b;
      ScanConcat(ScanChar(st, a[0]), a[1..], b);
    }
  }

  predicate NameText(s: string) {
    forall i | 0 <= i < |s| :: s[i] != '=' && s[i] != ',' && !IsAsciiWhitespace(s[i])
  }

  lemma {:induction false} ScanName(attrs: seq<(string, string)>, key: string, name: string)
    requires NameText(name)
    ensures Scan(Clean(attrs).(key := key), name) == Clean(attrs).(key := key + name)
    decreases |name|
  {
    if name == "" {
      assert key + name == key;
    } else {
      ScanName(attrs, key + [name[0]], name[1..]);
      assert key + [name[0]] + name[1..] == key + name;
    }
  }

  lemma {:induction false} ScanQuoted(st: Scanner, value: string)
    requires st.inVal && st.inQuote && Lacks(value, '"')
    ensures Scan(st, value) == st.(val := st.val + value)
    decreases |value|
  {
    hide Lower;
    if value == "" {
      assert st.val + value == st.val;
    } else {
      ScanQuoted(st.(val := st.val + [value[0]]), value[1..]);
      assert st.val + [value[0]] + value[1..] == st.val + value;
    }
  }

  lemma ScanOne(st: Scanner, ch: char)
    ensures Scan(st, [ch]) == ScanChar(st, ch)
  {
    assert [ch][1..] == "";
  }

  /** A printed attribute is read back, whatever came before it. */
  lemma ScanAttr(attrs: seq<(string, string)>, name: string, value: string)
    requires NameText(name) && Lacks(value, '"')
    ensures Scan(Clean(attrs), PrintAttr(name, value)) == Clean(attrs + [(Lower(name), value)])
  {
    hide Scan, Lower;
    var s1 := Clean(attrs).(key := name);
    ScanName(attrs, "", name);
    assert "" + name == name;
    ScanOne(s1, '=');
    var s2 := s1.(inVal := true);
    ScanOne(s2, '"');
    var s3 := s2.(inQuote := true);
    ScanQuoted(s3, value);
    assert "" + value == value;
    var s4 := s3.(val := value);
    ScanOne(s4, '"');
    assert PrintAttr(name, value) == name + (['='] + (['"'] + (value + ['"'])));
    ScanConcat(Clean(attrs), name, ['='] + (['"'] + (value + ['"'])));
    ScanConcat(s1, ['='], ['"'] + (value + ['"']));
    ScanConcat(s2, ['"'], value + ['"']);
    ScanConcat(s3, value, ['"']);
  }

  lemma ScanAttrComma(attrs: seq<(string, string)>, name: string, value: string, rest: string)
    requires NameText(name) && Lacks(value, '"')
    ensures Scan(Clean(attrs), PrintAttr(name, value) + "," + rest)
         == Scan(Clean(attrs + [(Lower(name), value)]), rest)
  {
    hide Scan, Lower, PrintAttr, NameText;
    var p, next := PrintAttr(name, value), Clean(attrs + [(Lower(name), value)]);
    ScanAttr(attrs, name, value);
    assert p + "," + rest == p + ([','] + rest);
    ScanConcat(Clean(attrs), p, [','] + rest);
    ScanConcat(next, [','], rest);
    ScanOne(next, ',');
  }

  lemma FixedNames()
    ensures NameText("keyId") && NameText("algorithm") && NameText("headers") && NameText("signature")
    ensures Lower("keyId") == "keyid" && Lower("algorithm") == "algorithm"
    ensures Lower("headers") == "headers" && Lower("signature") == "signature"
    ensures Lacks("rsa-sha256", '"') && Lower("rsa-sha256") == "rsa-sha256"
  {
  }

  predicate WordText(s: string) {
    s != "" && forall i | 0 <= i < |s| :: !IsAsciiWhitespace(s[i])
  }

  lemma {:induction false} WordsOfWord(word: string, w: string, rest: string)
    requires forall i | 0 <= i < |w| :: !IsAsciiWhitespace(w[i])
    ensures WordsFrom(w + rest, word) == WordsFrom(rest, word + w)
    decreases |w|
  {
    if w == "" {
      assert w + rest == rest && word + w == word;
    } else {
      assert (w + rest)[1..] == w[1..] + rest;
      WordsOfWord(word + [w[0]], w[1..], rest);
      assert word + [w[0]] + w[1..] == word + w;
    }
  }

  lemma {:induction false} WordsOfJoin(ws: seq<string>)
    requires ws != [] && forall i | 0 <= i < |ws| :: WordText(ws[i])
    ensures Words(Join(ws, " ")) == ws
  {
    hide IsAsciiWhitespace;
    var w := ws[0];
    if |ws| == 1 {
      WordsOfWord("", w, "");
      assert w + "" == w && "" + w == w;
    } else {
      var rest := Join(ws[1..], " ");
      WordsOfJoin(ws[1..]);
      WordsOfWord("", w, " " + rest);
      assert w + " " + rest == w + (" " + rest) && "" + w == w;
      assert (" " + rest)[1..] == rest;
      assert IsAsciiWhitespace(' ') by { SpaceIsSpace(); }
    }
  }

  lemma SpaceIsSpace()
    ensures IsAsciiWhitespace(' ')
  {
  }

  lemma CoveredIsPlain()
    ensures forall i | 0 <= i < |COVERED| :: WordText(COVERED[i]) && Lower(COVERED[i]) == COVERED[i] && Lacks(COVERED[i], '"')
  {
    PlainWord("(request-target)");
    PlainWord("host");
    PlainWord("date");
    PlainWord("digest");
    hide WordText, Lower, Lacks;
  }

  lemma PlainWord(w: string)
    requires w != "" && forall i | 0 <= i < |w| :: 'a' <= w[i] <= 'z' || w[i] == '(' || w[i] == ')' || w[i] == '-'
    ensures WordText(w) && Lower(w) == w && Lacks(w, '"')
  {
  }

  lemma {:induction false} JoinLacks(ws: seq<string>, sep: string, c: char)
    requires Lacks(sep, c) && forall i | 0 <= i < |ws| :: Lacks(ws[i], c)
    ensures Lacks(Join(ws, sep), c)
  {
    if |ws| >= 2 {
      JoinLacks(ws[1..], sep, c);
    }
  }

  lemma CoveredRoundTrip()
    ensures LowerAll(Words(Join(COVERED, " "))) == COVERED && Lacks(Join(COVERED, " "), '"')
  {
    hide Words, Join, WordText;
    CoveredIsPlain();
    WordsOfJoin(COVERED);
    JoinLacks(COVERED, " ", '"');
  }

  /** The four attributes, in order, as they are scanned. */
  lemma ScanPrinted(keyId: string, signature: string)
    requires Lacks(keyId, '"') && Lacks(signature, '"')
    ensures Finish(Scan(Clean([]), PrintHeader(keyId, signature))) ==
            [("keyid", keyId), ("algorithm", "rsa-sha256"), ("headers", Join(COVERED, " ")), ("signature", signature)]
  {
    FixedNames();
    CoveredRoundTrip();
    hide Scan, PrintAttr, Lower, Join, Lacks, NameText, Words;
    var a1 := [("keyid", keyId)];
    var a2 := a1 + [("algorithm", "rsa-sha256")];
    var a3 := a2 + [("headers", Join(COVERED, " "))];
    var p4 := PrintAttr("signature", signature);
    var p3 := PrintAttr("headers", Join(COVERED, " ")) + "," + p4;
    var p2 := PrintAttr("algorithm", "rsa-sha256") + "," + p3;
    assert [] + a1 == a1;
    ScanAttrComma([], "keyId", keyId, p2);
    ScanAttrComma(a1, "algorithm", "rsa-sha256", p3);
    ScanAttrComma(a2, "headers", Join(COVERED, " "), p4);
    ScanAttr(a3, "signature", signature);
  }

  lemma CollectPrinted(keyId: string, alg: string, covered: string, signature: string)
    ensures Collect([("keyid", keyId), ("algorithm", alg), ("headers", covered), ("signature", signature)]) ==
            SignatureHeader(keyId, Lower(alg), LowerAll(Words(covered)), signature)
  {
    hide Lower, LowerAll, Words;
    var a: seq<(string, string)> := [("keyid", keyId), ("algorithm", alg), ("headers", covered), ("signature", signature)];
    assert a[..3][..2][..1][..0] == [];
    assert a[..3][..2][..1] == [("keyid", keyId)];
    assert a[..3][..2] == [("keyid", keyId), ("algorithm", alg)];
    assert a[..3] == [("keyid", keyId), ("algorithm", alg), ("headers", covered)];
    assert Collect(a[..3][..2][..1]) == NO_HEADER.(keyId := keyId);
    assert Collect(a[..3][..2]) == NO_HEADER.(keyId := keyId, algorithm := Lower(alg));
    assert Collect(a[..3]) == SignatureHeader(keyId, Lower(alg), LowerAll(Words(covered)), "");
  }

  // ------------------------------------------------- exactly what survives

  ghost predicate QuoteFree(st: Scanner) {
    && Lacks(st.val, '"')
    && forall i | 0 <= i < |st.attrs| :: Lacks(st.attrs[i].1, '"')
  }

  /** No scanned value ever contains a quote. */
  lemma {:induction false} ScanIsQuoteFree(st: Scanner, text: string)
    requires QuoteFree(st)
    ensures QuoteFree(Scan(st, text))
    decreases |text|
  {
    hide Lower;
    if text != "" {
      ScanCharIsQuoteFree(st, text[0]);
      ScanIsQuoteFree(ScanChar(st, text[0]), text[1..]);
    }
  }

  lemma ScanCharIsQuoteFree(st: Scanner, ch: char)
    requires QuoteFree(st)
    ensures QuoteFree(ScanChar(st, ch))
  {
    hide Lower;
  }

  lemma {:induction false} CollectIsQuoteFree(attrs: seq<(string, string)>)
    requires forall i | 0 <= i < |attrs| :: Lacks(attrs[i].1, '"')
    ensures Lacks(Collect(attrs).keyId, '"') && Lacks(Collect(attrs).signature, '"')
  {
    hide Lower, LowerAll, Words, Lacks;
    if attrs == [] {
      EmptyLacks();
    } else {
      CollectIsQuoteFree(attrs[..|attrs| - 1]);
    }
  }

  lemma EmptyLacks()
    ensures Lacks("", '"')
  {
  }

  /** The printed header is read back exactly when key id and signature are
      non-empty and contain no quote. */
  lemma HeaderRoundTrip(keyId: string, signature: string)
    ensures Parse(PrintHeader(keyId, signature)) == Ok(SignatureHeader(keyId, "rsa-sha256", COVERED, signature))
        <==> keyId != "" && signature != "" && Lacks(keyId, '"') && Lacks(signature, '"')
  {
    hide Lower, LowerAll, Words, Scan, PrintHeader, Collect, Finish, Lacks, Join;
    var st := Scan(Clean([]), PrintHeader(keyId, signature));
    if Lacks(keyId, '"') && Lacks(signature, '"') {
      ScanPrinted(keyId, signature);
      CollectPrinted(keyId, "rsa-sha256", Join(COVERED, " "), signature);
      CoveredRoundTrip();
      FixedNames();
    } else {
      assert QuoteFree(Clean([])) by { EmptyLacks(); }
      ScanIsQuoteFree(Clean([]), PrintHeader(keyId, signature));
      FinishIsQuoteFree(st);
      CollectIsQuoteFree(Finish(st));
    }
  }

  lemma FinishIsQuoteFree(st: Scanner)
    requires QuoteFree(st)
    ensures forall i | 0 <= i < |Finish(st)| :: Lacks(Finish(st)[i].1, '"')
  {
    hide Lower;
  }

  /** Without algorithm and covered list, as older senders print it, the
      defaults apply: rsa-sha256 over the date alone. */
  lemma MinimalHeader(keyId: string, signature: string)
    requires keyId != "" && signature != "" && Lacks(keyId, '"') && Lacks(signature, '"')
    ensures Parse(PrintAttr("keyId", keyId) + "," + PrintAttr("signature", signature))
         == Ok(SignatureHeader(keyId, "rsa-sha256", ["date"], signature))
  {
    FixedNames();
    hide Scan, PrintAttr, Lower, Lacks, NameText;
    ScanAttrComma([], "keyId", keyId, PrintAttr("signature", signature));
    ScanAttr([("keyid", keyId)], "signature", signature);
    assert [] + [("keyid", keyId)] == [("keyid", keyId)];
    var attrs: seq<(string, string)> := [("keyid", keyId), ("signature", signature)];
    assert attrs == [("keyid", keyId)] + [("signature", signature)];
    assert attrs[..1] == [("keyid", keyId)] && attrs[..1][..0] == [];
    assert Collect(attrs[..1]) == NO_HEADER.(keyId := keyId);
  }

  // --------------------------------------------------- names that can be read

  lemma {:induction false} WordsHaveNoSpace(s: string, word: string)
    requires forall i | 0 <= i < |word| :: !IsAsciiWhitespace(word[i])
    ensures forall k | 0 <= k < |WordsFrom(s, word)| :: WordText(WordsFrom(s, word)[k])
    decreases |s|
  {
    if s != "" {
      if IsAsciiWhitespace(s[0]) {
        WordsHaveNoSpace(s[1..], "");
      } else {
        WordsHaveNoSpace(s[1..], word + [s[0]]);
      }
    }
  }

  lemma LowerKeepsWords(w: string)
    requires WordText(w)
    ensures WordText(Lower(w))
  {
  }

  lemma {:induction false} CollectedNames(attrs: seq<(string, string)>)
    ensures forall k | 0 <= k < |Collect(attrs).headers| :: WordText(Collect(attrs).headers[k])
  {
    hide WordText, Lower;
    if attrs != [] {
      CollectedNames(attrs[..|attrs| - 1]);
      var text := attrs[|attrs| - 1].1;
      WordsHaveNoSpace(text, "");
      forall k | 0 <= k < |Words(text)| ensures WordText(LowerAll(Words(text))[k]) {
        LowerKeepsWords(Words(text)[k]);
      }
    }
  }

  /** Whatever a sender writes, the covered list is not empty and no name in it
      is empty or holds white space. */
  lemma ParsedNames(raw: string)
    requires Parse(raw).Ok?
    ensures var names := Parse(raw).value.headers;
            names != [] && forall k | 0 <= k < |names| :: WordText(names[k])
  {
    hide Collect, Scan, Finish, WordText;
    CollectedNames(Finish(Scan(Clean([]), raw)));
    assert WordText("date") by { PlainWord("date"); }
  }
}
