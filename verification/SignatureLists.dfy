/** Signature headers of other senders: any order, case, spacing and quoting. */
module SignatureLists {
  import opened Text
  import opened HttpSignature

  predicate Blank(s: string) {
    forall i | 0 <= i < |s| :: s[i] == ' ' || s[i] == '\t'
  }

  /** A value that needs no quotes. */
  predicate BareText(s: string) {
    forall i | 0 <= i < |s| :: s[i] != '"' && s[i] != ',' && !IsAsciiWhitespace(s[i])
  }

  /** One attribute with the blanks a sender may put around its parts. */
  datatype Attr = Attr(pad: string, name: string, gap: string, skip: string, value: string, quoted: bool, after: string)

  predicate AttrOk(a: Attr) {
    && Blank(a.pad) && Blank(a.gap) && Blank(a.skip) && Blank(a.after)
    && a.name != "" && NameText(a.name)
    && (if a.quoted then Lacks(a.value, '"') else BareText(a.value))
  }

  function ValueText(a: Attr): string {
    if a.quoted then "\"" + a.value + "\"" else a.value
  }

  function AttrText(a: Attr): string {
    a.pad + (a.name + (a.gap + ("=" + (a.skip + (ValueText(a) + a.after)))))
  }

  function ListText(attrs: seq<Attr>): string {
    if attrs == [] then ""
    else if |attrs| == 1 then AttrText(attrs[0])
    else AttrText(attrs[0]) + ("," + ListText(attrs[1..]))
  }

  function PairOf(a: Attr): (string, string) {
    (Lower(a.name), a.value)
  }

  function Pairs(attrs: seq<Attr>): (r: seq<(string, string)>)
    ensures |r| == |attrs| && forall i | 0 <= i < |attrs| :: r[i] == PairOf(attrs[i])
  {
    seq(|attrs|, i requires 0 <= i < |attrs| => PairOf(attrs[i]))
  }

  // ------------------------------------------------------------ the scanner

  lemma {:induction false} SkipsPad(st: Scanner, blank: string)
    requires Blank(blank) && !st.inVal && st.key == ""
    ensures Scan(st, blank) == st
    decreases |blank|
  {
    if blank != "" {
      SkipsPad(st, blank[1..]);
    }
  }

  lemma {:induction false} SkipsInValue(st: Scanner, blank: string)
    requires Blank(blank) && st.inVal && !st.inQuote
    ensures Scan(st, blank) == st
    decreases |blank|
  {
    if blank != "" {
      SkipsInValue(st, blank[1..]);
    }
  }

  /** Blanks between a name and its `=` set a flag that nothing reads. */
  lemma {:induction false} SkipsGap(st: Scanner, blank: string)
    requires Blank(blank) && !st.inVal && st.key != ""
    ensures Scan(st, blank) == st || Scan(st, blank) == st.(expectingEq := true)
    decreases |blank|
  {
    if blank != "" {
      assert IsAsciiWhitespace(blank[0]);
      SkipsGap(ScanChar(st, blank[0]), blank[1..]);
    }
  }

  lemma {:induction false} ScanBare(st: Scanner, value: string)
    requires st.inVal && !st.inQuote && BareText(value)
    ensures Scan(st, value) == st.(val := st.val + value)
    decreases |value|
  {
    hide Lower;
    if value == "" {
      assert st.val + value == st.val;
    } else {
      ScanBare(st.(val := st.val + [value[0]]), value[1..]);
      assert st.val + [value[0]] + value[1..] == st.val + value;
    }
  }

  /** After a name and `=`, the value and what blanks follow it. */
  function Valued(attrs: seq<(string, string)>, a: Attr): Scanner {
    if a.quoted then Clean(attrs + [PairOf(a)]) else Clean(attrs).(key := a.name, val := a.value, inVal := true)
  }

  lemma ScanValue(attrs: seq<(string, string)>, a: Attr)
    requires AttrOk(a)
    ensures Scan(Clean(attrs).(key := a.name, inVal := true), ValueText(a) + a.after) == Valued(attrs, a)
  {
    hide Scan, Lower, Blank, NameText, Lacks, BareText;
    var st := Clean(attrs).(key := a.name, inVal := true);
    ScanConcat(st, ValueText(a), a.after);
    if a.quoted {
      var s1 := st.(inQuote := true);
      ScanOne(st, '"');
      ScanQuoted(s1, a.value);
      assert "" + a.value == a.value;
      var s2 := s1.(val := a.value);
      ScanOne(s2, '"');
      assert ValueText(a) == ['"'] + (a.value + ['"']);
      ScanConcat(st, ['"'], a.value + ['"']);
      ScanConcat(s1, a.value, ['"']);
      SkipsPad(Clean(attrs + [PairOf(a)]), a.after);
    } else {
      ScanBare(st, a.value);
      assert "" + a.value == a.value;
      SkipsInValue(st.(val := a.value), a.after);
    }
  }

  lemma ScanAttrText(attrs: seq<(string, string)>, a: Attr)
    requires AttrOk(a)
    ensures Scan(Clean(attrs), AttrText(a)) == Valued(attrs, a)
  {
    ScanValue(attrs, a);
    hide Scan, Lower, Blank, NameText, Lacks, BareText, ValueText;
    var t1 := a.skip + (ValueText(a) + a.after);
    var t2 := "=" + t1;
    var t3 := a.gap + t2;
    var t4 := a.name + t3;
    var st := Clean(attrs);
    ScanConcat(st, a.pad, t4);
    SkipsPad(st, a.pad);
    ScanConcat(st, a.name, t3);
    ScanName(attrs, "", a.name);
    assert "" + a.name == a.name;
    var named := st.(key := a.name);
    assert st.(key := "") == st;
    ScanConcat(named, a.gap, t2);
    SkipsGap(named, a.gap);
    var gapped := Scan(named, a.gap);
    ScanConcat(gapped, "=", t1);
    ScanOne(gapped, '=');
    var valued := st.(key := a.name, inVal := true);
    assert Scan(gapped, "=") == valued;
    ScanConcat(valued, a.skip, ValueText(a) + a.after);
    SkipsInValue(valued, a.skip);
  }

  lemma AttrEnds(attrs: seq<(string, string)>, a: Attr)
    requires AttrOk(a)
    ensures Finish(Valued(attrs, a)) == attrs + [PairOf(a)]
    ensures ScanChar(Valued(attrs, a), ',') == Clean(attrs + [PairOf(a)])
  {
    hide Lower, Blank, NameText, Lacks, BareText;
  }

  /** A list of attributes is read back, whatever its spacing and quoting. */
  lemma {:induction false} ScanList(before: seq<(string, string)>, attrs: seq<Attr>)
    requires attrs != [] && forall i | 0 <= i < |attrs| :: AttrOk(attrs[i])
    ensures Finish(Scan(Clean(before), ListText(attrs))) == before + Pairs(attrs)
    decreases |attrs|
  {
    hide Scan, AttrText, AttrOk, Finish, ScanChar, PairOf, Clean;
    var a := attrs[0];
    ScanAttrText(before, a);
    AttrEnds(before, a);
    if |attrs| == 1 {
      assert Pairs(attrs) == [PairOf(a)];
    } else {
      var rest := ListText(attrs[1..]);
      ScanConcat(Clean(before), AttrText(a), "," + rest);
      ScanConcat(Valued(before, a), ",", rest);
      ScanOne(Valued(before, a), ',');
      ScanList(before + [PairOf(a)], attrs[1..]);
      assert before + [PairOf(a)] + Pairs(attrs[1..]) == before + Pairs(attrs);
    }
  }

  /** What is no attribute: a last name without `=` is dropped, and so is a last
      value without a name; before a comma such a value is not emitted either,
      but it stays in front of the next one. */
  lemma StrayText(before: seq<(string, string)>, name: string, value: string)
    requires NameText(name) && BareText(value)
    ensures Finish(Scan(Clean(before), name)) == before
    ensures Finish(Scan(Clean(before), "=" + value)) == before
    ensures Scan(Clean(before), "=" + value + ",") == Clean(before).(val := value)
  {
    hide Scan, Lower, NameText, BareText;
    ScanName(before, "", name);
    assert "" + name == name && Clean(before).(key := "") == Clean(before);
    var st := Clean(before).(inVal := true);
    ScanOne(Clean(before), '=');
    ScanConcat(Clean(before), "=", value);
    ScanBare(st, value);
    assert "" + value == value;
    ScanConcat(Clean(before), "=" + value, ",");
    ScanOne(st.(val := value), ',');
  }

  // ---------------------------------------------------------- the attributes

  /** The value of the last attribute of a name. */
  function LastValue(pairs: seq<(string, string)>, name: string): Option<string> {
    if pairs == [] then None
    else if pairs[|pairs| - 1].0 == name then Some(pairs[|pairs| - 1].1)
    else LastValue(pairs[..|pairs| - 1], name)
  }

  function OrEmpty(v: Option<string>): string {
    if v.Some? then v.value else ""
  }

  lemma {:induction false} CollectTakesLast(pairs: seq<(string, string)>)
    ensures var h := Collect(pairs);
            && h.keyId == OrEmpty(LastValue(pairs, "keyid"))
            && h.algorithm == Lower(OrEmpty(LastValue(pairs, "algorithm")))
            && h.headers == LowerAll(Words(OrEmpty(LastValue(pairs, "headers"))))
            && h.signature == OrEmpty(LastValue(pairs, "signature"))
  {
    if pairs == [] {
      assert Lower("") == "" && Words("") == [] && LowerAll([]) == [];
    } else {
      CollectTakesLast(pairs[..|pairs| - 1]);
      hide Lower, Words, LowerAll;
    }
  }

  /** What a list says: key, signature, algorithm and covered names. */
  function KeyOf(attrs: seq<Attr>): string {
    OrEmpty(LastValue(Pairs(attrs), "keyid"))
  }

  function SignatureOf(attrs: seq<Attr>): string {
    OrEmpty(LastValue(Pairs(attrs), "signature"))
  }

  function AlgorithmOf(attrs: seq<Attr>): string {
    var v := OrEmpty(LastValue(Pairs(attrs), "algorithm"));
    if v == "" then "rsa-sha256" else Lower(v)
  }

  function NamesOf(attrs: seq<Attr>): seq<string> {
    var names := Words(OrEmpty(LastValue(Pairs(attrs), "headers")));
    if names == [] then ["date"] else LowerAll(names)
  }

  /** The parser on any such list: the last attribute of each name counts, other
      names do not; key and signature are required, the rest has defaults. */
  lemma ParsesList(attrs: seq<Attr>)
    requires attrs != [] && forall i | 0 <= i < |attrs| :: AttrOk(attrs[i])
    ensures Parse(ListText(attrs)) ==
            if KeyOf(attrs) == "" then Err(MissingKeyId)
            else if SignatureOf(attrs) == "" then Err(MissingSignature)
            else Ok(SignatureHeader(KeyOf(attrs), AlgorithmOf(attrs), NamesOf(attrs), SignatureOf(attrs)))
  {
    hide Scan, Collect, Finish, ListText, AttrOk, Words, Lower, Pairs, LastValue;
    ScanList([], attrs);
    assert [] + Pairs(attrs) == Pairs(attrs);
    CollectTakesLast(Pairs(attrs));
    LowerOfEmpty(OrEmpty(LastValue(Pairs(attrs), "algorithm")));
  }

  lemma LowerOfEmpty(s: string)
    ensures Lower(s) == "" <==> s == ""
  {
  }

  /** Splitting at white space: leading white space is skipped, a word ends at
      any run of it. */
  lemma WordsByRule(w: string, gap: string, rest: string)
    requires forall i | 0 <= i < |gap| :: IsAsciiWhitespace(gap[i])
    ensures Words("") == [] && Words(gap + rest) == Words(rest)
    ensures WordText(w) ==> Words(w) == [w]
    ensures WordText(w) && gap != "" ==> Words(w + (gap + rest)) == [w] + Words(rest)
  {
    hide IsAsciiWhitespace;
    SkipsGaps(gap, rest);
    if WordText(w) {
      WordsOfWord("", w, "");
      assert w + "" == w && "" + w == w;
      if gap != "" {
        WordsOfWord("", w, gap + rest);
        assert (gap + rest)[1..] == gap[1..] + rest;
        SkipsGaps(gap[1..], rest);
      }
    }
  }

  lemma {:induction false} SkipsGaps(gap: string, rest: string)
    requires forall i | 0 <= i < |gap| :: IsAsciiWhitespace(gap[i])
    ensures WordsFrom(gap + rest, "") == WordsFrom(rest, "")
    decreases |gap|
  {
    hide IsAsciiWhitespace;
    if gap == "" {
      assert gap + rest == rest;
    } else {
      assert (gap + rest)[1..] == gap[1..] + rest;
      SkipsGaps(gap[1..], rest);
      assert [] + WordsFrom(rest, "") == WordsFrom(rest, "");
    }
  }
}
