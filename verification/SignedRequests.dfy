/** Signing an outbound request and verifying it on arrival: the text that is
    signed and the text that is rebuilt, and what a valid signature binds. */
module SignedRequests {
  import opened Text
  import opened HttpSignature

  type Headers = seq<(string, string)>

  /** `SignedRequest`: an inbound request, header names in lower case. */
  datatype Inbound = Inbound(method_: string, path: string, headers: map<string, string>, body: string)

  datatype Actor = Actor(url: string, pem: string)

  datatype Url = Url(host: Option<string>, path: string, query: Option<string>)

  /** URL parsing, SHA-256, RSA, base64 and key resolution, which are foreign
      code: the two spellings of a digest header, the base64 signature of a text
      under the sender's key if that key decodes, the check of such a signature
      under a public key, and the lookup of a key id. */
  datatype Crypto = Crypto(
    parseUrl: string -> Option<Url>,
    digest: string -> string,
    digestRfc9530: string -> string,
    sign: string -> Option<string>,
    check: (string, string, string) -> bool,
    resolve: string -> Option<Actor>)

  // --------------------------------------------------------- the signed text

  const TARGET := "(request-target)"

  function TargetLine(method_: string, path: string): string {
    "(request-target): " + Lower(method_) + " " + path
  }

  /** The line for one covered name, if the request has a value for it. */
  function LineFor(req: Inbound, name: string): Option<string> {
    if name == TARGET then Some(TargetLine(req.method_, req.path))
    else if name in req.headers then Some(name + ": " + req.headers[name])
    else None
  }

  function LinesFor(req: Inbound, names: seq<string>): Option<seq<string>> {
    if names == [] then Some([])
    else
      match (LinesFor(req, names[..|names| - 1]), LineFor(req, names[|names| - 1]))
      case (Some(lines), Some(line)) => Some(lines + [line])
      case _ => None
  }

  function Base(req: Inbound, names: seq<string>): Option<string> {
    match LinesFor(req, names)
    case None => None
    case Some(lines) => Some(Join(lines, "\n"))
  }

  lemma {:induction false} LinesNeedEveryName(req: Inbound, names: seq<string>, k: nat)
    requires k < |names|
    ensures LineFor(req, names[k]).None? ==> LinesFor(req, names).None?
    ensures LinesFor(req, names).Some? ==>
              |LinesFor(req, names).value| == |names| && LineFor(req, names[k]) == Some(LinesFor(req, names).value[k])
  {
    hide LineFor;
    var init := names[..|names| - 1];
    if k < |init| {
      LinesNeedEveryName(req, init, k);
    } else if init != [] {
      LinesNeedEveryName(req, init, 0);
    }
  }

  /** `build_signature_base`: stops at the first covered header that is missing. */
  method BuildSignatureBase(req: Inbound, names: seq<string>) returns (base: Option<string>)
    ensures base == Base(req, names)
  {
    hide LineFor, Join;
    var lines: seq<string> := [];
    for i := 0 to |names|
      invariant LinesFor(req, names[..i]) == Some(lines)
    {
      assert names[..i + 1][..i] == names[..i];
      var line := LineFor(req, names[i]);
      if line.None? {
        LinesNeedEveryName(req, names, i);
        return None;
      }
      lines := lines + [line.value];
    }
    assert names[..|names|] == names;
    base := Some(Join(lines, "\n"));
  }

  /** The text `sign_request` signs, built by its own code. */
  function SignedText(method_: string, path: string, host: string, date: string, digest: string): string {
    Join([TargetLine(method_, path), "host: " + host, "date: " + date, "digest: " + digest], "\n")
  }

  // -------------------------------------------------------------- signing

  predicate IsReplaced(name: string) {
    var n := Lower(name);
    n == "host" || n == "date" || n == "digest" || n == "signature"
  }

  function Retained(hs: Headers): (r: Headers)
    ensures forall i | 0 <= i < |r| :: !IsReplaced(r[i].0)
  {
    if hs == [] then []
    else
      var init := Retained(hs[..|hs| - 1]);
      if IsReplaced(hs[|hs| - 1].0) then init else init + [hs[|hs| - 1]]
  }

  function SignedHeaders(hs: Headers, host: string, date: string, digest: string, header: string): Headers {
    Retained(hs) + [("Host", host), ("Date", date), ("Digest", digest), ("Signature", header)]
  }

  datatype SignError = BadUrl | NoHost | BadKey

  function RequestPath(u: Url): string {
    if u.query.Some? then u.path + "?" + u.query.value else u.path
  }

  /** `OutboundRequest`, whose headers `sign_request` rewrites. */
  class Outbound {
    const method_: string
    const url: string
    const body: string
    var headers: Headers

    constructor (method_: string, url: string, body: string, headers: Headers)
      ensures this.method_ == method_ && this.url == url && this.body == body && this.headers == headers
    {
      this.method_, this.url, this.body, this.headers := method_, url, body, headers;
    }

    /** Fails, leaving the headers alone, on a URL that does not parse or names
        no host and on a key that does not decode. */
    method SignRequest(c: Crypto, keyId: string, date: string) returns (err: Option<SignError>)
      modifies this
      ensures err.Some? ==> headers == old(headers)
      ensures match c.parseUrl(url)
              case None => err == Some(BadUrl)
              case Some(u) =>
                if u.host.None? then err == Some(NoHost)
                else
                  var digest := c.digest(body);
                  match c.sign(SignedText(method_, RequestPath(u), u.host.value, date, digest))
                  case None => err == Some(BadKey)
                  case Some(sig) =>
                    && err == None
                    && headers == SignedHeaders(old(headers), u.host.value, date, digest, PrintHeader(keyId, sig))
    {
      hide PrintHeader, SignedText, IsReplaced, RequestPath;
      var parsed := c.parseUrl(url);
      if parsed.None? { return Some(BadUrl); }
      var u := parsed.value;
      if u.host.None? { return Some(NoHost); }
      var digest := c.digest(body);
      var sig := c.sign(SignedText(method_, RequestPath(u), u.host.value, date, digest));
      if sig.None? { return Some(BadKey); }
      var kept: Headers := [];
      for i := 0 to |headers|
        invariant headers == old(headers) && kept == Retained(headers[..i])
      {
        assert headers[..i + 1][..i] == headers[..i];
        if !IsReplaced(headers[i].0) {
          kept := kept + [headers[i]];
        }
      }
      assert headers[..|headers|] == headers;
      headers := kept + [("Host", u.host.value), ("Date", date), ("Digest", digest),
                         ("Signature", PrintHeader(keyId, sig.value))];
      err := None;
    }
  }

  // -------------------------------------------------------------- arrival

  /** Header names in lower case, repeated headers joined by a comma. */
  function Received(hs: Headers): map<string, string> {
    if hs == [] then map[]
    else
      var m := Received(hs[..|hs| - 1]);
      var n, v := Lower(hs[|hs| - 1].0), hs[|hs| - 1].1;
      m[n := if n in m then m[n] + ", " + v else v]
  }

  lemma {:induction false} ReceivedNames(hs: Headers, name: string)
    requires forall i | 0 <= i < |hs| :: Lower(hs[i].0) != name
    ensures name !in Received(hs)
  {
    hide Lower;
    if hs != [] {
      ReceivedNames(hs[..|hs| - 1], name);
    }
  }

  lemma ReceivedLast(hs: Headers, h: (string, string), name: string)
    requires Lower(h.0) == name && name !in Received(hs)
    ensures Received(hs + [h]) == Received(hs)[name := h.1]
  {
    hide Lower;
    assert (hs + [h])[..|hs|] == hs;
  }

  lemma FixedLower()
    ensures Lower("Host") == "host" && Lower("Date") == "date" && Lower("Digest") == "digest" && Lower("Signature") == "signature"
  {
  }

  /** What arrives is what was signed: the four headers have exactly one value each. */
  lemma ReceivedSigned(hs: Headers, host: string, date: string, digest: string, header: string)
    ensures var m := Received(SignedHeaders(hs, host, date, digest, header));
            && "host" in m && m["host"] == host && "date" in m && m["date"] == date
            && "digest" in m && m["digest"] == digest && "signature" in m && m["signature"] == header
  {
    var kept := Retained(hs);
    assert forall i | 0 <= i < |kept| :: !IsReplaced(kept[i].0);
    ReceivedNames(kept, "host");
    ReceivedNames(kept, "date");
    ReceivedNames(kept, "digest");
    ReceivedNames(kept, "signature");
    FixedLower();
    hide Lower, Retained, IsReplaced, Received;
    var h1 := kept + [("Host", host)];
    var h2 := h1 + [("Date", date)];
    var h3 := h2 + [("Digest", digest)];
    assert SignedHeaders(hs, host, date, digest, header) == h3 + [("Signature", header)];
    ReceivedLast(kept, ("Host", host), "host");
    ReceivedLast(h1, ("Date", date), "date");
    ReceivedLast(h2, ("Digest", digest), "digest");
    ReceivedLast(h3, ("Signature", header), "signature");
  }

  // ---------------------------------------------------------- verification

  predicate EqIgnoreCase(a: string, b: string) {
    Lower(a) == Lower(b)
  }

  predicate DigestOk(c: Crypto, req: Inbound)
    requires "digest" in req.headers
  {
    var received := req.headers["digest"];
    || received == c.digest(req.body)
    || EqIgnoreCase(received, c.digest(req.body))
    || received == c.digestRfc9530(req.body)
  }

  /** `verify_request_signature`. */
  function Verify(c: Crypto, req: Inbound): Result<Actor, SigError> {
    if "signature" !in req.headers then Err(MissingHeader)
    else
      match Parse(req.headers["signature"])
      case Err(e) => Err(e)
      case Ok(h) =>
        if h.algorithm != "rsa-sha256" && h.algorithm != "hs2019" then Err(UnsupportedAlgorithm)
        else if "digest" in h.headers && "digest" !in req.headers then Err(MissingHeader)
        else if "digest" in h.headers && !DigestOk(c, req) then Err(DigestMismatch)
        else
          match c.resolve(h.keyId)
          case None => Err(UnresolvedKey)
          case Some(actor) =>
            match Base(req, h.headers)
            case None => Err(MissingCovered)
            case Some(base) => if c.check(actor.pem, base, h.signature) then Ok(actor) else Err(VerifyFailed)
  }

  /** The two builders agree: the verifier rebuilds the signed text from what arrives. */
  lemma BasesAgree(req: Inbound, host: string, date: string, digest: string)
    requires "host" in req.headers && req.headers["host"] == host
    requires "date" in req.headers && req.headers["date"] == date
    requires "digest" in req.headers && req.headers["digest"] == digest
    ensures Base(req, COVERED) == Some(SignedText(req.method_, req.path, host, date, digest))
  {
    hide TargetLine, Join;
    FixedLine(req, "host", "host: ");
    FixedLine(req, "date", "date: ");
    FixedLine(req, "digest", "digest: ");
    TargetIsALine(req);
    hide LineFor, LinesFor;
    var l1 := [TargetLine(req.method_, req.path)];
    NoLines(req);
    LinesAppend(req, [], TARGET);
    assert [] + [TARGET] == [TARGET] && [] + l1 == l1;
    LinesAppend(req, [TARGET], "host");
    assert [TARGET] + ["host"] == [TARGET, "host"];
    LinesAppend(req, [TARGET, "host"], "date");
    assert [TARGET, "host"] + ["date"] == [TARGET, "host", "date"];
    LinesAppend(req, [TARGET, "host", "date"], "digest");
    assert [TARGET, "host", "date"] + ["digest"] == COVERED;
    assert l1 + ["host: " + host] + ["date: " + date] + ["digest: " + digest]
        == [l1[0], "host: " + host, "date: " + date, "digest: " + digest];
  }

  lemma FixedLine(req: Inbound, name: string, prefix: string)
    requires name in req.headers && name != TARGET && name + ": " == prefix
    ensures LineFor(req, name) == Some(prefix + req.headers[name])
  {
  }

  lemma NoLines(req: Inbound)
    ensures LinesFor(req, []) == Some([])
  {
  }

  lemma LinesAppend(req: Inbound, names: seq<string>, name: string)
    requires LineFor(req, name).Some? && LinesFor(req, names).Some?
    ensures LinesFor(req, names + [name]) == Some(LinesFor(req, names).value + [LineFor(req, name).value])
  {
    hide LineFor;
    assert (names + [name])[..|names|] == names;
  }

  lemma TargetIsALine(req: Inbound)
    ensures LineFor(req, TARGET) == Some(TargetLine(req.method_, req.path))
  {
  }

  /** A signed request verifies on arrival, under whatever other headers it
      carried, if the key id is non-empty and free of quotes, the base64 text
      is too, the key resolves, and RSA accepts its own signatures. */
  lemma SignedVerifies(c: Crypto, hs: Headers, method_: string, host: string, path: string, date: string,
                       body: string, keyId: string, sig: string, actor: Actor)
    requires keyId != "" && Lacks(keyId, '"') && c.resolve(keyId) == Some(actor)
    requires var text := SignedText(method_, path, host, date, c.digest(body));
             c.sign(text) == Some(sig) && sig != "" && Lacks(sig, '"') && c.check(actor.pem, text, sig)
    ensures var digest := c.digest(body);
            var header := PrintHeader(keyId, sig);
            var req := Inbound(method_, path, Received(SignedHeaders(hs, host, date, digest, header)), body);
            Verify(c, req) == Ok(actor)
  {
    hide PrintHeader, SignedText, SignedHeaders, Received, Base, Parse, Lacks, Lower;
    var digest := c.digest(body);
    var header := PrintHeader(keyId, sig);
    var req := Inbound(method_, path, Received(SignedHeaders(hs, host, date, digest, header)), body);
    ReceivedSigned(hs, host, date, digest, header);
    HeaderRoundTrip(keyId, sig);
    BasesAgree(req, host, date, digest);
  }

  // ------------------------------------------------ what a signature binds

  /** The text a covered name stands for. */
  function ValueOf(req: Inbound, name: string): string {
    if name == TARGET then Lower(req.method_) + " " + req.path
    else if name in req.headers then req.headers[name]
    else ""
  }

  lemma LineBinds(a: Inbound, b: Inbound, name: string)
    requires LineFor(a, name).Some? && LineFor(a, name) == LineFor(b, name)
    ensures ValueOf(a, name) == ValueOf(b, name)
  {
    hide Lower;
    if name == TARGET {
      var p := "(request-target): ";
      assert TargetLine(a.method_, a.path) == p + ValueOf(a, name);
      assert TargetLine(b.method_, b.path) == p + ValueOf(b, name);
      PrefixCancels(p, ValueOf(a, name), ValueOf(b, name));
    } else {
      PrefixCancels(name + ": ", ValueOf(a, name), ValueOf(b, name));
    }
  }

  lemma PrefixCancels(p: string, x: string, y: string)
    requires p + x == p + y
    ensures x == y
  {
    assert x == (p + x)[|p|..] && y == (p + y)[|p|..];
  }

  /** Covered names and values hold no newline, as no HTTP header can. */
  ghost predicate OneLineEach(req: Inbound, names: seq<string>) {
    forall k | 0 <= k < |names| && LineFor(req, names[k]).Some? :: Lacks(LineFor(req, names[k]).value, '\n')
  }

  /** Two requests with the same signed text agree on every covered value:
      neither a header, nor the method, nor the target can be exchanged. */
  lemma BaseBinds(a: Inbound, b: Inbound, names: seq<string>, k: nat)
    requires k < |names| && OneLineEach(a, names) && OneLineEach(b, names)
    requires Base(a, names).Some? && Base(a, names) == Base(b, names)
    ensures ValueOf(a, names[k]) == ValueOf(b, names[k])
  {
    hide LineFor, ValueOf, Join, Split;
    var la, lb := LinesFor(a, names).value, LinesFor(b, names).value;
    forall i | 0 <= i < |names| ensures |la| == |lb| == |names| && Lacks(la[i], '\n') && Lacks(lb[i], '\n') {
      LinesNeedEveryName(a, names, i);
      LinesNeedEveryName(b, names, i);
    }
    LinesNeedEveryName(a, names, k);
    LinesNeedEveryName(b, names, k);
    SplitJoin(la, '\n');
    SplitJoin(lb, '\n');
    assert la == lb;
    LineBinds(a, b, names[k]);
  }

  /** The target line in turn binds method and path, since a method has no space. */
  lemma TargetBinds(a: Inbound, b: Inbound)
    requires Lacks(a.method_, ' ') && Lacks(b.method_, ' ')
    requires ValueOf(a, TARGET) == ValueOf(b, TARGET)
    ensures Lower(a.method_) == Lower(b.method_) && a.path == b.path
  {
    assert Lacks(Lower(a.method_), ' ') && Lacks(Lower(b.method_), ' ');
    SplitOnceAfter(Lower(a.method_), ' ', a.path);
    SplitOnceAfter(Lower(b.method_), ' ', b.path);
  }

  // ------------------------------------------------------------ authenticity

  predicate PlainRequest(req: Inbound) {
    Lacks(req.method_, ' ') && Lacks(req.method_, '\n') && Lacks(req.path, '\n')
    && (forall n | n in req.headers :: Lacks(req.headers[n], '\n'))
  }

  predicate AllWords(names: seq<string>) {
    forall k | 0 <= k < |names| :: WordText(names[k])
  }

  /** Something the key's owner did sign: any list of names, over any request.
      Foreign senders choose their own list. */
  datatype Signing = Signing(names: seq<string>, req: Inbound)

  predicate SigningOk(g: Signing) {
    AllWords(g.names) && PlainRequest(g.req)
  }

  /** The accepted request names the signed list and carries, for each name in
      it, exactly the signed value; if the digest is among them, the body fits it. */
  ghost predicate Matches(c: Crypto, req: Inbound, names: seq<string>, g: Signing) {
    && names == g.names
    && (TARGET in names ==> Lower(req.method_) == Lower(g.req.method_) && req.path == g.req.path)
    && (forall n | n in names && n != TARGET ::
          n in req.headers && n in g.req.headers && req.headers[n] == g.req.headers[n])
    && ("digest" in names ==> "digest" in req.headers && DigestOk(c, req))
  }

  lemma WordIsOneLine(w: string)
    requires WordText(w)
    ensures Lacks(w, '\n')
  {
  }

  lemma PlainLine(req: Inbound, name: string)
    requires PlainRequest(req) && Lacks(name, '\n') && LineFor(req, name).Some?
    ensures Lacks(LineFor(req, name).value, '\n')
  {
    assert Lacks(Lower(req.method_), '\n');
  }

  lemma PlainLines(req: Inbound, names: seq<string>)
    requires PlainRequest(req) && AllWords(names)
    ensures OneLineEach(req, names)
  {
    hide LineFor, WordText, Lacks, PlainRequest;
    forall k | 0 <= k < |names| && LineFor(req, names[k]).Some? ensures Lacks(LineFor(req, names[k]).value, '\n') {
      WordIsOneLine(names[k]);
      PlainLine(req, names[k]);
    }
  }

  /** A line starts with its name, a colon and the first space of the line. */
  lemma LineNames(req: Inbound, name: string)
    requires WordText(name) && LineFor(req, name).Some?
    ensures exists rest: string :: LineFor(req, name).value == name + ":" + [' '] + rest
    ensures Lacks(name + ":", ' ')
  {
    hide Lower;
    var line := LineFor(req, name).value;
    if name == TARGET {
      var rest := Lower(req.method_) + " " + req.path;
      assert "(request-target): " == TARGET + ":" + [' '];
      assert line == name + ":" + [' '] + rest;
    } else {
      assert line == name + ":" + [' '] + req.headers[name];
    }
  }

  lemma SameLineSameName(a: Inbound, x: string, b: Inbound, y: string)
    requires WordText(x) && WordText(y)
    requires LineFor(a, x).Some? && LineFor(a, x) == LineFor(b, y)
    ensures x == y
  {
    hide LineFor, WordText, Lacks;
    LineNames(a, x);
    LineNames(b, y);
    var rx: string :| LineFor(a, x).value == x + ":" + [' '] + rx;
    var ry: string :| LineFor(b, y).value == y + ":" + [' '] + ry;
    SplitOnceAfter(x + ":", ' ', rx);
    SplitOnceAfter(y + ":", ' ', ry);
    assert x == (x + ":")[..|x|] && |x + ":"| == |y + ":"|;
    assert y == (y + ":")[..|y|];
  }

  /** The lines of a base, one for each name, none with a newline. */
  lemma BaseLines(req: Inbound, names: seq<string>) returns (lines: seq<string>)
    requires names != [] && AllWords(names) && PlainRequest(req) && Base(req, names).Some?
    ensures |lines| == |names| && Split(Base(req, names).value, '\n') == lines
    ensures forall k | 0 <= k < |names| :: LineFor(req, names[k]) == Some(lines[k])
  {
    hide LineFor, WordText, Join, Split, PlainRequest, Lacks;
    lines := LinesFor(req, names).value;
    PlainLines(req, names);
    LinesNeedEveryName(req, names, 0);
    forall k | 0 <= k < |names| ensures LineFor(req, names[k]) == Some(lines[k]) && Lacks(lines[k], '\n') {
      LinesNeedEveryName(req, names, k);
    }
    SplitJoin(lines, '\n');
  }

  lemma LineIsNotEmpty(req: Inbound, name: string)
    requires LineFor(req, name).Some?
    ensures LineFor(req, name).value != ""
  {
  }

  lemma OnlyTheEmptyListSignsNothing(req: Inbound, names: seq<string>)
    requires AllWords(names) && PlainRequest(req) && names != []
    ensures Base(req, names) != Some("")
  {
    hide LineFor, AllWords, PlainRequest, Base;
    if Base(req, names) == Some("") {
      var lines := BaseLines(req, names);
      SplitOnceLacks("", '\n');
      assert Split("", '\n') == [""];
      LineIsNotEmpty(req, names[0]);
    }
  }

  lemma EmptyBase(req: Inbound)
    ensures Base(req, []) == Some("")
  {
  }

  /** The signed text fixes the covered list itself: whatever list a sender
      names, it can only reproduce a signed text by naming the signed list. */
  lemma ListIsForced(req: Inbound, names: seq<string>, g: Signing)
    requires AllWords(names) && PlainRequest(req) && SigningOk(g)
    requires Base(req, names).Some? && Base(req, names) == Base(g.req, g.names)
    ensures names == g.names
  {
    hide LineFor, WordText, PlainRequest, Base;
    if names == [] || g.names == [] {
      EmptyBase(req);
      EmptyBase(g.req);
      if names != [] {
        OnlyTheEmptyListSignsNothing(req, names);
      } else if g.names != [] {
        OnlyTheEmptyListSignsNothing(g.req, g.names);
      }
    } else {
      var la := BaseLines(req, names);
      var lb := BaseLines(g.req, g.names);
      forall k | 0 <= k < |names| ensures names[k] == g.names[k] {
        SameLineSameName(req, names[k], g.req, g.names[k]);
      }
    }
  }

  lemma CoveredIsPresent(req: Inbound, names: seq<string>, n: string)
    requires Base(req, names).Some? && n in names && n != TARGET
    ensures n in req.headers
  {
    var k :| 0 <= k < |names| && names[k] == n;
    LinesNeedEveryName(req, names, k);
  }

  /** Same list and same text: same values throughout. */
  lemma SameTextSameValues(a: Inbound, b: Inbound, names: seq<string>, n: string)
    requires AllWords(names) && PlainRequest(a) && PlainRequest(b) && n in names
    requires Base(a, names).Some? && Base(a, names) == Base(b, names)
    ensures n == TARGET ==> Lower(a.method_) == Lower(b.method_) && a.path == b.path
    ensures n != TARGET ==> n in a.headers && n in b.headers && a.headers[n] == b.headers[n]
  {
    hide AllWords, Base, OneLineEach, Lower, Lacks;
    PlainLines(a, names);
    PlainLines(b, names);
    var k :| 0 <= k < |names| && names[k] == n;
    BaseBinds(a, b, names, k);
    if n == TARGET {
      TargetBinds(a, b);
    } else {
      CoveredIsPresent(a, names, n);
      CoveredIsPresent(b, names, n);
    }
  }

  /** The converse of `SignedVerifies`: if RSA accepts under this key only
      texts its owner signed, whatever lists the owner chose, then every
      accepted request names exactly a signed list and is value for value, on
      that list, a request the owner signed. */
  lemma AcceptedWasSigned(c: Crypto, req: Inbound, actor: Actor, log: set<Signing>)
    requires Verify(c, req) == Ok(actor)
    requires forall text, sig :: c.check(actor.pem, text, sig) ==> exists g :: g in log && Base(g.req, g.names) == Some(text)
    requires PlainRequest(req) && forall g | g in log :: SigningOk(g)
    ensures exists g :: g in log && Matches(c, req, Parse(req.headers["signature"]).value.headers, g)
  {
    hide Parse, Base, DigestOk, PlainRequest, WordText, Lower;
    var h := Parse(req.headers["signature"]).value;
    var base := Base(req, h.headers).value;
    assert c.check(actor.pem, base, h.signature);
    var g :| g in log && Base(g.req, g.names) == Some(base);
    ParsedNames(req.headers["signature"]);
    ListIsForced(req, h.headers, g);
    forall n | n in h.headers
      ensures n == TARGET ==> Lower(req.method_) == Lower(g.req.method_) && req.path == g.req.path
      ensures n != TARGET ==> n in req.headers && n in g.req.headers && req.headers[n] == g.req.headers[n]
    {
      SameTextSameValues(req, g.req, h.headers, n);
    }
    assert Matches(c, req, h.headers, g);
  }

  /** With the list that `sign_request` covers, nothing that matters is left open. */
  lemma OwnListBindsAll(c: Crypto, req: Inbound, g: Signing)
    requires Matches(c, req, COVERED, g)
    ensures Lower(req.method_) == Lower(g.req.method_) && req.path == g.req.path
    ensures "host" in req.headers && "host" in g.req.headers && req.headers["host"] == g.req.headers["host"]
    ensures "date" in req.headers && "date" in g.req.headers && req.headers["date"] == g.req.headers["date"]
    ensures "digest" in req.headers && "digest" in g.req.headers && req.headers["digest"] == g.req.headers["digest"]
    ensures DigestOk(c, req)
  {
    hide DigestOk, Lower;
    assert COVERED[0] == TARGET && COVERED[1] == "host" && COVERED[2] == "date" && COVERED[3] == "digest";
  }

  lemma {:induction false} LinesIgnoreBody(req: Inbound, body: string, names: seq<string>)
    ensures LinesFor(req.(body := body), names) == LinesFor(req, names)
  {
    if names != [] {
      LinesIgnoreBody(req, body, names[..|names| - 1]);
    }
  }

  /** The body is bound exactly by covering the digest: a request is accepted
      with every other body if and only if its sender left the digest out. */
  lemma BodyIsBoundIff(c: Crypto, req: Inbound, actor: Actor)
    requires Verify(c, req) == Ok(actor)
    requires "digest" in req.headers ==> exists other: string :: !DigestOk(c, req.(body := other))
    ensures (forall body: string :: Verify(c, req.(body := body)) == Ok(actor))
            <==> "digest" !in Parse(req.headers["signature"]).value.headers
  {
    hide Parse, DigestOk, LinesFor, Join;
    var h := Parse(req.headers["signature"]).value;
    if "digest" in h.headers {
      var other: string :| !DigestOk(c, req.(body := other));
      assert Verify(c, req.(body := other)) == Err(DigestMismatch);
    } else {
      forall body: string ensures Verify(c, req.(body := body)) == Ok(actor) {
        LinesIgnoreBody(req, body, h.headers);
      }
    }
  }
}
