/** What signing and verifying mean, apart from the code: the target that is
    signed, the headers that travel, and exactly which requests are accepted. */
module SignedLaws {
  import opened Text
  import opened HttpSignature
  import opened SignatureLists
  import opened SignedRequests

  // --------------------------------------------------------------- the target

  /** The signed target is path and query: it splits at its first `?`. */
  lemma TargetSplits(u: Url)
    requires Lacks(u.path, '?')
    ensures SplitOnce(RequestPath(u), '?') == if u.query.Some? then Some((u.path, u.query.value)) else None
  {
    if u.query.Some? {
      SplitOnceAfter(u.path, '?', u.query.value);
      assert u.path + "?" + u.query.value == u.path + ['?'] + u.query.value;
    } else {
      SplitOnceLacks(u.path, '?');
    }
  }

  /** A receiver that finds this path and query in the target it was sent. */
  ghost predicate SeesTarget(target: string, u: Url) {
    match u.query
    case None => target == u.path
    case Some(q) => SplitOnce(target, '?') == Some((u.path, q))
  }

  /** What `sign_request` emits for a URL verifies at a receiver that sees its
      path and query and the headers and body as they were sent. */
  lemma EmittedVerifies(c: Crypto, u: Url, target: string, method_: string, hs: Headers, date: string, body: string,
                        keyId: string, sig: string, actor: Actor)
    requires u.host.Some? && SeesTarget(target, u)
    requires keyId != "" && Lacks(keyId, '"') && sig != "" && Lacks(sig, '"') && c.resolve(keyId) == Some(actor)
    requires var text := SignedText(method_, RequestPath(u), u.host.value, date, c.digest(body));
             c.sign(text) == Some(sig) && c.check(actor.pem, text, sig)
    ensures var sent := SignedHeaders(hs, u.host.value, date, c.digest(body), PrintHeader(keyId, sig));
            Verify(c, Inbound(method_, target, Received(sent), body)) == Ok(actor)
  {
    hide Verify, Received, SignedHeaders, SignedText, PrintHeader, Lacks;
    if u.query.Some? {
      assert target == u.path + ['?'] + u.query.value;
      assert target == RequestPath(u);
    }
    SignedVerifies(c, hs, method_, u.host.value, target, date, body, keyId, sig, actor);
  }

  // -------------------------------------------------------------- the headers

  /** The values of one header, in order, whatever the case of its name. */
  function ValuesOf(hs: Headers, name: string): seq<string> {
    if hs == [] then []
    else
      var init := ValuesOf(hs[..|hs| - 1], name);
      if Lower(hs[|hs| - 1].0) == name then init + [hs[|hs| - 1].1] else init
  }

  lemma {:induction false} JoinAppend(vs: seq<string>, v: string, sep: string)
    ensures Join(vs + [v], sep) == if vs == [] then v else Join(vs, sep) + sep + v
  {
    if |vs| <= 1 {
      if vs == [] {
        assert vs + [v] == [v];
      } else {
        assert (vs + [v])[1..] == [v];
      }
    } else {
      assert (vs + [v])[1..] == vs[1..] + [v];
      JoinAppend(vs[1..], v, sep);
      assert vs[0] + sep + (Join(vs[1..], sep) + sep + v) == vs[0] + sep + Join(vs[1..], sep) + sep + v;
    }
  }

  /** On arrival a header is there if it was sent, its values joined by commas. */
  lemma {:induction false} ReceivedJoins(hs: Headers, name: string)
    ensures name in Received(hs) <==> ValuesOf(hs, name) != []
    ensures name in Received(hs) ==> Received(hs)[name] == Join(ValuesOf(hs, name), ", ")
  {
    hide Lower, Join;
    if hs != [] {
      ReceivedJoins(hs[..|hs| - 1], name);
      JoinAppend(ValuesOf(hs[..|hs| - 1], name), hs[|hs| - 1].1, ", ");
    }
  }

  lemma {:induction false} ValuesConcat(a: Headers, b: Headers, name: string)
    ensures ValuesOf(a + b, name) == ValuesOf(a, name) + ValuesOf(b, name)
    decreases |b|
  {
    hide Lower;
    if b == [] {
      assert a + b == a;
    } else {
      assert (a + b)[..|a + b| - 1] == a + b[..|b| - 1];
      ValuesConcat(a, b[..|b| - 1], name);
    }
  }

  lemma {:induction false} RetainedValues(hs: Headers, name: string)
    requires name != "host" && name != "date" && name != "digest" && name != "signature"
    ensures ValuesOf(Retained(hs), name) == ValuesOf(hs, name)
  {
    hide Lower;
    if hs != [] {
      var init, last := hs[..|hs| - 1], hs[|hs| - 1];
      RetainedValues(init, name);
      if !IsReplaced(last.0) {
        assert (Retained(init) + [last])[..|Retained(init)|] == Retained(init);
      }
    }
  }

  lemma {:induction false} NoValues(hs: Headers, name: string)
    requires forall i | 0 <= i < |hs| :: Lower(hs[i].0) != name
    ensures ValuesOf(hs, name) == []
  {
    hide Lower;
    if hs != [] {
      NoValues(hs[..|hs| - 1], name);
    }
  }

  /** Signing leaves every other header as it was: same values, same order. */
  lemma OtherHeadersKept(hs: Headers, host: string, date: string, digest: string, header: string, name: string)
    requires name != "host" && name != "date" && name != "digest" && name != "signature"
    ensures ValuesOf(SignedHeaders(hs, host, date, digest, header), name) == ValuesOf(hs, name)
  {
    FixedLower();
    hide Lower, Retained;
    var four: Headers := [("Host", host), ("Date", date), ("Digest", digest), ("Signature", header)];
    ValuesConcat(Retained(hs), four, name);
    RetainedValues(hs, name);
    NoValues(four, name);
  }

  // --------------------------------------------------------------- acceptance

  /** The line that a covered name contributes. */
  function LineText(req: Inbound, name: string): string
    requires name == TARGET || name in req.headers
  {
    if name == TARGET then "(request-target)" + ": " + (Lower(req.method_) + " " + req.path)
    else name + ": " + req.headers[name]
  }

  ghost predicate AllPresent(req: Inbound, names: seq<string>) {
    forall i | 0 <= i < |names| :: names[i] == TARGET || names[i] in req.headers
  }

  function LineTexts(req: Inbound, names: seq<string>): (r: seq<string>)
    requires AllPresent(req, names)
    ensures |r| == |names| && forall i | 0 <= i < |names| :: r[i] == LineText(req, names[i])
  {
    seq(|names|, i requires 0 <= i < |names| => LineText(req, names[i]))
  }

  lemma LineMeans(req: Inbound, name: string)
    ensures LineFor(req, name) == if name == TARGET || name in req.headers then Some(LineText(req, name)) else None
  {
    hide Lower;
    if name == TARGET {
      assert "(request-target)" + ": " == "(request-target): ";
      var m, path := Lower(req.method_), req.path;
      assert "(request-target): " + m + " " + path == "(request-target): " + (m + " " + path);
    }
  }

  lemma {:induction false} BaseMeans(req: Inbound, names: seq<string>)
    ensures LinesFor(req, names) == if AllPresent(req, names) then Some(LineTexts(req, names)) else None
    decreases |names|
  {
    hide LineFor, LineText;
    if names != [] {
      var init, name := names[..|names| - 1], names[|names| - 1];
      BaseMeans(req, init);
      LineMeans(req, name);
      assert AllPresent(req, names) <==> AllPresent(req, init) && (name == TARGET || name in req.headers);
      if AllPresent(req, names) {
        assert LineTexts(req, names) == LineTexts(req, init) + [LineText(req, name)];
      }
    }
  }

  /** A digest header in either spelling; the first without regard to case. */
  predicate DigestFits(c: Crypto, req: Inbound) {
    && "digest" in req.headers
    && (SameLetters(req.headers["digest"], c.digest(req.body)) || req.headers["digest"] == c.digestRfc9530(req.body))
  }

  lemma DigestMeans(c: Crypto, req: Inbound)
    requires "digest" in req.headers
    ensures DigestOk(c, req) <==> DigestFits(c, req)
  {
    LowerMeans(req.headers["digest"], c.digest(req.body));
    hide Lower, SameLetters;
  }

  /** A parsed header and the request it came with. */
  ghost predicate Sound(c: Crypto, req: Inbound, h: SignatureHeader, actor: Actor) {
    && (h.algorithm == "rsa-sha256" || h.algorithm == "hs2019")
    && AllPresent(req, h.headers) && ("digest" in h.headers ==> DigestFits(c, req))
    && c.resolve(h.keyId) == Some(actor)
    && c.check(actor.pem, Join(LineTexts(req, h.headers), "\n"), h.signature)
  }

  lemma SoundIsAccepted(c: Crypto, req: Inbound, h: SignatureHeader, actor: Actor)
    requires "signature" in req.headers && Parse(req.headers["signature"]) == Ok(h)
    ensures Verify(c, req) == Ok(actor) <==> Sound(c, req, h, actor)
  {
    hide Parse, DigestOk, DigestFits, Join, LinesFor, LineTexts, AllPresent;
    BaseMeans(req, h.headers);
    if "digest" in req.headers {
      DigestMeans(c, req);
    } else {
      NoDigest(c, req);
    }
  }

  /** Exactly which requests are accepted, for every sender's list of attributes:
      key and signature given, one of the two algorithms in any case or none,
      every listed header present, the body fitting the digest if that is listed,
      and the signature checking, under the key that resolves, over the lines in
      the listed order. */
  lemma AcceptedIff(c: Crypto, req: Inbound, attrs: seq<Attr>, actor: Actor)
    requires attrs != [] && forall i | 0 <= i < |attrs| :: AttrOk(attrs[i])
    requires "signature" in req.headers && req.headers["signature"] == ListText(attrs)
    ensures Verify(c, req) == Ok(actor) <==>
            && KeyOf(attrs) != "" && SignatureOf(attrs) != ""
            && Sound(c, req, SignatureHeader(KeyOf(attrs), AlgorithmOf(attrs), NamesOf(attrs), SignatureOf(attrs)), actor)
  {
    hide *;
    ParsesList(attrs);
    var h := SignatureHeader(KeyOf(attrs), AlgorithmOf(attrs), NamesOf(attrs), SignatureOf(attrs));
    if KeyOf(attrs) != "" && SignatureOf(attrs) != "" {
      SoundIsAccepted(c, req, h, actor);
    } else {
      UnparsedIsRefused(c, req);
    }
  }

  lemma UnparsedIsRefused(c: Crypto, req: Inbound)
    requires "signature" in req.headers && Parse(req.headers["signature"]).Err?
    ensures Verify(c, req).Err?
  {
    hide Parse;
  }

  lemma NoDigest(c: Crypto, req: Inbound)
    requires "digest" !in req.headers
    ensures !DigestFits(c, req)
  {
  }

  /** Why a request with a readable header is refused: the first of these that
      fails, in this order. */
  lemma RefusedBecause(c: Crypto, req: Inbound, h: SignatureHeader)
    requires "signature" in req.headers && Parse(req.headers["signature"]) == Ok(h)
    ensures var known := h.algorithm == "rsa-sha256" || h.algorithm == "hs2019";
            var fits := "digest" in h.headers ==> DigestFits(c, req);
            && (Verify(c, req) == Err(UnsupportedAlgorithm) <==> !known)
            && (Verify(c, req) == Err(MissingHeader) <==> known && "digest" in h.headers && "digest" !in req.headers)
            && (Verify(c, req) == Err(DigestMismatch) <==> known && "digest" in req.headers && !fits)
            && (Verify(c, req) == Err(UnresolvedKey) <==> known && fits && c.resolve(h.keyId) == None)
            && (Verify(c, req) == Err(MissingCovered) <==> known && fits && c.resolve(h.keyId).Some? && !AllPresent(req, h.headers))
  {
    hide Parse, DigestOk, DigestFits, Join, LinesFor, LineTexts, AllPresent;
    BaseMeans(req, h.headers);
    if "digest" in req.headers {
      DigestMeans(c, req);
    } else {
      NoDigest(c, req);
    }
  }
}
