/** The identity provider's authorization-code flow: `authorize` mints a
    single-use code, `token` redeems it. */
module Provider {
  import opened Text

  /** `AuthCodeRecord`. */
  datatype CodeRecord = CodeRecord(
    code: string, client: string, account: string, redirectUri: string,
    challenge: Option<string>, issuedAt: nat, scope: Option<string>)

  datatype Client = Client(id: string, redirectUris: seq<string>)

  /** What the client registry answers at the time of the request. */
  datatype Lookup = LookupFailed | Unknown | Found(client: Client)

  datatype AuthorizeRequest = AuthorizeRequest(
    clientId: string, responseType: string, redirectUri: string, state: Option<string>,
    challenge: Option<string>, challengeMethod: Option<string>, scope: Option<string>,
    sessionAccount: Option<string>)

  datatype AuthorizeResponse =
    | Redirect(redirectUri: string, code: string, state: Option<string>)
    | NeedsLogin

  datatype Error = InvalidClient | ClientDocument | InvalidRequest | InvalidGrant | InvalidDpop | UserStore | Crypto

  /** The outcome of verifying the DPoP header. */
  datatype Dpop = NoProof | BadProof | Proof(jkt: string)

  datatype User = User(id: string, webid: string)

  datatype UserLookup = UserFailed | NoUser | UserFound(user: User)

  datatype TokenRequest = TokenRequest(
    grantType: string, dpop: Dpop, code: string, clientId: string, redirectUri: string,
    verifier: Option<string>)

  datatype AccessToken = AccessToken(
    client: string, subject: string, webid: string, scope: string, jkt: string, issuedAt: nat)

  type Codes = map<string, CodeRecord>

  // -------------------------------------------------------------- authorize

  /** The checks of `authorize`, in order, up to the session gate. */
  function AuthorizeCheck(req: AuthorizeRequest, lookup: Lookup): Result<Client, Error> {
    match lookup
    case LookupFailed => Err(ClientDocument)
    case Unknown => Err(InvalidClient)
    case Found(client) =>
      if req.responseType != "code" then Err(InvalidRequest)
      else if req.redirectUri !in client.redirectUris then Err(InvalidRequest)
      else if req.challengeMethod != Some("S256") then Err(InvalidRequest)
      else if req.challenge.None? then Err(InvalidRequest)
      else Ok(client)
  }

  /** The record `authorize` mints, when it mints one. */
  function Minted(req: AuthorizeRequest, lookup: Lookup, fresh_: string, now: nat): Option<CodeRecord> {
    match AuthorizeCheck(req, lookup)
    case Err(_) => None
    case Ok(client) =>
      if req.sessionAccount.None? then None
      else Some(CodeRecord(fresh_, client.id, req.sessionAccount.value, req.redirectUri, req.challenge, now, req.scope))
  }

  /** A request `authorize` must honour: a known client, one of its redirect
      URIs, the code flow, an S256 challenge. */
  predicate GoodRequest(req: AuthorizeRequest, lookup: Lookup) {
    && lookup.Found? && req.responseType == "code"
    && (exists k :: 0 <= k < |lookup.client.redirectUris| && lookup.client.redirectUris[k] == req.redirectUri)
    && req.challengeMethod == Some("S256") && req.challenge.Some?
  }

  /** A code is minted exactly for a good request with a session, and then it
      carries what was asked; without a session the user is sent to log in; any
      other request is refused, by cause. */
  lemma MintedIff(req: AuthorizeRequest, lookup: Lookup, fresh_: string, now: nat)
    ensures Minted(req, lookup, fresh_, now) ==
            if GoodRequest(req, lookup) && req.sessionAccount.Some?
            then Some(CodeRecord(fresh_, lookup.client.id, req.sessionAccount.value, req.redirectUri, req.challenge, now, req.scope))
            else None
    ensures AuthorizeCheck(req, lookup).Ok? <==> GoodRequest(req, lookup)
    ensures AuthorizeCheck(req, lookup) == Err(ClientDocument) <==> lookup == LookupFailed
    ensures AuthorizeCheck(req, lookup) == Err(InvalidClient) <==> lookup == Unknown
    ensures AuthorizeCheck(req, lookup) == Err(InvalidRequest) <==> lookup.Found? && !GoodRequest(req, lookup)
  {
    if lookup.Found? && req.redirectUri in lookup.client.redirectUris {
      var k :| 0 <= k < |lookup.client.redirectUris| && lookup.client.redirectUris[k] == req.redirectUri;
    }
  }

  // ------------------------------------------------------------------ token

  /** Does the request get as far as consuming its code? */
  predicate ReachesTake(req: TokenRequest) {
    req.grantType == "authorization_code" && req.dpop.Proof?
  }

  /** `take_code`: the record, unless it is missing or too old. */
  function Taken(codes: Codes, code: string, ttl: nat, now: nat): Option<CodeRecord> {
    if code !in codes then None
    else if now > codes[code].issuedAt + ttl then None
    else Some(codes[code])
  }

  /** The checks after the code is consumed, and the token they lead to if the
      signing key works. */
  function Redeem(s256: string -> string, rec: CodeRecord, req: TokenRequest, users: string -> UserLookup,
                  signs: bool, now: nat): Result<AccessToken, Error>
    requires req.dpop.Proof?
  {
    if rec.client != req.clientId || rec.redirectUri != req.redirectUri then Err(InvalidGrant)
    else if rec.challenge.Some? && req.verifier.None? then Err(InvalidRequest)
    else if rec.challenge.Some? && s256(req.verifier.value) != rec.challenge.value then Err(InvalidGrant)
    else
      match users(rec.account)
      case UserFailed => Err(UserStore)
      case NoUser => Err(InvalidGrant)
      case UserFound(user) =>
        if !signs then Err(Crypto) else
        Ok(AccessToken(rec.client, user.id, user.webid,
                       if rec.scope.Some? then rec.scope.value else "openid webid", req.dpop.jkt, now))
  }

  // ------------------------------------------------------------ the objects

  class SessionStore {
    var codes: Codes
    const codeTtl: nat

    constructor (codeTtl: nat)
      ensures codes == map[] && this.codeTtl == codeTtl
    {
      codes, this.codeTtl := map[], codeTtl;
    }

    method IssueCode(fresh_: string, client: string, account: string, redirectUri: string,
                     challenge: Option<string>, scope: Option<string>, now: nat) returns (rec: CodeRecord)
      modifies this
      ensures rec == CodeRecord(fresh_, client, account, redirectUri, challenge, now, scope)
      ensures codes == old(codes)[fresh_ := rec]
    {
      rec := CodeRecord(fresh_, client, account, redirectUri, challenge, now, scope);
      codes := codes[fresh_ := rec];
    }

    /** Removes the code whether or not it is still good. */
    method TakeCode(code: string, now: nat) returns (rec: Option<CodeRecord>)
      modifies this
      ensures codes == old(codes) - {code} && rec == Taken(old(codes), code, codeTtl, now)
    {
      if code !in codes {
        return None;
      }
      var found := codes[code];
      codes := codes - {code};
      if now > found.issuedAt + codeTtl {
        return None;
      }
      rec := Some(found);
    }
  }

  class Provider {
    const sessions: SessionStore

    constructor (sessions: SessionStore)
      ensures this.sessions == sessions
    {
      this.sessions := sessions;
    }

    method Authorize(req: AuthorizeRequest, lookup: Lookup, fresh_: string, now: nat)
      returns (r: Result<AuthorizeResponse, Error>)
      modifies sessions
      ensures var minted := Minted(req, lookup, fresh_, now);
              && sessions.codes == (if minted.Some? then old(sessions.codes)[fresh_ := minted.value] else old(sessions.codes))
              && (minted.Some? <==> r.Ok? && r.value.Redirect?)
              && (minted.Some? ==> r.value == Redirect(req.redirectUri, fresh_, req.state))
      ensures var check := AuthorizeCheck(req, lookup);
              && (check.Err? ==> r == Err(check.error))
              && (check.Ok? && req.sessionAccount.None? ==> r == Ok(NeedsLogin))
    {
      if lookup.LookupFailed? { return Err(ClientDocument); }
      if lookup.Unknown? { return Err(InvalidClient); }
      var client := lookup.client;
      if req.responseType != "code" { return Err(InvalidRequest); }
      if req.redirectUri !in client.redirectUris { return Err(InvalidRequest); }
      if req.challengeMethod != Some("S256") { return Err(InvalidRequest); }
      if req.challenge.None? { return Err(InvalidRequest); }
      match req.sessionAccount {
        case None => return Ok(NeedsLogin);
        case Some(account) =>
          var rec := sessions.IssueCode(fresh_, client.id, account, req.redirectUri, req.challenge, req.scope, now);
          return Ok(Redirect(req.redirectUri, rec.code, req.state));
      }
    }

    method Token(s256: string -> string, req: TokenRequest, users: string -> UserLookup, signs: bool, now: nat)
      returns (r: Result<AccessToken, Error>)
      modifies sessions
      ensures sessions.codes == if ReachesTake(req) then old(sessions.codes) - {req.code} else old(sessions.codes)
      ensures !ReachesTake(req) ==>
                r == Err(if req.grantType != "authorization_code" then InvalidRequest else InvalidDpop)
      ensures ReachesTake(req) ==>
                var rec := Taken(old(sessions.codes), req.code, sessions.codeTtl, now);
                r == if rec.Some? then Redeem(s256, rec.value, req, users, signs, now) else Err(InvalidGrant)
    {
      if req.grantType != "authorization_code" { return Err(InvalidRequest); }
      if !req.dpop.Proof? { return Err(InvalidDpop); }
      var taken := sessions.TakeCode(req.code, now);
      if taken.None? { return Err(InvalidGrant); }
      var rec := taken.value;
      if rec.client != req.clientId { return Err(InvalidGrant); }
      if rec.redirectUri != req.redirectUri { return Err(InvalidGrant); }
      if rec.challenge.Some? {
        if req.verifier.None? { return Err(InvalidRequest); }
        if s256(req.verifier.value) != rec.challenge.value { return Err(InvalidGrant); }
      }
      match users(rec.account) {
        case UserFailed => return Err(UserStore);
        case NoUser => return Err(InvalidGrant);
        case UserFound(user) =>
          if !signs { return Err(Crypto); }
          return Ok(AccessToken(rec.client, user.id, user.webid,
                                if rec.scope.Some? then rec.scope.value else "openid webid", req.dpop.jkt, now));
      }
    }
  }

  // ------------------------------------------------------------- whole runs

  /** A request with what the environment contributes: registry and user
      answers, the random code, the time. */
  datatype Call =
    | CallAuthorize(req: AuthorizeRequest, lookup: Lookup, fresh_: string, now: nat)
    | CallToken(treq: TokenRequest, users: string -> UserLookup, signs: bool, tnow: nat)

  datatype Config = Config(s256: string -> string, ttl: nat)

  /** The codes outstanding after the first `n` calls. */
  function CodesAfter(c: Config, calls: seq<Call>, n: nat): Codes
    requires n <= |calls|
  {
    if n == 0 then map[]
    else
      var codes := CodesAfter(c, calls, n - 1);
      match calls[n - 1]
      case CallAuthorize(req, lookup, fresh_, now) =>
        var minted := Minted(req, lookup, fresh_, now);
        if minted.Some? then codes[fresh_ := minted.value] else codes
      case CallToken(req, users, _, now) => if ReachesTake(req) then codes - {req.code} else codes
  }

  /** The record minted by call `i`, if it minted one. */
  function MintedBy(calls: seq<Call>, i: nat): Option<CodeRecord>
    requires i < |calls|
  {
    match calls[i]
    case CallAuthorize(req, lookup, fresh_, now) => Minted(req, lookup, fresh_, now)
    case CallToken(_, _, _, _) => None
  }

  /** The token issued by call `j`, if it issued one. */
  function IssuedBy(c: Config, calls: seq<Call>, j: nat): Option<AccessToken>
    requires j < |calls|
  {
    match calls[j]
    case CallAuthorize(_, _, _, _) => None
    case CallToken(req, users, signs, now) =>
      var rec := Taken(CodesAfter(c, calls, j), req.code, c.ttl, now);
      if ReachesTake(req) && rec.Some? && Redeem(c.s256, rec.value, req, users, signs, now).Ok?
      then Some(Redeem(c.s256, rec.value, req, users, signs, now).value) else None
  }

  /** Random codes do not repeat. */
  ghost predicate FreshCodes(calls: seq<Call>) {
    forall i, j | 0 <= i < j < |calls| && MintedBy(calls, i).Some? && MintedBy(calls, j).Some? ::
      MintedBy(calls, i).value.code != MintedBy(calls, j).value.code
  }

  /** Every outstanding code was minted, under its own name, by an earlier
      call, and has not been presented since. */
  ghost predicate Traced(calls: seq<Call>, n: nat, code: string, rec: CodeRecord)
    requires n <= |calls|
  {
    exists i :: 0 <= i < n && MintedBy(calls, i) == Some(rec) && rec.code == code
                && forall k | i < k < n :: !Presents(calls[k], code)
  }

  predicate Presents(call: Call, code: string) {
    call.CallToken? && ReachesTake(call.treq) && call.treq.code == code
  }

  lemma TracedStep(calls: seq<Call>, n: nat, code: string, rec: CodeRecord)
    requires n < |calls| && Traced(calls, n, code, rec) && !Presents(calls[n], code)
    ensures Traced(calls, n + 1, code, rec)
  {
    hide MintedBy, Presents;
    var i :| 0 <= i < n && MintedBy(calls, i) == Some(rec) && rec.code == code
             && forall k | i < k < n :: !Presents(calls[k], code);
    assert MintedBy(calls, i) == Some(rec);
  }

  lemma {:induction false} CodesAreTraced(c: Config, calls: seq<Call>, n: nat)
    requires n <= |calls|
    ensures forall code | code in CodesAfter(c, calls, n) :: Traced(calls, n, code, CodesAfter(c, calls, n)[code])
  {
    if n > 0 {
      CodesAreTraced(c, calls, n - 1);
      var before, after := CodesAfter(c, calls, n - 1), CodesAfter(c, calls, n);
      var minted := MintedBy(calls, n - 1);
      forall code | code in after ensures Traced(calls, n, code, after[code]) {
        if minted.Some? && code == minted.value.code {
          assert MintedBy(calls, n - 1) == Some(after[code]);
        } else {
          assert after[code] == before[code];
          TracedStep(calls, n - 1, code, before[code]);
        }
      }
    }
  }

  // ---------------------------------------------------------------- theorem

  /** Call `i` authorised what call `j` was granted: same client, redirect URI
      (registered at the time), code and account, a challenge that the presented
      verifier hashes to, and an age within the lifetime of a code. The token's
      subject is the user that the account id was resolved to. */
  ghost predicate Authorises(c: Config, calls: seq<Call>, i: nat, j: nat, token: AccessToken)
    requires i < |calls| && j < |calls|
  {
    && calls[i].CallAuthorize? && calls[j].CallToken?
    && var a, t := calls[i].req, calls[j].treq;
    && MintedBy(calls, i).Some? && calls[i].fresh_ == t.code
    && calls[i].lookup.Found? && a.responseType == "code"
    && a.redirectUri in calls[i].lookup.client.redirectUris
    && a.redirectUri == t.redirectUri
    && calls[i].lookup.client.id == t.clientId == token.client
    && a.sessionAccount == Some(MintedBy(calls, i).value.account)
    && a.challengeMethod == Some("S256") && t.verifier.Some?
    && a.challenge == Some(c.s256(t.verifier.value))
    && calls[j].tnow <= calls[i].now + c.ttl
    && t.dpop == Proof(token.jkt)
    && calls[j].users(MintedBy(calls, i).value.account) == UserFound(User(token.subject, token.webid))
    && token.scope == (if a.scope.Some? then a.scope.value else "openid webid") && token.issuedAt == calls[j].tnow
  }

  lemma MintedFacts(calls: seq<Call>, i: nat, rec: CodeRecord)
    requires i < |calls| && MintedBy(calls, i) == Some(rec)
    ensures var call := calls[i];
            && call.CallAuthorize? && call.fresh_ == rec.code && call.lookup.Found?
            && call.req.responseType == "code"
            && call.req.redirectUri == rec.redirectUri && call.req.redirectUri in call.lookup.client.redirectUris
            && call.lookup.client.id == rec.client && call.req.sessionAccount == Some(rec.account)
            && call.req.challengeMethod == Some("S256") && call.req.challenge == rec.challenge && rec.challenge.Some?
            && call.now == rec.issuedAt && call.req.scope == rec.scope
  {
  }

  /** Provenance: every token of every run goes back to exactly one earlier
      authorisation, and no other redemption of that code came in between. */
  lemma Provenance(c: Config, calls: seq<Call>, j: nat)
    requires FreshCodes(calls) && j < |calls| && IssuedBy(c, calls, j).Some?
    ensures exists i :: 0 <= i < j && Authorises(c, calls, i, j, IssuedBy(c, calls, j).value)
                        && (forall k | i < k < j :: !Presents(calls[k], calls[j].treq.code))
                        && (forall h | 0 <= h < |calls| && MintedBy(calls, h).Some? && h != i ::
                              MintedBy(calls, h).value.code != calls[j].treq.code)
  {
    var code := calls[j].treq.code;
    var rec := Taken(CodesAfter(c, calls, j), code, c.ttl, calls[j].tnow).value;
    CodesAreTraced(c, calls, j);
    hide MintedBy, CodesAfter;
    assert Traced(calls, j, code, rec);
    var i :| 0 <= i < j && MintedBy(calls, i) == Some(rec) && rec.code == code
             && forall k | i < k < j :: !Presents(calls[k], code);
    MintedFacts(calls, i, rec);
    assert Authorises(c, calls, i, j, IssuedBy(c, calls, j).value);
  }

  /** Single use: two tokens of one run never come from the same code. */
  lemma SingleUse(c: Config, calls: seq<Call>, j: nat, k: nat)
    requires FreshCodes(calls) && j < k < |calls|
    requires IssuedBy(c, calls, j).Some? && IssuedBy(c, calls, k).Some?
    ensures calls[j].treq.code != calls[k].treq.code
  {
    var code := calls[k].treq.code;
    Provenance(c, calls, k);
    var l :| 0 <= l < k && Authorises(c, calls, l, k, IssuedBy(c, calls, k).value)
             && (forall n | l < n < k :: !Presents(calls[n], code));
    MintedFacts(calls, l, MintedBy(calls, l).value);
    if calls[j].treq.code == code {
      Provenance(c, calls, j);
      assert Presents(calls[j], code);
    }
  }

  /** A redemption that reaches `take_code` burns the code even when it fails:
      nothing is issued for it afterwards. */
  lemma Burned(c: Config, calls: seq<Call>, i: nat, j: nat, k: nat)
    requires FreshCodes(calls) && i < j < k < |calls|
    requires MintedBy(calls, i).Some? && Presents(calls[j], MintedBy(calls, i).value.code)
    requires calls[k].CallToken? && calls[k].treq.code == MintedBy(calls, i).value.code
    ensures IssuedBy(c, calls, k).None?
  {
    if IssuedBy(c, calls, k).Some? {
      Provenance(c, calls, k);
    }
  }

  /** A minted code stays redeemable until it is presented. */
  lemma {:induction false} MintedSurvives(c: Config, calls: seq<Call>, i: nat, k: nat)
    requires FreshCodes(calls) && i < k <= |calls| && MintedBy(calls, i).Some?
    requires forall n | i < n < k :: !Presents(calls[n], MintedBy(calls, i).value.code)
    ensures var rec := MintedBy(calls, i).value;
            rec.code in CodesAfter(c, calls, k) && CodesAfter(c, calls, k)[rec.code] == rec
    decreases k
  {
    var rec := MintedBy(calls, i).value;
    MintedFacts(calls, i, rec);
    if i + 1 < k {
      MintedSurvives(c, calls, i, k - 1);
      assert !Presents(calls[k - 1], rec.code);
      if MintedBy(calls, k - 1).Some? {
        assert MintedBy(calls, k - 1).value.code != rec.code;
      }
    }
  }

  /** Conversely, the rightful client always gets its token: a code that has
      not been presented, redeemed in time with matching client, redirect URI,
      verifier and proof for a known account, is honoured if signing works. */
  lemma Honoured(c: Config, calls: seq<Call>, i: nat, k: nat)
    requires FreshCodes(calls) && i < k < |calls| && MintedBy(calls, i).Some?
    requires forall n | i < n < k :: !Presents(calls[n], MintedBy(calls, i).value.code)
    requires var rec := MintedBy(calls, i).value;
             && Presents(calls[k], rec.code) && calls[k].tnow <= rec.issuedAt + c.ttl
             && calls[k].treq.clientId == rec.client && calls[k].treq.redirectUri == rec.redirectUri
             && calls[k].treq.verifier.Some? && rec.challenge == Some(c.s256(calls[k].treq.verifier.value))
             && calls[k].users(rec.account).UserFound? && calls[k].signs
    ensures IssuedBy(c, calls, k).Some?
  {
    MintedSurvives(c, calls, i, k);
    hide MintedBy, CodesAfter, FreshCodes;
  }

  /** The whole flow: a good authorisation, then the first redemption of its
      code, in time, by the same client, with the same redirect URI, the verifier
      of the challenge, a proof and a known account, issues the token it asks for. */
  lemma GoodFlow(c: Config, calls: seq<Call>, i: nat, k: nat, user: User)
    requires FreshCodes(calls) && i < k < |calls| && calls[i].CallAuthorize? && calls[k].CallToken?
    requires GoodRequest(calls[i].req, calls[i].lookup) && calls[i].req.sessionAccount.Some?
    requires forall n | i < n < k :: !Presents(calls[n], calls[i].fresh_)
    requires var a, t := calls[i].req, calls[k].treq;
             && t.grantType == "authorization_code" && t.dpop.Proof? && t.code == calls[i].fresh_
             && t.clientId == calls[i].lookup.client.id && t.redirectUri == a.redirectUri
             && t.verifier.Some? && a.challenge == Some(c.s256(t.verifier.value))
             && calls[k].tnow <= calls[i].now + c.ttl
             && calls[k].users(a.sessionAccount.value) == UserFound(user) && calls[k].signs
    ensures var a := calls[i].req;
            IssuedBy(c, calls, k) ==
            Some(AccessToken(calls[k].treq.clientId, user.id, user.webid,
                             if a.scope.Some? then a.scope.value else "openid webid",
                             calls[k].treq.dpop.jkt, calls[k].tnow))
  {
    MintedIff(calls[i].req, calls[i].lookup, calls[i].fresh_, calls[i].now);
    MintedSurvives(c, calls, i, k);
    hide CodesAfter, FreshCodes, Minted, GoodRequest;
  }

  /** Why a redemption of a good code is refused: binding, verifier, challenge,
      account and key, in this order. */
  lemma RefusedBecause(s256: string -> string, rec: CodeRecord, req: TokenRequest, users: string -> UserLookup,
                       signs: bool, now: nat)
    requires req.dpop.Proof? && rec.challenge.Some?
    ensures var r := Redeem(s256, rec, req, users, signs, now);
            var bound := rec.client == req.clientId && rec.redirectUri == req.redirectUri;
            var proved := bound && req.verifier.Some? && rec.challenge == Some(s256(req.verifier.value));
            && (r == Err(InvalidRequest) <==> bound && req.verifier == None)
            && (r == Err(InvalidGrant) <==> !bound || (req.verifier.Some? && !proved) || (proved && users(rec.account) == NoUser))
            && (r == Err(UserStore) <==> proved && users(rec.account) == UserFailed)
            && (r == Err(Crypto) <==> proved && users(rec.account).UserFound? && !signs)
            && (r.Ok? <==> proved && users(rec.account).UserFound? && signs)
  {
  }
}
