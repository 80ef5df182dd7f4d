/**
 * letsencrypt/__init__.py: `LeService`, the ACME v1 protocol engine.
 *
 * The service keeps the server's resource directory and the last replay
 * nonce, and drives registration, authorization (prepare, trigger, wait,
 * clean up) and certificate issuance over the HTTP provider.
 *
 * The network is a function `server` from the requests sent so far to the
 * reply to the last one, so a reply may depend on the whole exchange.
 * `json.load` is a function `parse` (None when it raises ValueError).
 * Authenticators are the set of challenge types with a registered class;
 * their `prepare` and `cleanup` calls are recorded in an event log.
 *
 * Every operation is first defined as a function from one `State` to the
 * next together with its result; the methods of `LeService` are proved to
 * compute exactly that, and the lemmas state what the protocol promises.
 */
module Engine {
  import opened Common
  import opened JsonValue
  import opened Http
  import opened Cert

  const NEW_AUTHZ := "new-authz"
  const NEW_REG := "new-reg"
  const NEW_CERT := "new-cert"
  const REVOKE_CERT := "revoke-cert"
  /** The resources a directory must offer. */
  const DIR_MIN := [NEW_AUTHZ, NEW_REG, NEW_CERT, REVOKE_CERT]

  /** Polls of an authorization when blocking, and of a certificate. */
  const AUTHZ_POLLS := 20
  const CERT_POLLS := 4

  /** Name-mangled attributes that do not exist until first assigned. */
  const NONCE_ATTR := "_LeService__nonce"
  const DIRECTORY_ATTR := "_LeService__directory"

  /** The problem document `simpleAuthz` returns when no combination can be served. */
  const NO_AUTHENTICATOR := JObj(map[
    "type" := JStr("urn:acme:error:noauthenticator"),
    "detail" := JStr("No authenticator for service"),
    "status" := JInt(404)])

  /** An authenticator instance: created for one challenge type and one challenge. */
  datatype Authenticator = Authenticator(kind: string, challenge: Json)

  datatype Event =
    | Prepared(auth: Authenticator, keyAuthorization: string)
    | CleanedUp(auth: Authenticator)

  /** The outcome of `simpleAuthz`: a (flag, document) pair on the early
      exits, a bare flag once the challenge loop has run. */
  datatype AuthzResult = Pair(ok: bool, structure: Json) | Flag(ok: bool)

  /** The outcome of `newCert`: (False, problem), (True, certificate) or (False, None). */
  datatype CertResult<C> = Rejected(problem: Json) | Issued(cert: C) | NotIssued

  /** What the service is built with and talks to. */
  datatype Env = Env(
    baseUrl: string,
    authenticators: set<string>,
    crypto: Crypto,
    server: seq<Request> -> Reply,
    parse: seq<byte> -> Option<Json>)

  /** The service's mutable state and what it has done so far. */
  datatype State = State(
    directory: Option<Json>,
    nonce: Option<string>,
    requests: seq<Request>,
    events: seq<Event>)

  // ---------------------------------------------------------------------
  // Pure helpers of the class

  /** `createMailContact(mail)`: the contact list of a registration. */
  function CreateMailContact(mail: string): (r: seq<string>)
    ensures |r| == 1 && StartsWith(r[0], "mailto:") && r[0][7..] == mail
  {
    ["mailto:" + mail]
  }

  /** `createDnsAuth(domain)`: the identifier of a new authorization. */
  function CreateDnsAuth(domain: string): (r: Json)
    ensures r.JObj? && r.fields.Keys == {"type", "value"}
    ensures Get(r, "type") == Ok(JStr("dns")) && Get(r, "value") == Ok(JStr(domain))
  {
    JObj(map["type" := JStr("dns"), "value" := JStr(domain)])
  }

  function NonceLine(nonce: string): string {
    "Nonce: " + nonce
  }

  function RegPost(contact: seq<string>, agreement: string): Json {
    JObj(map[
      "resource" := JStr(NEW_REG),
      "contact" := JArr(seq(|contact|, i requires 0 <= i < |contact| => JStr(contact[i]))),
      "agreement" := JStr(agreement)])
  }

  function AuthzPost(identifier: Json): Json {
    JObj(map["resource" := JStr(NEW_AUTHZ), "identifier" := identifier])
  }

  function ChallengePost(kind: Json, keyAuthorization: string): Json {
    JObj(map["resource" := JStr("challenge"), "type" := kind, "keyAuthorization" := JStr(keyAuthorization)])
  }

  function CertPost(csr: string): Json {
    JObj(map["resource" := JStr(NEW_CERT), "csr" := JStr(csr)])
  }

  // ---------------------------------------------------------------------
  // Requests and the nonce

  /** One request: it joins the log, and the server answers it. */
  function Send(env: Env, st: State, req: Request): (State, Reply) {
    var log := st.requests + [req];
    (st.(requests := log), env.server(log))
  }

  /** `__keepNonce`: the first Replay-Nonce value, if the reply carries one. */
  function NextNonce(nonce: Option<string>, hs: seq<(string, string)>): (r: Option<string>)
    ensures nonce.Some? ==> r.Some?
  {
    var vs := HeaderValues(hs, "Replay-Nonce");
    if |vs| == 0 then nonce else Some(vs[0])
  }

  /** The nonce is kept when no stored header is named Replay-Nonce in any
      letter case. */
  lemma NextNonceAbsent(nonce: Option<string>, hs: seq<(string, string)>)
    requires forall i :: 0 <= i < |hs| ==> !Matches(hs[i], "Replay-Nonce")
    ensures NextNonce(nonce, hs) == nonce
  {
    HeaderValuesFirst(hs, "Replay-Nonce");
  }

  /** Otherwise the nonce becomes the value of the first such header. */
  lemma NextNonceFirst(nonce: Option<string>, hs: seq<(string, string)>, i: nat)
    requires i < |hs| && Matches(hs[i], "Replay-Nonce")
    requires forall j :: 0 <= j < i ==> !Matches(hs[j], "Replay-Nonce")
    ensures NextNonce(nonce, hs) == Some(hs[i].1)
  {
    HeaderValuesFirst(hs, "Replay-Nonce");
    var k :| 0 <= k < |hs| && Matches(hs[k], "Replay-Nonce") && HeaderValues(hs, "Replay-Nonce")[0] == hs[k].1 &&
      forall j :: 0 <= j < k ==> !Matches(hs[j], "Replay-Nonce");
  }

  // ---------------------------------------------------------------------
  // updateDirectory

  /** The first name `name in directory` does not find, or the exception
      the membership test raises. */
  function MissingEntry(d: Json, names: seq<string>): (r: Result<Option<string>>)
    ensures r == Ok(None) <==> forall k :: 0 <= k < |names| ==> HasMember(d, names[k]) == Ok(true)
    ensures r.Ok? && r.value.Some? ==> r.value.value in names && HasMember(d, r.value.value) == Ok(false)
    decreases |names|
  {
    if names == [] then Ok(None)
    else match HasMember(d, names[0])
      case Err(e) => Err(e)
      case Ok(found) =>
        if !found then Ok(Some(names[0]))
        else
          var r := MissingEntry(d, names[1..]);
          assert forall k :: 1 <= k < |names| ==> names[k] == names[1..][k - 1];
          r
  }

  function UpdateDirectoryOp(env: Env, st: State): (out: (State, Result<()>))
    ensures out.0.requests == st.requests + [Request(env.baseUrl, [], None)] && out.0.events == st.events
    ensures out.1.Ok? ==> out.0.directory == env.parse(env.server(out.0.requests).body) && out.0.directory.Some?
  {
    var (st1, reply) := Send(env, st, Request(env.baseUrl, [], None));
    if reply.status != 200 then (st1, Err(HttpStatus(reply.status)))
    else match env.parse(reply.body)
      case None => (st1, Err(ValueError))
      case Some(d) =>
        CheckDirectoryOp(st1.(directory := Some(d)), d, ParseHeaders(reply.headerLines))
  }

  /** The loop over DIR_MIN, then `__keepNonce` once all are present: the
      check passes iff every resource is named, and only then is the nonce
      taken from the reply. */
  function CheckDirectoryOp(st: State, d: Json, hs: seq<(string, string)>): (out: (State, Result<()>))
    ensures out.1.Ok? <==> forall k :: 0 <= k < |DIR_MIN| ==> HasMember(d, DIR_MIN[k]) == Ok(true)
    ensures out.0 == st.(nonce := if out.1.Ok? then NextNonce(st.nonce, hs) else st.nonce)
  {
    match MissingEntry(d, DIR_MIN)
    case Err(e) => (st, Err(e))
    case Ok(Some(name)) => (st, Err(MissingResource(name)))
    case Ok(None) => (st.(nonce := NextNonce(st.nonce, hs)), Ok(()))
  }

  /** One GET of the base URL. The update succeeds iff the status is 200,
      the body parses and names all four resources; the parsed body becomes
      the directory even when a resource is missing; the nonce is taken
      from the reply only on success. */
  lemma UpdateDirectoryAccepts(env: Env, st: State)
    ensures var (st', r) := UpdateDirectoryOp(env, st);
      st'.requests == st.requests + [Request(env.baseUrl, [], None)] && st'.events == st.events
    ensures var (st', r) := UpdateDirectoryOp(env, st);
      var reply := env.server(st.requests + [Request(env.baseUrl, [], None)]);
      var doc := env.parse(reply.body);
      r.Ok? <==> (reply.status == 200 && doc.Some? &&
        forall k :: 0 <= k < |DIR_MIN| ==> HasMember(doc.value, DIR_MIN[k]) == Ok(true))
    ensures var (st', r) := UpdateDirectoryOp(env, st);
      var reply := env.server(st.requests + [Request(env.baseUrl, [], None)]);
      st'.nonce == (if r.Ok? then NextNonce(st.nonce, ParseHeaders(reply.headerLines)) else st.nonce)
    ensures var (st', r) := UpdateDirectoryOp(env, st);
      var reply := env.server(st.requests + [Request(env.baseUrl, [], None)]);
      var doc := env.parse(reply.body);
      st'.directory == (if reply.status == 200 && doc.Some? then doc else st.directory) &&
      (reply.status != 200 ==> r == Err(HttpStatus(reply.status)))
  {
  }

  // ---------------------------------------------------------------------
  // Signed POSTs: newReg, newAuthz, triggerChallenge, newCert

  /** `self.__directory[name]` used as a URL. */
  function DirectoryUrl(directory: Option<Json>, name: string): Result<string> {
    if directory.None? then Err(AttributeError(DIRECTORY_ATTR))
    else match Get(directory.value, name)
      case Err(e) => Err(e)
      case Ok(u) => AsString(u)
  }

  /** Sign `post` with the current nonce and POST it to `target`, with the
      nonce also as a header line. */
  function SendSignedOp(env: Env, st: State, key: Option<RsaKey>, post: Json, target: Result<string>): (out: (State, Result<Reply>))
    ensures out.1.Err? ==> out.0 == st
    ensures out.1.Ok? ==> (st.nonce.Some? && key.Some? && target.Ok? &&
      out.0 == Send(env, st, Request(target.value, JSON_HEADERS + [NonceLine(st.nonce.value)],
        Some(Signed(key.value, post, st.nonce, env.crypto)))).0)
  {
    if st.nonce.None? then (st, Err(AttributeError(NONCE_ATTR)))
    else if key.None? then (st, Err(AttributeError("publickey")))
    else if target.Err? then (st, Err(target.error))
    else
      var signed := Signed(key.value, post, st.nonce, env.crypto);
      var (st1, reply) := Send(env, st, Request(target.value, JSON_HEADERS + [NonceLine(st.nonce.value)], Some(signed)));
      (st1, Ok(reply))
  }

  /** The common shape of newReg, newAuthz and triggerChallenge: the body is
      parsed, the nonce is refreshed, and the call succeeds iff the status
      is the expected one. */
  function SignedPostOp(env: Env, st: State, key: Option<RsaKey>, post: Json, target: Result<string>, expected: int)
    : (out: (State, Result<(bool, Json)>))
    ensures out.0.events == st.events && out.0.directory == st.directory
    ensures out.1.Ok? ==>
      st.nonce.Some? && key.Some? && target.Ok? &&
      |out.0.requests| == |st.requests| + 1 && out.0.requests[|st.requests|].url == target.value &&
      (out.1.value.0 <==> env.server(out.0.requests).status == expected)
  {
    var (st1, sent) := SendSignedOp(env, st, key, post, target);
    match sent
    case Err(e) => (st1, Err(e))
    case Ok(reply) => PostAnswer(env, st1, reply, expected)
  }

  /** What a signed POST makes of its reply: the parsed body, the nonce the
      reply carries, and whether the status is the expected one. */
  function PostAnswer(env: Env, st: State, reply: Reply, expected: int): (out: (State, Result<(bool, Json)>))
    ensures out.0 == st.(nonce := out.0.nonce)
    ensures out.1.Ok? <==> env.parse(reply.body).Some?
    ensures out.1.Ok? ==>
      out.0.nonce == NextNonce(st.nonce, ParseHeaders(reply.headerLines)) &&
      out.1.value == (reply.status == expected, env.parse(reply.body).value)
    ensures out.1.Err? ==> out.0 == st && out.1.error == ValueError
  {
    match env.parse(reply.body)
    case None => (st, Err(ValueError))
    case Some(s) => (st.(nonce := NextNonce(st.nonce, ParseHeaders(reply.headerLines))), Ok((reply.status == expected, s)))
  }

  /** A signed POST sends exactly one request: to the target, with the JSON
      headers and the current nonce, and a body whose three dot-separated
      parts are the encoded protected header (holding that nonce), the
      encoded payload and the signature. It succeeds iff the reply has the
      expected status, and then the nonce is the one the reply carries. A
      call that fails before sending changes nothing; one whose reply does
      not parse keeps the nonce. */
  lemma SignedPostProtocol(env: Env, st: State, key: Option<RsaKey>, post: Json, target: Result<string>, expected: int)
    ensures var (st', r) := SignedPostOp(env, st, key, post, target, expected);
      (st.nonce.None? || key.None? || target.Err? ==> st' == st && r.Err?) &&
      (st.nonce.Some? && key.Some? && target.Ok? ==>
        var req := st'.requests[|st'.requests| - 1];
        var reply := env.server(st'.requests);
        var h := JwsHeader(Jwk(key.value), st.nonce);
        st'.requests == st.requests + [req] &&
        req.url == target.value && req.headers == JSON_HEADERS + [NonceLine(st.nonce.value)] && req.post.Some? &&
        (WellBehaved(env.crypto) ==>
          SplitOn(req.post.value, '.') == [env.crypto.encode(h), env.crypto.encode(post), env.crypto.sign(h, post, key.value)]) &&
        (r.Ok? <==> env.parse(reply.body).Some?) &&
        (r.Ok? ==> (r.value == (reply.status == expected, env.parse(reply.body).value) &&
          st'.nonce == NextNonce(st.nonce, ParseHeaders(reply.headerLines)))) &&
        (r.Err? ==> st'.nonce == st.nonce))
  {
    if st.nonce.Some? && key.Some? && target.Ok? {
      var req := Request(target.value, JSON_HEADERS + [NonceLine(st.nonce.value)], Some(Signed(key.value, post, st.nonce, env.crypto)));
      var st1 := st.(requests := st.requests + [req]);
      assert SendSignedOp(env, st, key, post, target) == (st1, Ok(env.server(st1.requests)));
      assert SignedPostOp(env, st, key, post, target, expected) == PostAnswer(env, st1, env.server(st1.requests), expected);
      SignedSplits(key.value, post, st.nonce, env.crypto);
    }
  }

  function NewRegOp(env: Env, st: State, key: Option<RsaKey>, contact: seq<string>, agreement: string)
    : (out: (State, Result<(bool, Json)>))
    ensures out.0.events == st.events && out.0.directory == st.directory
    ensures out.1.Ok? ==>
      DirectoryUrl(st.directory, NEW_REG).Ok? && |out.0.requests| == |st.requests| + 1 &&
      out.0.requests[|st.requests|].url == DirectoryUrl(st.directory, NEW_REG).value &&
      (out.1.value.0 <==> env.server(out.0.requests).status == 201)
  {
    SignedPostOp(env, st, key, RegPost(contact, agreement), DirectoryUrl(st.directory, NEW_REG), 201)
  }

  function NewAuthzOp(env: Env, st: State, key: Option<RsaKey>, identifier: Json): (out: (State, Result<(bool, Json)>))
    ensures out.0.events == st.events && out.0.directory == st.directory
    ensures out.1.Ok? ==>
      DirectoryUrl(st.directory, NEW_AUTHZ).Ok? && |out.0.requests| == |st.requests| + 1 &&
      out.0.requests[|st.requests|].url == DirectoryUrl(st.directory, NEW_AUTHZ).value &&
      (out.1.value.0 <==> env.server(out.0.requests).status == 201)
  {
    SignedPostOp(env, st, key, AuthzPost(identifier), DirectoryUrl(st.directory, NEW_AUTHZ), 201)
  }

  function TriggerOp(env: Env, st: State, key: Option<RsaKey>, challenge: Json, keyAuthorization: string)
    : (out: (State, Result<(bool, Json)>))
    ensures out.0.events == st.events && out.0.directory == st.directory
  {
    match Get(challenge, "token")
    case Err(e) => (st, Err(e))
    case Ok(_) =>
      match Get(challenge, "type")
      case Err(e) => (st, Err(e))
      case Ok(kind) =>
        var target := match Get(challenge, "uri") case Err(e) => Err(e) case Ok(u) => AsString(u);
        SignedPostOp(env, st, key, ChallengePost(kind, keyAuthorization), target, 202)
  }

  /** Registration POSTs to the directory's new-reg URL and succeeds on 201. */
  lemma NewRegPosts(env: Env, st: State, key: Option<RsaKey>, contact: seq<string>, agreement: string)
    requires st.nonce.Some? && key.Some? && DirectoryUrl(st.directory, NEW_REG).Ok?
    ensures var (st', r) := NewRegOp(env, st, key, contact, agreement);
      |st'.requests| == |st.requests| + 1 && st'.requests[|st.requests|].url == DirectoryUrl(st.directory, NEW_REG).value &&
      (r.Ok? ==> (r.value.0 <==> env.server(st'.requests).status == 201))
  {
    SignedPostProtocol(env, st, key, RegPost(contact, agreement), DirectoryUrl(st.directory, NEW_REG), 201);
  }

  /** An authorization POSTs to the directory's new-authz URL and succeeds on 201. */
  lemma NewAuthzPosts(env: Env, st: State, key: Option<RsaKey>, identifier: Json)
    requires st.nonce.Some? && key.Some? && DirectoryUrl(st.directory, NEW_AUTHZ).Ok?
    ensures var (st', r) := NewAuthzOp(env, st, key, identifier);
      |st'.requests| == |st.requests| + 1 && st'.requests[|st.requests|].url == DirectoryUrl(st.directory, NEW_AUTHZ).value &&
      (r.Ok? ==> (r.value.0 <==> env.server(st'.requests).status == 201))
  {
    SignedPostProtocol(env, st, key, AuthzPost(identifier), DirectoryUrl(st.directory, NEW_AUTHZ), 201);
  }

  /** A trigger POSTs the key authorization to the challenge's URI and
      succeeds on 202. */
  lemma TriggerPosts(env: Env, st: State, key: Option<RsaKey>, challenge: Json, keyAuthorization: string)
    requires st.nonce.Some? && key.Some?
    requires challenge.JObj? && "token" in challenge.fields && "type" in challenge.fields
    requires "uri" in challenge.fields && challenge.fields["uri"].JStr?
    ensures var (st', r) := TriggerOp(env, st, key, challenge, keyAuthorization);
      |st'.requests| == |st.requests| + 1 && st'.requests[|st.requests|].url == challenge.fields["uri"].s &&
      st'.requests[|st.requests|].post.Some? &&
      (WellBehaved(env.crypto) ==> (|SplitOn(st'.requests[|st.requests|].post.value, '.')| == 3 &&
        SplitOn(st'.requests[|st.requests|].post.value, '.')[1] ==
          env.crypto.encode(ChallengePost(challenge.fields["type"], keyAuthorization)))) &&
      (r.Ok? ==> (r.value.0 <==> env.server(st'.requests).status == 202))
  {
    var kind := challenge.fields["type"];
    SignedPostProtocol(env, st, key, ChallengePost(kind, keyAuthorization), Ok(challenge.fields["uri"].s), 202);
  }

  // ---------------------------------------------------------------------
  // waitAuthzDone

  /** The reply to the last request of `log` parses to a document whose
      status is "pending". */
  predicate Pending(env: Env, log: seq<Request>) {
    match env.parse(env.server(log).body)
    case None => false
    case Some(s) => Get(s, "status") == Ok(JStr("pending"))
  }

  /** Poll `req` at most `left` more times, stopping at the first document
      whose status is not "pending". */
  function PollAuthz(env: Env, st: State, req: Request, left: nat): (out: (State, Result<Json>))
    requires left >= 1
    ensures out.0.events == st.events && out.0.directory == st.directory && out.0.nonce == st.nonce
    decreases left
  {
    var (st1, reply) := Send(env, st, req);
    match env.parse(reply.body)
    case None => (st1, Err(ValueError))
    case Some(s) =>
      match Get(s, "status")
      case Err(e) => (st1, Err(e))
      case Ok(status) =>
        if status == JStr("pending") && left > 1 then PollAuthz(env, st1, req, left - 1)
        else (st1, Ok(s))
  }

  /** A 202 with a usable pause, with polls left, polls again. */
  lemma PollCertAgain(env: Env, st: State, req: Request, left: nat, delay: Reply -> Result<nat>)
    requires left > 1 && Send(env, st, req).1.status == 202 && delay(Send(env, st, req).1).Ok?
    ensures PollCert(env, st, req, left, delay) == PollCert(env, Send(env, st, req).0, req, left - 1, delay)
  {
  }

  /** The polls are 1 to `left` copies of the request; every reply but the
      last was pending, and a document is returned only from the last one,
      which is not pending unless the budget is used up. */
  lemma {:induction false} PollAuthzSteps(env: Env, st: State, req: Request, left: nat)
    requires left >= 1
    ensures var (st', r) := PollAuthz(env, st, req, left);
      var n := |st.requests|;
      n < |st'.requests| <= n + left && st'.requests[..n] == st.requests &&
      (forall i :: n <= i < |st'.requests| ==> st'.requests[i] == req) &&
      (forall j :: n < j < |st'.requests| ==> Pending(env, st'.requests[..j])) &&
      (r.Ok? ==> (env.parse(env.server(st'.requests).body) == Some(r.value) &&
        (Get(r.value, "status") != Ok(JStr("pending")) || |st'.requests| == n + left)))
    decreases left
  {
    var (st1, reply) := Send(env, st, req);
    var n := |st.requests|;
    if env.parse(reply.body).Some? {
      var s := env.parse(reply.body).value;
      if Get(s, "status").Ok? && Get(s, "status").value == JStr("pending") && left > 1 {
        PollAuthzSteps(env, st1, req, left - 1);
        var st' := PollAuthz(env, st1, req, left - 1).0;
        assert st'.requests[..n + 1] == st1.requests by {
          assert st'.requests[..n + 1] == st'.requests[..n + 1][..n + 1];
        }
        assert st'.requests[..n] == st1.requests[..n];
        forall j | n < j < |st'.requests| ensures Pending(env, st'.requests[..j]) {
          if j == n + 1 {
            assert st'.requests[..j] == st1.requests;
          }
        }
      }
    }
  }

  function WaitAuthzOp(env: Env, st: State, uri: Json, block: bool): (out: (State, Result<(bool, Json)>))
    ensures out.0.events == st.events && out.0.directory == st.directory && out.0.nonce == st.nonce
  {
    if st.nonce.None? then (st, Err(AttributeError(NONCE_ATTR)))
    else match AsString(uri)
      case Err(e) => (st, Err(e))
      case Ok(url) =>
        var (st1, r) := PollAuthz(env, st, Request(url, [NonceLine(st.nonce.value)], None), if block then AUTHZ_POLLS else 1);
        match r
        case Err(e) => (st1, Err(e))
        case Ok(s) => (st1, Ok((Get(s, "status") == Ok(JStr("valid")), s)))
  }

  /** Waiting GETs the URI with the nonce header at most 20 times, exactly
      once when not blocking, and never changes the nonce; it reports
      success iff the last document's status is "valid". */
  lemma WaitAuthzDonePolls(env: Env, st: State, uri: Json, block: bool)
    requires st.nonce.Some? && uri.JStr?
    ensures var (st', r) := WaitAuthzOp(env, st, uri, block);
      var req := Request(uri.s, [NonceLine(st.nonce.value)], None);
      var n := |st.requests|;
      st'.nonce == st.nonce && n < |st'.requests| <= n + AUTHZ_POLLS && st'.requests[..n] == st.requests &&
      (!block ==> |st'.requests| == n + 1) &&
      (forall i :: n <= i < |st'.requests| ==> st'.requests[i] == req) &&
      (r.Ok? ==> (env.parse(env.server(st'.requests).body) == Some(r.value.1) &&
        (r.value.0 <==> Get(r.value.1, "status") == Ok(JStr("valid")))))
  {
    PollAuthzSteps(env, st, Request(uri.s, [NonceLine(st.nonce.value)], None), if block then AUTHZ_POLLS else 1);
  }

  // ---------------------------------------------------------------------
  // selectChallenges

  /** A challenge the service can serve: an object whose "type" is the
      name of a registered authenticator. */
  predicate Registered(authenticators: set<string>, c: Json) {
    c.JObj? && "type" in c.fields && c.fields["type"].JStr? && c.fields["type"].s in authenticators
  }

  predicate AllRegistered(authenticators: set<string>, cs: seq<Json>) {
    forall i :: 0 <= i < |cs| ==> Registered(authenticators, cs[i])
  }

  /** The inner loop over one combination: the challenges it names when all
      have a registered type, None at the first that has not. */
  function Covered(challenges: Json, entries: seq<Json>, authenticators: set<string>): (r: Result<Option<seq<Json>>>)
    ensures r.Ok? && r.value.Some? ==> |r.value.value| == |entries| && AllRegistered(authenticators, r.value.value)
    decreases |entries|
  {
    if entries == [] then Ok(Some([]))
    else match At(challenges, entries[0])
      case Err(e) => Err(e)
      case Ok(c) =>
        match Get(c, "type")
        case Err(e) => Err(e)
        case Ok(kind) =>
          match HasStringKey(authenticators, kind)
          case Err(e) => Err(e)
          case Ok(found) =>
            if !found then Ok(None)
            else match Covered(challenges, entries[1..], authenticators)
              case Err(e) => Err(e)
              case Ok(None) => Ok(None)
              case Ok(Some(rest)) => Ok(Some([c] + rest))
  }

  /** The outer loop: the challenges of the first combination covered. */
  function Select(challenges: Json, combinations: seq<Json>, authenticators: set<string>): (r: Result<seq<Json>>)
    ensures r.Ok? ==> AllRegistered(authenticators, r.value)
    decreases |combinations|
  {
    if combinations == [] then Ok([])
    else match Items(combinations[0])
      case Err(e) => Err(e)
      case Ok(entries) =>
        match Covered(challenges, entries, authenticators)
        case Err(e) => Err(e)
        case Ok(Some(auth)) => Ok(auth)
        case Ok(None) => Select(challenges, combinations[1..], authenticators)
  }

  function SelectChallengesSpec(challenges: Json, combinations: Json, authenticators: set<string>): (r: Result<seq<Json>>)
    ensures r.Ok? ==> AllRegistered(authenticators, r.value)
  {
    match Items(combinations)
    case Err(e) => Err(e)
    case Ok(cs) => Select(challenges, cs, authenticators)
  }

  /** Every index of the combination names a challenge object with a textual type. */
  predicate WellFormedCombination(challenges: Json, combination: Json) {
    combination.JArr? && forall i :: 0 <= i < |combination.items| ==>
      var c := At(challenges, combination.items[i]);
      c.Ok? && c.value.JObj? && "type" in c.value.fields && c.value.fields["type"].JStr?
  }

  /** Every challenge the combination names has a registered authenticator. */
  predicate Usable(challenges: Json, combination: Json, authenticators: set<string>) {
    combination.JArr? && forall i :: 0 <= i < |combination.items| ==>
      var c := At(challenges, combination.items[i]);
      c.Ok? && Registered(authenticators, c.value)
  }

  /** The challenges a well-formed combination names, in its order. */
  function Picked(challenges: Json, entries: seq<Json>): (r: seq<Json>)
    requires forall i :: 0 <= i < |entries| ==> At(challenges, entries[i]).Ok?
    ensures |r| == |entries| && forall i :: 0 <= i < |entries| ==> r[i] == At(challenges, entries[i]).value
    decreases |entries|
  {
    if entries == [] then []
    else [At(challenges, entries[0]).value] + Picked(challenges, entries[1..])
  }

  lemma {:induction false} CoveredUsable(challenges: Json, entries: seq<Json>, authenticators: set<string>)
    requires WellFormedCombination(challenges, JArr(entries))
    ensures Usable(challenges, JArr(entries), authenticators) ==> Covered(challenges, entries, authenticators) == Ok(Some(Picked(challenges, entries)))
    ensures !Usable(challenges, JArr(entries), authenticators) ==> Covered(challenges, entries, authenticators) == Ok(None)
    decreases |entries|
  {
    if entries != [] {
      var tail := entries[1..];
      assert forall i :: 0 <= i < |tail| ==> tail[i] == entries[i + 1];
      assert WellFormedCombination(challenges, JArr(tail));
      CoveredUsable(challenges, tail, authenticators);
      var c := At(challenges, entries[0]).value;
      assert c.JObj? && "type" in c.fields && c.fields["type"].JStr?;
      if Registered(authenticators, c) {
        if !Usable(challenges, JArr(entries), authenticators) {
          var i :| 0 <= i < |entries| && !(At(challenges, entries[i]).Ok? && Registered(authenticators, At(challenges, entries[i]).value));
          assert i > 0;
          assert !Usable(challenges, JArr(tail), authenticators) by {
            assert tail[i - 1] == entries[i];
          }
        }
      } else {
        assert !Usable(challenges, JArr(entries), authenticators) by {
          assert entries[0] == JArr(entries).items[0];
        }
      }
    }
  }

  /** The challenges of the first usable combination are selected, in the
      combination's order. */
  lemma {:induction false} SelectFirst(challenges: Json, combinations: seq<Json>, authenticators: set<string>, k: nat)
    requires forall j :: 0 <= j < |combinations| ==> WellFormedCombination(challenges, combinations[j])
    requires k < |combinations| && Usable(challenges, combinations[k], authenticators)
    requires forall j :: 0 <= j < k ==> !Usable(challenges, combinations[j], authenticators)
    ensures Select(challenges, combinations, authenticators) == Ok(Picked(challenges, combinations[k].items))
    decreases k
  {
    var first := combinations[0];
    assert WellFormedCombination(challenges, first);
    assert Items(first) == Ok(first.items) && JArr(first.items) == first;
    CoveredUsable(challenges, first.items, authenticators);
    if k > 0 {
      assert !Usable(challenges, first, authenticators);
      var tail := combinations[1..];
      assert forall j :: 0 <= j < |tail| ==> tail[j] == combinations[j + 1];
      SelectFirst(challenges, tail, authenticators, k - 1);
    }
  }

  /** Nothing is selected when no combination is usable. */
  lemma {:induction false} SelectNone(challenges: Json, combinations: seq<Json>, authenticators: set<string>)
    requires forall j :: 0 <= j < |combinations| ==> WellFormedCombination(challenges, combinations[j])
    requires forall j :: 0 <= j < |combinations| ==> !Usable(challenges, combinations[j], authenticators)
    ensures Select(challenges, combinations, authenticators) == Ok([])
    decreases |combinations|
  {
    if combinations != [] {
      CoveredUsable(challenges, combinations[0].items, authenticators);
      var tail := combinations[1..];
      assert forall j :: 0 <= j < |tail| ==> tail[j] == combinations[j + 1];
      SelectNone(challenges, tail, authenticators);
    }
  }

  /** Combinations [[0], [1]] over a dns-01 and an http-01 challenge, with
      only http-01 served: the http-01 challenge is selected. */
  lemma SelectExample(dns: Json, http: Json)
    requires dns == JObj(map["type" := JStr("dns-01")]) && http == JObj(map["type" := JStr("http-01")])
    ensures SelectChallengesSpec(JArr([dns, http]), JArr([JArr([JInt(0)]), JArr([JInt(1)])]), {"http-01"}) == Ok([http])
  {
    var combos := [JArr([JInt(0)]), JArr([JInt(1)])];
    assert At(JArr([dns, http]), JInt(0)) == Ok(dns);
    assert Get(dns, "type") == Ok(JStr("dns-01"));
    assert HasStringKey({"http-01"}, JStr("dns-01")) == Ok(false);
    assert Covered(JArr([dns, http]), [JInt(0)], {"http-01"}) == Ok(None);
    assert At(JArr([dns, http]), JInt(1)) == Ok(http);
    assert Get(http, "type") == Ok(JStr("http-01"));
    assert HasStringKey({"http-01"}, JStr("http-01")) == Ok(true);
    assert [JInt(1)][1..] == [];
    assert Covered(JArr([dns, http]), [JInt(1)][1..], {"http-01"}) == Ok(Some([]));
    assert [http] + [] == [http];
    assert Covered(JArr([dns, http]), [JInt(1)], {"http-01"}) == Ok(Some([http]));
    assert combos[1..][0] == JArr([JInt(1)]);
  }

  // ---------------------------------------------------------------------
  // simpleAuthz

  function KindOf(c: Json): string
    requires c.JObj? && "type" in c.fields && c.fields["type"].JStr?
  {
    c.fields["type"].s
  }

  /** token "." thumbprint, for a challenge whose token is a text. */
  function KeyAuthorization(c: Json, thumbprint: string): string {
    if c.JObj? && "token" in c.fields && c.fields["token"].JStr? then Join([c.fields["token"].s, thumbprint], ".")
    else ""
  }

  function ThumbprintOf(key: Option<RsaKey>, crypto: Crypto): string {
    if key.Some? then Thumbprint(key.value, crypto) else ""
  }

  /** The events of challenges handled to the end: each prepared with its
      key authorization, then cleaned up. */
  function Cycles(authenticators: set<string>, cs: seq<Json>, thumbprint: string): seq<Event>
    requires AllRegistered(authenticators, cs)
    decreases |cs|
  {
    if cs == [] then []
    else
      var a := Authenticator(KindOf(cs[0]), cs[0]);
      [Prepared(a, KeyAuthorization(cs[0], thumbprint)), CleanedUp(a)] + Cycles(authenticators, cs[1..], thumbprint)
  }

  /** `rc, structure = self.waitAuthzDone(structure["uri"])`. */
  function WaitOnUri(env: Env, st: State, s: Json): (out: (State, Result<(bool, Json)>))
    ensures out.0.events == st.events && out.0.directory == st.directory
  {
    match Get(s, "uri")
    case Err(e) => (st, Err(e))
    case Ok(uri) => WaitAuthzOp(env, st, uri, true)
  }

  /** One pass of the loop body: prepare, trigger, wait when triggered,
      clean up; the flag is whether the challenge was accepted. */
  function AuthzStep(env: Env, st: State, key: Option<RsaKey>, c: Json): (out: (State, Result<bool>))
    requires Registered(env.authenticators, c)
    ensures out.0.directory == st.directory && st.events <= out.0.events
    ensures key.None? ==> out.0 == st && out.1.Err?
  {
    match Get(c, "token")
    case Err(e) => (st, Err(e))
    case Ok(token) =>
      if key.None? then (st, Err(AttributeError("publickey")))
      else match AsString(token)
        case Err(e) => (st, Err(e))
        case Ok(tok) =>
          Attempt(env, st, key, c, Join([tok, Thumbprint(key.value, env.crypto)], "."))
  }

  /** Prepare the authenticator, trigger the challenge, wait when it was
      accepted, clean up. */
  function Attempt(env: Env, st: State, key: Option<RsaKey>, c: Json, ka: string): (out: (State, Result<bool>))
    requires Registered(env.authenticators, c)
    ensures var a := Authenticator(KindOf(c), c);
      (out.1.Ok? ==> out.0.events == st.events + [Prepared(a, ka), CleanedUp(a)]) &&
      (out.1.Err? ==> out.0.events == st.events + [Prepared(a, ka)])
    ensures out.0.directory == st.directory
  {
    var a := Authenticator(KindOf(c), c);
    var st1 := st.(events := st.events + [Prepared(a, ka)]);
    var (st2, t) := TriggerOp(env, st1, key, c, ka);
    match t
    case Err(e) => (st2, Err(e))
    case Ok((ok, s)) =>
      var (st3, w) := if ok then WaitOnUri(env, st2, s) else (st2, Ok((false, s)));
      match w
      case Err(e) => (st3, Err(e))
      case Ok((done, _)) => (st3.(events := st3.events + [CleanedUp(a)]), Ok(done))
  }

  /** The wait follows the trigger only when the server accepted it: a
      refused trigger sends nothing more and reports a refusal; an
      accepted one that completes has polled the challenge's "uri" with
      the nonce header, and the flag is whether the last document polled
      says "valid". */
  lemma AttemptWaitsAfterTrigger(env: Env, st: State, key: Option<RsaKey>, c: Json, ka: string)
    requires Registered(env.authenticators, c)
    ensures var a := Authenticator(KindOf(c), c);
      var (st2, t) := TriggerOp(env, st.(events := st.events + [Prepared(a, ka)]), key, c, ka);
      var (st', r) := Attempt(env, st, key, c, ka);
      (t.Err? ==> st' == st2 && r == Err(t.error)) &&
      (t.Ok? && !t.value.0 ==> st'.requests == st2.requests && st'.nonce == st2.nonce && r == Ok(false)) &&
      (t.Ok? && t.value.0 && r.Ok? ==>
        Get(t.value.1, "uri").Ok? && Get(t.value.1, "uri").value.JStr? && st2.nonce.Some? &&
        var n := |st2.requests|;
        n < |st'.requests| && st'.requests[..n] == st2.requests &&
        (forall i :: n <= i < |st'.requests| ==>
          st'.requests[i] == Request(Get(t.value.1, "uri").value.s, [NonceLine(st2.nonce.value)], None)) &&
        env.parse(env.server(st'.requests).body).Some? &&
        (r.value <==> Get(env.parse(env.server(st'.requests).body).value, "status") == Ok(JStr("valid"))))
  {
    var a := Authenticator(KindOf(c), c);
    var (st2, t) := TriggerOp(env, st.(events := st.events + [Prepared(a, ka)]), key, c, ka);
    if t.Ok? && t.value.0 && Get(t.value.1, "uri").Ok? && Get(t.value.1, "uri").value.JStr? && st2.nonce.Some? {
      WaitAuthzDonePolls(env, st2, Get(t.value.1, "uri").value, true);
    }
  }

  /** The loop over the selected challenges; it stops at the first one
      that is not accepted. */
  function AuthzLoop(env: Env, st: State, key: Option<RsaKey>, cs: seq<Json>): (out: (State, Result<bool>))
    requires AllRegistered(env.authenticators, cs)
    ensures out.0.directory == st.directory && st.events <= out.0.events
    ensures cs != [] && key.None? ==> out.0 == st && out.1.Err?
    decreases |cs|
  {
    if cs == [] then (st, Ok(true))
    else
      var (st1, r) := AuthzStep(env, st, key, cs[0]);
      if r.Err? || !r.value then (st1, r)
      else AuthzLoop(env, st1, key, cs[1..])
  }

  function SimpleAuthzOp(env: Env, st: State, key: Option<RsaKey>, identifier: Json): (out: (State, Result<AuthzResult>))
    ensures out.0.directory == st.directory && st.events <= out.0.events
    ensures out.1.Ok? && out.1.value.Pair? ==> !out.1.value.ok
    ensures out.1.Ok? && out.1.value.Flag? ==>
      NewAuthzOp(env, st, key, identifier).1.Ok? && NewAuthzOp(env, st, key, identifier).1.value.0
  {
    var (st1, a) := NewAuthzOp(env, st, key, identifier);
    match a
    case Err(e) => (st1, Err(e))
    case Ok((ok, s)) =>
      if !ok then (st1, Ok(Pair(false, s)))
      else AuthorizeOp(env, st1, key, s)
  }

  /** What simpleAuthz does with an accepted authorization `s`: select the
      challenges, then run them. */
  function AuthorizeOp(env: Env, st: State, key: Option<RsaKey>, s: Json): (out: (State, Result<AuthzResult>))
    ensures out.0.directory == st.directory && st.events <= out.0.events
    ensures out.1.Ok? && out.1.value.Pair? ==> out.0 == st && out.1.value == Pair(false, NO_AUTHENTICATOR)
    ensures out.1.Ok? && out.1.value.Flag? ==>
      Get(s, "challenges").Ok? && Get(s, "combinations").Ok? &&
      SelectChallengesSpec(Get(s, "challenges").value, Get(s, "combinations").value, env.authenticators).Ok? &&
      SelectChallengesSpec(Get(s, "challenges").value, Get(s, "combinations").value, env.authenticators).value != []
  {
    match Get(s, "challenges")
    case Err(e) => (st, Err(e))
    case Ok(challenges) =>
      match Get(s, "combinations")
      case Err(e) => (st, Err(e))
      case Ok(combinations) =>
        match SelectChallengesSpec(challenges, combinations, env.authenticators)
        case Err(e) => (st, Err(e))
        case Ok(cs) =>
          if |cs| == 0 then (st, Ok(Pair(false, NO_AUTHENTICATOR)))
          else
            var (st2, r) := AuthzLoop(env, st, key, cs);
            (st2, match r case Err(e) => Err(e) case Ok(b) => Ok(Flag(b)))
  }

  /** One challenge: its authenticator is prepared with token "."
      thumbprint before the trigger and cleaned up after the trigger and
      the wait, whatever their answer; only an exception skips the cleanup. */
  lemma AuthzStepEvents(env: Env, st: State, key: Option<RsaKey>, c: Json)
    requires Registered(env.authenticators, c)
    ensures var (st', r) := AuthzStep(env, st, key, c);
      var a := Authenticator(KindOf(c), c);
      var ka := KeyAuthorization(c, ThumbprintOf(key, env.crypto));
      (r.Ok? ==> st'.events == st.events + [Prepared(a, ka), CleanedUp(a)]) &&
      (r.Err? ==> st'.events == st.events || st'.events == st.events + [Prepared(a, ka)])
  {
    if Get(c, "token").Ok? && key.Some? && AsString(Get(c, "token").value).Ok? {
      var tok := AsString(Get(c, "token").value).value;
      assert Join([tok, Thumbprint(key.value, env.crypto)], ".") == KeyAuthorization(c, ThumbprintOf(key, env.crypto));
    }
  }

  /** The events a run of the loop adds to `before` are a prefix of
      `full`, the prepare/cleanup pairs of all selected challenges; without
      an exception the last one is a cleanup; success adds all of them and
      a refusal at least one pair. */
  ghost predicate EventsShape(before: seq<Event>, out: (State, Result<bool>), full: seq<Event>) {
    var k := |out.0.events| - |before|;
    0 <= k <= |full| && out.0.events == before + full[..k] &&
    (out.1.Ok? && k > 0 ==> full[k - 1].CleanedUp?) &&
    (out.1 == Ok(true) ==> k == |full|) &&
    (out.1 == Ok(false) ==> k >= 2)
  }

  /** A completed pair followed by a run over the rest is a run over all. */
  lemma ConsShape(before: seq<Event>, pair: seq<Event>, out: (State, Result<bool>), rest: seq<Event>)
    requires |pair| == 2 && pair[1].CleanedUp?
    requires EventsShape(before + pair, out, rest)
    ensures EventsShape(before, out, pair + rest)
  {
    var full := pair + rest;
    var k' := |out.0.events| - |before + pair|;
    assert full[..2 + k'] == pair + rest[..k'];
    assert full[2 + k' - 1] == if k' == 0 then pair[1] else rest[k' - 1];
  }

  /** The events the loop adds are a prefix of the prepare/cleanup pairs
      of all selected challenges, in order: no challenge is touched before
      the previous one is cleaned up. Without an exception the last event
      is a cleanup, so every prepared authenticator is cleaned up; success
      handles all of them, and a refusal at least the first. Where a
      refusal stops is `AuthzLoopRefusal`. */
  lemma {:induction false} AuthzLoopEvents(env: Env, st: State, key: Option<RsaKey>, cs: seq<Json>)
    requires AllRegistered(env.authenticators, cs)
    ensures EventsShape(st.events, AuthzLoop(env, st, key, cs), Cycles(env.authenticators, cs, ThumbprintOf(key, env.crypto)))
    decreases |cs|
  {
    var A := env.authenticators;
    var tp := ThumbprintOf(key, env.crypto);
    if cs == [] {
      assert Cycles(A, cs, tp)[..0] == [];
    } else {
      var c := cs[0];
      var a := Authenticator(KindOf(c), c);
      var pair := [Prepared(a, KeyAuthorization(c, tp)), CleanedUp(a)];
      var rest := Cycles(A, cs[1..], tp);
      CyclesCons(A, cs, tp);
      var (st1, r1) := AuthzStep(env, st, key, c);
      AuthzStepEvents(env, st, key, c);
      AuthzLoopUnfold(env, st, key, cs);
      if r1.Err? || !r1.value {
        StoppedShape(st.events, (st1, r1), pair, rest);
      } else {
        AuthzLoopEvents(env, st1, key, cs[1..]);
        ConsShape(st.events, pair, AuthzLoop(env, st1, key, cs[1..]), rest);
      }
    }
  }

  /** The first pair of a run over `cs` and the pairs of the rest. */
  lemma CyclesCons(authenticators: set<string>, cs: seq<Json>, tp: string)
    requires cs != [] && AllRegistered(authenticators, cs)
    ensures var a := Authenticator(KindOf(cs[0]), cs[0]);
      Cycles(authenticators, cs, tp) == [Prepared(a, KeyAuthorization(cs[0], tp)), CleanedUp(a)] + Cycles(authenticators, cs[1..], tp)
  {
  }

  /** The loop runs one pass, then stops or goes on from the new state. */
  lemma AuthzLoopUnfold(env: Env, st: State, key: Option<RsaKey>, cs: seq<Json>)
    requires cs != [] && AllRegistered(env.authenticators, cs)
    ensures var (st1, r1) := AuthzStep(env, st, key, cs[0]);
      AuthzLoop(env, st, key, cs) == if r1.Err? || !r1.value then (st1, r1) else AuthzLoop(env, st1, key, cs[1..])
  {
  }

  /** The prepare/cleanup pair of one challenge. */
  function Cycle(c: Json, tp: string): seq<Event>
    requires c.JObj? && "type" in c.fields && c.fields["type"].JStr?
  {
    var a := Authenticator(KindOf(c), c);
    [Prepared(a, KeyAuthorization(c, tp)), CleanedUp(a)]
  }

  /** The loop of simpleAuthz for any pass: the passes run over `cs` in
      order and the first that raises or is refused ends the loop. The
      facts about where the loop stops are proved once here, for an
      arbitrary pass, and `AuthzLoopPasses` applies them to `AuthzStep`. */
  function RunPasses(pass: (State, Json) -> (State, Result<bool>), st: State, cs: seq<Json>): (State, Result<bool>)
    decreases |cs|
  {
    if cs == [] then (st, Ok(true))
    else
      var (st1, r) := pass(st, cs[0]);
      if r.Err? || !r.value then (st1, r) else RunPasses(pass, st1, cs[1..])
  }

  /** Each of `cs`, in order, is accepted by its pass, leading from `st`
      to `end`. */
  ghost predicate Accepted(pass: (State, Json) -> (State, Result<bool>), st: State, cs: seq<Json>, end: State)
    decreases |cs|
  {
    if cs == [] then end == st
    else pass(st, cs[0]).1 == Ok(true) && Accepted(pass, pass(st, cs[0]).0, cs[1..], end)
  }

  /** The loop ends after `i` accepted passes leading to `mid`: when they
      cover every challenge it succeeds in `mid`; otherwise its outcome is
      exactly the pass on challenge `i` from `mid`, and no later challenge
      is touched. */
  lemma {:induction false} RunPassesStop(pass: (State, Json) -> (State, Result<bool>), st: State, cs: seq<Json>)
    returns (i: nat, mid: State)
    ensures var out := RunPasses(pass, st, cs);
      i <= |cs| && Accepted(pass, st, cs[..i], mid) &&
      (i == |cs| <==> out.1 == Ok(true)) &&
      (i == |cs| ==> out.0 == mid) &&
      (i < |cs| ==> pass(mid, cs[i]) == out)
    decreases |cs|
  {
    if cs == [] {
      i, mid := 0, st;
      assert cs[..0] == [];
    } else {
      var (st1, r1) := pass(st, cs[0]);
      if r1.Err? || !r1.value {
        i, mid := 0, st;
        assert cs[..0] == [];
      } else {
        var j, m := RunPassesStop(pass, st1, cs[1..]);
        i, mid := j + 1, m;
        assert cs[..i][0] == cs[0] && cs[..i][1..] == cs[1..][..j];
        assert cs[1..][j..] == cs[i..];
      }
    }
  }

  /** Accepted passes that each add their challenge's pair add the pairs
      of all of them. */
  lemma {:induction false} AcceptedCycles(pass: (State, Json) -> (State, Result<bool>), st: State, cs: seq<Json>,
                                          end: State, authenticators: set<string>, tp: string)
    requires AllRegistered(authenticators, cs) && Accepted(pass, st, cs, end)
    requires forall s: State, k :: 0 <= k < |cs| && pass(s, cs[k]).1.Ok? ==>
      pass(s, cs[k]).0.events == s.events + Cycle(cs[k], tp)
    ensures end.events == st.events + Cycles(authenticators, cs, tp)
    decreases |cs|
  {
    if cs != [] {
      assert pass(st, cs[0]).1.Ok?;
      CyclesCons(authenticators, cs, tp);
      var tail := cs[1..];
      assert forall k :: 0 <= k < |tail| ==> tail[k] == cs[k + 1];
      AcceptedCycles(pass, pass(st, cs[0]).0, tail, end, authenticators, tp);
    }
  }

  /** The pairs of `cs` followed by one more challenge. */
  lemma {:induction false} CyclesSnoc(authenticators: set<string>, cs: seq<Json>, c: Json, tp: string)
    requires AllRegistered(authenticators, cs) && Registered(authenticators, c)
    ensures AllRegistered(authenticators, cs + [c]) &&
      Cycles(authenticators, cs + [c], tp) == Cycles(authenticators, cs, tp) + Cycle(c, tp)
    decreases |cs|
  {
    assert forall k :: 0 <= k < |cs| ==> (cs + [c])[k] == cs[k];
    assert (cs + [c])[|cs|] == c;
    if cs == [] {
      assert [] + [c] == [c];
      CyclesCons(authenticators, [c], tp);
    } else {
      assert (cs + [c])[1..] == cs[1..] + [c];
      CyclesCons(authenticators, cs + [c], tp);
      CyclesCons(authenticators, cs, tp);
      CyclesSnoc(authenticators, cs[1..], c, tp);
    }
  }

  /** `AuthzStep` as a pass; the other branch is never taken, since every
      selected challenge is registered. */
  function PassOf(env: Env, key: Option<RsaKey>): (State, Json) -> (State, Result<bool>) {
    (s: State, c: Json) => if Registered(env.authenticators, c) then AuthzStep(env, s, key, c) else (s, Err(TypeError))
  }

  /** The loop of simpleAuthz is `RunPasses` of `AuthzStep`. */
  lemma {:induction false} AuthzLoopPasses(env: Env, st: State, key: Option<RsaKey>, cs: seq<Json>)
    requires AllRegistered(env.authenticators, cs)
    ensures AuthzLoop(env, st, key, cs) == RunPasses(PassOf(env, key), st, cs)
    decreases |cs|
  {
    if cs != [] {
      var (st1, r1) := AuthzStep(env, st, key, cs[0]);
      assert PassOf(env, key)(st, cs[0]) == (st1, r1);
      AuthzLoopUnfold(env, st, key, cs);
      if r1.Ok? && r1.value {
        AuthzLoopPasses(env, st1, key, cs[1..]);
      }
    }
  }

  /** A refusal comes from the first challenge that is not accepted: every
      challenge before it was accepted, the loop ends in the state that
      challenge's pass leaves, no later challenge is touched, and the
      events are the pairs of the challenges up to and including it. */
  lemma AuthzLoopRefusal(env: Env, st: State, key: Option<RsaKey>, cs: seq<Json>) returns (i: nat, mid: State)
    requires AllRegistered(env.authenticators, cs)
    requires AuthzLoop(env, st, key, cs).1 == Ok(false)
    ensures i < |cs| && Accepted(PassOf(env, key), st, cs[..i], mid) &&
      AuthzStep(env, mid, key, cs[i]) == AuthzLoop(env, st, key, cs) &&
      AuthzLoop(env, st, key, cs).0.events ==
        st.events + Cycles(env.authenticators, cs[..i + 1], ThumbprintOf(key, env.crypto))
  {
    AuthzLoopPasses(env, st, key, cs);
    i, mid := RunPassesStop(PassOf(env, key), st, cs);
    AuthzLoopRefusalEvents(env, st, key, cs, i, mid);
  }

  /** When the pass on challenge `i` answers after `i` accepted passes,
      and every pass that answers adds its challenge's pair, the events
      are the pairs of the challenges up to and including `i`. */
  lemma StopCycles(pass: (State, Json) -> (State, Result<bool>), st: State, cs: seq<Json>, i: nat, mid: State,
                   authenticators: set<string>, tp: string)
    requires AllRegistered(authenticators, cs)
    requires forall s: State, k :: 0 <= k < |cs| && pass(s, cs[k]).1.Ok? ==>
      pass(s, cs[k]).0.events == s.events + Cycle(cs[k], tp)
    requires i < |cs| && Accepted(pass, st, cs[..i], mid) && pass(mid, cs[i]).1.Ok?
    ensures pass(mid, cs[i]).0.events == st.events + Cycles(authenticators, cs[..i + 1], tp)
  {
    var pre := cs[..i];
    assert forall k :: 0 <= k < |pre| ==> pre[k] == cs[k];
    AcceptedCycles(pass, st, pre, mid, authenticators, tp);
    assert cs[..i + 1] == pre + [cs[i]];
    CyclesSnoc(authenticators, pre, cs[i], tp);
  }

  /** Every pass of `AuthzStep` that answers adds its challenge's pair. */
  lemma PassOfCycles(env: Env, key: Option<RsaKey>, cs: seq<Json>)
    requires AllRegistered(env.authenticators, cs)
    ensures forall s: State, k :: 0 <= k < |cs| && PassOf(env, key)(s, cs[k]).1.Ok? ==>
      PassOf(env, key)(s, cs[k]).0.events == s.events + Cycle(cs[k], ThumbprintOf(key, env.crypto))
  {
    forall s: State, k | 0 <= k < |cs| && PassOf(env, key)(s, cs[k]).1.Ok?
      ensures PassOf(env, key)(s, cs[k]).0.events == s.events + Cycle(cs[k], ThumbprintOf(key, env.crypto))
    {
      AuthzStepEvents(env, s, key, cs[k]);
    }
  }

  /** Success means every challenge was accepted in turn, and the loop
      ends in the state the last pass leaves. */
  lemma AuthzLoopSuccess(env: Env, st: State, key: Option<RsaKey>, cs: seq<Json>)
    requires AllRegistered(env.authenticators, cs)
    requires AuthzLoop(env, st, key, cs).1 == Ok(true)
    ensures Accepted(PassOf(env, key), st, cs, AuthzLoop(env, st, key, cs).0)
  {
    AuthzLoopPasses(env, st, key, cs);
    var i, mid := RunPassesStop(PassOf(env, key), st, cs);
    assert cs[..i] == cs;
  }

  /** After a refusal at challenge `i`, the events are exactly the
      prepare/cleanup pairs of the challenges up to and including it. */
  lemma AuthzLoopRefusalEvents(env: Env, st: State, key: Option<RsaKey>, cs: seq<Json>, i: nat, mid: State)
    requires AllRegistered(env.authenticators, cs)
    requires i < |cs| && Accepted(PassOf(env, key), st, cs[..i], mid)
    requires AuthzStep(env, mid, key, cs[i]).1 == Ok(false)
    ensures AuthzStep(env, mid, key, cs[i]).0.events ==
      st.events + Cycles(env.authenticators, cs[..i + 1], ThumbprintOf(key, env.crypto))
  {
    PassOfCycles(env, key, cs);
    StopCycles(PassOf(env, key), st, cs, i, mid, env.authenticators, ThumbprintOf(key, env.crypto));
  }

  /** A pass that stops the loop adds at most the first pair. */
  lemma StoppedShape(before: seq<Event>, out: (State, Result<bool>), pair: seq<Event>, rest: seq<Event>)
    requires |pair| == 2 && pair[1].CleanedUp?
    requires out.1.Err? || out.1 == Ok(false)
    requires out.1.Ok? ==> out.0.events == before + pair
    requires out.1.Err? ==> out.0.events == before || out.0.events == before + pair[..1]
    ensures EventsShape(before, out, pair + rest)
  {
    var full := pair + rest;
    assert full[..0] == [] && full[..1] == pair[..1] && full[..2] == pair;
  }

  /** Without a usable combination no authenticator is prepared and the
      problem document says so with status 404; a refused authorization is
      returned as is. */
  lemma SimpleAuthzEarlyExits(env: Env, st: State, key: Option<RsaKey>, identifier: Json)
    ensures var (st1, a) := NewAuthzOp(env, st, key, identifier);
      var (st', r) := SimpleAuthzOp(env, st, key, identifier);
      (a.Ok? && !a.value.0 ==> st' == st1 && r == Ok(Pair(false, a.value.1))) &&
      (a.Ok? && a.value.0 && Get(a.value.1, "challenges").Ok? && Get(a.value.1, "combinations").Ok? &&
        SelectChallengesSpec(Get(a.value.1, "challenges").value, Get(a.value.1, "combinations").value, env.authenticators) == Ok([]) ==>
        st' == st1 && st'.events == st.events && r == Ok(Pair(false, NO_AUTHENTICATOR)))
  {
  }

  // ---------------------------------------------------------------------
  // newCert

  /** `int(http.getHeader("Retry-After")[0])`, then `sleep` of it. */
  function RetryAfter(hs: seq<(string, string)>): (r: Result<nat>)
    ensures HeaderValues(hs, "Retry-After") == [] ==> r == Err(IndexError)
    ensures r.Ok? ==> ParseInt(HeaderValues(hs, "Retry-After")[0]) == Ok(r.value)
    ensures r.Err? ==> r.error in {IndexError, ValueError, IOError}
  {
    var vs := HeaderValues(hs, "Retry-After");
    if vs == [] then Err(IndexError)
    else match ParseInt(vs[0])
      case Err(e) => Err(e)
      case Ok(n) => if n < 0 then Err(IOError) else Ok(n)
  }

  /** A first Retry-After header holding the decimal text of `n` gives a
      wait of `n` seconds. */
  lemma RetryAfterSeconds(hs: seq<(string, string)>, i: nat, n: nat)
    requires i < |hs| && Matches(hs[i], "Retry-After") && hs[i].1 == NatToString(n)
    requires forall j :: 0 <= j < i ==> !Matches(hs[j], "Retry-After")
    ensures RetryAfter(hs) == Ok(n)
  {
    HeaderValuesFirst(hs, "Retry-After");
    var k :| 0 <= k < |hs| && Matches(hs[k], "Retry-After") && HeaderValues(hs, "Retry-After")[0] == hs[k].1 &&
      forall j :: 0 <= j < k ==> !Matches(hs[j], "Retry-After");
    NatToStringParses(n);
  }

  /** As written, `int(http.getHeader("Retry-After"))`: `int` of a list. */
  function RetryAfterAsWritten(hs: seq<(string, string)>): Result<nat> {
    Err(TypeError)
  }

  /** The (False, problem) answer to a refused CSR. */
  function Rejection(env: Env, body: seq<byte>): (r: Result<CertResult<seq<byte>>>)
    ensures r.Ok? <==> env.parse(body).Some?
    ensures r.Ok? ==> r == Ok(Rejected(env.parse(body).value))
  {
    match env.parse(body)
    case None => Err(ValueError)
    case Some(j) => Ok(Rejected(j))
  }

  /** As written, `json.loads(data)` of the response stream object. */
  function RejectionAsWritten(body: seq<byte>): Result<CertResult<seq<byte>>> {
    Err(TypeError)
  }

  /** The pause before the next certificate poll, as written or corrected. */
  function Delay(hs: seq<(string, string)>, asWritten: bool): Result<nat> {
    if asWritten then RetryAfterAsWritten(hs) else RetryAfter(hs)
  }

  /** The pause a poll reply asks for. */
  function CertDelay(asWritten: bool): Reply -> Result<nat> {
    (reply: Reply) => Delay(ParseHeaders(reply.headerLines), asWritten)
  }

  /** A poll reply that lets the certificate loop go on. */
  predicate Waiting(reply: Reply, delay: Reply -> Result<nat>) {
    reply.status == 202 && delay(reply).Ok?
  }

  /** Poll the certificate location at most `left` more times while the
      status is 202; the last reply is returned. */
  function PollCert(env: Env, st: State, req: Request, left: nat, delay: Reply -> Result<nat>): (out: (State, Result<Reply>))
    requires left >= 1
    ensures out.0.events == st.events && out.0.directory == st.directory && out.0.nonce == st.nonce
    decreases left
  {
    var (st1, reply) := Send(env, st, req);
    if reply.status != 202 then (st1, Ok(reply))
    else
      match delay(reply)
      case Err(e) => (st1, Err(e))
      case Ok(_) => if left > 1 then PollCert(env, st1, req, left - 1, delay) else (st1, Ok(reply))
  }

  /** The polls are 1 to `left` copies of the request; the loop goes on
      only after a 202 with a usable Retry-After, and the reply returned is
      the last one, which is not a 202 unless the budget is used up. */
  lemma {:induction false} PollCertSteps(env: Env, st: State, req: Request, left: nat, delay: Reply -> Result<nat>)
    requires left >= 1
    ensures var (st', r) := PollCert(env, st, req, left, delay);
      var n := |st.requests|;
      n < |st'.requests| <= n + left && st'.requests[..n] == st.requests &&
      (forall i :: n <= i < |st'.requests| ==> st'.requests[i] == req) &&
      (forall j :: n < j < |st'.requests| ==> Waiting(env.server(st'.requests[..j]), delay)) &&
      (r.Ok? ==> r.value == env.server(st'.requests) && (r.value.status != 202 || |st'.requests| == n + left)) &&
      (r.Err? ==> env.server(st'.requests).status == 202 && !Waiting(env.server(st'.requests), delay))
    decreases left
  {
    var (st1, reply) := Send(env, st, req);
    var n := |st.requests|;
    if Waiting(reply, delay) && left > 1 {
      PollCertSteps(env, st1, req, left - 1, delay);
      var st' := PollCert(env, st1, req, left - 1, delay).0;
      assert st'.requests[..n + 1] == st1.requests by {
        assert st'.requests[..n + 1] == st'.requests[..n + 1][..n + 1];
      }
      assert st'.requests[..n] == st1.requests[..n];
      forall j | n < j < |st'.requests| ensures Waiting(env.server(st'.requests[..j]), delay) {
        if j == n + 1 {
          assert st'.requests[..j] == st1.requests;
        }
      }
    }
  }

  /** Poll the certificate location with the nonce header; a final 200
      delivers the certificate. */
  function FetchCertOp(env: Env, st: State, location: string, asWritten: bool): (out: (State, Result<CertResult<seq<byte>>>))
    requires st.nonce.Some?
    ensures out.0.events == st.events && out.0.directory == st.directory && out.0.nonce == st.nonce
  {
    Fetched(PollCert(env, st, Request(location, [NonceLine(st.nonce.value)], None), CERT_POLLS, CertDelay(asWritten)))
  }

  /** The outcome of the certificate polls: a final 200 is the certificate. */
  function Fetched(polled: (State, Result<Reply>)): (State, Result<CertResult<seq<byte>>>) {
    (polled.0, match polled.1
      case Err(e) => Err(e)
      case Ok(final) => Ok(if final.status == 200 then Issued(final.body) else NotIssued))
  }

  /** What newCert does with the reply to its POST. */
  function CertAnswerOp(env: Env, st: State, reply: Reply, asWritten: bool): (out: (State, Result<CertResult<seq<byte>>>))
    requires st.nonce.Some?
    ensures out.0.events == st.events && out.0.directory == st.directory
  {
    var hs := ParseHeaders(reply.headerLines);
    var st1 := st.(nonce := NextNonce(st.nonce, hs));
    if reply.status != 201 then (st1, if asWritten then RejectionAsWritten(reply.body) else Rejection(env, reply.body))
    else
      var locations := HeaderValues(hs, "Location");
      if locations == [] then (st1, Err(IndexError))
      else FetchCertOp(env, st1, locations[0], asWritten)
  }

  function NewCertOp(env: Env, st: State, key: Option<RsaKey>, csr: string, asWritten: bool)
    : (out: (State, Result<CertResult<seq<byte>>>))
    ensures out.0.events == st.events && out.0.directory == st.directory
  {
    var (st1, sent) := SendSignedOp(env, st, key, CertPost(csr), DirectoryUrl(st.directory, NEW_CERT));
    match sent
    case Err(e) => (st1, Err(e))
    case Ok(reply) => CertAnswerOp(env, st1, reply, asWritten)
  }

  /** newCert refreshes the nonce from the reply to its POST before
      deciding; a refusal is answered with the parsed problem document and
      nothing is polled; without a Location header it fails. */
  lemma NewCertAnswer(env: Env, st: State, reply: Reply)
    requires st.nonce.Some?
    ensures var (st', r) := CertAnswerOp(env, st, reply, false);
      var hs := ParseHeaders(reply.headerLines);
      (reply.status != 201 ==> st' == st.(nonce := NextNonce(st.nonce, hs)) && r == Rejection(env, reply.body)) &&
      (reply.status == 201 && HeaderValues(hs, "Location") == [] ==> r == Err(IndexError)) &&
      (reply.status == 201 && HeaderValues(hs, "Location") != [] ==>
        (st', r) == FetchCertOp(env, st.(nonce := NextNonce(st.nonce, hs)), HeaderValues(hs, "Location")[0], false))
  {
  }

  /** The certificate is fetched with at most four GETs of the location,
      each carrying the nonce; the polling goes on only after a 202 with a
      usable Retry-After; the certificate is the body of a final 200. */
  lemma FetchCertPolls(env: Env, st: State, location: string)
    requires st.nonce.Some?
    ensures var (st', r) := FetchCertOp(env, st, location, false);
      var n := |st.requests|;
      n < |st'.requests| <= n + CERT_POLLS && st'.requests[..n] == st.requests &&
      (forall i :: n <= i < |st'.requests| ==> st'.requests[i] == Request(location, [NonceLine(st.nonce.value)], None)) &&
      (forall j :: n < j < |st'.requests| ==> Waiting(env.server(st'.requests[..j]), CertDelay(false))) &&
      (r.Ok? ==> ((r.value.Issued? <==> env.server(st'.requests).status == 200) &&
        (r.value.Issued? ==> r.value.cert == env.server(st'.requests).body) &&
        (r.value == NotIssued ==> env.server(st'.requests).status != 200)))
  {
    PollCertSteps(env, st, Request(location, [NonceLine(st.nonce.value)], None), CERT_POLLS, CertDelay(false));
  }

  /** As written, a refused CSR raises TypeError instead of returning the
      server's problem document. */
  lemma NewCertAsWrittenRefusal(env: Env, st: State, reply: Reply)
    requires st.nonce.Some? && reply.status != 201
    ensures CertAnswerOp(env, st, reply, true).1 == Err(TypeError)
    ensures env.parse(reply.body).Some? ==> CertAnswerOp(env, st, reply, false).1 == Ok(Rejected(env.parse(reply.body).value))
  {
  }

  /** As written, a certificate that is not ready at the first poll (202)
      raises TypeError after one poll; corrected, a 202 with a valid
      Retry-After leads to another poll. */
  lemma NewCertAsWrittenWait(env: Env, st: State, req: Request)
    requires env.server(st.requests + [req]).status == 202
    ensures var (st', r) := PollCert(env, st, req, CERT_POLLS, CertDelay(true));
      r == Err(TypeError) && |st'.requests| == |st.requests| + 1
    ensures RetryAfter(ParseHeaders(env.server(st.requests + [req]).headerLines)).Ok? ==>
      |PollCert(env, st, req, CERT_POLLS, CertDelay(false)).0.requests| >= |st.requests| + 2
  {
    if RetryAfter(ParseHeaders(env.server(st.requests + [req]).headerLines)).Ok? {
      var st1 := Send(env, st, req).0;
      PollCertSteps(env, st1, req, CERT_POLLS - 1, CertDelay(false));
    }
  }

  // ---------------------------------------------------------------------
  // The service

  /** The HTTP provider holds exactly what the transport delivered. */
  predicate Received(http: HttpProviderCurl, reply: Reply)
    reads http
  {
    http.response == reply.status && http.header == ParseHeaders(reply.headerLines) && http.data == reply.body
  }

  class LeService {
    const baseUrl: string
    const authenticators: set<string>
    const crypto: Crypto
    const server: seq<Request> -> Reply
    const parse: seq<byte> -> Option<Json>
    /** `__directory`, None until first assigned. */
    var directory: Option<Json>
    /** `__nonce`, None until first assigned. */
    var nonce: Option<string>
    /** Every request sent, in order. */
    var requests: seq<Request>
    /** Every prepare and cleanup, in order. */
    var events: seq<Event>

    constructor(baseUrl: string, authenticators: set<string>, crypto: Crypto,
                server: seq<Request> -> Reply, parse: seq<byte> -> Option<Json>)
      ensures Environment() == Env(baseUrl, authenticators, crypto, server, parse)
      ensures Snapshot() == State(None, None, [], [])
    {
      this.baseUrl := baseUrl;
      this.authenticators := authenticators;
      this.crypto := crypto;
      this.server := server;
      this.parse := parse;
      directory := None;
      nonce := None;
      requests := [];
      events := [];
    }

    function Environment(): Env {
      Env(baseUrl, authenticators, crypto, server, parse)
    }

    function Snapshot(): State
      reads this
    {
      State(directory, nonce, requests, events)
    }

    /** A provider for `url`, prepared as a GET or a POST, and performed. */
    method Exchange(url: string, moreHeader: seq<string>, post: Option<string>) returns (http: HttpProviderCurl)
      modifies this
      ensures var headers := if post.Some? then JSON_HEADERS + moreHeader else moreHeader;
        var (st, reply) := Send(Environment(), old(Snapshot()), Request(url, headers, post));
        Snapshot() == st && fresh(http) && Received(http, reply)
    {
      http := new HttpProviderCurl(url);
      if post.None? {
        http.PrepareGet(moreHeader);
      } else {
        http.PreparePost(post.value, moreHeader);
      }
      requests := requests + [http.request.value];
      var status := http.Perform(server(requests));
    }

    /** `__keepNonce(http)`. */
    method KeepNonce(http: HttpProviderCurl)
      modifies this
      ensures Snapshot() == old(Snapshot()).(nonce := NextNonce(old(nonce), http.header))
    {
      var values := http.GetHeader("Replay-Nonce");
      if |values| == 0 {
        return;
      }
      nonce := Some(values[0]);
    }

    /** `updateDirectory()`. */
    method UpdateDirectory() returns (r: Result<()>)
      modifies this
      ensures (Snapshot(), r) == UpdateDirectoryOp(Environment(), old(Snapshot()))
    {
      ghost var goal := UpdateDirectoryOp(Environment(), Snapshot());
      var http := Exchange(baseUrl, [], None);
      if http.response != 200 {
        return Err(HttpStatus(http.response));
      }
      var d := parse(http.data);
      if d.None? {
        return Err(ValueError);
      }
      directory := d;
      ghost var st := Snapshot();
      assert goal == CheckDirectoryOp(st, d.value, http.header);
      var i := 0;
      while i < |DIR_MIN|
        invariant 0 <= i <= |DIR_MIN|
        invariant MissingEntry(d.value, DIR_MIN) == MissingEntry(d.value, DIR_MIN[i..])
        invariant Snapshot() == st
        invariant goal == CheckDirectoryOp(st, d.value, http.header)
      {
        assert DIR_MIN[i..][1..] == DIR_MIN[i + 1..];
        var m := HasMember(d.value, DIR_MIN[i]);
        if m.Err? {
          return Err(m.error);
        }
        if !m.value {
          return Err(MissingResource(DIR_MIN[i]));
        }
        i := i + 1;
      }
      KeepNonce(http);
      return Ok(());
    }

    /** Sign and POST; the provider is returned for the caller to read. */
    method SendSigned(userKey: RsaKeyPair, post: Json, target: Result<string>) returns (r: Result<HttpProviderCurl>)
      modifies this
      ensures var (st, sent) := SendSignedOp(Environment(), old(Snapshot()), userKey.key, post, target);
        Snapshot() == st && r.Ok? == sent.Ok? && (r.Err? ==> r.error == sent.error) &&
        (r.Ok? ==> fresh(r.value) && Received(r.value, sent.value))
    {
      if nonce.None? {
        return Err(AttributeError(NONCE_ATTR));
      }
      var postData := userKey.SignJsonArray(post, nonce, crypto);
      if postData.Err? {
        return Err(postData.error);
      }
      if target.Err? {
        return Err(target.error);
      }
      var http := Exchange(target.value, [NonceLine(nonce.value)], Some(postData.value));
      return Ok(http);
    }

    method SignedPost(userKey: RsaKeyPair, post: Json, target: Result<string>, expected: int) returns (r: Result<(bool, Json)>)
      modifies this
      ensures (Snapshot(), r) == SignedPostOp(Environment(), old(Snapshot()), userKey.key, post, target, expected)
    {
      ghost var st0 := Snapshot();
      var sent := SendSigned(userKey, post, target);
      if sent.Err? {
        return Err(sent.error);
      }
      ghost var reply := SendSignedOp(Environment(), st0, userKey.key, post, target).1.value;
      r := Answer(sent.value, reply, expected);
    }

    /** The reply to a signed POST: its body parsed, then the nonce kept. */
    method Answer(http: HttpProviderCurl, ghost reply: Reply, expected: int) returns (r: Result<(bool, Json)>)
      requires Received(http, reply)
      modifies this
      ensures (Snapshot(), r) == PostAnswer(Environment(), old(Snapshot()), reply, expected)
    {
      var structure := parse(http.data);
      if structure.None? {
        return Err(ValueError);
      }
      KeepNonce(http);
      return Ok((http.response == expected, structure.value));
    }

    /** `newReg(userKey, contact, agreement)`. */
    method NewReg(userKey: RsaKeyPair, contact: seq<string>, agreement: string) returns (r: Result<(bool, Json)>)
      modifies this
      ensures (Snapshot(), r) == NewRegOp(Environment(), old(Snapshot()), userKey.key, contact, agreement)
    {
      r := SignedPost(userKey, RegPost(contact, agreement), DirectoryUrl(directory, NEW_REG), 201);
    }

    /** `newAuthz(userKey, identifier)`. */
    method NewAuthz(userKey: RsaKeyPair, identifier: Json) returns (r: Result<(bool, Json)>)
      modifies this
      ensures (Snapshot(), r) == NewAuthzOp(Environment(), old(Snapshot()), userKey.key, identifier)
    {
      r := SignedPost(userKey, AuthzPost(identifier), DirectoryUrl(directory, NEW_AUTHZ), 201);
    }

    /** `selectChallenges(challenges, combinations)`. */
    method SelectChallenges(challenges: Json, combinations: Json) returns (r: Result<seq<Json>>)
      ensures r == SelectChallengesSpec(challenges, combinations, authenticators)
    {
      var combos := Items(combinations);
      if combos.Err? {
        return Err(combos.error);
      }
      var cs := combos.value;
      var k := 0;
      while k < |cs|
        invariant 0 <= k <= |cs|
        invariant Select(challenges, cs, authenticators) == Select(challenges, cs[k..], authenticators)
      {
        assert cs[k..][1..] == cs[k + 1..];
        var entries := Items(cs[k]);
        if entries.Err? {
          return Err(entries.error);
        }
        var cover := CoverCombination(challenges, entries.value);
        if cover.Err? {
          return Err(cover.error);
        }
        if cover.value.Some? {
          return Ok(cover.value.value);
        }
        k := k + 1;
      }
      return Ok([]);
    }

    /** The inner loop of `selectChallenges`: the challenges one
        combination names, up to the first without an authenticator. */
    method CoverCombination(challenges: Json, es: seq<Json>) returns (r: Result<Option<seq<Json>>>)
      ensures r == Covered(challenges, es, authenticators)
    {
      var auth: seq<Json> := [];
      var j := 0;
      assert es[0..] == es;
      assert Prefixed([], Covered(challenges, es, authenticators)) == Covered(challenges, es, authenticators) by {
        var cov := Covered(challenges, es, authenticators);
        if cov.Ok? && cov.value.Some? {
          assert [] + cov.value.value == cov.value.value;
        }
      }
      while j < |es|
        invariant 0 <= j <= |es|
        invariant Covered(challenges, es, authenticators) == Prefixed(auth, Covered(challenges, es[j..], authenticators))
      {
        assert es[j..][1..] == es[j + 1..];
        var c := At(challenges, es[j]);
        if c.Err? {
          return Err(c.error);
        }
        ghost var before := auth;
        auth := auth + [c.value];
        var kind := Get(c.value, "type");
        if kind.Err? {
          return Err(kind.error);
        }
        var has := HasStringKey(authenticators, kind.value);
        if has.Err? {
          return Err(has.error);
        }
        if !has.value {
          return Ok(None);
        }
        CoveredCons(challenges, es[j..], authenticators, c.value, kind.value);
        PrefixedAppend(before, c.value, Covered(challenges, es[j + 1..], authenticators));
        j := j + 1;
      }
      assert es[j..] == [] && auth + [] == auth;
      return Ok(Some(auth));
    }

    /** `prepareChallenge(userKey, challenge, keyAuthorization)`: an
        authenticator of the challenge's type is created and prepared. */
    method PrepareChallenge(challenge: Json, keyAuthorization: string) returns (auth: Authenticator)
      requires Registered(authenticators, challenge)
      modifies this
      ensures auth == Authenticator(KindOf(challenge), challenge)
      ensures Snapshot() == old(Snapshot()).(events := old(events) + [Prepared(auth, keyAuthorization)])
    {
      auth := Authenticator(challenge.fields["type"].s, challenge);
      events := events + [Prepared(auth, keyAuthorization)];
    }

    /** `triggerChallenge(userKey, challenge, keyAuthorization)`. */
    method TriggerChallenge(userKey: RsaKeyPair, challenge: Json, keyAuthorization: string) returns (r: Result<(bool, Json)>)
      modifies this
      ensures (Snapshot(), r) == TriggerOp(Environment(), old(Snapshot()), userKey.key, challenge, keyAuthorization)
    {
      var token := Get(challenge, "token");
      if token.Err? {
        return Err(token.error);
      }
      var kind := Get(challenge, "type");
      if kind.Err? {
        return Err(kind.error);
      }
      var uri := Get(challenge, "uri");
      var target := if uri.Err? then Err(uri.error) else AsString(uri.value);
      r := SignedPost(userKey, ChallengePost(kind.value, keyAuthorization), target, 202);
    }

    /** `cleanupChallenge(auth)`. */
    method CleanupChallenge(auth: Authenticator)
      modifies this
      ensures Snapshot() == old(Snapshot()).(events := old(events) + [CleanedUp(auth)])
    {
      events := events + [CleanedUp(auth)];
    }

    /** `waitAuthzDone(uri, block)`. */
    method WaitAuthzDone(uri: Json, block: bool) returns (r: Result<(bool, Json)>)
      modifies this
      ensures (Snapshot(), r) == WaitAuthzOp(Environment(), old(Snapshot()), uri, block)
    {
      if nonce.None? {
        return Err(AttributeError(NONCE_ATTR));
      }
      var url := AsString(uri);
      if url.Err? {
        return Err(url.error);
      }
      var polls := if block then AUTHZ_POLLS else 1;
      ghost var req := Request(url.value, [NonceLine(nonce.value)], None);
      ghost var st0 := Snapshot();
      var structure := JNull;
      var i := 0;
      while i < polls
        invariant 0 <= i <= polls
        invariant nonce == st0.nonce
        invariant i < polls ==> PollAuthz(Environment(), st0, req, polls) == PollAuthz(Environment(), Snapshot(), req, polls - i)
        invariant i == polls ==> PollAuthz(Environment(), st0, req, polls) == (Snapshot(), Ok(structure))
      {
        var http := Exchange(url.value, [NonceLine(nonce.value)], None);
        var parsed := parse(http.data);
        if parsed.None? {
          return Err(ValueError);
        }
        structure := parsed.value;
        var status := Get(structure, "status");
        if status.Err? {
          return Err(status.error);
        }
        if status.value != JStr("pending") {
          break;
        }
        i := i + 1;
      }
      return Ok((Get(structure, "status") == Ok(JStr("valid")), structure));
    }

    /** `simpleAuthz(userKey, identifier)`. */
    method SimpleAuthz(userKey: RsaKeyPair, identifier: Json) returns (r: Result<AuthzResult>)
      modifies this
      ensures (Snapshot(), r) == SimpleAuthzOp(Environment(), old(Snapshot()), userKey.key, identifier)
    {
      var a := NewAuthz(userKey, identifier);
      if a.Err? {
        return Err(a.error);
      }
      var (ok, structure) := a.value;
      if !ok {
        return Ok(Pair(false, structure));
      }
      var challenges := Get(structure, "challenges");
      if challenges.Err? {
        return Err(challenges.error);
      }
      var combinations := Get(structure, "combinations");
      if combinations.Err? {
        return Err(combinations.error);
      }
      var selected := SelectChallenges(challenges.value, combinations.value);
      if selected.Err? {
        return Err(selected.error);
      }
      var cs := selected.value;
      if |cs| == 0 {
        return Ok(Pair(false, NO_AUTHENTICATOR));
      }
      var done := RunChallenges(userKey, cs);
      if done.Err? {
        return Err(done.error);
      }
      return Ok(Flag(done.value));
    }

    /** The loop of simpleAuthz over the selected challenges: it stops at
        the first one that is not accepted. */
    method RunChallenges(userKey: RsaKeyPair, cs: seq<Json>) returns (r: Result<bool>)
      requires userKey.key.Some? && AllRegistered(authenticators, cs)
      modifies this
      ensures (Snapshot(), r) == AuthzLoop(Environment(), old(Snapshot()), userKey.key, cs)
    {
      ghost var st1 := Snapshot();
      var i := 0;
      while i < |cs|
        invariant 0 <= i <= |cs|
        invariant AuthzLoop(Environment(), st1, userKey.key, cs) == AuthzLoop(Environment(), Snapshot(), userKey.key, cs[i..])
      {
        assert cs[i..][1..] == cs[i + 1..];
        var rc := RunChallenge(userKey, cs[i]);
        if rc.Err? || !rc.value {
          return rc;
        }
        i := i + 1;
      }
      return Ok(true);
    }

    /** One pass of that loop: the key authorization, then prepare, trigger,
        wait when accepted, and clean up. */
    method RunChallenge(userKey: RsaKeyPair, challenge: Json) returns (r: Result<bool>)
      requires userKey.key.Some? && Registered(authenticators, challenge)
      modifies this
      ensures (Snapshot(), r) == AuthzStep(Environment(), old(Snapshot()), userKey.key, challenge)
    {
      var token := Get(challenge, "token");
      if token.Err? {
        return Err(token.error);
      }
      var thumbprint := userKey.GetJwkThumbprint(crypto);
      var tok := AsString(token.value);
      if tok.Err? {
        return Err(tok.error);
      }
      var keyAuthorization := Join([tok.value, thumbprint.value], ".");
      var auth := PrepareChallenge(challenge, keyAuthorization);
      var t := TriggerChallenge(userKey, challenge, keyAuthorization);
      if t.Err? {
        return Err(t.error);
      }
      var (rc, s) := t.value;
      if rc {
        var uri := Get(s, "uri");
        if uri.Err? {
          return Err(uri.error);
        }
        var w := WaitAuthzDone(uri.value, true);
        if w.Err? {
          return Err(w.error);
        }
        rc := w.value.0;
      }
      CleanupChallenge(auth);
      return Ok(rc);
    }

    /** `newCert(userKey, csr)`, with the two defects noted in the model
        corrected: the Retry-After value is read from the first header, and
        a refusal is parsed from the body. */
    method NewCert(userKey: RsaKeyPair, csr: CertificateSigningRequest) returns (r: Result<CertResult<Certificate>>)
      modifies this
      ensures var (st, spec) := NewCertOp(Environment(), old(Snapshot()), userKey.key, csr.GetJwsFormat(), false);
        Snapshot() == st && Delivers(r, spec) && (r.Ok? && r.value.Issued? ==> fresh(r.value.cert))
    {
      ghost var st0 := Snapshot();
      var sent := SendSigned(userKey, CertPost(csr.GetJwsFormat()), DirectoryUrl(directory, NEW_CERT));
      ghost var answer := SendSignedOp(Environment(), st0, userKey.key, CertPost(csr.GetJwsFormat()), DirectoryUrl(st0.directory, NEW_CERT));
      if sent.Err? {
        return Err(sent.error);
      }
      ghost var st1 := Snapshot();
      assert NewCertOp(Environment(), st0, userKey.key, csr.GetJwsFormat(), false) == CertAnswerOp(Environment(), st1, answer.1.value, false);
      r := CertAnswer(sent.value, answer.1.value);
    }

    /** What `newCert` does once its POST is answered: keep the nonce, then
        parse the refusal or fetch the certificate from its location. */
    method CertAnswer(http: HttpProviderCurl, ghost reply: Reply) returns (r: Result<CertResult<Certificate>>)
      requires nonce.Some? && Received(http, reply)
      modifies this
      ensures var (st, spec) := CertAnswerOp(Environment(), old(Snapshot()), reply, false);
        Snapshot() == st && Delivers(r, spec) && (r.Ok? && r.value.Issued? ==> fresh(r.value.cert))
    {
      KeepNonce(http);
      if http.response != 201 {
        var problem := parse(http.data);
        if problem.None? {
          return Err(ValueError);
        }
        return Ok(Rejected(problem.value));
      }
      var location := http.GetHeader("Location");
      if |location| == 0 {
        return Err(IndexError);
      }
      r := FetchCert(location[0]);
    }

    /** The polling half of `newCert`: GET the location until it stops
        answering 202, at most four times, pausing as Retry-After asks. */
    method FetchCert(location: string) returns (r: Result<CertResult<Certificate>>)
      requires nonce.Some?
      modifies this
      ensures var (st, spec) := FetchCertOp(Environment(), old(Snapshot()), location, false);
        Snapshot() == st && Delivers(r, spec) && (r.Ok? && r.value.Issued? ==> fresh(r.value.cert))
    {
      var polled := PollLocation(location);
      if polled.Err? {
        return Err(polled.error);
      }
      var http := polled.value;
      if http.response == 200 {
        var cert := new Certificate();
        var loaded := cert.Load(http.data, "DER");
        return Ok(Issued(cert));
      }
      return Ok(NotIssued);
    }

    /** The loop of those polls; the last reply is returned. */
    method PollLocation(location: string) returns (r: Result<HttpProviderCurl>)
      requires nonce.Some?
      modifies this
      ensures var (st, polled) := PollCert(Environment(), old(Snapshot()),
          Request(location, [NonceLine(old(nonce).value)], None), CERT_POLLS, CertDelay(false));
        Snapshot() == st && r.Ok? == polled.Ok? && (r.Err? ==> r.error == polled.error) &&
        (r.Ok? ==> Received(r.value, polled.value))
    {
      ghost var env := Environment();
      ghost var delay := CertDelay(false);
      ghost var req := Request(location, [NonceLine(nonce.value)], None);
      ghost var goal := PollCert(env, Snapshot(), req, CERT_POLLS, delay);
      ghost var st0 := Snapshot();
      var left := CERT_POLLS;
      while true
        invariant 1 <= left <= CERT_POLLS
        invariant nonce == st0.nonce
        invariant goal == PollCert(env, Snapshot(), req, left, delay)
        decreases left
      {
        ghost var before := Snapshot();
        assert goal == PollCert(env, before, req, left, delay);
        var http, pause := PollOnce(location);
        ghost var reply := Send(env, before, req).1;
        if http.response != 202 {
          assert goal == (Snapshot(), Ok(reply));
          return Ok(http);
        }
        if pause.Err? {
          assert goal == (Snapshot(), Err(pause.error));
          return Err(pause.error);
        }
        if left == 1 {
          assert goal == (Snapshot(), Ok(reply));
          return Ok(http);
        }
        PollCertAgain(env, before, req, left, delay);
        left := left - 1;
      }
    }

    /** One GET of the location, and the pause a 202 asks for. */
    method PollOnce(location: string) returns (http: HttpProviderCurl, pause: Result<nat>)
      requires nonce.Some?
      modifies this
      ensures var (st, reply) := Send(Environment(), old(Snapshot()), Request(location, [NonceLine(old(nonce).value)], None));
        Snapshot() == st && Received(http, reply) &&
        pause == (if reply.status == 202 then RetryAfter(ParseHeaders(reply.headerLines)) else Ok(0))
    {
      http := Exchange(location, [NonceLine(nonce.value)], None);
      pause := Ok(0);
      if http.response == 202 {
        pause := RetryAfter(http.header);
      }
    }
  }

  /** The certificate outcome of a method agrees with the one the model
      computes: the same error, the same problem, and a certificate object
      holding the delivered bytes. */
  predicate Delivers(r: Result<CertResult<Certificate>>, spec: Result<CertResult<seq<byte>>>)
    reads if r.Ok? && r.value.Issued? then {r.value.cert} else {}
  {
    match spec
    case Err(e) => r == Err(e)
    case Ok(Rejected(p)) => r == Ok(Rejected(p))
    case Ok(NotIssued) => r == Ok(NotIssued)
    case Ok(Issued(bytes)) => r.Ok? && r.value.Issued? && r.value.cert.data == Some(bytes)
  }

  /** A covered entry puts its challenge in front of the rest. */
  lemma CoveredCons(challenges: Json, entries: seq<Json>, authenticators: set<string>, c: Json, kind: Json)
    requires entries != [] && At(challenges, entries[0]) == Ok(c)
    requires Get(c, "type") == Ok(kind) && HasStringKey(authenticators, kind) == Ok(true)
    ensures Covered(challenges, entries, authenticators) == Prefixed([c], Covered(challenges, entries[1..], authenticators))
  {
  }

  lemma PrefixedAppend(auth: seq<Json>, c: Json, r: Result<Option<seq<Json>>>)
    ensures Prefixed(auth, Prefixed([c], r)) == Prefixed(auth + [c], r)
  {
    if r.Ok? && r.value.Some? {
      assert auth + ([c] + r.value.value) == auth + [c] + r.value.value;
    }
  }

  /** Prepend the challenges gathered so far to a covering. */
  function Prefixed(auth: seq<Json>, r: Result<Option<seq<Json>>>): Result<Option<seq<Json>>> {
    match r
    case Ok(Some(rest)) => Ok(Some(auth + rest))
    case _ => r
  }
}
