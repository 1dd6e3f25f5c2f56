/** `NegotiateSecurityFilter.doFilter`: one request through the authentication gate.

    A request that already carries a principal (on itself or in its session) goes straight
    downstream, unless a provider wants it renegotiated (an NTLM type-1 message posted with an
    empty body). A request without an `Authorization` header is challenged with every provider's
    challenge. Otherwise the header's package selects a provider: Negotiate hands the token to the
    Windows authentication provider, which either continues the handshake (401 with a single
    challenge, connection kept alive, the context kept for the connection) or completes it; Basic
    logs the user on in one go. A completed logon puts a principal into the session's subject and
    sends a wrapped request downstream. Every failure answers 401 with every challenge and closes
    the connection.

    The Windows authentication provider is an oracle: its answers are parameters, and nothing is
    assumed about the tokens it produces. */
module NegotiateFilter {
  import opened Wrappers
  import opened Octets
  import Base64
  import opened Http
  import opened WindowsPrincipals
  import opened SecurityFilterProviders
  import opened AuthorizationHeaders
  import opened FilterInit

  /** A server-side security context still waiting for the client's next token. Its contents
      belong to the authentication provider. */
  datatype Handshake = Handshake(securityPackage: string, state: Bytes)

  /** The authentication provider's answer to one client token (`acceptSecurityToken`). */
  datatype AcceptOutcome =
    | Continue(token: Bytes, context: Handshake)
    | Complete(token: Bytes, identity: Identity)
    | Rejected

  /** The Windows authentication provider: `acceptSecurityToken(previous context, token,
      package)` and `logonUser(user, password)`. */
  datatype WindowsAuth = WindowsAuth(
    accept: (Option<Handshake>, Bytes, string) -> AcceptOutcome,
    logon: (string, string) -> Option<Identity>)

  /** The HTTP session attributes the filter uses: the JAAS subject
      (`javax.security.auth.subject`) and the principal of the last logon. */
  datatype Session = Session(subject: Option<seq<WindowsPrincipal>>, principal: Option<CallerPrincipal>)

  /** Handshakes in progress, keyed by connection, and the HTTP sessions, keyed by session id. */
  datatype ServerState = ServerState(contexts: map<string, Handshake>, sessions: map<string, Session>)

  /** What goes downstream: `NegotiateRequestWrapper` around the request, or the request as is. */
  datatype ForwardedRequest = Wrapped(principal: WindowsPrincipal) | Unwrapped(request: Request)

  datatype Downstream = Blocked | Forwarded(request: ForwardedRequest)

  /** The result of one `doFilter`. */
  datatype Exchange = Exchange(response: Response, state: ServerState, downstream: Downstream)

  const NegotiateAuthType: string := "NEGOTIATE"
  const KeepAlive: string := "keep-alive"
  const Close: string := "close"

  /** `getAuthType` of the wrapper. */
  function AuthType(r: ForwardedRequest): Option<string> {
    if r.Wrapped? then Some(NegotiateAuthType) else None
  }

  /** `isUserInRole` of the wrapper. */
  predicate IsUserInRole(r: ForwardedRequest, role: string) {
    r.Wrapped? && HasRole(r.principal, role)
  }

  /** `getRemoteUser` of the wrapper. */
  function RemoteUser(r: ForwardedRequest): Option<string> {
    if r.Wrapped? then Some(r.principal.name) else None
  }

  // ---------------------------------------------------------------------------
  // Responses
  // ---------------------------------------------------------------------------

  /** Adds one header value per entry, in order. */
  function AddAll(r: Response, name: string, values: seq<string>): (res: Response)
    ensures res.status == r.status
    ensures Values(res.headers, name) == Values(r.headers, name) + values
    ensures forall n :: n != name ==> Values(res.headers, n) == Values(r.headers, n)
    ensures Http.Names(res.headers) == Http.Names(r.headers) + (if |values| > 0 then {name} else {})
    decreases |values|
  {
    if |values| == 0 then r
    else
      var r1 := AddHeader(r, name, values[0]);
      var r2 := AddAll(r1, name, values[1..]);
      AddAllStep(r, r1, r2, name, values);
      r2
  }

  lemma AddAllStep(r: Response, r1: Response, r2: Response, name: string, values: seq<string>)
    requires |values| > 0
    requires Values(r1.headers, name) == Values(r.headers, name) + [values[0]]
    requires Values(r2.headers, name) == Values(r1.headers, name) + values[1..]
    requires Http.Names(r1.headers) == Http.Names(r.headers) + {name}
    requires Http.Names(r2.headers) == Http.Names(r1.headers) + (if |values| > 1 then {name} else {})
    ensures Values(r2.headers, name) == Values(r.headers, name) + values
    ensures Http.Names(r2.headers) == Http.Names(r.headers) + {name}
  {
    JavaStrings.ConcatSplit(Values(r.headers, name), values);
    UnionAbsorbs(Http.Names(r.headers), Http.Names(r1.headers), Http.Names(r2.headers), name, |values| > 1);
  }

  lemma UnionAbsorbs(a: set<string>, b: set<string>, c: set<string>, name: string, again: bool)
    requires b == a + {name} && c == b + (if again then {name} else {})
    ensures c == a + {name}
  {
  }

  /** The filter's `sendUnauthorized`: every challenge, the connection header, then 401. */
  function SendUnauthorized(ps: seq<Provider>, r: Response, close: bool): (res: Response)
    ensures res.status == Unauthorized
    ensures Values(res.headers, WwwAuthenticate) == Values(r.headers, WwwAuthenticate) + AllChallenges(ps)
    ensures Values(res.headers, Connection) == [if close then Close else KeepAlive]
    ensures Http.Names(res.headers) ==
      Http.Names(r.headers) + {Connection} + (if |AllChallenges(ps)| > 0 then {WwwAuthenticate} else {})
  {
    var r1 := AddAll(r, WwwAuthenticate, AllChallenges(ps));
    SendError(SetHeader(r1, Connection, if close then Close else KeepAlive), Unauthorized)
  }

  /** Relays a non-empty output token as `<package> <base 64>`. */
  function WithToken(r: Response, package: string, token: Bytes): (res: Response)
    ensures res.status == r.status
    ensures Values(res.headers, WwwAuthenticate) ==
      Values(r.headers, WwwAuthenticate) + (if |token| > 0 then [Format(package, token)] else [])
    ensures forall n :: n != WwwAuthenticate ==> Values(res.headers, n) == Values(r.headers, n)
    ensures Http.Names(res.headers) == Http.Names(r.headers) + (if |token| > 0 then {WwwAuthenticate} else {})
  {
    if |token| > 0 then AddHeader(r, WwwAuthenticate, Format(package, token)) else r
  }

  /** Answers 401 with the connection kept alive for the next round. */
  function KeepChallenging(r: Response): (res: Response)
    ensures res.status == Unauthorized
    ensures Values(res.headers, Connection) == [KeepAlive]
    ensures forall n :: n != Connection ==> Values(res.headers, n) == Values(r.headers, n)
    ensures Http.Names(res.headers) == Http.Names(r.headers) + {Connection}
  {
    SendError(SetHeader(r, Connection, KeepAlive), Unauthorized)
  }

  // ---------------------------------------------------------------------------
  // Providers at work
  // ---------------------------------------------------------------------------

  /** How a provider's `doFilter` ends: it answered the client itself (a handshake round), it
      produced an identity, or it threw. Each carries the authentication provider's contexts
      afterwards. */
  datatype ProviderResult =
    | Answered(response: Response, contexts: map<string, Handshake>)
    | Authenticated(response: Response, contexts: map<string, Handshake>, identity: Identity)
    | Failed(contexts: map<string, Handshake>)

  /** The handshake a connection has in progress, if any. */
  function Previous(contexts: map<string, Handshake>, connection: string): (r: Option<Handshake>)
    ensures r.Some? <==> connection in contexts
  {
    if connection in contexts then Some(contexts[connection]) else None
  }

  /** `NegotiateSecurityFilterProvider.doFilter`. An NTLM type-1 POST first drops the
      connection's context. The token goes to the authentication provider with the connection's
      context; a continued handshake keeps its new context, a finished or rejected one loses it.
      An output token is relayed; a continued handshake, or a finished one that started as an
      NTLM type-1 POST, answers 401 and keeps the connection alive. */
  function NegotiateDoFilter(
    os: WindowsAuth, contexts: map<string, Handshake>, request: Request, header: string, package: string,
    response: Response): (r: ProviderResult)
    ensures r.Answered? ==> r.response.status == Unauthorized
    ensures r.Authenticated? ==> r.response.status == response.status
    ensures forall c :: c != request.connectionId ==>
      (c in r.contexts <==> c in contexts) && (c in contexts ==> r.contexts[c] == contexts[c])
  {
    var connection := request.connectionId;
    var ntlmPost := IsNtlmType1Post(request);
    var cs := if ntlmPost then contexts - {connection} else contexts;
    match TokenBytes(header)
    case None => Failed(cs)
    case Some(token) =>
      match os.accept(Previous(cs, connection), token, package)
      case Rejected => Failed(cs - {connection})
      case Continue(out, context) =>
        Answered(KeepChallenging(WithToken(response, package, out)), cs[connection := context])
      case Complete(out, identity) =>
        var r := WithToken(response, package, out);
        if ntlmPost then Answered(KeepChallenging(r), cs - {connection})
        else Authenticated(r, cs - {connection}, identity)
  }

  /** `BasicSecurityFilterProvider.doFilter`: decode the credentials and log on once. */
  function BasicDoFilter(os: WindowsAuth, contexts: map<string, Handshake>, header: string, response: Response)
    : (r: ProviderResult)
    ensures r.contexts == contexts
    ensures r.Authenticated? ==> r.response == response
  {
    match BasicCredentials(header)
    case None => Failed(contexts)
    case Some((user, password)) =>
      match os.logon(user, password)
      case None => Failed(contexts)
      case Some(identity) => Authenticated(response, contexts, identity)
  }

  /** The collection's `doFilter`: the provider the header's package selects, if any. */
  function ProvidersDoFilter(ps: seq<Provider>, os: WindowsAuth, contexts: map<string, Handshake>,
                             request: Request, header: string, response: Response): (r: ProviderResult)
    ensures r.Answered? ==> r.response.status == Unauthorized
    ensures r.Authenticated? ==> r.response.status == response.status
    ensures forall c :: c != request.connectionId ==>
      (c in r.contexts <==> c in contexts) && (c in contexts ==> r.contexts[c] == contexts[c])
  {
    match SecurityPackage(header)
    case None => Failed(contexts)
    case Some(package) =>
      match Select(ps, package)
      case None => Failed(contexts)
      case Some(i) =>
        match ps[i]
        case NegotiateProvider(_) => NegotiateDoFilter(os, contexts, request, header, package, response)
        case BasicProvider(_, _) => BasicDoFilter(os, contexts, header, response)
  }

  // ---------------------------------------------------------------------------
  // doFilter
  // ---------------------------------------------------------------------------

  /** The principal the request already has: its own, else its session's. */
  function ExistingPrincipal(st: ServerState, request: Request): Option<CallerPrincipal> {
    if request.userPrincipal.Some? then request.userPrincipal
    else if request.sessionId in st.sessions then st.sessions[request.sessionId].principal
    else None
  }

  /** A successful logon: the principal joins the session's subject (created if absent), becomes
      the session's principal, and goes downstream inside the wrapper. */
  function Admit(f: Filter, st: ServerState, request: Request, response: Response, identity: Identity): (x: Exchange)
    ensures x.downstream == Forwarded(Wrapped(NewPrincipal(identity, f.principalFormat, f.roleFormat)))
    ensures request.sessionId in x.state.sessions
    ensures var p := NewPrincipal(identity, f.principalFormat, f.roleFormat);
      var session := x.state.sessions[request.sessionId];
      session.principal == Some(WindowsCaller(p)) && session.subject.Some? && p in session.subject.value
    ensures x.state.contexts == st.contexts && x.response == response
    ensures forall s :: s != request.sessionId ==>
      (s in x.state.sessions <==> s in st.sessions) && (s in st.sessions ==> x.state.sessions[s] == st.sessions[s])
  {
    var p := NewPrincipal(identity, f.principalFormat, f.roleFormat);
    var session := if request.sessionId in st.sessions then st.sessions[request.sessionId] else Session(None, None);
    var subject := (if session.subject.Some? then session.subject.value else []) + [p];
    var sessions := st.sessions[request.sessionId := Session(Some(subject), Some(WindowsCaller(p)))];
    Exchange(response, st.(sessions := sessions), Forwarded(Wrapped(p)))
  }

  /** The part of `doFilter` after an `Authorization` header was found: the providers decide,
      and a failure or a refused guest answers 401 and closes the connection. */
  function Authenticate(f: Filter, os: WindowsAuth, st: ServerState, request: Request): (x: Exchange)
    requires f.providers.Some? && request.authorization.Some?
    ensures x.downstream.Blocked? ==> x.response.status == Unauthorized && x.state.sessions == st.sessions
    ensures x.downstream.Forwarded? ==> x.response.status == Http.Ok
    ensures x.downstream.Forwarded? ==>
      && request.sessionId in x.state.sessions
      && SubjectHoldsPrincipal(x.state.sessions[request.sessionId])
    ensures forall c :: c != request.connectionId ==>
      (c in x.state.contexts <==> c in st.contexts) && (c in st.contexts ==> x.state.contexts[c] == st.contexts[c])
    ensures forall s :: s != request.sessionId ==>
      (s in x.state.sessions <==> s in st.sessions) && (s in st.sessions ==> x.state.sessions[s] == st.sessions[s])
  {
    var ps := f.providers.value;
    var response := NewResponse();
    match ProvidersDoFilter(ps, os, st.contexts, request, request.authorization.value, response)
    case Failed(cs) => Exchange(SendUnauthorized(ps, response, true), st.(contexts := cs), Blocked)
    case Answered(r, cs) => Exchange(r, st.(contexts := cs), Blocked)
    case Authenticated(r, cs, identity) =>
      if !f.allowGuestLogin && identity.isGuest then
        Exchange(SendUnauthorized(ps, r, true), st.(contexts := cs), Blocked)
      else
        Admit(f, st.(contexts := cs), request, r, identity)
  }

  /** `doFilter` of an initialized filter. */
  function DoFilter(f: Filter, os: WindowsAuth, st: ServerState, request: Request): (x: Exchange)
    requires f.providers.Some?
    ensures x.downstream.Blocked? ==> x.response.status == Unauthorized
    ensures x.downstream.Forwarded? ==> x.response.status == Http.Ok
    ensures forall c :: c != request.connectionId ==>
      (c in x.state.contexts <==> c in st.contexts) && (c in st.contexts ==> x.state.contexts[c] == st.contexts[c])
    ensures forall s :: s != request.sessionId ==>
      (s in x.state.sessions <==> s in st.sessions) && (s in st.sessions ==> x.state.sessions[s] == st.sessions[s])
  {
    var ps := f.providers.value;
    var existing := ExistingPrincipal(st, request);
    if existing.Some? && !IsPrincipalException(ps, request) then
      var forwarded := match existing.value
        case WindowsCaller(p) => Wrapped(p)
        case OtherCaller(_) => Unwrapped(request);
      Exchange(NewResponse(), st, Forwarded(forwarded))
    else if IsNull(request.authorization) then
      Exchange(SendUnauthorized(ps, NewResponse(), false), st, Blocked)
    else
      Authenticate(f, os, st, request)
  }

  // ---------------------------------------------------------------------------
  // Properties
  // ---------------------------------------------------------------------------

  /** The package names the Negotiate provider. */
  predicate SelectsNegotiate(ps: seq<Provider>, package: string) {
    match Select(ps, package)
    case Some(i) => ps[i].NegotiateProvider?
    case None => false
  }

  /** The package names the Basic provider. */
  predicate SelectsBasic(ps: seq<Provider>, package: string) {
    match Select(ps, package)
    case Some(i) => ps[i].BasicProvider?
    case None => false
  }

  /** One Negotiate round of a client that has no principal yet: its header carries `token` for a
      package the Negotiate provider takes, and it is not an NTLM type-1 POST. */
  predicate NegotiateRound(f: Filter, st: ServerState, request: Request, package: string, token: Bytes) {
    && f.providers.Some?
    && ExistingPrincipal(st, request).None?
    && !IsNtlmType1Post(request)
    && |package| > 0 && ' ' !in package
    && SelectsNegotiate(f.providers.value, package)
    && request.authorization == Some(Format(package, token))
  }

  /** Without a principal and without credentials, the client is challenged with every
      provider's challenge, in provider order, and the connection is kept alive. */
  lemma ChallengeWithoutCredentials(f: Filter, os: WindowsAuth, st: ServerState, request: Request)
    requires f.providers.Some?
    requires ExistingPrincipal(st, request).None? && IsNull(request.authorization)
    ensures var x := DoFilter(f, os, st, request);
      && x.downstream == Blocked
      && x.state == st
      && x.response.status == Unauthorized
      && Values(x.response.headers, WwwAuthenticate) == AllChallenges(f.providers.value)
      && Values(x.response.headers, Connection) == [KeepAlive]
      && Http.Names(x.response.headers) ==
           {Connection} + (if |AllChallenges(f.providers.value)| > 0 then {WwwAuthenticate} else {})
  {
  }

  /** A continued handshake answers 401 with exactly the provider's token, readable back by the
      client, keeps the connection alive and remembers the new context for this connection only. */
  lemma ContinueRound(f: Filter, os: WindowsAuth, st: ServerState, request: Request, package: string,
                      token: Bytes, out: Bytes, context: Handshake)
    requires NegotiateRound(f, st, request, package, token)
    requires os.accept(Previous(st.contexts, request.connectionId), token, package) == Continue(out, context)
    ensures var x := DoFilter(f, os, st, request);
      && x.downstream == Blocked
      && x.response.status == Unauthorized
      && Values(x.response.headers, WwwAuthenticate) == (if |out| > 0 then [Format(package, out)] else [])
      && Values(x.response.headers, Connection) == [KeepAlive]
      && Http.Names(x.response.headers) == {Connection} + (if |out| > 0 then {WwwAuthenticate} else {})
      && x.state == st.(contexts := st.contexts[request.connectionId := context])
    ensures |out| > 0 ==>
      SecurityPackage(Format(package, out)) == Some(package) && TokenBytes(Format(package, out)) == Some(out)
  {
    ParseFormat(package, out);
    var r := KeepChallenging(WithToken(NewResponse(), package, out));
    var cs := st.contexts[request.connectionId := context];
    assert NegotiateDoFilter(os, st.contexts, request, Format(package, token), package, NewResponse())
        == Answered(r, cs) by {
      ParseFormat(package, token);
    }
    NegotiateRoundReachesProvider(f, os, st, request, package, token);
    HandshakeAnswerShape(package, out);
  }

  /** In a Negotiate round, `doFilter` is the Negotiate provider's answer, handled by `Authenticate`. */
  lemma NegotiateRoundReachesProvider(f: Filter, os: WindowsAuth, st: ServerState, request: Request,
                                      package: string, token: Bytes)
    requires NegotiateRound(f, st, request, package, token)
    ensures DoFilter(f, os, st, request) == Authenticate(f, os, st, request)
    ensures ProvidersDoFilter(f.providers.value, os, st.contexts, request, request.authorization.value, NewResponse())
         == NegotiateDoFilter(os, st.contexts, request, Format(package, token), package, NewResponse())
  {
    NegotiateSelected(f.providers.value, os, st.contexts, request, package, token, NewResponse());
    assert !IsNull(request.authorization);
  }

  /** A header formatted for the package the Negotiate provider takes goes to that provider. */
  lemma NegotiateSelected(ps: seq<Provider>, os: WindowsAuth, contexts: map<string, Handshake>,
                          request: Request, package: string, token: Bytes, response: Response)
    requires |package| > 0 && ' ' !in package && SelectsNegotiate(ps, package)
    ensures ProvidersDoFilter(ps, os, contexts, request, Format(package, token), response)
         == NegotiateDoFilter(os, contexts, request, Format(package, token), package, response)
  {
    ParseFormat(package, token);
  }

  /** A completed handshake sends the request downstream wrapped around the new principal, which
      becomes the session's principal and joins the session's subject; the connection's context is
      gone and a final token, if any, is relayed. */
  lemma CompleteRound(f: Filter, os: WindowsAuth, st: ServerState, request: Request, package: string,
                      token: Bytes, out: Bytes, identity: Identity)
    requires NegotiateRound(f, st, request, package, token)
    requires os.accept(Previous(st.contexts, request.connectionId), token, package) == Complete(out, identity)
    requires f.allowGuestLogin || !identity.isGuest
    ensures var x := DoFilter(f, os, st, request);
      var p := NewPrincipal(identity, f.principalFormat, f.roleFormat);
      && x.downstream == Forwarded(Wrapped(p))
      && AuthType(x.downstream.request) == Some(NegotiateAuthType)
      && RemoteUser(x.downstream.request) == Some(identity.fqn)
      && x.response.status == Http.Ok
      && Values(x.response.headers, WwwAuthenticate) == (if |out| > 0 then [Format(package, out)] else [])
      && x.state.contexts == st.contexts - {request.connectionId}
      && request.sessionId in x.state.sessions
      && x.state.sessions[request.sessionId].principal == Some(WindowsCaller(p))
      && x.state.sessions[request.sessionId].subject.Some?
      && p in x.state.sessions[request.sessionId].subject.value
  {
    var r := WithToken(NewResponse(), package, out);
    var cs := st.contexts - {request.connectionId};
    assert NegotiateDoFilter(os, st.contexts, request, Format(package, token), package, NewResponse())
        == Authenticated(r, cs, identity) by {
      ParseFormat(package, token);
    }
    NegotiateRoundReachesProvider(f, os, st, request, package, token);
  }

  /** With role format BOTH, the wrapped request is in the role of every group, both by name and
      by SID. */
  lemma WrapperHasGroupRoles(identity: Identity, pf: PrincipalFormat, k: nat)
    requires k < |identity.groups|
    ensures IsUserInRole(Wrapped(NewPrincipal(identity, pf, BOTH)), identity.groups[k].fqn)
    ensures IsUserInRole(Wrapped(NewPrincipal(identity, pf, BOTH)), identity.groups[k].sidString)
  {
    BothRolesHoldGroupNameAndSid(identity, pf, k);
  }

  /** A guest logon that guests may not make is refused: 401, every challenge after any final
      token, connection closed, session untouched. */
  lemma GuestRefused(f: Filter, os: WindowsAuth, st: ServerState, request: Request, package: string,
                     token: Bytes, out: Bytes, identity: Identity)
    requires NegotiateRound(f, st, request, package, token)
    requires os.accept(Previous(st.contexts, request.connectionId), token, package) == Complete(out, identity)
    requires !f.allowGuestLogin && identity.isGuest
    ensures var x := DoFilter(f, os, st, request);
      && x.downstream == Blocked
      && x.response.status == Unauthorized
      && Values(x.response.headers, WwwAuthenticate) ==
           (if |out| > 0 then [Format(package, out)] else []) + AllChallenges(f.providers.value)
      && Values(x.response.headers, Connection) == [Close]
      && x.state == st.(contexts := st.contexts - {request.connectionId})
  {
    var r := WithToken(NewResponse(), package, out);
    var cs := st.contexts - {request.connectionId};
    assert NegotiateDoFilter(os, st.contexts, request, Format(package, token), package, NewResponse())
        == Authenticated(r, cs, identity) by {
      ParseFormat(package, token);
    }
    NegotiateRoundReachesProvider(f, os, st, request, package, token);
    assert Authenticate(f, os, st, request)
        == Exchange(SendUnauthorized(f.providers.value, r, true), st.(contexts := cs), Blocked);
    RefusalShape(f.providers.value, package, out);
  }

  /** A refusal after a final token: 401, the token, then every challenge, connection closed. */
  lemma RefusalShape(ps: seq<Provider>, package: string, out: Bytes)
    ensures var r := SendUnauthorized(ps, WithToken(NewResponse(), package, out), true);
      && r.status == Unauthorized
      && Values(r.headers, WwwAuthenticate) == (if |out| > 0 then [Format(package, out)] else []) + AllChallenges(ps)
      && Values(r.headers, Connection) == [Close]
  {
    var w := WithToken(NewResponse(), package, out);
    assert Values(NewResponse().headers, WwwAuthenticate) == [];
    assert Values(w.headers, WwwAuthenticate) == (if |out| > 0 then [Format(package, out)] else []);
    var r := SendUnauthorized(ps, w, true);
    assert Values(r.headers, WwwAuthenticate) == Values(w.headers, WwwAuthenticate) + AllChallenges(ps);
  }

  /** A token the authentication provider rejects answers 401 with every challenge and closes the
      connection; the connection's context is disposed of. */
  lemma RejectedTokenCloses(f: Filter, os: WindowsAuth, st: ServerState, request: Request, package: string,
                            token: Bytes)
    requires NegotiateRound(f, st, request, package, token)
    requires os.accept(Previous(st.contexts, request.connectionId), token, package) == Rejected
    ensures var x := DoFilter(f, os, st, request);
      && x.downstream == Blocked
      && x.response.status == Unauthorized
      && Values(x.response.headers, WwwAuthenticate) == AllChallenges(f.providers.value)
      && Values(x.response.headers, Connection) == [Close]
      && x.state == st.(contexts := st.contexts - {request.connectionId})
  {
    var cs := st.contexts - {request.connectionId};
    assert NegotiateDoFilter(os, st.contexts, request, Format(package, token), package, NewResponse())
        == Failed(cs) by {
      ParseFormat(package, token);
    }
    NegotiateRoundReachesProvider(f, os, st, request, package, token);
  }

  /** A header without a package, with a package no provider takes, or with a token that is not
      base 64 is a failure: 401, every challenge, connection closed, nothing remembered. */
  lemma UnreadableHeaderCloses(f: Filter, os: WindowsAuth, st: ServerState, request: Request)
    requires f.providers.Some?
    requires ExistingPrincipal(st, request).None? && !IsNull(request.authorization)
    requires var h := request.authorization.value;
      || SecurityPackage(h).None?
      || Select(f.providers.value, SecurityPackage(h).value).None?
      || TokenBytes(h).None?
    ensures var x := DoFilter(f, os, st, request);
      && x.downstream == Blocked
      && x.response.status == Unauthorized
      && Values(x.response.headers, WwwAuthenticate) == AllChallenges(f.providers.value)
      && Values(x.response.headers, Connection) == [Close]
      && x.state == st
  {
    var ps := f.providers.value;
    UnreadableHeaderFails(ps, os, st.contexts, request, request.authorization.value, NewResponse());
    assert st.(contexts := st.contexts) == st;
    assert DoFilter(f, os, st, request) == Exchange(SendUnauthorized(ps, NewResponse(), true), st, Blocked);
  }

  /** A header without a package, with a package no provider takes, or with an unreadable token
      leaves every provider out and the contexts as they were. */
  lemma UnreadableHeaderFails(ps: seq<Provider>, os: WindowsAuth, contexts: map<string, Handshake>,
                              request: Request, h: string, response: Response)
    requires request.authorization == Some(h)
    requires SecurityPackage(h).None? || Select(ps, SecurityPackage(h).value).None? || TokenBytes(h).None?
    ensures ProvidersDoFilter(ps, os, contexts, request, h, response) == Failed(contexts)
  {
    if SecurityPackage(h).Some? && Select(ps, SecurityPackage(h).value).Some? {
      assert !IsNtlmType1Post(request);
      assert BasicCredentials(h).None?;
    }
  }

  /** A request that already has a principal goes downstream untouched, wrapped when the principal
      is one of ours, unless it is an NTLM type-1 POST. */
  lemma PreviousPrincipalPassesThrough(f: Filter, os: WindowsAuth, st: ServerState, request: Request)
    requires f.providers.Some?
    requires ExistingPrincipal(st, request).Some? && !IsNtlmType1Post(request)
    ensures var x := DoFilter(f, os, st, request);
      var existing := ExistingPrincipal(st, request).value;
      && x.state == st
      && x.response == NewResponse()
      && (existing.WindowsCaller? ==> x.downstream == Forwarded(Wrapped(existing.principal)))
      && (existing.OtherCaller? ==> x.downstream == Forwarded(Unwrapped(request)))
  {
  }

  /** An NTLM type-1 message posted with an empty body restarts the handshake, principal or not:
      the connection's context is dropped, the provider sees no previous context, and the answer
      is a 401 with only the provider's token and the connection kept alive, even when the provider
      completes at once. */
  lemma NtlmPostRenegotiates(f: Filter, os: WindowsAuth, st: ServerState, request: Request, package: string)
    requires f.providers.Some?
    requires IsNtlmType1Post(request)
    requires SecurityPackage(request.authorization.value) == Some(package)
    requires SelectsNegotiate(f.providers.value, package)
    requires !os.accept(None, TokenBytes(request.authorization.value).value, package).Rejected?
    ensures var x := DoFilter(f, os, st, request);
      var answer := os.accept(None, TokenBytes(request.authorization.value).value, package);
      && x.downstream == Blocked
      && x.response.status == Unauthorized
      && Values(x.response.headers, WwwAuthenticate) ==
           (if |answer.token| > 0 then [Format(package, answer.token)] else [])
      && Values(x.response.headers, Connection) == [KeepAlive]
      && Http.Names(x.response.headers) == {Connection} + (if |answer.token| > 0 then {WwwAuthenticate} else {})
      && x.state.sessions == st.sessions
      && (answer.Continue? ==> x.state.contexts == st.contexts[request.connectionId := answer.context])
      && (answer.Complete? ==> x.state.contexts == st.contexts - {request.connectionId})
  {
    var ps := f.providers.value;
    var h := request.authorization.value;
    var connection := request.connectionId;
    var answer := os.accept(None, TokenBytes(h).value, package);
    var r := KeepChallenging(WithToken(NewResponse(), package, answer.token));
    var cs := if answer.Continue? then st.contexts[connection := answer.context] else st.contexts - {connection};
    NtlmPostReachesProvider(f, os, st, request, package);
    NtlmPostAnswer(os, st.contexts, request, package, NewResponse());
    assert Authenticate(f, os, st, request) == Exchange(r, st.(contexts := cs), Blocked);
    HandshakeAnswerShape(package, answer.token);
  }

  /** The answer to a handshake round: 401, the connection kept alive, and the output token as
      the only challenge when there is one. */
  lemma HandshakeAnswerShape(package: string, out: Bytes)
    ensures var r := KeepChallenging(WithToken(NewResponse(), package, out));
      && r.status == Unauthorized
      && Values(r.headers, WwwAuthenticate) == (if |out| > 0 then [Format(package, out)] else [])
      && Values(r.headers, Connection) == [KeepAlive]
      && Http.Names(r.headers) == {Connection} + (if |out| > 0 then {WwwAuthenticate} else {})
  {
  }

  /** An NTLM type-1 POST for the Negotiate provider reaches that provider, principal or not. */
  lemma NtlmPostReachesProvider(f: Filter, os: WindowsAuth, st: ServerState, request: Request, package: string)
    requires f.providers.Some?
    requires IsNtlmType1Post(request)
    requires SecurityPackage(request.authorization.value) == Some(package)
    requires SelectsNegotiate(f.providers.value, package)
    ensures DoFilter(f, os, st, request) == Authenticate(f, os, st, request)
    ensures ProvidersDoFilter(f.providers.value, os, st.contexts, request, request.authorization.value, NewResponse())
         == NegotiateDoFilter(os, st.contexts, request, request.authorization.value, package, NewResponse())
  {
    var ps := f.providers.value;
    var i := Select(ps, package).value;
    assert 0 <= i < |ps| && ps[i].NegotiateProvider? && IsNtlmType1Post(request);
  }

  /** The Negotiate provider's answer to an NTLM type-1 POST: the token goes to the authentication
      provider without a previous context and any answer but a rejection keeps challenging. */
  lemma NtlmPostAnswer(os: WindowsAuth, contexts: map<string, Handshake>, request: Request, package: string,
                       response: Response)
    requires IsNtlmType1Post(request)
    requires !os.accept(None, TokenBytes(request.authorization.value).value, package).Rejected?
    ensures var answer := os.accept(None, TokenBytes(request.authorization.value).value, package);
      var connection := request.connectionId;
      NegotiateDoFilter(os, contexts, request, request.authorization.value, package, response)
        == Answered(KeepChallenging(WithToken(response, package, answer.token)),
                    if answer.Continue? then contexts[connection := answer.context] else contexts - {connection})
  {
    Type1PostNeedsEmptyPostOrPut(request);
    var token := TokenBytes(request.authorization.value).value;
    var answer := os.accept(None, token, package);
    if answer.Continue? {
      NtlmPostContinues(os, contexts, request, package, response, token);
    } else {
      NtlmPostCompletes(os, contexts, request, package, response, token);
    }
  }

  lemma NtlmPostContinues(os: WindowsAuth, contexts: map<string, Handshake>, request: Request, package: string,
                          response: Response, token: Bytes)
    requires IsNtlmType1Post(request) && TokenBytes(request.authorization.value) == Some(token)
    requires os.accept(None, token, package).Continue?
    ensures var answer := os.accept(None, token, package);
      NegotiateDoFilter(os, contexts, request, request.authorization.value, package, response)
        == Answered(KeepChallenging(WithToken(response, package, answer.token)),
                    contexts[request.connectionId := answer.context])
  {
    var connection := request.connectionId;
    var cs := contexts - {connection};
    assert Previous(cs, connection) == None;
    assert cs[connection := os.accept(None, token, package).context]
        == contexts[connection := os.accept(None, token, package).context];
  }

  lemma NtlmPostCompletes(os: WindowsAuth, contexts: map<string, Handshake>, request: Request, package: string,
                          response: Response, token: Bytes)
    requires IsNtlmType1Post(request) && TokenBytes(request.authorization.value) == Some(token)
    requires os.accept(None, token, package).Complete?
    ensures var answer := os.accept(None, token, package);
      NegotiateDoFilter(os, contexts, request, request.authorization.value, package, response)
        == Answered(KeepChallenging(WithToken(response, package, answer.token)), contexts - {request.connectionId})
  {
    var connection := request.connectionId;
    var cs := contexts - {connection};
    assert Previous(cs, connection) == None;
    assert cs - {connection} == contexts - {connection};
  }

  /** Basic logs on in one round: the credentials reach `logonUser` intact and the request goes
      downstream wrapped around the new principal, with no header added. */
  lemma BasicOneRound(f: Filter, os: WindowsAuth, st: ServerState, request: Request,
                      user: string, password: string, identity: Identity)
    requires f.providers.Some?
    requires ExistingPrincipal(st, request).None?
    requires ':' !in user && request.authorization == Some(BasicHeader(user, password))
    requires SelectsBasic(f.providers.value, "Basic")
    requires os.logon(user, password) == Some(identity)
    requires f.allowGuestLogin || !identity.isGuest
    ensures var x := DoFilter(f, os, st, request);
      var p := NewPrincipal(identity, f.principalFormat, f.roleFormat);
      && x.downstream == Forwarded(Wrapped(p))
      && x.response == NewResponse()
      && x.state.contexts == st.contexts
      && request.sessionId in x.state.sessions
      && x.state.sessions[request.sessionId].principal == Some(WindowsCaller(p))
      && x.state.sessions[request.sessionId].subject.Some?
      && p in x.state.sessions[request.sessionId].subject.value
  {
    BasicLogsOn(f.providers.value, os, st.contexts, request, user, password, identity, NewResponse());
    assert st.(contexts := st.contexts) == st;
    assert DoFilter(f, os, st, request) == Admit(f, st, request, NewResponse(), identity);
  }

  /** The Basic provider hands the logged-on identity back with the response untouched. */
  lemma BasicLogsOn(ps: seq<Provider>, os: WindowsAuth, contexts: map<string, Handshake>, request: Request,
                    user: string, password: string, identity: Identity, response: Response)
    requires ':' !in user
    requires SelectsBasic(ps, "Basic")
    requires os.logon(user, password) == Some(identity)
    ensures ProvidersDoFilter(ps, os, contexts, request, BasicHeader(user, password), response)
      == Authenticated(response, contexts, identity)
  {
    BasicHeaderRoundTrip(user, password);
  }

  /** After a completed handshake, a later request of the same session passes on the session's
      principal, whatever its own header says, unless it is an NTLM type-1 POST. */
  lemma SessionRemembersLogon(f: Filter, os: WindowsAuth, st: ServerState, first: Request, second: Request,
                              package: string, token: Bytes, out: Bytes, identity: Identity)
    requires NegotiateRound(f, st, first, package, token)
    requires os.accept(Previous(st.contexts, first.connectionId), token, package) == Complete(out, identity)
    requires f.allowGuestLogin || !identity.isGuest
    requires second.sessionId == first.sessionId && second.userPrincipal.None? && !IsNtlmType1Post(second)
    ensures var x := DoFilter(f, os, st, first);
      var y := DoFilter(f, os, x.state, second);
      && y.downstream == Forwarded(Wrapped(NewPrincipal(identity, f.principalFormat, f.roleFormat)))
      && y.state == x.state
      && y.response == NewResponse()
  {
    CompleteRound(f, os, st, first, package, token, out, identity);
  }

  /** Every session whose principal is one of ours also holds it in its subject. */
  predicate SubjectsHoldPrincipals(st: ServerState) {
    forall s :: s in st.sessions ==> SubjectHoldsPrincipal(st.sessions[s])
  }

  predicate SubjectHoldsPrincipal(session: Session) {
    session.principal.Some? && session.principal.value.WindowsCaller? ==>
      session.subject.Some? && session.principal.value.principal in session.subject.value
  }

  /** `doFilter` keeps every session's principal inside its subject. */
  lemma DoFilterKeepsSubjects(f: Filter, os: WindowsAuth, st: ServerState, request: Request)
    requires f.providers.Some? && SubjectsHoldPrincipals(st)
    ensures SubjectsHoldPrincipals(DoFilter(f, os, st, request).state)
  {
    var x := DoFilter(f, os, st, request);
    assert x.state.sessions == st.sessions || x == Authenticate(f, os, st, request);
    forall s | s in x.state.sessions
      ensures SubjectHoldsPrincipal(x.state.sessions[s])
    {
      if s != request.sessionId {
        assert x.state.sessions[s] == st.sessions[s];
      }
    }
  }

  /** Nothing reaches the application without a principal: a request that had none goes
      downstream only after a logon that made a principal of ours the session's principal. */
  lemma NoPrincipalNoEntry(f: Filter, os: WindowsAuth, st: ServerState, request: Request)
    requires f.providers.Some?
    requires ExistingPrincipal(st, request).None?
    ensures var x := DoFilter(f, os, st, request);
      x.downstream.Forwarded? ==>
        && !IsNull(request.authorization)
        && x.downstream.request.Wrapped?
        && request.sessionId in x.state.sessions
        && x.state.sessions[request.sessionId].principal == Some(WindowsCaller(x.downstream.request.principal))
  {
  }
}
