/** The filter's documented scenarios, stated over the model: the configurations the filter
    accepts and refuses at `init`, and the exchanges a browser goes through, with the Windows
    authentication provider left abstract. */
module FilterScenarios {
  import opened Wrappers
  import opened Octets
  import JavaStrings
  import Base64
  import NtlmMessage
  import opened Http
  import opened WindowsPrincipals
  import opened AuthorizationHeaders
  import opened SecurityFilterProviders
  import opened FilterInit
  import opened NegotiateFilter

  /** A filter constructed with an authentication provider and initialized without a
      configuration. */
  function SetUp(auth: string): Result<Filter, InitError> {
    Init(SetAuth(NewFilter(), auth), None)
  }

  const SetUpFilter: Filter := Filter(FQN, FQN, true, false, Some(WindowsAuthProviderClass), Some(DefaultProviders))

  /** Without a configuration the filter keeps the provider it was given and builds the default
      providers: Negotiate (Negotiate and NTLM), then Basic. */
  lemma SetUpBuildsDefaults(auth: string)
    ensures SetUp(auth) == Ok(Filter(FQN, FQN, true, false, Some(auth), Some(DefaultProviders)))
  {
  }

  // ---------------------------------------------------------------------------
  // init
  // ---------------------------------------------------------------------------

  /** A Basic-only configuration: SID names, no roles, guests allowed, the mock provider and the
      configured realm. */
  lemma InitBasicProvider()
    ensures Init(SetUpFilter, Some([
      ("principalFormat", "sid"),
      ("roleFormat", "none"),
      ("allowGuestLogin", "true"),
      ("authProvider", MockAuthProviderClass),
      ("securityFilterProviders", BasicProviderClass + "\n"),
      (BasicProviderClass + "/" + "realm", "DemoRealm")]))
      == Ok(Filter(SID, NONE, true, false, Some(MockAuthProviderClass), Some([BasicProvider("DemoRealm", DefaultCharset)])))
  {
    var c6 := Collected(SetUpFilter.(principalFormat := SID, roleFormat := NONE, allowGuestLogin := true), Some(MockAuthProviderClass),
                        Some(JavaStrings.SplitWhitespace(BasicProviderClass + "\n")),
                        [(BasicProviderClass + "/" + "realm", "DemoRealm")]);
    CollectBasicConfiguration(SetUpFilter);
    InitThroughCollected(SetUpFilter, [
      ("principalFormat", "sid"),
      ("roleFormat", "none"),
      ("allowGuestLogin", "true"),
      ("authProvider", MockAuthProviderClass),
      ("securityFilterProviders", BasicProviderClass + "\n"),
      (BasicProviderClass + "/" + "realm", "DemoRealm")], c6);
    ConfigureBasic(c6);
  }

  lemma CollectBasicConfiguration(f: Filter)
    ensures CollectAll(Collected(f, None, None, []), [
      ("principalFormat", "sid"),
      ("roleFormat", "none"),
      ("allowGuestLogin", "true"),
      ("authProvider", MockAuthProviderClass),
      ("securityFilterProviders", BasicProviderClass + "\n"),
      (BasicProviderClass + "/" + "realm", "DemoRealm")])
      == Ok(Collected(f.(principalFormat := SID, roleFormat := NONE, allowGuestLogin := true), Some(MockAuthProviderClass),
                      Some(JavaStrings.SplitWhitespace(BasicProviderClass + "\n")),
                      [(BasicProviderClass + "/" + "realm", "DemoRealm")]))
  {
    var settings := [("principalFormat", "sid"), ("roleFormat", "none"), ("allowGuestLogin", "true"),
                     ("authProvider", MockAuthProviderClass)];
    var realm := (BasicProviderClass + "/" + "realm", "DemoRealm");
    var rest := [("securityFilterProviders", BasicProviderClass + "\n"), realm];
    var c0 := Collected(f, None, None, []);
    var c4 := Collected(f.(principalFormat := SID, roleFormat := NONE, allowGuestLogin := true), Some(MockAuthProviderClass), None, []);
    CollectBasicSettings(f);
    CollectBasicProviders(c4);
    assert c4.implParameters + [realm] == [realm];
    CollectAllAppend(c0, settings, rest);
    JavaStrings.FourThenTwo(settings[0], settings[1], settings[2], settings[3], rest[0], rest[1]);
  }

  lemma CollectBasicProviders(c: Collected)
    ensures CollectAll(c, [("securityFilterProviders", BasicProviderClass + "\n"), (BasicProviderClass + "/" + "realm", "DemoRealm")])
         == Ok(c.(providerNames := Some(JavaStrings.SplitWhitespace(BasicProviderClass + "\n")),
                  implParameters := c.implParameters + [(BasicProviderClass + "/" + "realm", "DemoRealm")]))
  {
    var list := ("securityFilterProviders", BasicProviderClass + "\n");
    var realm := (BasicProviderClass + "/" + "realm", "DemoRealm");
    ProviderKeysAreNotSettings(BasicProviderClass, "realm");
    CollectProviderList(c, BasicProviderClass + "\n", [realm]);
    JavaStrings.OneThenOne(list, realm);
  }

  lemma CollectBasicSettings(f: Filter)
    ensures CollectAll(Collected(f, None, None, []),
                       [("principalFormat", "sid"), ("roleFormat", "none"), ("allowGuestLogin", "true"),
                        ("authProvider", MockAuthProviderClass)])
         == Ok(Collected(f.(principalFormat := SID, roleFormat := NONE, allowGuestLogin := true), Some(MockAuthProviderClass), None, []))
  {
    var c0 := Collected(f, None, None, []);
    var c1 := c0.(filter := c0.filter.(principalFormat := SID));
    var c2 := c1.(filter := c1.filter.(roleFormat := NONE));
    var c3 := c2.(filter := c2.filter.(allowGuestLogin := true));
    var c4 := c3.(authProvider := Some(MockAuthProviderClass));
    assert ParsePrincipalFormat("sid") == Ok(SID) by { assert JavaStrings.ToUpper("sid") == "SID"; }
    assert ParsePrincipalFormat("none") == Ok(NONE) by { assert JavaStrings.ToUpper("none") == "NONE"; }
    assert ParseBoolean("true");
    CollectSettings(c0, "sid", SID, "none", NONE, "true", MockAuthProviderClass);
  }

  /** The four settings of the Basic configuration, collected in turn. */
  lemma CollectSettings(c: Collected, principal: string, pf: PrincipalFormat, role: string, rf: PrincipalFormat,
                        guest: string, auth: string)
    requires ParsePrincipalFormat(principal) == Ok(pf) && ParsePrincipalFormat(role) == Ok(rf)
    ensures CollectAll(c, [("principalFormat", principal), ("roleFormat", role), ("allowGuestLogin", guest),
                           ("authProvider", auth)])
         == Ok(c.(filter := c.filter.(principalFormat := pf, roleFormat := rf, allowGuestLogin := ParseBoolean(guest)),
                  authProvider := Some(auth)))
  {
    var p1, p2, p3, p4 := ("principalFormat", principal), ("roleFormat", role), ("allowGuestLogin", guest),
                          ("authProvider", auth);
    var c1 := c.(filter := c.filter.(principalFormat := pf));
    var c2 := c1.(filter := c1.filter.(roleFormat := rf));
    var c3 := c2.(filter := c2.filter.(allowGuestLogin := ParseBoolean(guest)));
    var c4 := c3.(authProvider := Some(auth));
    assert Collect(c, p1) == Ok(c1);
    assert Collect(c1, p2) == Ok(c2);
    assert Collect(c2, p3) == Ok(c3);
    assert Collect(c3, p4) == Ok(c4);
    CollectChain(c, p1, p2, p3, p4, c1, c2, c3, c4);
  }

  lemma CollectChain(c0: Collected, p1: Parameter, p2: Parameter, p3: Parameter, p4: Parameter,
                     c1: Collected, c2: Collected, c3: Collected, c4: Collected)
    requires Collect(c0, p1) == Ok(c1) && Collect(c1, p2) == Ok(c2)
    requires Collect(c2, p3) == Ok(c3) && Collect(c3, p4) == Ok(c4)
    ensures CollectAll(c0, [p1, p2, p3, p4]) == Ok(c4)
  {
    CollectTwo(c0, p1, p2, c1, c2, [p3, p4]);
    CollectTwo(c2, p3, p4, c3, c4, []);
    assert [p1, p2] + [p3, p4] == [p1, p2, p3, p4];
    assert [p3, p4] + [] == [p3, p4];
  }

  lemma CollectTwo(c0: Collected, p1: Parameter, p2: Parameter, c1: Collected, c2: Collected, rest: seq<Parameter>)
    requires Collect(c0, p1) == Ok(c1) && Collect(c1, p2) == Ok(c2)
    ensures CollectAll(c0, [p1, p2] + rest) == CollectAll(c2, rest)
  {
    CollectAllCons(c1, p2, rest);
    CollectAllCons(c0, p1, [p2] + rest);
    assert [p1] + ([p2] + rest) == [p1, p2] + rest;
  }

  /** After the loop: the mock provider is accepted and the one Basic provider takes its realm. */
  lemma ConfigureBasic(c: Collected)
    requires c.filter.auth.Some? && c.authProvider == Some(MockAuthProviderClass)
    requires c.providerNames == Some(JavaStrings.SplitWhitespace(BasicProviderClass + "\n"))
    requires c.implParameters == [(BasicProviderClass + "/" + "realm", "DemoRealm")]
    ensures Configure(c) == Ok(c.filter.(auth := Some(MockAuthProviderClass),
                                         providers := Some([BasicProvider("DemoRealm", DefaultCharset)])))
  {
    var basic := BasicProvider(DefaultRealm, DefaultCharset);
    var f1 := c.filter.(auth := Some(MockAuthProviderClass));
    var f3 := f1.(providers := Some([basic]));
    assert IsAuthProviderClass(MockAuthProviderClass);
    assert LoadProviders(c.providerNames.value) == Ok([basic]) by { LoadOnlyBasic(); }
    assert ApplyAll([basic], c.implParameters) == Ok([BasicProvider("DemoRealm", DefaultCharset)]) by {
      ApplyRealmToBasic("DemoRealm");
    }
  }

  lemma LoadOnlyBasic()
    ensures LoadProviders(JavaStrings.SplitWhitespace(BasicProviderClass + "\n"))
         == Ok([BasicProvider(DefaultRealm, DefaultCharset)])
  {
    ProviderClassesAreWords();
    JavaStrings.SplitWhitespaceOfWord(BasicProviderClass, "\n");
    LoadSingleProvider(BasicProviderClass);
  }

  lemma ApplyRealmToBasic(realm: string)
    ensures ApplyAll([BasicProvider(DefaultRealm, DefaultCharset)], [(BasicProviderClass + "/" + "realm", realm)])
         == Ok([BasicProvider(realm, DefaultCharset)])
  {
    var basic := BasicProvider(DefaultRealm, DefaultCharset);
    assert InitParameter(basic, "realm", realm) == Ok(BasicProvider(realm, DefaultCharset));
    assert FindByClassName([basic], BasicProviderClass) == Some(0);
    assert '/' !in BasicProviderClass by { ProviderClassesAreWords(); }
    ApplyParameterToClass([basic], BasicProviderClass, "realm", realm);
    ApplySingle([basic], (BasicProviderClass + "/" + "realm", realm));
    assert [basic][0 := BasicProvider(realm, DefaultCharset)] == [BasicProvider(realm, DefaultCharset)];
  }

  /** Provider names may be separated by any whitespace; each occurrence builds a provider. */
  lemma InitTwoKindsOfSeparator()
    ensures var value := BasicProviderClass + "\n" + NegotiateProviderClass + " " + BasicProviderClass;
      var r := Init(SetUpFilter, Some([("securityFilterProviders", value)]));
      && r == Ok(SetUpFilter.(providers := Some([BasicProvider(DefaultRealm, DefaultCharset),
                                                 NegotiateProvider(DefaultProtocols),
                                                 BasicProvider(DefaultRealm, DefaultCharset)])))
      && |r.value.providers.value| == 3
  {
    var value := BasicProviderClass + "\n" + NegotiateProviderClass + " " + BasicProviderClass;
    var basic := BasicProvider(DefaultRealm, DefaultCharset);
    var negotiate := NegotiateProvider(DefaultProtocols);
    SplitBasicNegotiateBasic();
    LoadBasicNegotiateBasic();
    InitWithProviderList(SetUpFilter, value, []);
    assert [("securityFilterProviders", value)] + [] == [("securityFilterProviders", value)];
  }

  lemma SplitBasicNegotiateBasic()
    ensures JavaStrings.SplitWhitespace(BasicProviderClass + "\n" + NegotiateProviderClass + " " + BasicProviderClass)
         == [BasicProviderClass, NegotiateProviderClass, BasicProviderClass]
  {
    ProviderClassesAreWords();
    var words := [BasicProviderClass, NegotiateProviderClass, BasicProviderClass];
    assert JavaStrings.Interleave(words, ["\n", " "]) + ""
        == BasicProviderClass + "\n" + NegotiateProviderClass + " " + BasicProviderClass;
    JavaStrings.SplitWhitespaceOfInterleave(words, ["\n", " "], "");
  }

  lemma LoadBasicNegotiateBasic()
    ensures LoadProviders([BasicProviderClass, NegotiateProviderClass, BasicProviderClass])
         == Ok([BasicProvider(DefaultRealm, DefaultCharset), NegotiateProvider(DefaultProtocols),
                BasicProvider(DefaultRealm, DefaultCharset)])
  {
    var basic := BasicProvider(DefaultRealm, DefaultCharset);
    var negotiate := NegotiateProvider(DefaultProtocols);
    ProviderClassesAreWords();
    assert |NegotiateProviderClass| != |BasicProviderClass|;
    assert LoadProviders([BasicProviderClass]) == Ok([basic]) by {
      LoadSingleProvider(BasicProviderClass);
    }
    assert LoadProviders([NegotiateProviderClass, BasicProviderClass]) == Ok([negotiate, basic]) by {
      LoadProvidersCons(NegotiateProviderClass, [BasicProviderClass]);
      assert [NegotiateProviderClass] + [BasicProviderClass] == [NegotiateProviderClass, BasicProviderClass];
      assert [negotiate] + [basic] == [negotiate, basic];
    }
    LoadProvidersCons(BasicProviderClass, [NegotiateProviderClass, BasicProviderClass]);
    assert [BasicProviderClass] + [NegotiateProviderClass, BasicProviderClass]
        == [BasicProviderClass, NegotiateProviderClass, BasicProviderClass];
    assert [basic] + [negotiate, basic] == [basic, negotiate, basic];
  }

  /** Negotiate alone, with a protocol list that repeats a protocol across a newline. */
  lemma InitNegotiateProvider()
    ensures Init(SetUpFilter, Some([
      ("securityFilterProviders", NegotiateProviderClass + "\n"),
      (NegotiateProviderClass + "/" + "protocols", Ntlm + "\n" + Negotiate + " " + Ntlm)]))
      == Ok(SetUpFilter.(providers := Some([NegotiateProvider([Ntlm, Negotiate, Ntlm])])))
  {
    var value := Ntlm + "\n" + Negotiate + " " + Ntlm;
    assert ParseProtocols(value) == Ok([Ntlm, Negotiate, Ntlm]) by {
      assert JavaStrings.Interleave([Ntlm, Negotiate, Ntlm], ["\n", " "]) + "" == value;
      ParseProtocolsOfWords([Ntlm, Negotiate, Ntlm], ["\n", " "], "");
    }
    InitNegotiateWithProtocols(SetUpFilter, value);
  }

  /** An unknown protocol stops `init` with the provider's own message. */
  lemma InitRefusesUnknownProtocol()
    ensures var r := Init(SetUpFilter, Some([
      ("securityFilterProviders", NegotiateProviderClass + "\n"),
      (NegotiateProviderClass + "/" + "protocols", "INVALID")]));
      && r == Err(ImplParameterRejected(UnsupportedProtocol("INVALID")))
      && Message(r.error) == "java.lang.RuntimeException: Unsupported protocol: " + "INVALID"
  {
    ParseProtocolsRefusesUnknown("INVALID");
    InitNegotiateWithProtocols(SetUpFilter, "INVALID");
  }

  /** A configuration of the Negotiate provider alone with a `protocols` value: the filter ends up
      with that provider speaking the parsed protocols, or fails with the parser's error. */
  lemma InitNegotiateWithProtocols(f: Filter, value: string)
    requires f.auth.Some?
    ensures var parsed := ParseProtocols(value);
      Init(f, Some([
        ("securityFilterProviders", NegotiateProviderClass + "\n"),
        (NegotiateProviderClass + "/" + "protocols", value)]))
      == if parsed.Ok? then Ok(f.(providers := Some([NegotiateProvider(parsed.value)])))
         else Err(ImplParameterRejected(parsed.error))
  {
    var names := NegotiateProviderClass + "\n";
    var protocols := (NegotiateProviderClass + "/" + "protocols", value);
    var config := [("securityFilterProviders", names), protocols];
    var parsed := ParseProtocols(value);
    var loaded := LoadProviders(JavaStrings.SplitWhitespace(names));
    assert loaded == Ok([NegotiateProvider(DefaultProtocols)]) by { LoadOnlyNegotiate(); }
    var applied := ApplyAll(loaded.value, [protocols]);
    ProviderKeysAreNotSettings(NegotiateProviderClass, "protocols");
    assert applied == if parsed.Ok? then Ok([NegotiateProvider(parsed.value)]) else Err(ImplParameterRejected(parsed.error)) by {
      ApplyProtocolsToNegotiate(value);
    }
    InitWithTwoParameters(f, names, protocols);
    assert Init(f, Some(config))
        == if applied.Ok? then Ok(f.(providers := Some(applied.value))) else Err(applied.error);
  }

  lemma ApplyProtocolsToNegotiate(value: string)
    ensures var parsed := ParseProtocols(value);
      ApplyAll([NegotiateProvider(DefaultProtocols)], [(NegotiateProviderClass + "/" + "protocols", value)])
      == if parsed.Ok? then Ok([NegotiateProvider(parsed.value)]) else Err(ImplParameterRejected(parsed.error))
  {
    var negotiate := NegotiateProvider(DefaultProtocols);
    var parsed := ParseProtocols(value);
    var r := InitParameter(negotiate, "protocols", value);
    assert r == if parsed.Ok? then Ok(NegotiateProvider(parsed.value)) else Err(parsed.error);
    assert FindByClassName([negotiate], NegotiateProviderClass) == Some(0);
    assert '/' !in NegotiateProviderClass by { ProviderClassesAreWords(); }
    ApplyParameterToClass([negotiate], NegotiateProviderClass, "protocols", value);
    ApplySingle([negotiate], (NegotiateProviderClass + "/" + "protocols", value));
    if r.Ok? {
      assert [negotiate][0 := r.value] == [NegotiateProvider(parsed.value)];
    }
  }

  lemma LoadOnlyNegotiate()
    ensures LoadProviders(JavaStrings.SplitWhitespace(NegotiateProviderClass + "\n"))
         == Ok([NegotiateProvider(DefaultProtocols)])
  {
    ProviderClassesAreWords();
    JavaStrings.SplitWhitespaceOfWord(NegotiateProviderClass, "\n");
    LoadSingleProvider(NegotiateProviderClass);
  }

  /** A key that is neither a filter setting nor `<class>/<name>` is refused. */
  lemma InitRefusesUnknownKey()
    ensures var r := Init(SetUpFilter, Some([("invalidParameter", "random")]));
      && r == Err(InvalidParameter("invalidParameter"))
      && Message(r.error) == "Invalid parameter: " + "invalidParameter"
  {
    assert "invalidParameter" !in TopLevelKeys && '/' !in "invalidParameter";
    InitRefusesPlainKey(SetUpFilter, "invalidParameter", "random");
  }

  /** A `<class>/<name>` key whose class is not among the providers is refused. */
  lemma InitRefusesUnknownClass()
    ensures var r := Init(SetUpFilter, Some([("invalidClass" + "/" + "invalidParameter", "random")]));
      && r == Err(ImplClassNotFound("invalidClass"))
      && Message(r.error) == "java.lang.ClassNotFoundException: " + "invalidClass"
  {
    assert FindByClassName(DefaultProviders, "invalidClass") == None;
    InitRefusesUnknownClassKey(SetUpFilter, "invalidClass", "invalidParameter", "random");
  }

  // ---------------------------------------------------------------------------
  // doFilter
  // ---------------------------------------------------------------------------

  /** A server that has seen nobody yet: no handshakes, no sessions. */
  const Fresh: ServerState := ServerState(map[], map[])

  /** The NTLM type-1 message the NTLM POST and PUT requests carry: the header for type 1, then
      the flags, the domain and workstation buffers, and the names WORKSTATION and DOMAIN. */
  const Type1Message: Bytes := NtlmMessage.Build(1, Type1Payload)

  const Type1Payload: Bytes := [
    7, 50, 0, 0, 6, 0, 6, 0, 43, 0, 0, 0, 11, 0, 11, 0, 32, 0, 0, 0,
    87, 79, 82, 75, 83, 84, 65, 84, 73, 79, 78, 68, 79, 77, 65, 73, 78]

  /** A GET without credentials to the default filter: 401 with the three default challenges, the
      connection kept alive, and exactly two header names. */
  lemma ChallengeGet(os: WindowsAuth, session: string, connection: string)
    ensures var x := DoFilter(SetUpFilter, os, Fresh, Request("GET", -1, None, None, session, connection));
      var challenges := Values(x.response.headers, WwwAuthenticate);
      && x.downstream == Blocked
      && x.response.status == Unauthorized
      && challenges == [Negotiate, Ntlm, BasicChallenge(DefaultRealm)]
      && JavaStrings.StartsWith(challenges[2], "Basic realm=\"")
      && |Http.Names(x.response.headers)| == 2
      && Values(x.response.headers, Connection) == [KeepAlive]
  {
    var request := Request("GET", -1, None, None, session, connection);
    var x := DoFilter(SetUpFilter, os, Fresh, request);
    DefaultChallenges();
    assert Values(x.response.headers, WwwAuthenticate) == AllChallenges(DefaultProviders)
        && Http.Names(x.response.headers) == {Connection} + {WwwAuthenticate} by {
      ChallengeWithoutCredentials(SetUpFilter, os, Fresh, request);
    }
    TwoHeaderNames();
  }

  /** The first Negotiate round of a POST with an empty body: whatever the client's token, when the
      authentication provider continues with a non-empty token the answer is 401 with that token
      alone under the same package, the connection kept alive, and two header names. */
  lemma ChallengePost(os: WindowsAuth, session: string, connection: string, token: Bytes, out: Bytes, context: Handshake)
    requires os.accept(None, token, Negotiate) == Continue(out, context) && |out| > 0
    ensures var x := DoFilter(SetUpFilter, os, Fresh,
                              Request("POST", 0, Some(Format(Negotiate, token)), None, session, connection));
      && x.downstream == Blocked
      && x.response.status == Unauthorized
      && Values(x.response.headers, WwwAuthenticate) == [Format(Negotiate, out)]
      && JavaStrings.StartsWith(Format(Negotiate, out), Negotiate + " ")
      && Values(x.response.headers, Connection) == [KeepAlive]
      && |Http.Names(x.response.headers)| == 2
  {
    var request := Request("POST", 0, Some(Format(Negotiate, token)), None, session, connection);
    NegotiatePackage();
    ParseFormat(Negotiate, token);
    if IsNtlmType1Post(request) {
      NtlmPostRenegotiates(SetUpFilter, os, Fresh, request, Negotiate);
    } else {
      ContinueRound(SetUpFilter, os, Fresh, request, Negotiate, token, out, context);
    }
    TwoHeaderNames();
    FormatStartsWithPackage(Negotiate, out);
  }

  /** The whole Negotiate handshake with role format BOTH: the first token is continued (401, the
      connection kept alive, the continuation token as the only challenge, two header names), the
      second completes on the same connection. The client then goes downstream wrapped, with auth
      type NEGOTIATE, its account name as remote user, a principal in the session's subject, and
      the roles of every group, Everyone (S-1-1-0) included, both by name and by SID. */
  lemma NegotiateHandshake(os: WindowsAuth, session: string, connection: string,
                           first: Bytes, continued: Bytes, context: Handshake,
                           second: Bytes, final: Bytes, identity: Identity, everyone: nat)
    requires os.accept(None, first, Negotiate) == Continue(continued, context) && |continued| > 0
    requires os.accept(Some(context), second, Negotiate) == Complete(final, identity)
    requires !identity.isGuest
    requires everyone < |identity.groups| && identity.groups[everyone].sidString == "S-1-1-0"
    ensures SetRoleFormat(SetUpFilter, "both") == Ok(SetUpFilter.(roleFormat := BOTH))
    ensures var f := SetUpFilter.(roleFormat := BOTH);
      var x := DoFilter(f, os, Fresh, Request("GET", -1, Some(Format(Negotiate, first)), None, session, connection));
      var y := DoFilter(f, os, x.state, Request("GET", -1, Some(Format(Negotiate, second)), None, session, connection));
      && x.downstream == Blocked
      && x.response.status == Unauthorized
      && Values(x.response.headers, WwwAuthenticate) == [Format(Negotiate, continued)]
      && Values(x.response.headers, Connection) == [KeepAlive]
      && |Http.Names(x.response.headers)| == 2
      && y.downstream.Forwarded? && y.downstream.request.Wrapped?
      && AuthType(y.downstream.request) == Some(NegotiateAuthType)
      && RemoteUser(y.downstream.request) == Some(identity.fqn)
      && IsUserInRole(y.downstream.request, identity.groups[everyone].fqn)
      && IsUserInRole(y.downstream.request, "S-1-1-0")
      && y.state.sessions[session].subject.Some?
      && |y.state.sessions[session].subject.value| > 0
      && connection !in y.state.contexts
  {
    assert JavaStrings.ToUpper("both") == "BOTH";
    var f := SetUpFilter.(roleFormat := BOTH);
    var r1 := Request("GET", -1, Some(Format(Negotiate, first)), None, session, connection);
    var r2 := Request("GET", -1, Some(Format(Negotiate, second)), None, session, connection);
    HandshakeFirstRound(f, os, session, connection, first, continued, context);
    var x := DoFilter(f, os, Fresh, r1);
    NegotiatePackage();
    CompleteRound(f, os, x.state, r2, Negotiate, second, final, identity);
    WrapperHasGroupRoles(identity, f.principalFormat, everyone);
  }

  lemma HandshakeFirstRound(f: Filter, os: WindowsAuth, session: string, connection: string,
                            first: Bytes, continued: Bytes, context: Handshake)
    requires f.providers == Some(DefaultProviders)
    requires os.accept(None, first, Negotiate) == Continue(continued, context) && |continued| > 0
    ensures var x := DoFilter(f, os, Fresh, Request("GET", -1, Some(Format(Negotiate, first)), None, session, connection));
      && x.downstream == Blocked
      && x.response.status == Unauthorized
      && Values(x.response.headers, WwwAuthenticate) == [Format(Negotiate, continued)]
      && Values(x.response.headers, Connection) == [KeepAlive]
      && |Http.Names(x.response.headers)| == 2
      && x.state == ServerState(map[connection := context], map[])
  {
    NegotiatePackage();
    TwoHeaderNames();
    ContinueRound(f, os, Fresh, Request("GET", -1, Some(Format(Negotiate, first)), None, session, connection),
                  Negotiate, first, continued, context);
  }

  /** A request that arrives with a Windows principal goes downstream wrapped around that same
      principal, and the filter answers nothing. */
  lemma PreviousWindowsPrincipal(os: WindowsAuth, p: WindowsPrincipal, session: string, connection: string)
    ensures var x := DoFilter(SetUpFilter, os, Fresh, Request("GET", -1, None, Some(WindowsCaller(p)), session, connection));
      && x.downstream == Forwarded(Wrapped(p))
      && x.response == NewResponse()
      && x.state == Fresh
  {
    PreviousPrincipalPassesThrough(SetUpFilter, os, Fresh, Request("GET", -1, None, Some(WindowsCaller(p)), session, connection));
  }

  /** An NTLM type-1 message POSTed or PUT with an empty body by a client that already has a
      Windows principal is renegotiated: 401 with the provider's NTLM token alone, the connection
      kept alive, and two header names. */
  lemma ChallengeNtlmPostOrPut(os: WindowsAuth, verb: string, p: WindowsPrincipal, session: string, connection: string,
                               out: Bytes, context: Handshake)
    requires verb == "POST" || verb == "PUT"
    requires os.accept(None, Type1Message, Ntlm) == Continue(out, context) && |out| > 0
    ensures var x := DoFilter(SetUpFilter, os, Fresh,
                              Request(verb, 0, Some(Format(Ntlm, Type1Message)), Some(WindowsCaller(p)), session, connection));
      var challenges := Values(x.response.headers, WwwAuthenticate);
      && x.downstream == Blocked
      && x.response.status == Unauthorized
      && |challenges| == 1
      && JavaStrings.StartsWith(challenges[0], Ntlm + " ")
      && |Http.Names(x.response.headers)| == 2
      && Values(x.response.headers, Connection) == [KeepAlive]
  {
    var request := Request(verb, 0, Some(Format(Ntlm, Type1Message)), Some(WindowsCaller(p)), session, connection);
    NtlmPackage();
    ParseFormat(Ntlm, Type1Message);
    assert IsNtlmType1Post(request) by {
      Type1MessageIsType1();
      FormattedType1IsRecognised(Ntlm, Type1Message);
    }
    NtlmPostRenegotiates(SetUpFilter, os, Fresh, request, Ntlm);
    TwoHeaderNames();
    FormatStartsWithPackage(Ntlm, out);
  }

  /** Basic with the mock authentication provider: one request with `user:password` logs on, and
      the session's subject then holds a principal. */
  lemma BasicAuth(os: WindowsAuth, user: string, password: string, identity: Identity, session: string, connection: string)
    requires ':' !in user
    requires os.logon(user, password) == Some(identity)
    requires SetUp(MockAuthProviderClass).Ok?
    ensures var f := SetUp(MockAuthProviderClass).value;
      var x := DoFilter(f, os, Fresh, Request("GET", -1, Some(BasicHeader(user, password)), None, session, connection));
      && x.downstream.Forwarded?
      && session in x.state.sessions
      && x.state.sessions[session].subject.Some?
      && |x.state.sessions[session].subject.value| > 0
  {
    SetUpBuildsDefaults(MockAuthProviderClass);
    var f := SetUp(MockAuthProviderClass).value;
    var request := Request("GET", -1, Some(BasicHeader(user, password)), None, session, connection);
    DefaultSelection("Basic");
    assert JavaStrings.EqualsIgnoreCase("Basic", "Basic");
    BasicOneRound(f, os, Fresh, request, user, password, identity);
  }

  // ---------------------------------------------------------------------------
  // Helpers
  // ---------------------------------------------------------------------------

  lemma NegotiatePackage()
    ensures |Negotiate| > 0 && ' ' !in Negotiate
    ensures SelectsNegotiate(DefaultProviders, Negotiate)
  {
    assert IsClassName(Negotiate);
    ClassNameIsWord(Negotiate);
    SelectsFirstProtocol(DefaultProviders, 0, Negotiate);
  }

  lemma NtlmPackage()
    ensures |Ntlm| > 0 && ' ' !in Ntlm
    ensures SelectsNegotiate(DefaultProviders, Ntlm)
  {
    assert IsClassName(Ntlm);
    ClassNameIsWord(Ntlm);
    SelectsFirstProtocol(DefaultProviders, 1, Ntlm);
  }

  lemma TwoHeaderNames()
    ensures |{Connection} + {WwwAuthenticate}| == 2
  {
    assert Connection != WwwAuthenticate by { assert |Connection| != |WwwAuthenticate|; }
    assert {Connection} + {WwwAuthenticate} == {Connection, WwwAuthenticate};
  }

  lemma FormatStartsWithPackage(package: string, token: Bytes)
    ensures JavaStrings.StartsWith(Format(package, token), package + " ")
  {
    assert Format(package, token) == (package + " ") + Base64.Encode(token);
  }

  lemma Type1MessageIsType1()
    ensures NtlmMessage.IsNtlmMessage(Some(Type1Message)) && NtlmMessage.GetMessageType(Type1Message) == Some(1)
  {
    NtlmMessage.ClassifyBuild(1, Type1Payload);
  }
}
