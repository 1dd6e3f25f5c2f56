/** `NegotiateSecurityFilter.init`: the filter's configuration. Top-level parameters set the
    principal and role formats, guest login, impersonation, the provider list and the
    authentication provider; every other parameter must be `<provider class>/<name>` and is handed
    to the first configured provider of that class. Any bad key, class, protocol or format fails
    initialization with the message the filter reports. */
module FilterInit {
  import opened Wrappers
  import JavaStrings
  import opened WindowsPrincipals
  import opened SecurityFilterProviders

  const WindowsAuthProviderClass: string := "waffle.windows.auth.impl.WindowsAuthProviderImpl"
  const MockAuthProviderClass: string := "waffle.mock.MockWindowsAuthProvider"

  /** The filter's settings. The authentication provider is recorded by class name; the model of
      a request receives its behaviour separately. Providers stay None until `init` runs. */
  datatype Filter = Filter(
    principalFormat: PrincipalFormat,
    roleFormat: PrincipalFormat,
    allowGuestLogin: bool,
    impersonate: bool,
    auth: Option<string>,
    providers: Option<seq<Provider>>)

  /** A newly constructed filter: FQN for both formats, guests allowed, no impersonation. */
  function NewFilter(): Filter {
    Filter(FQN, FQN, true, false, None, None)
  }

  /** `setAuth`. */
  function SetAuth(f: Filter, className: string): Filter {
    f.(auth := Some(className))
  }

  predicate IsAuthProviderClass(className: string) {
    className == WindowsAuthProviderClass || className == MockAuthProviderClass
  }

  /** Why `init` fails. */
  datatype InitError =
    | InvalidParameter(key: string)
    | ImplClassNotFound(className: string)
    | ImplParameterRejected(cause: ProviderError)
    | ProviderClassNotFound(className: string)
    | AuthProviderClassNotFound(className: string)
    | NoEnumConstant(name: string)

  /** The message of the exception `init` ends with. A wrapped cause reports its own
      `toString()`. */
  function Message(e: InitError): string {
    match e
    case InvalidParameter(key) => "Invalid parameter: " + key
    case ImplClassNotFound(c) => "java.lang.ClassNotFoundException: " + c
    case ImplParameterRejected(cause) => ProviderErrorMessage(cause)
    case ProviderClassNotFound(c) => "java.lang.ClassNotFoundException: " + c
    case AuthProviderClassNotFound(c) => "java.lang.ClassNotFoundException: " + c
    case NoEnumConstant(name) => "No enum constant waffle.windows.auth.PrincipalFormat." + name
  }

  // ---------------------------------------------------------------------------
  // Value parsing
  // ---------------------------------------------------------------------------

  function FormatName(f: PrincipalFormat): string {
    match f
    case FQN => "FQN"
    case SID => "SID"
    case BOTH => "BOTH"
    case NONE => "NONE"
  }

  /** `PrincipalFormat.valueOf(value.toUpperCase())`: the format whose name is the upper-cased
      value. */
  function ParsePrincipalFormat(value: string): (r: Result<PrincipalFormat, InitError>)
    ensures r.Ok? ==> FormatName(r.value) == JavaStrings.ToUpper(value)
    ensures r.Err? ==> r == Err(NoEnumConstant(JavaStrings.ToUpper(value))) &&
                       forall f: PrincipalFormat :: FormatName(f) != JavaStrings.ToUpper(value)
  {
    var upper := JavaStrings.ToUpper(value);
    if upper == "FQN" then Ok(FQN)
    else if upper == "SID" then Ok(SID)
    else if upper == "BOTH" then Ok(BOTH)
    else if upper == "NONE" then Ok(NONE)
    else Err(NoEnumConstant(upper))
  }

  /** `Boolean.parseBoolean`: "true" in any letter case, anything else is false. */
  predicate ParseBoolean(value: string) {
    JavaStrings.EqualsIgnoreCase(value, "true")
  }

  /** `setRoleFormat`. */
  function SetRoleFormat(f: Filter, value: string): Result<Filter, InitError> {
    var rf :- ParsePrincipalFormat(value);
    Ok(f.(roleFormat := rf))
  }

  /** `setPrincipalFormat`. */
  function SetPrincipalFormat(f: Filter, value: string): Result<Filter, InitError> {
    var pf :- ParsePrincipalFormat(value);
    Ok(f.(principalFormat := pf))
  }

  // ---------------------------------------------------------------------------
  // The parameter loop
  // ---------------------------------------------------------------------------

  type Parameter = (string, string)

  const TopLevelKeys: set<string> :=
    {"principalFormat", "roleFormat", "allowGuestLogin", "impersonate", "securityFilterProviders", "authProvider"}

  /** What the loop over the parameters gathers besides the settings it applies directly. */
  datatype Collected = Collected(
    filter: Filter,
    authProvider: Option<string>,
    providerNames: Option<seq<string>>,
    implParameters: seq<Parameter>)

  /** The parameters that are not top-level keys, in order. */
  function ImplParameters(params: seq<Parameter>): (r: seq<Parameter>)
    ensures forall i :: 0 <= i < |r| ==> r[i] in params && r[i].0 !in TopLevelKeys
    decreases |params|
  {
    if |params| == 0 then []
    else (if params[0].0 in TopLevelKeys then [] else [params[0]]) + ImplParameters(params[1..])
  }

  /** One step of the loop. */
  function Collect(c: Collected, p: Parameter): Result<Collected, InitError> {
    var (key, value) := p;
    if key == "principalFormat" then
      var pf :- ParsePrincipalFormat(value);
      Ok(c.(filter := c.filter.(principalFormat := pf)))
    else if key == "roleFormat" then
      var rf :- ParsePrincipalFormat(value);
      Ok(c.(filter := c.filter.(roleFormat := rf)))
    else if key == "allowGuestLogin" then Ok(c.(filter := c.filter.(allowGuestLogin := ParseBoolean(value))))
    else if key == "impersonate" then Ok(c.(filter := c.filter.(impersonate := ParseBoolean(value))))
    else if key == "securityFilterProviders" then Ok(c.(providerNames := Some(JavaStrings.SplitWhitespace(value))))
    else if key == "authProvider" then Ok(c.(authProvider := Some(value)))
    else Ok(c.(implParameters := c.implParameters + [p]))
  }

  /** The loop over every parameter, in order; the first bad format stops it. */
  function CollectAll(c: Collected, params: seq<Parameter>): (r: Result<Collected, InitError>)
    ensures r.Ok? ==> r.value.implParameters == c.implParameters + ImplParameters(params)
    ensures r.Ok? ==> r.value.filter.auth == c.filter.auth && r.value.filter.providers == c.filter.providers
    decreases |params|
  {
    if |params| == 0 then Ok(c)
    else
      var c' :- Collect(c, params[0]);
      CollectAll(c', params[1..])
  }

  // ---------------------------------------------------------------------------
  // Providers and their parameters
  // ---------------------------------------------------------------------------

  /** The collection built from a provider list: each trimmed name must be a provider class. */
  function LoadProviders(names: seq<string>): (r: Result<seq<Provider>, InitError>)
    ensures r.Ok? ==> |r.value| == |names|
    ensures r.Ok? ==> forall i :: 0 <= i < |names| ==> ClassName(r.value[i]) == JavaStrings.Trim(names[i])
    ensures r.Err? ==> r.error.ProviderClassNotFound? &&
                       exists i :: 0 <= i < |names| && JavaStrings.Trim(names[i]) == r.error.className
    decreases |names|
  {
    if |names| == 0 then Ok([])
    else
      var name := JavaStrings.Trim(names[0]);
      match NewProvider(name)
      case None => Err(ProviderClassNotFound(name))
      case Some(p) =>
        var rest :- LoadProviders(names[1..]);
        Ok([p] + rest)
  }

  /** Providers that keep their classes, position by position. */
  predicate SameClasses(a: seq<Provider>, b: seq<Provider>) {
    |a| == |b| && forall i :: 0 <= i < |a| ==> ClassName(a[i]) == ClassName(b[i])
  }

  /** A `<class>/<name>` key whose class is among the providers. */
  predicate AddressesProvider(ps: seq<Provider>, key: string) {
    match JavaStrings.SplitOnce(key, '/')
    case Some((cls, _)) => FindByClassName(ps, cls).Some?
    case None => false
  }

  /** Hands one `<class>/<name>` parameter to the first provider of that class. */
  function ApplyParameter(ps: seq<Provider>, p: Parameter): (r: Result<seq<Provider>, InitError>)
    ensures r.Ok? ==> SameClasses(r.value, ps) && AddressesProvider(ps, p.0)
    ensures JavaStrings.SplitOnce(p.0, '/').None? ==> r == Err(InvalidParameter(p.0))
    ensures var cut := JavaStrings.SplitOnce(p.0, '/');
      cut.Some? && FindByClassName(ps, cut.value.0).None? ==> r == Err(ImplClassNotFound(cut.value.0))
  {
    var (key, value) := p;
    match JavaStrings.SplitOnce(key, '/')
    case None => Err(InvalidParameter(key))
    case Some((cls, name)) =>
      match FindByClassName(ps, cls)
      case None => Err(ImplClassNotFound(cls))
      case Some(i) =>
        match InitParameter(ps[i], name, value)
        case Err(e) => Err(ImplParameterRejected(e))
        case Ok(provider) => Ok(ps[i := provider])
  }

  /** Every implementation parameter in turn; the first failure stops the loop. */
  function ApplyAll(ps: seq<Provider>, params: seq<Parameter>): (r: Result<seq<Provider>, InitError>)
    ensures r.Ok? ==> SameClasses(r.value, ps)
    ensures r.Ok? ==> forall i :: 0 <= i < |params| ==> AddressesProvider(ps, params[i].0)
    decreases |params|
  {
    if |params| == 0 then Ok(ps)
    else
      var ps' :- ApplyParameter(ps, params[0]);
      var r := ApplyAll(ps', params[1..]);
      assert r.Ok? ==> forall i :: 0 <= i < |params| ==> AddressesProvider(ps, params[i].0) by {
        if r.Ok? {
          forall i | 1 <= i < |params|
            ensures AddressesProvider(ps, params[i].0)
          {
            assert params[i] == params[1..][i - 1];
            SameClassesAddressSame(ps', ps, params[i].0);
          }
        }
      }
      r
  }

  lemma SameClassesAddressSame(a: seq<Provider>, b: seq<Provider>, key: string)
    requires SameClasses(a, b)
    ensures AddressesProvider(a, key) <==> AddressesProvider(b, key)
  {
    match JavaStrings.SplitOnce(key, '/')
    case Some((cls, _)) => SameClassesFindSame(a, b, cls);
    case None =>
  }

  lemma {:induction false} SameClassesFindSame(a: seq<Provider>, b: seq<Provider>, cls: string)
    requires SameClasses(a, b)
    ensures FindByClassName(a, cls) == FindByClassName(b, cls)
    decreases |a|
  {
    if |a| > 0 {
      SameClassesFindSame(a[1..], b[1..], cls);
    }
  }

  // ---------------------------------------------------------------------------
  // init
  // ---------------------------------------------------------------------------

  /** `init(config)`; a missing config behaves like an empty one. A configuration it accepts
      names only top-level keys and `<class>/<name>` keys whose class is one of the resulting
      providers. */
  function Init(f: Filter, config: Option<seq<Parameter>>): (r: Result<Filter, InitError>)
    ensures r.Ok? ==> r.value.auth.Some? && r.value.providers.Some?
    ensures r.Ok? && config.Some? ==> forall i :: 0 <= i < |config.value| ==>
              config.value[i].0 in TopLevelKeys || AddressesProvider(r.value.providers.value, config.value[i].0)
  {
    var params := if config.Some? then config.value else [];
    var c :- CollectAll(Collected(f, None, None, []), params);
    var r := Configure(c);
    assert c.implParameters == ImplParameters(params);
    if r.Ok? then
      KeysAddressed(params, r.value.providers.value);
      r
    else r
  }

  /** The steps after the loop: the authentication provider (the configured class, else the one
      already set, else the Windows one), the providers (the configured list, else the ones
      already built, else the defaults), then the implementation parameters. */
  function Configure(c: Collected): (r: Result<Filter, InitError>)
    ensures r.Ok? ==> r.value.auth.Some? && r.value.providers.Some?
    ensures r.Ok? ==> forall j :: 0 <= j < |c.implParameters| ==>
                        AddressesProvider(r.value.providers.value, c.implParameters[j].0)
  {
    var f1 :-
      match c.authProvider
      case Some(name) =>
        if IsAuthProviderClass(name) then Ok(c.filter.(auth := Some(name)))
        else Err(AuthProviderClassNotFound(name))
      case None => Ok(c.filter);
    var f2 := if f1.auth.None? then f1.(auth := Some(WindowsAuthProviderClass)) else f1;
    var f3 :-
      match c.providerNames
      case Some(names) =>
        var ps :- LoadProviders(names);
        Ok(f2.(providers := Some(ps)))
      case None => Ok(f2);
    var ps := if f3.providers.Some? then f3.providers.value else DefaultProviders;
    var ps' :- ApplyAll(ps, c.implParameters);
    assert forall j :: 0 <= j < |c.implParameters| ==> AddressesProvider(ps', c.implParameters[j].0) by {
      forall j | 0 <= j < |c.implParameters| {
        SameClassesAddressSame(ps', ps, c.implParameters[j].0);
      }
    }
    Ok(f3.(providers := Some(ps')))
  }

  /** Every key of `params` is top-level or addresses one of `ps` when all the `<class>/<name>`
      keys do. */
  lemma KeysAddressed(params: seq<Parameter>, ps: seq<Provider>)
    requires forall j :: 0 <= j < |ImplParameters(params)| ==> AddressesProvider(ps, ImplParameters(params)[j].0)
    ensures forall i :: 0 <= i < |params| ==> params[i].0 in TopLevelKeys || AddressesProvider(ps, params[i].0)
  {
    forall i | 0 <= i < |params| && params[i].0 !in TopLevelKeys
      ensures AddressesProvider(ps, params[i].0)
    {
      ImplParametersKeepsOthers(params, i);
      MemberAddressed(ps, ImplParameters(params), params[i]);
    }
  }

  lemma MemberAddressed(ps: seq<Provider>, impl: seq<Parameter>, p: Parameter)
    requires forall j :: 0 <= j < |impl| ==> AddressesProvider(ps, impl[j].0)
    requires p in impl
    ensures AddressesProvider(ps, p.0)
  {
    var j :| 0 <= j < |impl| && impl[j] == p;
  }

  lemma {:induction false} ImplParametersKeepsOthers(params: seq<Parameter>, i: nat)
    requires i < |params| && params[i].0 !in TopLevelKeys
    ensures params[i] in ImplParameters(params)
    decreases i
  {
    if i > 0 {
      ImplParametersKeepsOthers(params[1..], i - 1);
    }
  }

  /** The loop sets nothing aside from provider parameters when every key is one. */
  lemma {:induction false} CollectProviderParameters(c: Collected, params: seq<Parameter>)
    requires forall i :: 0 <= i < |params| ==> params[i].0 !in TopLevelKeys
    ensures CollectAll(c, params) == Ok(c.(implParameters := c.implParameters + params))
    decreases |params|
  {
    if |params| == 0 {
      assert c.implParameters + params == c.implParameters;
    } else {
      var p, rest := params[0], params[1..];
      var c' := c.(implParameters := c.implParameters + [p]);
      CollectNonTopLevel(c, p);
      JavaStrings.ConsTail(params);
      CollectAllCons(c, p, rest);
      assert forall i :: 0 <= i < |rest| ==> rest[i] == params[i + 1];
      CollectProviderParameters(c', rest);
      JavaStrings.ConcatSplit(c.implParameters, params);
    }
  }

  /** A key that is not a setting is set aside for the providers. */
  lemma CollectNonTopLevel(c: Collected, p: Parameter)
    requires p.0 !in TopLevelKeys
    ensures Collect(c, p) == Ok(c.(implParameters := c.implParameters + [p]))
  {
  }

  /** A configuration made only of provider parameters leaves the filter's settings alone: it
      configures the providers already built, or fails as the first bad parameter does. */
  lemma InitWithProviderParametersOnly(f: Filter, params: seq<Parameter>)
    requires f.auth.Some? && f.providers.Some?
    requires forall i :: 0 <= i < |params| ==> params[i].0 !in TopLevelKeys
    ensures var applied := ApplyAll(f.providers.value, params);
      Init(f, Some(params)) == if applied.Ok? then Ok(f.(providers := Some(applied.value))) else Err(applied.error)
  {
    CollectProviderParameters(Collected(f, None, None, []), params);
    assert [] + params == params;
  }

  /** The loop over `a + b` is the loop over `a`, then over `b` from where it stopped. */
  lemma {:induction false} CollectAllAppend(c: Collected, a: seq<Parameter>, b: seq<Parameter>)
    ensures var first := CollectAll(c, a);
      CollectAll(c, a + b) == if first.Ok? then CollectAll(first.value, b) else Err(first.error)
    decreases |a|
  {
    if |a| == 0 {
      assert a + b == b;
    } else {
      assert (a + b)[0] == a[0] && (a + b)[1..] == a[1..] + b;
      match Collect(c, a[0])
      case Ok(c1) => CollectAllAppend(c1, a[1..], b);
      case Err(_) =>
    }
  }

  /** A provider list followed by provider parameters: the list is recorded, the parameters are
      set aside in order. */
  lemma CollectProviderList(c: Collected, value: string, params: seq<Parameter>)
    requires forall i :: 0 <= i < |params| ==> params[i].0 !in TopLevelKeys
    ensures CollectAll(c, [("securityFilterProviders", value)] + params) ==
      Ok(c.(providerNames := Some(JavaStrings.SplitWhitespace(value)), implParameters := c.implParameters + params))
  {
    var c1 := c.(providerNames := Some(JavaStrings.SplitWhitespace(value)));
    assert CollectAll(c, [("securityFilterProviders", value)]) == Ok(c1) by {
      assert Collect(c, ("securityFilterProviders", value)) == Ok(c1);
      assert [("securityFilterProviders", value)][1..] == [];
    }
    CollectAllAppend(c, [("securityFilterProviders", value)], params);
    CollectProviderParameters(c1, params);
  }

  /** A configuration that lists the providers and then configures them builds a new collection
      from the list, whatever was built before, and hands it the parameters. */
  lemma InitWithProviderList(f: Filter, value: string, params: seq<Parameter>)
    requires f.auth.Some?
    requires forall i :: 0 <= i < |params| ==> params[i].0 !in TopLevelKeys
    ensures var loaded := LoadProviders(JavaStrings.SplitWhitespace(value));
      Init(f, Some([("securityFilterProviders", value)] + params)) ==
        if loaded.Err? then Err(loaded.error)
        else
          var applied := ApplyAll(loaded.value, params);
          if applied.Ok? then Ok(f.(providers := Some(applied.value))) else Err(applied.error)
  {
    var names := JavaStrings.SplitWhitespace(value);
    var c := Collected(f, None, Some(names), params);
    CollectProviderList(Collected(f, None, None, []), value, params);
    assert [] + params == params;
    InitThroughCollected(f, [("securityFilterProviders", value)] + params, c);
    ConfigureProviderList(f, names, params);
  }

  /** After the loop, a recorded provider list replaces the providers before the parameters are
      applied. */
  lemma ConfigureProviderList(f: Filter, names: seq<string>, params: seq<Parameter>)
    requires f.auth.Some?
    ensures var loaded := LoadProviders(names);
      Configure(Collected(f, None, Some(names), params)) ==
        if loaded.Err? then Err(loaded.error)
        else
          var applied := ApplyAll(loaded.value, params);
          if applied.Ok? then Ok(f.(providers := Some(applied.value))) else Err(applied.error)
  {
  }

  /** Loading a list that starts with a provider class: that provider, then the rest. */
  lemma LoadProvidersCons(name: string, rest: seq<string>)
    requires NewProvider(JavaStrings.Trim(name)).Some?
    ensures var loaded := LoadProviders(rest);
      LoadProviders([name] + rest) ==
        if loaded.Ok? then Ok([NewProvider(JavaStrings.Trim(name)).value] + loaded.value) else Err(loaded.error)
  {
    assert ([name] + rest)[0] == name && ([name] + rest)[1..] == rest;
  }

  lemma LoadSingleProvider(name: string)
    requires NewProvider(JavaStrings.Trim(name)).Some?
    ensures LoadProviders([name]) == Ok([NewProvider(JavaStrings.Trim(name)).value])
  {
    LoadProvidersCons(name, []);
    assert [name] + [] == [name];
    assert [NewProvider(JavaStrings.Trim(name)).value] + [] == [NewProvider(JavaStrings.Trim(name)).value];
  }

  lemma ApplySingle(ps: seq<Provider>, p: Parameter)
    ensures ApplyAll(ps, [p]) == ApplyParameter(ps, p)
  {
    assert [p][1..] == [];
  }

  /** A `<class>/<name>` parameter goes to the first provider of its class, and a refusal there
      is reported as that provider's error. */
  lemma ApplyParameterToClass(ps: seq<Provider>, cls: string, name: string, value: string)
    requires '/' !in cls
    requires FindByClassName(ps, cls).Some?
    ensures var i := FindByClassName(ps, cls).value;
      var r := InitParameter(ps[i], name, value);
      ApplyParameter(ps, (cls + "/" + name, value)) ==
        if r.Ok? then Ok(ps[i := r.value]) else Err(ImplParameterRejected(r.error))
  {
    JavaStrings.SplitOnceOfJoined(cls, '/', name);
    assert cls + "/" + name == cls + ['/'] + name;
  }

  /** A `<class>/<name>` key never collides with a filter setting. */
  lemma ProviderKeysAreNotSettings(cls: string, name: string)
    ensures cls + "/" + name !in TopLevelKeys
  {
    var k := cls + "/" + name;
    assert k[|cls|] == '/';
    forall t | t in TopLevelKeys
      ensures '/' !in t
    {
    }
  }

  /** A configuration naming the providers and then one provider parameter. */
  lemma InitWithTwoParameters(f: Filter, names: string, p: Parameter)
    requires f.auth.Some? && p.0 !in TopLevelKeys
    ensures var loaded := LoadProviders(JavaStrings.SplitWhitespace(names));
      Init(f, Some([("securityFilterProviders", names), p])) ==
        if loaded.Err? then Err(loaded.error)
        else
          var applied := ApplyAll(loaded.value, [p]);
          if applied.Ok? then Ok(f.(providers := Some(applied.value))) else Err(applied.error)
  {
    InitWithProviderList(f, names, [p]);
    assert [("securityFilterProviders", names)] + [p] == [("securityFilterProviders", names), p];
  }

  /** The loop's first step, then the rest. */
  lemma CollectAllCons(c: Collected, p: Parameter, rest: seq<Parameter>)
    ensures var first := Collect(c, p);
      CollectAll(c, [p] + rest) == if first.Ok? then CollectAll(first.value, rest) else Err(first.error)
  {
    assert ([p] + rest)[0] == p && ([p] + rest)[1..] == rest;
  }

  /** `init` is the loop over the parameters followed by the steps after it. */
  lemma InitThroughCollected(f: Filter, params: seq<Parameter>, c: Collected)
    requires CollectAll(Collected(f, None, None, []), params) == Ok(c)
    ensures Init(f, Some(params)) == Configure(c)
  {
  }

  /** A lone key that is neither a setting nor `<class>/<name>` makes `init` fail. */
  lemma InitRefusesPlainKey(f: Filter, key: string, value: string)
    requires f.auth.Some? && f.providers.Some?
    requires key !in TopLevelKeys && '/' !in key
    ensures Init(f, Some([(key, value)])) == Err(InvalidParameter(key))
  {
    InitWithProviderParametersOnly(f, [(key, value)]);
    ApplySingle(f.providers.value, (key, value));
  }

  /** A lone `<class>/<name>` key whose class is not among the providers makes `init` fail. */
  lemma InitRefusesUnknownClassKey(f: Filter, cls: string, name: string, value: string)
    requires f.auth.Some? && f.providers.Some?
    requires '/' !in cls && FindByClassName(f.providers.value, cls).None?
    ensures Init(f, Some([(cls + "/" + name, value)])) == Err(ImplClassNotFound(cls))
  {
    ProviderKeysAreNotSettings(cls, name);
    InitWithProviderParametersOnly(f, [(cls + "/" + name, value)]);
    ApplySingle(f.providers.value, (cls + "/" + name, value));
    JavaStrings.SplitOnceOfJoined(cls, '/', name);
    assert cls + "/" + name == cls + ['/'] + name;
  }
}
