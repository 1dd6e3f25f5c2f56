/** The security filter providers (`waffle.servlet.spi`) and their ordered collection: which
    challenges each one advertises, which `Authorization` package each one accepts, and the
    per-provider parameters `protocols` (Negotiate) and `realm` / `charset` (Basic). */
module SecurityFilterProviders {
  import opened Wrappers
  import JavaStrings
  import opened Http
  import AuthorizationHeaders

  const ProviderPackage: string := "waffle.servlet.spi."
  const NegotiateProviderClass: string := ProviderPackage + "NegotiateSecurityFilterProvider"
  const BasicProviderClass: string := ProviderPackage + "BasicSecurityFilterProvider"

  const Negotiate: string := "Negotiate"
  const Ntlm: string := "NTLM"
  const DefaultProtocols: seq<string> := [Negotiate, Ntlm]
  const DefaultRealm: string := "BasicSecurityFilterProvider"
  const DefaultCharset: string := "UTF-8"

  datatype Provider =
    | NegotiateProvider(protocols: seq<string>)
    | BasicProvider(realm: string, charset: string)

  function ClassName(p: Provider): string {
    match p
    case NegotiateProvider(_) => NegotiateProviderClass
    case BasicProvider(_, _) => BasicProviderClass
  }

  /** The fixed registry of provider classes: a fresh provider with its defaults, or None for a
      class name that is not a provider. */
  function NewProvider(className: string): (r: Option<Provider>)
    ensures r.Some? <==> className == NegotiateProviderClass || className == BasicProviderClass
    ensures r.Some? ==> ClassName(r.value) == className
  {
    if className == NegotiateProviderClass then Some(NegotiateProvider(DefaultProtocols))
    else if className == BasicProviderClass then Some(BasicProvider(DefaultRealm, DefaultCharset))
    else None
  }

  /** The collection built when no provider list is configured: Negotiate, then Basic. */
  const DefaultProviders: seq<Provider> := [NegotiateProvider(DefaultProtocols), BasicProvider(DefaultRealm, DefaultCharset)]

  // ---------------------------------------------------------------------------
  // Challenges and package selection
  // ---------------------------------------------------------------------------

  function BasicChallenge(realm: string): string {
    "Basic realm=\"" + realm + "\""
  }

  /** The `WWW-Authenticate` values one provider's `sendUnauthorized` adds: every enabled
      protocol for Negotiate, the realm challenge for Basic. */
  function Challenges(p: Provider): seq<string> {
    match p
    case NegotiateProvider(protocols) => protocols
    case BasicProvider(realm, _) => [BasicChallenge(realm)]
  }

  /** The collection's `sendUnauthorized`: every provider's challenges, in provider order. */
  function AllChallenges(ps: seq<Provider>): seq<string>
    decreases |ps|
  {
    if |ps| == 0 then [] else Challenges(ps[0]) + AllChallenges(ps[1..])
  }

  /** `isSecurityPackageSupported`: a case-insensitive match against an enabled protocol, or
      against "Basic". */
  predicate Supports(p: Provider, package: string) {
    match p
    case NegotiateProvider(protocols) =>
      exists i :: 0 <= i < |protocols| && JavaStrings.EqualsIgnoreCase(protocols[i], package)
    case BasicProvider(_, _) => JavaStrings.EqualsIgnoreCase(package, "Basic")
  }

  /** The collection's `get(package)`: the position of the first provider accepting it. */
  function Select(ps: seq<Provider>, package: string): (r: Option<nat>)
    ensures r.Some? ==> r.value < |ps| && Supports(ps[r.value], package)
    ensures r.Some? ==> forall j :: 0 <= j < r.value ==> !Supports(ps[j], package)
    ensures r.None? <==> forall j :: 0 <= j < |ps| ==> !Supports(ps[j], package)
    decreases |ps|
  {
    if |ps| == 0 then None
    else if Supports(ps[0], package) then Some(0)
    else match Select(ps[1..], package)
      case None => None
      case Some(k) => Some(k + 1)
  }

  /** The collection's `isPrincipalException`: some provider wants the request renegotiated
      although it already carries a principal. Only the Negotiate provider ever does, for an NTLM
      type-1 message posted with an empty body. */
  predicate IsPrincipalException(ps: seq<Provider>, request: Request) {
    exists i :: 0 <= i < |ps| && ps[i].NegotiateProvider? && AuthorizationHeaders.IsNtlmType1Post(request)
  }

  /** The collection's `getByClassName`: the position of the first provider of that class. */
  function FindByClassName(ps: seq<Provider>, className: string): (r: Option<nat>)
    ensures r.Some? ==> r.value < |ps| && ClassName(ps[r.value]) == className
    ensures r.Some? ==> forall j :: 0 <= j < r.value ==> ClassName(ps[j]) != className
    ensures r.None? <==> forall j :: 0 <= j < |ps| ==> ClassName(ps[j]) != className
    decreases |ps|
  {
    if |ps| == 0 then None
    else if ClassName(ps[0]) == className then Some(0)
    else
      assert forall j :: 0 < j < |ps| ==> ps[j] == ps[1..][j - 1];
      match FindByClassName(ps[1..], className)
      case None => None
      case Some(k) => Some(k + 1)
  }

  // ---------------------------------------------------------------------------
  // Provider parameters
  // ---------------------------------------------------------------------------

  /** What `initParameter` throws. */
  datatype ProviderError = UnsupportedProtocol(protocol: string) | InvalidParameterName(name: string)

  /** The exception's `toString()`, which is what a `ServletException` wrapping it reports. */
  function ProviderErrorMessage(e: ProviderError): string {
    match e
    case UnsupportedProtocol(p) => "java.lang.RuntimeException: Unsupported protocol: " + p
    case InvalidParameterName(n) => "java.security.InvalidParameterException: " + n
  }

  predicate IsKnownProtocol(name: string) {
    name == Negotiate || name == Ntlm
  }

  /** The names of a protocol list, trimmed, with the empty ones dropped. */
  function NonEmptyTrimmed(names: seq<string>): (r: seq<string>)
    ensures forall i :: 0 <= i < |r| ==> r[i] != ""
    decreases |names|
  {
    if |names| == 0 then []
    else
      var n := JavaStrings.Trim(names[0]);
      (if n == "" then [] else [n]) + NonEmptyTrimmed(names[1..])
  }

  /** The position of the first name that is not a known protocol. */
  function FirstUnknown(xs: seq<string>): (r: Option<nat>)
    ensures r.None? <==> forall i :: 0 <= i < |xs| ==> IsKnownProtocol(xs[i])
    ensures r.Some? ==> r.value < |xs| && !IsKnownProtocol(xs[r.value])
    ensures r.Some? ==> forall j :: 0 <= j < r.value ==> IsKnownProtocol(xs[j])
    decreases |xs|
  {
    if |xs| == 0 then None
    else if !IsKnownProtocol(xs[0]) then Some(0)
    else match FirstUnknown(xs[1..])
      case None => None
      case Some(k) => Some(k + 1)
  }

  /** Checks each name in turn: a known protocol is kept, an empty one skipped, anything else
      stops with `UnsupportedProtocol` naming it. */
  function CheckProtocols(names: seq<string>): (r: Result<seq<string>, ProviderError>)
    ensures FirstUnknown(NonEmptyTrimmed(names)).None? ==> r == Ok(NonEmptyTrimmed(names))
    ensures var kept := NonEmptyTrimmed(names);
      FirstUnknown(kept).Some? ==> r == Err(UnsupportedProtocol(kept[FirstUnknown(kept).value]))
    decreases |names|
  {
    if |names| == 0 then Ok([])
    else
      var n := JavaStrings.Trim(names[0]);
      var rest := NonEmptyTrimmed(names[1..]);
      if n == "" then
        assert NonEmptyTrimmed(names) == rest;
        CheckProtocols(names[1..])
      else
        assert NonEmptyTrimmed(names) == [n] + rest;
        FirstUnknownCons(n, rest);
        if !IsKnownProtocol(n) then Err(UnsupportedProtocol(n))
        else
          match CheckProtocols(names[1..])
          case Ok(ps) => Ok([n] + ps)
          case Err(e) => Err(e)
  }

  /** Where the first unknown name of a list with a head `n` sits. */
  lemma FirstUnknownCons(n: string, rest: seq<string>)
    ensures var u := FirstUnknown(rest);
      FirstUnknown([n] + rest) ==
        if !IsKnownProtocol(n) then Some(0) else if u.None? then None else Some(u.value + 1)
    ensures var u := FirstUnknown(rest);
      IsKnownProtocol(n) && u.Some? ==> ([n] + rest)[u.value + 1] == rest[u.value]
  {
    assert ([n] + rest)[0] == n && ([n] + rest)[1..] == rest;
  }

  /** The `protocols` parameter: split on whitespace runs, then checked name by name. */
  function ParseProtocols(value: string): Result<seq<string>, ProviderError> {
    CheckProtocols(JavaStrings.SplitWhitespace(value))
  }

  /** `initParameter(name, value)` of one provider. */
  function InitParameter(p: Provider, name: string, value: string): (r: Result<Provider, ProviderError>)
    ensures r.Ok? ==> ClassName(r.value) == ClassName(p)
    ensures r.Err? && r.error.InvalidParameterName? ==> r.error.name == name
    ensures p.NegotiateProvider? && name == "protocols" ==>
      var parsed := ParseProtocols(value);
      r == if parsed.Ok? then Ok(NegotiateProvider(parsed.value)) else Err(parsed.error)
    ensures p.BasicProvider? && name == "realm" ==> r == Ok(p.(realm := value))
  {
    match p
    case NegotiateProvider(_) =>
      if name == "protocols" then
        var ps :- ParseProtocols(value);
        Ok(NegotiateProvider(ps))
      else Err(InvalidParameterName(name))
    case BasicProvider(_, _) =>
      if name == "realm" then Ok(p.(realm := value))
      else if name == "charset" then Ok(p.(charset := value))
      else Err(InvalidParameterName(name))
  }

  // ---------------------------------------------------------------------------
  // Properties
  // ---------------------------------------------------------------------------

  /** The default collection challenges with "Negotiate", "NTLM" and a Basic realm, in that
      order. */
  lemma DefaultChallenges()
    ensures AllChallenges(DefaultProviders) == ["Negotiate", "NTLM", BasicChallenge(DefaultRealm)]
    ensures JavaStrings.StartsWith(AllChallenges(DefaultProviders)[2], "Basic realm=\"")
  {
    var basic := BasicProvider(DefaultRealm, DefaultCharset);
    assert DefaultProviders[1..] == [basic];
    assert AllChallenges([basic]) == [BasicChallenge(DefaultRealm)] by {
      assert [basic][1..] == [];
    }
    BasicChallengeShape(DefaultRealm);
  }

  /** A Basic challenge is `Basic realm="`, the realm, and a closing quote. */
  lemma BasicChallengeShape(realm: string)
    ensures JavaStrings.StartsWith(BasicChallenge(realm), "Basic realm=\"")
    ensures BasicChallenge(realm)[13..|BasicChallenge(realm)| - 1] == realm
    ensures BasicChallenge(realm)[|BasicChallenge(realm)| - 1] == '"'
  {
    var c := BasicChallenge(realm);
    assert c == "Basic realm=\"" + realm + "\"";
    assert c[..13] == "Basic realm=\"";
  }

  lemma {:induction false} AllChallengesAppend(a: seq<Provider>, b: seq<Provider>)
    ensures AllChallenges(a + b) == AllChallenges(a) + AllChallenges(b)
    decreases |a|
  {
    if |a| == 0 {
      assert a + b == b;
    } else {
      assert (a + b)[0] == a[0] && (a + b)[1..] == a[1..] + b;
      AllChallengesAppend(a[1..], b);
    }
  }

  /** Each provider's challenges sit in the collection's list right after those of the providers
      before it. */
  lemma ChallengesInOrder(ps: seq<Provider>, k: nat)
    requires k < |ps|
    ensures AllChallenges(ps) == AllChallenges(ps[..k]) + Challenges(ps[k]) + AllChallenges(ps[k + 1..])
  {
    JavaStrings.SplitAround(ps, k);
    ChallengesAround(ps[..k], ps[k], ps[k + 1..]);
  }

  lemma ChallengesAround(before: seq<Provider>, p: Provider, after: seq<Provider>)
    ensures AllChallenges(before + ([p] + after)) == AllChallenges(before) + Challenges(p) + AllChallenges(after)
  {
    AllChallengesAppend(before, [p] + after);
    AllChallengesCons(p, after);
  }

  lemma AllChallengesCons(p: Provider, ps: seq<Provider>)
    ensures AllChallenges([p] + ps) == Challenges(p) + AllChallenges(ps)
  {
    assert ([p] + ps)[0] == p && ([p] + ps)[1..] == ps;
  }

  /** The default collection routes "Negotiate" and "NTLM" (in any letter case) to the Negotiate
      provider and "Basic" to the Basic provider. */
  lemma DefaultSelection(package: string)
    ensures JavaStrings.EqualsIgnoreCase(package, Negotiate) ==> Select(DefaultProviders, package) == Some(0)
    ensures JavaStrings.EqualsIgnoreCase(package, Ntlm) ==> Select(DefaultProviders, package) == Some(0)
    ensures JavaStrings.EqualsIgnoreCase(package, "Basic") ==> Select(DefaultProviders, package) == Some(1)
  {
    if JavaStrings.EqualsIgnoreCase(package, Negotiate) {
      SelectsFirstProtocol(DefaultProviders, 0, package);
    }
    if JavaStrings.EqualsIgnoreCase(package, Ntlm) {
      SelectsFirstProtocol(DefaultProviders, 1, package);
    }
    if JavaStrings.EqualsIgnoreCase(package, "Basic") {
      DefaultSelectsBasic(package);
    }
  }

  /** A collection led by a Negotiate provider gives it any package one of its protocols names. */
  lemma SelectsFirstProtocol(ps: seq<Provider>, i: nat, package: string)
    requires |ps| > 0 && ps[0].NegotiateProvider? && i < |ps[0].protocols|
    requires JavaStrings.EqualsIgnoreCase(package, ps[0].protocols[i])
    ensures Select(ps, package) == Some(0)
  {
    assert Supports(ps[0], package);
  }

  lemma DefaultSelectsBasic(package: string)
    requires JavaStrings.EqualsIgnoreCase(package, "Basic")
    ensures Select(DefaultProviders, package) == Some(1)
  {
    assert |package| == 5 by {
      assert |JavaStrings.ToUpper(package)| == |JavaStrings.ToUpper("Basic")|;
    }
    LengthsDiffer(Negotiate, package);
    LengthsDiffer(Ntlm, package);
    OnlyProtocolsSupported(DefaultProtocols, package);
    SelectsSecond(DefaultProviders, package);
  }

  lemma LengthsDiffer(a: string, b: string)
    requires |a| != |b|
    ensures !JavaStrings.EqualsIgnoreCase(a, b)
  {
    assert |JavaStrings.ToUpper(a)| != |JavaStrings.ToUpper(b)|;
  }

  lemma OnlyProtocolsSupported(protocols: seq<string>, package: string)
    requires |protocols| == 2
    requires !JavaStrings.EqualsIgnoreCase(protocols[0], package)
    requires !JavaStrings.EqualsIgnoreCase(protocols[1], package)
    ensures !Supports(NegotiateProvider(protocols), package)
  {
  }

  lemma SelectsSecond(ps: seq<Provider>, package: string)
    requires |ps| >= 2 && !Supports(ps[0], package) && Supports(ps[1], package)
    ensures Select(ps, package) == Some(1)
  {
    assert ps[1..][0] == ps[1];
  }

  /** Protocol names separated by any whitespace runs, with optional trailing whitespace, are
      accepted in order, duplicates kept. */
  lemma ParseProtocolsOfWords(words: seq<string>, seps: seq<string>, trailing: string)
    requires |words| == |seps| + 1
    requires forall i :: 0 <= i < |words| ==> IsKnownProtocol(words[i])
    requires JavaStrings.AreSeparators(seps) && JavaStrings.AllWhitespace(trailing)
    ensures ParseProtocols(JavaStrings.Interleave(words, seps) + trailing) == Ok(words)
  {
    assert JavaStrings.AreWords(words);
    JavaStrings.SplitWhitespaceOfInterleave(words, seps, trailing);
    KnownProtocolsAreKept(words);
  }

  lemma {:induction false} KnownProtocolsAreKept(words: seq<string>)
    requires forall i :: 0 <= i < |words| ==> IsKnownProtocol(words[i])
    ensures NonEmptyTrimmed(words) == words
    decreases |words|
  {
    if |words| > 0 {
      KnownProtocolIsTrimmed(words[0]);
      KnownProtocolsAreKept(words[1..]);
      assert words == [words[0]] + words[1..];
    }
  }

  lemma KnownProtocolIsTrimmed(name: string)
    requires IsKnownProtocol(name)
    ensures JavaStrings.Trim(name) == name && name != ""
  {
    assert IsClassName(name);
    ClassNameIsWord(name);
  }

  /** A protocol list naming anything but "Negotiate" or "NTLM" is refused, and the error names
      the first such entry. */
  lemma ParseProtocolsRefusesUnknown(word: string)
    requires word != "" && JavaStrings.NoWhitespace(word)
    requires forall i :: 0 <= i < |word| ==> !JavaStrings.IsTrimmable(word[i])
    requires !IsKnownProtocol(word)
    ensures ParseProtocols(word) == Err(UnsupportedProtocol(word))
  {
    assert JavaStrings.SplitWhitespace(word) == [word];
    assert NonEmptyTrimmed([word]) == [word];
  }

  /** The provider class names are single words that `trim` leaves alone, so a whitespace
      separated list of them splits back into exactly those names. */
  lemma ProviderClassesAreWords()
    ensures JavaStrings.NoWhitespace(NegotiateProviderClass) && JavaStrings.NoWhitespace(BasicProviderClass)
    ensures JavaStrings.Trim(NegotiateProviderClass) == NegotiateProviderClass
    ensures JavaStrings.Trim(BasicProviderClass) == BasicProviderClass
    ensures '/' !in NegotiateProviderClass && '/' !in BasicProviderClass
  {
    assert IsClassName(ProviderPackage);
    assert IsClassName("NegotiateSecurityFilterProvider");
    assert IsClassName("BasicSecurityFilterProvider");
    ClassNameConcat(ProviderPackage, "NegotiateSecurityFilterProvider");
    ClassNameConcat(ProviderPackage, "BasicSecurityFilterProvider");
    ClassNameIsWord(NegotiateProviderClass);
    ClassNameIsWord(BasicProviderClass);
  }

  /** Letters and dots: the characters of a Java class name. */
  predicate IsClassName(s: string) {
    forall i :: 0 <= i < |s| ==> 'a' <= s[i] <= 'z' || 'A' <= s[i] <= 'Z' || s[i] == '.'
  }

  lemma ClassNameConcat(a: string, b: string)
    requires IsClassName(a) && IsClassName(b)
    ensures IsClassName(a + b)
  {
    forall i | 0 <= i < |a + b| ensures 'a' <= (a + b)[i] <= 'z' || 'A' <= (a + b)[i] <= 'Z' || (a + b)[i] == '.' {
      if i >= |a| {
        assert (a + b)[i] == b[i - |a|];
      }
    }
  }

  lemma ClassNameIsWord(s: string)
    requires IsClassName(s)
    ensures JavaStrings.NoWhitespace(s) && JavaStrings.Trim(s) == s && '/' !in s && ' ' !in s
  {
    forall i | 0 <= i < |s|
      ensures !JavaStrings.IsTrimmable(s[i]) && !JavaStrings.IsWhitespace(s[i]) && s[i] != '/'
    {
    }
    assert '/' !in s && ' ' !in s by {
      forall i | 0 <= i < |s| ensures s[i] != '/' && s[i] != ' ' {
        assert !JavaStrings.IsTrimmable(s[i]);
      }
    }
  }
}
