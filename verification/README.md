# Waffle's Windows authentication gate, in Dafny

This project models the core of Waffle's servlet authentication gate. The gate sits in front of a web
application. It challenges a browser for Windows credentials and runs the NTLM / Negotiate handshake or a
one-shot HTTP Basic logon against a Windows logon service. It then hands the request downstream wrapped
around a Windows principal. The model covers six pieces:

- **NTLM message classifier** (`NtlmMessage`). This is `isNtlmMessage` and `getMessageType` over byte
  sequences. A message starts with the 8-byte signature `NTLMSSP\0`. Its type is the 32-bit little-endian
  value at offset 8, as in section 2.2.1 of [MS-NLMP].
- **Windows principal** (`WindowsPrincipals`), modelled on Tomcat's `GenericWindowsPrincipal`:
  - Each of two `PrincipalFormat` values (FQN, SID, BOTH, NONE) expands an account into role names.
  - The role list is the user's names, then every group's names in array order.
  - The group map is keyed by fqn, and the last duplicate wins.
  - `getRolesString` joins the roles with `", "`.
- **JAAS user principal** (`UserPrincipals`). A name wrapper with name-based `equals`. Its `hashCode` is
  Java's `String.hashCode` with 32-bit wrap-around.
- **Header formats** (`AuthorizationHeaders`, on top of `Base64`, `Utf8` and `JavaStrings`):
  - An `Authorization` value is a package name, one space, and a base 64 token (section 4 of RFC 4648).
  - A Basic token is the UTF-8 text `user:password` (section 2 of RFC 7617).
  - An NTLM type-1 message posted with an empty body starts a new handshake.
- **Security filter providers and `init`** (`SecurityFilterProviders`, `FilterInit`):
  - There is a fixed registry of the two provider classes: Negotiate, with its protocol list, and Basic,
    with its realm.
  - Challenges are listed in provider order, and a security package selects a provider by case-insensitive
    match.
  - `init` reads the filter's parameters. It applies the principal and role formats, guest login and
    impersonation, and splits the provider list on any whitespace. It forwards `class/name` keys to the
    named provider. It fails on an unknown key, class or protocol with the message the exception carries.
- **`doFilter`** (`NegotiateFilter`). A pure transition over a server state: the handshake contexts per
  connection and the sessions with their principal and JAAS subject.
  - A request with a principal passes through.
  - A request without credentials is challenged (401, every challenge, keep-alive).
  - A handshake round either continues (401 with one token, keep-alive) or completes. On completion the
    principal joins the session's subject and the request goes downstream in a `NEGOTIATE` wrapper.
  - A rejected or unreadable header is refused with `Connection: close`.
  - An NTLM type-1 POST or PUT with no body restarts the handshake even when a principal is already known.
  - The Windows side (SSPI's `acceptSecurityToken` and the Basic `logonUser`) is an abstract `WindowsAuth`
    parameter. It answers Continue(token, context), Complete(token, identity) or Rejected, and for Basic
    Some(identity) or None.

`FilterScenarios` restates the filter's unit tests as lemmas over the model: the set-up, each `init`
configuration, and each request sequence.

## Model

| member | source | states |
|---|---|---|
| NtlmMessage.IsNtlmMessage | Source/JNA/waffle-jna/src/test/java/waffle/util/NtlmMessageTests.java:28-38 | a buffer is an NTLM message exactly when it is present, at least 8 bytes long, and begins with the 8 signature bytes |
| NtlmMessage.NullIsNotNtlm | Source/JNA/waffle-jna/src/test/java/waffle/util/NtlmMessageTests.java:29 | a missing (null) buffer is never an NTLM message |
| NtlmMessage.ShortIsNotNtlm | Source/JNA/waffle-jna/src/test/java/waffle/util/NtlmMessageTests.java:32-33 | any buffer shorter than the signature, such as its 7-byte prefix, is not an NTLM message |
| NtlmMessage.SignatureIgnoresTail | Source/JNA/waffle-jna/src/test/java/waffle/util/NtlmMessageTests.java:34-35 | appending bytes to a buffer of at least 8 bytes does not change whether it is an NTLM message |
| NtlmMessage.TestVectorsIsNtlmMessage | Source/JNA/waffle-jna/src/test/java/waffle/util/NtlmMessageTests.java:30-37 | the four test buffers classify as in the test: the exact signature and the signature plus a byte are messages; the 7-byte prefix and nine zero bytes are not |
| NtlmMessage.GetMessageType | Source/JNA/waffle-jna/src/test/java/waffle/util/NtlmMessageTests.java:41-51 | a type exists exactly when the buffer reaches offset 12; it is a 32-bit value whose 4-byte little-endian encoding is bytes 8..11 |
| NtlmMessage.DecodeEncodeLE | Source/JNA/waffle-jna/src/test/java/waffle/util/NtlmMessageTests.java:42-50 | reading back the little-endian encoding of a value that fits the width gives the value |
| NtlmMessage.EncodeDecodeLE | Source/JNA/waffle-jna/src/test/java/waffle/util/NtlmMessageTests.java:42-50 | re-encoding the value read from any byte string gives the same bytes, so the type field is read without loss |
| NtlmMessage.TypeIgnoresPayload | Source/JNA/waffle-jna/src/test/java/waffle/util/NtlmMessageTests.java:45-50 | two buffers with the same bytes 8..11 have the same type, whatever follows offset 12 |
| NtlmMessage.TypeIsLowByteWhenHighBytesZero | Source/JNA/waffle-jna/src/test/java/waffle/util/NtlmMessageTests.java:42-50 | when bytes 9..11 are zero, as in every test vector, the type is byte 8 |
| NtlmMessage.TypeOneIff | Source/JNA/waffle-jna/src/test/java/waffle/util/NtlmMessageTests.java:42-50 | a message reaching offset 12 is of type 1 exactly when bytes 8..11 are 1, 0, 0, 0 |
| NtlmMessage.TestVectorsGetMessageType | Source/JNA/waffle-jna/src/test/java/waffle/util/NtlmMessageTests.java:41-51 | the three test vectors have types 1, 2 and 3; the type-2 and type-3 vectors share their tail |
| NtlmMessage.ClassifyBuild | Source/JNA/waffle-jna/src/test/java/waffle/util/NtlmMessageTests.java:41-51 | a message built from any 32-bit type and payload is an NTLM message, and its type reads back as the one it was built with |
| NtlmMessage.Classify | Source/JNA/waffle-jna/src/test/java/waffle/util/NtlmMessageTests.java:41-51 | a buffer is classified as NEGOTIATE, CHALLENGE or AUTHENTICATE exactly when it is an NTLM message whose type is 1, 2 or 3, and the kind matches the type |
| UserPrincipals.NewUserPrincipal | Source/JNA/waffle-jna/src/main/java/waffle/jaas/UserPrincipal.java:35-37 | the constructed principal's name is the given fqn |
| UserPrincipals.GetNameOfNew | Source/JNA/waffle-jna/src/main/java/waffle/jaas/UserPrincipal.java:35-45 | `getName` returns exactly the fqn the principal was constructed with |
| UserPrincipals.GetName | Source/JNA/waffle-jna/src/main/java/waffle/jaas/UserPrincipal.java:43-45 | the name is what the principal was built from: rebuilding from it gives the same principal |
| UserPrincipals.HashCode | Source/JNA/waffle-jna/src/main/java/waffle/jaas/UserPrincipal.java:62-64 | the hash is a signed 32-bit value congruent modulo 2^32 to the polynomial over the name's UTF-16 code units with base 31 |
| UserPrincipals.Equals | Source/JNA/waffle-jna/src/main/java/waffle/jaas/UserPrincipal.java:48-59 | `equals` holds exactly when the other object is a user principal with the same name |
| UserPrincipals.EqualsReflexive | Source/JNA/waffle-jna/src/main/java/waffle/jaas/UserPrincipal.java:50-52 | every principal equals itself |
| UserPrincipals.EqualsSymmetric | Source/JNA/waffle-jna/src/main/java/waffle/jaas/UserPrincipal.java:54-56 | p equals q exactly when q equals p |
| UserPrincipals.EqualsTransitive | Source/JNA/waffle-jna/src/main/java/waffle/jaas/UserPrincipal.java:54-56 | equality carries over from p = q and q = r to p = r |
| UserPrincipals.EqualsIffSameName | Source/JNA/waffle-jna/src/main/java/waffle/jaas/UserPrincipal.java:54-56 | two user principals are equal exactly when they are the same value, that is, when their names agree |
| UserPrincipals.NeverEqualsOtherKinds | Source/JNA/waffle-jna/src/main/java/waffle/jaas/UserPrincipal.java:58 | a user principal never equals null or an object of any other class |
| UserPrincipals.HashConsistentWithEquals | Source/JNA/waffle-jna/src/main/java/waffle/jaas/UserPrincipal.java:62-64 | equal principals have equal hash codes |
| UserPrincipals.HashFromIsPolynomial | Source/JNA/waffle-jna/src/main/java/waffle/jaas/UserPrincipal.java:62-64 | the wrapping `31 * h + unit` loop agrees, modulo 2^32, with the unbounded polynomial over the UTF-16 code units |
| WindowsPrincipals.NamesOfFormats | Source/JNA/waffle-tomcat5/src/main/java/waffle/apache/GenericWindowsPrincipal.java:147-167 | an account expands to [fqn] under FQN, [sid] under SID, [fqn, sid] in that order under BOTH, and nothing under NONE |
| WindowsPrincipals.Names | Source/JNA/waffle-tomcat5/src/main/java/waffle/apache/GenericWindowsPrincipal.java:117-136 | the expansion has one entry per shown part (0, 1 or 2); the fqn comes first when shown and the SID last; and nothing else appears in it |
| WindowsPrincipals.GroupRoles | Source/JNA/waffle-tomcat5/src/main/java/waffle/apache/GenericWindowsPrincipal.java:67-69 | the groups' role names number exactly the groups times each group's contribution, with no duplicate removed |
| WindowsPrincipals.GroupRolesAppend | Source/JNA/waffle-tomcat5/src/main/java/waffle/apache/GenericWindowsPrincipal.java:67-69 | the role names of two runs of groups are the first run's names followed by the second's |
| WindowsPrincipals.GroupRolesLayout | Source/JNA/waffle-tomcat5/src/main/java/waffle/apache/GenericWindowsPrincipal.java:67-69 | group k's role names sit between those of the groups before it and those of the groups after it, in array order |
| WindowsPrincipals.Roles | Source/JNA/waffle-tomcat5/src/main/java/waffle/apache/GenericWindowsPrincipal.java:63-71 | the role list is as long as the user's names plus every group's contribution |
| WindowsPrincipals.RolesLayout | Source/JNA/waffle-tomcat5/src/main/java/waffle/apache/GenericWindowsPrincipal.java:63-71 | the role list is the user's principal names, then groups 0..k-1, then group k's names, then the rest; group k's names start at offset width(user) + k * width(group) |
| WindowsPrincipals.GroupRolesMembership | Source/JNA/waffle-tomcat5/src/main/java/waffle/apache/GenericWindowsPrincipal.java:67-69 | a name is among the groups' role names exactly when some group expands to it |
| WindowsPrincipals.RoleMembership | Source/JNA/waffle-tomcat5/src/main/java/waffle/apache/GenericWindowsPrincipal.java:63-71 | a name is a role exactly when it is one of the user's principal names or some group's role name |
| WindowsPrincipals.BothRolesHoldGroupNameAndSid | Source/JNA/waffle-tomcat5/src/main/java/waffle/apache/GenericWindowsPrincipal.java:126-129 | under role format BOTH, every group's fqn and its SID string are both roles |
| WindowsPrincipals.GroupMap | Source/JNA/waffle-tomcat5/src/main/java/waffle/apache/GenericWindowsPrincipal.java:73-79 | every entry of the group map is a group from the array, stored under its own fqn |
| WindowsPrincipals.GroupMapKeys | Source/JNA/waffle-tomcat5/src/main/java/waffle/apache/GenericWindowsPrincipal.java:73-79 | the map's keys are exactly the groups' fqns |
| WindowsPrincipals.GroupMapLastWins | Source/JNA/waffle-tomcat5/src/main/java/waffle/apache/GenericWindowsPrincipal.java:75-77 | a group whose fqn does not recur later in the array is the map's value for that fqn |
| WindowsPrincipals.GroupMapValueIsLast | Source/JNA/waffle-tomcat5/src/main/java/waffle/apache/GenericWindowsPrincipal.java:75-77 | every map value is the last group in the array that carries its key |
| WindowsPrincipals.NewPrincipal | Source/JNA/waffle-tomcat5/src/main/java/waffle/apache/GenericWindowsPrincipal.java:54-79 | the principal's name is the identity's fqn and its password is empty; it keeps the SID and SID string; its roles are the user's principal names followed by the groups' role names in array order, and its group map's keys are exactly the group fqns |
| WindowsPrincipals.NewPrincipalHasRole | Source/JNA/waffle-tomcat5/src/main/java/waffle/apache/GenericWindowsPrincipal.java:63-71 | the built principal holds a role exactly when the user's own names or some group's names under the role format include it |
| WindowsPrincipals.NewPrincipalGroup | Source/JNA/waffle-tomcat5/src/main/java/waffle/apache/GenericWindowsPrincipal.java:73-79 | the group map answers for a key exactly when some group has that fqn, and then with the last such group in the identity's array |
| WindowsPrincipals.NewPrincipalLastGroupWins | Source/JNA/waffle-tomcat5/src/main/java/waffle/apache/GenericWindowsPrincipal.java:73-79 | a group that no later group shadows is what the group map holds for its fqn |
| WindowsPrincipals.PrincipalNames | Source/JNA/waffle-tomcat5/src/main/java/waffle/apache/GenericWindowsPrincipal.java:147-167 | the user's names number one per shown part of the format: the fqn first when shown, the SID string last when shown |
| WindowsPrincipals.RoleNames | Source/JNA/waffle-tomcat5/src/main/java/waffle/apache/GenericWindowsPrincipal.java:117-136 | a group's names number one per shown part of the format: its fqn first when shown, its SID string last when shown |
| WindowsPrincipals.RolesString | Source/JNA/waffle-tomcat5/src/main/java/waffle/apache/GenericWindowsPrincipal.java:174-176 | with no roles the roles string is empty; when no role holds a comma, splitting it at ", " gives back the roles |
| WindowsPrincipals.GetSid | Source/JNA/waffle-tomcat5/src/main/java/waffle/apache/GenericWindowsPrincipal.java:86-88 | returns a newly allocated array with the stored SID's bytes |
| WindowsPrincipals.RolesStringShape | Source/JNA/waffle-tomcat5/src/main/java/waffle/apache/GenericWindowsPrincipal.java:174-176 | the roles string starts with the first role and ends with the last; its length is the roles' lengths plus two per separator, so there is no leading or trailing separator |
| WindowsPrincipals.RolesStringOfNoRoles | Source/JNA/waffle-tomcat5/src/main/java/waffle/apache/GenericWindowsPrincipal.java:174-176 | with no roles the roles string is empty |
| WindowsPrincipals.RolesStringSplits | Source/JNA/waffle-tomcat5/src/main/java/waffle/apache/GenericWindowsPrincipal.java:174-176 | when no role holds a comma, splitting the roles string at ", " gives back the roles |
| JavaStrings.JoinShape | Source/JNA/waffle-tomcat5/src/main/java/waffle/apache/GenericWindowsPrincipal.java:175 | a join is as long as its pieces plus one separator between each consecutive pair |
| JavaStrings.SplitJoin | Source/JNA/waffle-tomcat5/src/main/java/waffle/apache/GenericWindowsPrincipal.java:175 | splitting a join at its separator gives back the pieces when none of them contains the separator's first character |
| Base64.Encode | Source/JNA/waffle-tests/src/test/java/waffle/servlet/BasicSecurityFilterTests.java:62-63 | the encoding has four characters per whole group of three bytes, plus four for a final partial group |
| Base64.Decode | Source/JNA/waffle-tests/src/test/java/waffle/servlet/BasicSecurityFilterTests.java:62-63 | a decoding exists exactly for text whose characters, with the trailing '=' removed, all come from the base 64 alphabet and number other than 1 modulo 4 |
| Base64.DecodeEncode | Source/JNA/waffle-tests/src/test/java/waffle/servlet/BasicSecurityFilterTests.java:62-63 | decoding the encoding of any byte string gives the byte string back |
| Base64.EncodeShape | Source/JNA/waffle-tests/src/test/java/waffle/servlet/BasicSecurityFilterTests.java:62-63 | the encoding is alphabet characters followed by at most two '=' of padding, and '=' appears nowhere else |
| Utf8.DecodeEncode | Source/JNA/waffle-tests/src/test/java/waffle/servlet/BasicSecurityFilterTests.java:62 | decoding the UTF-8 encoding of any text gives the text back |
| Utf8.EncodeAscii | Source/JNA/waffle-tests/src/test/java/waffle/servlet/BasicSecurityFilterTests.java:62 | ASCII text encodes to one byte per character, equal to its code |
| JavaStrings.SplitOnceOfJoined | Source/JNA/waffle-tests/src/test/java/waffle/servlet/BasicSecurityFilterTests.java:62 | cutting `a:b` at the first colon gives a and b when a has no colon, even if b does |
| AuthorizationHeaders.SecurityPackage | Source/JNA/waffle-tests/src/test/java/waffle/servlet/BasicSecurityFilterTests.java:62-65 | a header has a package exactly when it has a space and does not start with one; the package is the non-empty, space-free text before the first space |
| AuthorizationHeaders.Token | Source/JNA/waffle-tests/src/test/java/waffle/servlet/BasicSecurityFilterTests.java:62-65 | the token exists exactly when the package does, and the package, a space and the token rebuild the header |
| AuthorizationHeaders.ParseFormat | Source/JNA/waffle-tests/src/test/java/waffle/servlet/BasicSecurityFilterTests.java:62-65 | a header formatted from a space-free package and any token parses back to that package and those token bytes |
| AuthorizationHeaders.BasicHeaderRoundTrip | Source/JNA/waffle-tests/src/test/java/waffle/servlet/BasicSecurityFilterTests.java:62-65 | a `Basic` header built from a colon-free user and any password names the Basic package and yields that user and password |
| AuthorizationHeaders.FormattedType1IsRecognised | Source/JNA/waffle-tests/src/test/java/waffle/servlet/NegotiateSecurityFilterTests.java:218-220 | a header carrying any NTLM type-1 message is recognised as one |
| AuthorizationHeaders.NtlmType1PostExactly | Source/JNA/waffle-tests/src/test/java/waffle/servlet/NegotiateSecurityFilterTests.java:212-251 | a request is an NTLM type-1 post exactly when it is a POST or PUT with content length 0 whose header token decodes to an NTLM message at least 12 bytes long with 1, 0, 0, 0 at bytes 8..11 |
| JavaStrings.SplitWhitespaceOfInterleave | Source/JNA/waffle-tests/src/test/java/waffle/servlet/NegotiateSecurityFilterTests.java:271-278 | splitting words joined by runs of whitespace of any kind, plus trailing whitespace, gives exactly the words in order, duplicates kept |
| JavaStrings.SplitWhitespaceKeepsContent | Source/JNA/waffle-tests/src/test/java/waffle/servlet/NegotiateSecurityFilterTests.java:271-278 | the split pieces, concatenated, are the input with every whitespace character removed |
| JavaStrings.Trim | Source/JNA/waffle-tests/src/test/java/waffle/servlet/NegotiateSecurityFilterTests.java:271-278 | trimming never lengthens the text; the result neither starts nor ends with a character up to U+0020; text without such characters is unchanged |
| JavaStrings.TrimIsInfix | Source/JNA/waffle-tests/src/test/java/waffle/servlet/NegotiateSecurityFilterTests.java:271-278 | the trimmed text is an infix of the input with only characters up to U+0020 before it and after it |
| JavaStrings.TrimIdempotent | Source/JNA/waffle-tests/src/test/java/waffle/servlet/NegotiateSecurityFilterTests.java:271-278 | trimming trimmed text changes nothing |
| SecurityFilterProviders.NewProvider | Source/JNA/waffle-tests/src/test/java/waffle/servlet/NegotiateSecurityFilterTests.java:319-328 | the registry creates a provider exactly for the Negotiate and Basic class names, and the provider reports that class |
| SecurityFilterProviders.ProviderClassesAreWords | Source/JNA/waffle-tests/src/test/java/waffle/servlet/NegotiateSecurityFilterTests.java:271-278 | both provider class names are free of whitespace and '/', so they survive splitting, trimming and key parsing |
| SecurityFilterProviders.ChallengesInOrder | Source/JNA/waffle-tests/src/test/java/waffle/servlet/NegotiateSecurityFilterTests.java:76-85 | the challenges are provider k's own, between those of the providers before and after it |
| SecurityFilterProviders.DefaultChallenges | Source/JNA/waffle-tests/src/test/java/waffle/servlet/NegotiateSecurityFilterTests.java:76-85 | the default providers challenge with "Negotiate", "NTLM", then `Basic realm="…"` |
| SecurityFilterProviders.Select | Source/JNA/waffle-tests/src/test/java/waffle/servlet/NegotiateSecurityFilterTests.java:128-194 | the selected provider is the first that supports the package; none is selected exactly when no provider supports it |
| SecurityFilterProviders.DefaultSelection | Source/JNA/waffle-tests/src/test/java/waffle/servlet/NegotiateSecurityFilterTests.java:128-194 | among the defaults, Negotiate and NTLM in any case select the Negotiate provider and Basic selects the Basic provider |
| SecurityFilterProviders.FindByClassName | Source/JNA/waffle-tests/src/test/java/waffle/servlet/NegotiateSecurityFilterTests.java:319-328 | the found provider is the first of that class; none is found exactly when no provider has it |
| SecurityFilterProviders.CheckProtocols | Source/JNA/waffle-tests/src/test/java/waffle/servlet/NegotiateSecurityFilterTests.java:281-304 | the trimmed, non-empty names are accepted when all are Negotiate or NTLM; otherwise the first unknown one is reported |
| SecurityFilterProviders.ParseProtocolsOfWords | Source/JNA/waffle-tests/src/test/java/waffle/servlet/NegotiateSecurityFilterTests.java:281-291 | known protocol names separated by any whitespace parse to exactly those names in order, duplicates kept |
| SecurityFilterProviders.ParseProtocolsRefusesUnknown | Source/JNA/waffle-tests/src/test/java/waffle/servlet/NegotiateSecurityFilterTests.java:294-304 | a single word that is not a known protocol is refused as an unsupported protocol naming that word |
| SecurityFilterProviders.InitParameter | Source/JNA/waffle-tests/src/test/java/waffle/servlet/NegotiateSecurityFilterTests.java:281-304 | a provider keeps its class; Negotiate's `protocols` replaces its list or fails as the parse does; Basic's `realm` replaces the realm; a refused name is reported as given |
| FilterInit.ParsePrincipalFormat | Source/JNA/waffle-tests/src/test/java/waffle/servlet/NegotiateSecurityFilterTests.java:254-268 | a format is read exactly when its name equals the upper-cased value; otherwise the error names the upper-cased value |
| FilterInit.CollectAll | Source/JNA/waffle-tests/src/test/java/waffle/servlet/NegotiateSecurityFilterTests.java:254-268 | the parameter loop sets aside exactly the non-setting keys, in order, and does not touch the auth provider or provider list already set |
| FilterInit.CollectAllAppend | Source/JNA/waffle-tests/src/test/java/waffle/servlet/NegotiateSecurityFilterTests.java:254-268 | reading a + b is reading a and then b from where a left off, stopping at a's error |
| FilterInit.LoadProviders | Source/JNA/waffle-tests/src/test/java/waffle/servlet/NegotiateSecurityFilterTests.java:271-278 | a provider list loads to one provider per trimmed name, each of that class; a failure names a class from the list |
| FilterInit.ApplyParameter | Source/JNA/waffle-tests/src/test/java/waffle/servlet/NegotiateSecurityFilterTests.java:307-328 | a key without '/' is an invalid parameter; a class nobody has is a missing class; success keeps the providers' classes |
| FilterInit.ApplyAll | Source/JNA/waffle-tests/src/test/java/waffle/servlet/NegotiateSecurityFilterTests.java:281-328 | applying every provider parameter keeps the provider classes, and every key applied addresses a loaded provider |
| FilterInit.Configure | Source/JNA/waffle-tests/src/test/java/waffle/servlet/NegotiateSecurityFilterTests.java:254-328 | configuring leaves an auth provider and a provider list, and every provider parameter addresses one of those providers |
| FilterInit.Init | Source/JNA/waffle-tests/src/test/java/waffle/servlet/NegotiateSecurityFilterTests.java:307-328 | a successful init leaves an authentication provider and a provider list set, and every configured key was either a filter setting or addressed one of the resulting providers |
| FilterInit.InitWithProviderParametersOnly | Source/JNA/waffle-tests/src/test/java/waffle/servlet/NegotiateSecurityFilterTests.java:307-328 | with only provider parameters, init keeps the existing providers and applies the parameters to them, or fails as applying them fails |
| FilterInit.InitWithProviderList | Source/JNA/waffle-tests/src/test/java/waffle/servlet/NegotiateSecurityFilterTests.java:271-291 | a provider list followed by provider parameters loads the list and then applies the parameters, failing at the first failing step |
| FilterInit.InitRefusesPlainKey | Source/JNA/waffle-tests/src/test/java/waffle/servlet/NegotiateSecurityFilterTests.java:307-316 | any unknown key without '/' makes init fail as an invalid parameter naming the key |
| FilterInit.InitRefusesUnknownClassKey | Source/JNA/waffle-tests/src/test/java/waffle/servlet/NegotiateSecurityFilterTests.java:319-328 | a `class/name` key whose class is not configured makes init fail with that class not found |
| FilterInit.ProviderKeysAreNotSettings | Source/JNA/waffle-tests/src/test/java/waffle/servlet/NegotiateSecurityFilterTests.java:254-268 | a `class/name` key never collides with a filter setting's name |
| NegotiateFilter.SendUnauthorized | Source/JNA/waffle-tests/src/test/java/waffle/servlet/NegotiateSecurityFilterTests.java:76-89 | the response becomes 401; it gains every provider challenge in order and exactly one Connection value; it gains no other header name |
| NegotiateFilter.WithToken | Source/JNA/waffle-tests/src/test/java/waffle/servlet/NegotiateSecurityFilterTests.java:165-171 | a non-empty answer token adds exactly one `WWW-Authenticate: <package> <base64>`; an empty one adds nothing; other headers are unchanged |
| NegotiateFilter.NegotiateDoFilter | Source/JNA/waffle-tests/src/test/java/waffle/servlet/NegotiateSecurityFilterTests.java:128-194 | a handshake step answers with 401 or authenticates with the status untouched, and changes only the current connection's context |
| NegotiateFilter.BasicDoFilter | Source/JNA/waffle-tests/src/test/java/waffle/servlet/BasicSecurityFilterTests.java:58-73 | a Basic step never touches the handshake contexts, and a logon leaves the response untouched |
| NegotiateFilter.ProvidersDoFilter | Source/JNA/waffle-tests/src/test/java/waffle/servlet/NegotiateSecurityFilterTests.java:128-194 | whichever provider is selected, an answer is a 401 and only the current connection's context may change |
| NegotiateFilter.Admit | Source/JNA/waffle-tests/src/test/java/waffle/servlet/NegotiateSecurityFilterTests.java:157-162 | on logon the wrapped principal goes downstream; it becomes the session's principal and joins its subject; no other session and no context changes |
| NegotiateFilter.Authenticate | Source/JNA/waffle-tests/src/test/java/waffle/servlet/NegotiateSecurityFilterTests.java:128-194 | a blocked request gets a 401 and leaves the sessions alone; a forwarded one gets 200 with a session whose subject holds its principal; other connections and sessions are untouched |
| NegotiateFilter.DoFilter | Source/JNA/waffle-tests/src/test/java/waffle/servlet/NegotiateSecurityFilterTests.java:76-251 | a blocked request answers 401 and a forwarded one 200; only the request's own connection and session may change |
| NegotiateFilter.ChallengeWithoutCredentials | Source/JNA/waffle-tests/src/test/java/waffle/servlet/NegotiateSecurityFilterTests.java:76-89 | with no principal and no header the request is blocked with 401, every challenge in provider order and keep-alive, exactly those header names, and no state change |
| NegotiateFilter.ContinueRound | Source/JNA/waffle-tests/src/test/java/waffle/servlet/NegotiateSecurityFilterTests.java:165-171 | a continuing round is blocked with 401, keep-alive and the single answer token in the client's package, and stores the context for the connection |
| NegotiateFilter.CompleteRound | Source/JNA/waffle-tests/src/test/java/waffle/servlet/NegotiateSecurityFilterTests.java:172-186 | a completed round goes downstream as a NEGOTIATE wrapper for the identity, with status 200 and the final token if any; it drops the connection's context and records the principal in the session |
| NegotiateFilter.WrapperHasGroupRoles | Source/JNA/waffle-tests/src/test/java/waffle/servlet/NegotiateSecurityFilterTests.java:183-185 | under role format BOTH the wrapper reports every group's name and SID as roles of the user |
| NegotiateFilter.GuestRefused | Source/JNA/waffle-tests/src/test/java/waffle/servlet/NegotiateSecurityFilterTests.java:128-194 | a guest identity is refused with 401 and Connection: close when guest logins are disabled |
| NegotiateFilter.RejectedTokenCloses | Source/JNA/waffle-tests/src/test/java/waffle/servlet/NegotiateSecurityFilterTests.java:128-194 | a rejected token is answered with 401, every challenge and Connection: close, and the connection's context is dropped |
| NegotiateFilter.UnreadableHeaderCloses | Source/JNA/waffle-tests/src/test/java/waffle/servlet/NegotiateSecurityFilterTests.java:128-194 | a header with no package, an unsupported package or an undecodable token is refused with 401, every challenge and Connection: close, and no state change |
| NegotiateFilter.PreviousPrincipalPassesThrough | Source/JNA/waffle-tests/src/test/java/waffle/servlet/NegotiateSecurityFilterTests.java:197-209 | a request with a known principal and no type-1 post passes downstream with that principal, and nothing changes |
| NegotiateFilter.NtlmPostRenegotiates | Source/JNA/waffle-tests/src/test/java/waffle/servlet/NegotiateSecurityFilterTests.java:212-251 | an NTLM type-1 POST or PUT with no body restarts the handshake from no context even with a principal: 401, keep-alive and the new token only |
| NegotiateFilter.BasicOneRound | Source/JNA/waffle-tests/src/test/java/waffle/servlet/BasicSecurityFilterTests.java:58-73 | one well-formed Basic request with accepted credentials goes downstream as the wrapped principal, with no challenge; the session's principal is set and its subject holds the principal |
| NegotiateFilter.SessionRemembersLogon | Source/JNA/waffle-tests/src/test/java/waffle/servlet/NegotiateSecurityFilterTests.java:157-162 | after a completed handshake, a later request in the same session passes downstream with the same principal and changes nothing |
| NegotiateFilter.DoFilterKeepsSubjects | Source/JNA/waffle-tests/src/test/java/waffle/servlet/NegotiateSecurityFilterTests.java:176-182 | if every session's Windows principal is in its subject before a request, the same holds after it |
| NegotiateFilter.NoPrincipalNoEntry | Source/JNA/waffle-tests/src/test/java/waffle/servlet/NegotiateSecurityFilterTests.java:76-194 | a request without a known principal goes downstream only with a header, wrapped, and with its principal recorded in the session |
| FilterScenarios.SetUpBuildsDefaults | Source/JNA/waffle-tests/src/test/java/waffle/servlet/NegotiateSecurityFilterTests.java:64-68 | init with no configuration keeps the given auth provider; the defaults are FQN/FQN and guest login on; the providers are Negotiate (Negotiate, NTLM) then Basic |
| FilterScenarios.InitBasicProvider | Source/JNA/waffle-tests/src/test/java/waffle/servlet/NegotiateSecurityFilterTests.java:254-268 | "sid" and "none" become SID and NONE; the mock auth provider is used; the only provider is Basic with realm DemoRealm |
| FilterScenarios.InitTwoKindsOfSeparator | Source/JNA/waffle-tests/src/test/java/waffle/servlet/NegotiateSecurityFilterTests.java:271-278 | a list separated by a newline and a space loads three providers, Basic, Negotiate, Basic |
| FilterScenarios.InitNegotiateProvider | Source/JNA/waffle-tests/src/test/java/waffle/servlet/NegotiateSecurityFilterTests.java:281-291 | the protocols "NTLM\nNegotiate NTLM" give a Negotiate provider with exactly [NTLM, Negotiate, NTLM] |
| FilterScenarios.InitRefusesUnknownProtocol | Source/JNA/waffle-tests/src/test/java/waffle/servlet/NegotiateSecurityFilterTests.java:294-304 | the protocol INVALID fails init with "java.lang.RuntimeException: Unsupported protocol: INVALID" |
| FilterScenarios.InitRefusesUnknownKey | Source/JNA/waffle-tests/src/test/java/waffle/servlet/NegotiateSecurityFilterTests.java:307-316 | the key invalidParameter fails init with "Invalid parameter: invalidParameter" |
| FilterScenarios.InitRefusesUnknownClass | Source/JNA/waffle-tests/src/test/java/waffle/servlet/NegotiateSecurityFilterTests.java:319-328 | the key invalidClass/invalidParameter fails init with "java.lang.ClassNotFoundException: invalidClass" |
| FilterScenarios.ChallengeGet | Source/JNA/waffle-tests/src/test/java/waffle/servlet/NegotiateSecurityFilterTests.java:76-89 | a bare GET is blocked with 401; it gets exactly Negotiate, NTLM and a `Basic realm="` challenge, keep-alive, and two header names |
| FilterScenarios.ChallengePost | Source/JNA/waffle-tests/src/test/java/waffle/servlet/NegotiateSecurityFilterTests.java:92-125 | a POST with a Negotiate token that the server continues is blocked with 401, one `Negotiate ` token, keep-alive and two header names |
| FilterScenarios.NegotiateHandshake | Source/JNA/waffle-tests/src/test/java/waffle/servlet/NegotiateSecurityFilterTests.java:128-194 | two rounds with role format both: first a 401 that keeps the connection alive with a single Negotiate challenge and two header names, then a NEGOTIATE wrapper for the user; the user has the group role Everyone by name and SID; the session holds a non-empty subject; the context is gone |
| FilterScenarios.PreviousWindowsPrincipal | Source/JNA/waffle-tests/src/test/java/waffle/servlet/NegotiateSecurityFilterTests.java:197-209 | a GET carrying a Windows principal goes downstream with that same principal, response and state untouched |
| FilterScenarios.ChallengeNtlmPostOrPut | Source/JNA/waffle-tests/src/test/java/waffle/servlet/NegotiateSecurityFilterTests.java:212-251 | an NTLM type-1 POST or PUT with no body and a principal already set is blocked with 401; it gets exactly one challenge, starting with "NTLM ", keep-alive, and two header names |
| FilterScenarios.BasicAuth | Source/JNA/waffle-tests/src/test/java/waffle/servlet/BasicSecurityFilterTests.java:58-73 | with the mock auth provider, one Basic request with accepted credentials goes downstream and leaves the session with a non-empty subject |

## Left out

- The sources of `NtlmMessage`, `AuthorizationHeader`, `NegotiateSecurityFilter`, its providers and the
  request wrapper are not part of this model. Their behaviour is modelled from the contracts their tests
  pin down. Where the tests are silent, the model makes a plain choice: a refused credential is modelled
  as 401 with every challenge and `Connection: close`.
- `NtlmMessage.GetMessageType`: the tests only use zero bytes at 9..11. The model reads the whole 32-bit
  little-endian field, as [MS-NLMP] section 2.2.1 lays out. `TypeIsLowByteWhenHighBytesZero` shows the two
  readings agree on every vector in the unit tests.
- Windows SSPI, `logonUser` and the token cryptography are foreign calls. They are the abstract
  `WindowsAuth` parameter, and nothing is claimed about the tokens it produces.
- Impersonating the caller for the downstream call is left out because it is an operating-system privilege
  matter. The `impersonate` setting is parsed and kept.
- The Basic provider's `charset` setting is recorded but not used: credentials are always decoded as UTF-8.
- The UTF-8 decoder refuses malformed input. Java replaces it with U+FFFD; a refused header is answered
  like any unreadable one.
- Case-insensitive matching and `toUpperCase` cover ASCII letters only.
- `init` reads its parameters in the order given. The filter reads them from a `HashMap` in
  implementation-defined order.
- Handshake contexts are kept per connection until the handshake completes or is rejected. Expiry of stale
  contexts is left out.
- SPNEGO detection in the type-1 POST check is left out. Only raw NTLM type-1 messages restart a handshake.
- Runtime failures inside a provider's handshake are modelled like a rejected token (401 with
  `Connection: close`). Failures outside it are not modelled; the next line names the one that matters.
- AuthorizationHeaders.IsNtlmType1Message: a header without a package, or whose token is not valid
  base 64, counts as "not a type-1 message". So an empty POST or PUT from a client that already has a
  Windows principal passes downstream on that principal. The filter instead lets the decoder's
  `IllegalArgumentException` escape `doFilter`. The model has no outcome for an exception thrown out of
  the filter, so it does not promise that failure.
- Servlet mechanics are reduced to plain records: mock requests and responses, the filter chain, header
  storage and the session. Per-session locking and concurrent requests are left out.
- Tomcat's `GenericPrincipal` superclass is reduced to the role list `getRoles` builds: its `Realm`
  reference and any sorting of roles are left out.
- The Jetty demo's `getGroupName` is a demo helper built on regex splitting. `WindowsAccount`'s further
  fields (domain, name) are left out; a group is its fqn and SID string.
- Serialization and logging are left out. A null fqn is not modelled: names are always present strings.
- Reflection-based class loading is a fixed registry of the two provider classes and the two auth provider
  classes (`WindowsAuthProviderImpl` and the tests' mock).
- WindowsPrincipals.GetSid: this is a method whose contract is stated with `fresh`, since the copy's
  freshness is the point. Callers cannot alter the stored SID because the principal is an immutable value.
- FilterScenarios.ChallengeNtlmPostOrPut: the tests' base 64 header literal is stated as the header
  formatted from the type-1 message it encodes.
- FilterScenarios.NegotiateHandshake: the client's tokens come from the abstract `WindowsAuth` parameter
  rather than a client-side security context. The lemma takes the two answers the server gives as
  hypotheses.
