/** `waffle.util.AuthorizationHeader` and the Basic credentials format: an `Authorization` value
    is a security package name, one space, and a base 64 token. For Basic the token is the UTF-8
    text `user:password` (section 2 of RFC 7617). */
module AuthorizationHeaders {
  import opened Wrappers
  import opened Octets
  import JavaStrings
  import Base64
  import Utf8
  import NtlmMessage
  import opened Http

  /** `isNull`: no header, or an empty one. */
  predicate IsNull(header: Option<string>) {
    header.None? || header.value == ""
  }

  /** `getSecurityPackage`: the text before the first space. A header without a space, or one
      that starts with a space, has no package. */
  function SecurityPackage(header: string): (r: Option<string>)
    ensures r.Some? <==> ' ' in header && header[0] != ' '
    ensures r.Some? ==> |r.value| > 0 && ' ' !in r.value && r.value + " " <= header
  {
    match JavaStrings.IndexOf(header, ' ')
    case Some(i) =>
      if i > 0 then
        assert header[..i] + " " == header[..i + 1];
        Some(header[..i])
      else None
    case None => None
  }

  /** `getToken`: everything after the package and its space. */
  function Token(header: string): (r: Option<string>)
    ensures r.Some? <==> SecurityPackage(header).Some?
    ensures r.Some? ==> SecurityPackage(header).value + " " + r.value == header
  {
    var package :- SecurityPackage(header);
    assert header == header[..|package| + 1] + header[|package| + 1..];
    Some(header[|package| + 1..])
  }

  /** `getTokenBytes`: the base 64 decoding of the token; None where the decoder refuses it. */
  function TokenBytes(header: string): Option<Bytes> {
    var token :- Token(header);
    Base64.Decode(token)
  }

  /** The header a client sends: the package, a space, and the token in base 64. */
  function Format(package: string, token: Bytes): string {
    package + " " + Base64.Encode(token)
  }

  /** Reading back a formatted header gives the package and the token octets. */
  lemma ParseFormat(package: string, token: Bytes)
    requires |package| > 0 && ' ' !in package
    ensures SecurityPackage(Format(package, token)) == Some(package)
    ensures TokenBytes(Format(package, token)) == Some(token)
  {
    var h := Format(package, token);
    var e := Base64.Encode(token);
    assert h[|package|] == ' ';
    assert forall i :: 0 <= i < |package| ==> h[i] == package[i];
    assert h[..|package|] == package;
    Base64.DecodeEncode(token);
    assert h[|package| + 1..] == e;
  }

  // ---------------------------------------------------------------------------
  // NTLM type-1 messages posted with an empty body
  // ---------------------------------------------------------------------------

  /** `isNtlmType1Message`: the token decodes to an NTLM message of type 1. */
  predicate IsNtlmType1Message(header: Option<string>) {
    !IsNull(header) &&
    match TokenBytes(header.value)
    case Some(bytes) =>
      NtlmMessage.IsNtlmMessage(Some(bytes)) && NtlmMessage.GetMessageType(bytes) == Some(1)
    case None => false
  }

  /** `isNtlmType1PostAuthorizationHeader`: a POST or PUT with content length 0 that starts a new
      NTLM handshake. Browsers do this before re-sending a body to a server they have already
      authenticated to. */
  predicate IsNtlmType1Post(request: Request) {
    (request.verb == "POST" || request.verb == "PUT") &&
    request.contentLength == 0 &&
    IsNtlmType1Message(request.authorization)
  }

  lemma Type1PostNeedsEmptyPostOrPut(request: Request)
    requires IsNtlmType1Post(request)
    ensures request.verb in {"POST", "PUT"} && request.contentLength == 0
    ensures !IsNull(request.authorization)
    ensures TokenBytes(request.authorization.value).Some?
  {
  }

  /** A request is an NTLM type-1 post exactly when it is a POST or PUT with content length 0
      whose header carries a token that decodes to an NTLM message at least 12 bytes long with
      the type field 1, 0, 0, 0 at bytes 8..11. */
  lemma NtlmType1PostExactly(request: Request)
    ensures IsNtlmType1Post(request) <==>
      && (request.verb == "POST" || request.verb == "PUT")
      && request.contentLength == 0
      && !IsNull(request.authorization)
      && TokenBytes(request.authorization.value).Some?
      && var bytes := TokenBytes(request.authorization.value).value;
         NtlmMessage.IsNtlmMessage(Some(bytes)) && |bytes| >= 12 && bytes[8..12] == [1, 0, 0, 0]
  {
    if !IsNull(request.authorization) && TokenBytes(request.authorization.value).Some? {
      var bytes := TokenBytes(request.authorization.value).value;
      if |bytes| >= 12 {
        NtlmMessage.TypeOneIff(bytes);
      }
    }
  }

  /** A header formatted from any NTLM type-1 message is recognised. */
  lemma FormattedType1IsRecognised(package: string, message: Bytes)
    requires |package| > 0 && ' ' !in package
    requires NtlmMessage.IsNtlmMessage(Some(message)) && NtlmMessage.GetMessageType(message) == Some(1)
    ensures IsNtlmType1Message(Some(Format(package, message)))
  {
    ParseFormat(package, message);
  }

  // ---------------------------------------------------------------------------
  // Basic credentials
  // ---------------------------------------------------------------------------

  /** The user name and password a Basic header carries: the token's text cut at its first
      colon (`split(":", 2)`), so the password may itself hold colons. */
  function BasicCredentials(header: string): Option<(string, string)> {
    var bytes :- TokenBytes(header);
    var text :- Utf8.Decode(bytes);
    JavaStrings.SplitOnce(text, ':')
  }

  /** The header a Basic client sends: `Basic ` and the base 64 of the UTF-8 `user:password`. */
  function BasicHeader(user: string, password: string): string {
    Format("Basic", Utf8.Encode(user + ":" + password))
  }

  /** A Basic header carries exactly the user name and password it was made from. */
  lemma BasicHeaderRoundTrip(user: string, password: string)
    requires ':' !in user
    ensures SecurityPackage(BasicHeader(user, password)) == Some("Basic")
    ensures BasicCredentials(BasicHeader(user, password)) == Some((user, password))
  {
    var text := user + ":" + password;
    ParseFormat("Basic", Utf8.Encode(text));
    Utf8.DecodeEncode(text);
    JavaStrings.SplitOnceOfJoined(user, ':', password);
  }
}
