/** Classifier for NTLM wire messages (section 2.2.1 of [MS-NLMP]). Every NTLM message starts
    with the 8-byte signature "NTLMSSP\0" followed by a 32-bit little-endian MessageType field:
    1 for NEGOTIATE_MESSAGE (2.2.1.1), 2 for CHALLENGE_MESSAGE (2.2.1.2), 3 for
    AUTHENTICATE_MESSAGE (2.2.1.3). A Java `byte[]` that may be null is an `Option`; a Java byte is read as
    its unsigned value. */
module NtlmMessage {
  import opened Wrappers
  import opened Octets

  /** "NTLMSSP\0" in ASCII. */
  const Signature: Bytes := [0x4e, 0x54, 0x4c, 0x4d, 0x53, 0x53, 0x50, 0x00]

  /** Offset of the MessageType field, right after the signature. */
  const TypeOffset: nat := 8

  const TypeSize: nat := 4

  datatype MessageKind = NegotiateMessage | ChallengeMessage | AuthenticateMessage

  function TypeCode(k: MessageKind): nat {
    match k
    case NegotiateMessage => 1
    case ChallengeMessage => 2
    case AuthenticateMessage => 3
  }

  /** True iff `buf` begins with `prefix`, compared byte by byte from the front. */
  function StartsWithBytes(buf: Bytes, prefix: Bytes): (r: bool)
    ensures r <==> |prefix| <= |buf| && buf[..|prefix|] == prefix
  {
    if |prefix| == 0 then true
    else if |buf| == 0 || buf[0] != prefix[0] then false
    else
      var r := StartsWithBytes(buf[1..], prefix[1..]);
      assert r <==> |prefix| <= |buf| && buf[..|prefix|] == prefix by {
        if |prefix| <= |buf| {
          assert buf[..|prefix|] == [buf[0]] + buf[1..][..|prefix| - 1];
          assert prefix == [prefix[0]] + prefix[1..];
        }
      }
      r
  }

  /** `NtlmMessage.isNtlmMessage`: a non-null buffer of at least eight bytes whose first eight
      bytes are the signature; any bytes after the signature are irrelevant. */
  function IsNtlmMessage(message: Option<Bytes>): (r: bool)
    ensures r <==> message.Some? && |message.value| >= |Signature|
                   && forall i :: 0 <= i < |Signature| ==> message.value[i] == Signature[i]
  {
    match message
    case None => false
    case Some(buf) =>
      var r := StartsWithBytes(buf, Signature);
      assert r ==> forall i :: 0 <= i < |Signature| ==> buf[i] == Signature[i] by {
        if r {
          forall i | 0 <= i < |Signature|
            ensures buf[i] == Signature[i]
          {
            assert buf[..|Signature|][i] == buf[i];
          }
        }
      }
      assert (|buf| >= |Signature| && forall i :: 0 <= i < |Signature| ==> buf[i] == Signature[i]) ==> r by {
        if |buf| >= |Signature| && forall i :: 0 <= i < |Signature| ==> buf[i] == Signature[i] {
          assert buf[..|Signature|] == Signature;
        }
      }
      r
  }

  function Pow256(k: nat): (p: nat)
    ensures p >= 1
  {
    if k == 0 then 1 else 0x100 * Pow256(k - 1)
  }

  /** Little-endian value of a byte string: the first byte is the least significant. */
  function DecodeLE(b: Bytes): (n: nat)
    ensures n < Pow256(|b|)
  {
    if |b| == 0 then 0 else b[0] + 0x100 * DecodeLE(b[1..])
  }

  /** The `width` little-endian bytes of a value that fits in them. */
  function EncodeLE(n: nat, width: nat): (b: Bytes)
    requires n < Pow256(width)
    ensures |b| == width
  {
    if width == 0 then []
    else [n % 0x100] + EncodeLE(n / 0x100, width - 1)
  }

  lemma {:induction false} DecodeEncodeLE(n: nat, width: nat)
    requires n < Pow256(width)
    ensures DecodeLE(EncodeLE(n, width)) == n
  {
    if width > 0 {
      DecodeEncodeLE(n / 0x100, width - 1);
      var b := EncodeLE(n, width);
      assert b[1..] == EncodeLE(n / 0x100, width - 1);
    }
  }

  lemma {:induction false} EncodeDecodeLE(b: Bytes)
    ensures EncodeLE(DecodeLE(b), |b|) == b
  {
    if |b| > 0 {
      var n := DecodeLE(b);
      var rest := DecodeLE(b[1..]);
      assert n % 0x100 == b[0] && n / 0x100 == rest;
      EncodeDecodeLE(b[1..]);
    }
  }

  const TypeLimit: nat := 0x1_0000_0000

  lemma TypeLimitIsPow256()
    ensures Pow256(TypeSize) == TypeLimit
  {
  }

  /** `NtlmMessage.getMessageType`: the 32-bit little-endian field at offset 8. A buffer too
      short to hold the field has no type (Java would raise an index error). */
  function GetMessageType(message: Bytes): (r: Option<nat>)
    ensures r.Some? <==> |message| >= TypeOffset + TypeSize
    ensures r.Some? ==> (r.value < TypeLimit
                         && EncodeLE(r.value, TypeSize) == message[TypeOffset..TypeOffset + TypeSize])
  {
    if |message| < TypeOffset + TypeSize then None
    else
      var field := message[TypeOffset..TypeOffset + TypeSize];
      EncodeDecodeLE(field);
      TypeLimitIsPow256();
      Some(DecodeLE(field))
  }

  /** The kind of a well-signed message whose type field holds 1, 2 or 3. */
  function Classify(message: Option<Bytes>): (r: Option<MessageKind>)
    ensures r.Some? ==> (IsNtlmMessage(message)
                         && GetMessageType(message.value) == Some(TypeCode(r.value)))
    ensures (IsNtlmMessage(message) && GetMessageType(message.value).Some?
             && 1 <= GetMessageType(message.value).value <= 3) ==> r.Some?
  {
    if !IsNtlmMessage(message) then None
    else match GetMessageType(message.value)
      case Some(1) => Some(NegotiateMessage)
      case Some(2) => Some(ChallengeMessage)
      case Some(3) => Some(AuthenticateMessage)
      case _ => None
  }

  /** The fixed header of a message of the given type followed by its payload: the independent
      description of a message the classifier is measured against. */
  function Build(messageType: nat, payload: Bytes): Bytes
    requires messageType < TypeLimit
  {
    TypeLimitIsPow256();
    Signature + EncodeLE(messageType, TypeSize) + payload
  }

  /** A built message is recognised and its type is read back, whatever the payload. */
  lemma ClassifyBuild(messageType: nat, payload: Bytes)
    requires messageType < TypeLimit
    ensures IsNtlmMessage(Some(Build(messageType, payload)))
    ensures GetMessageType(Build(messageType, payload)) == Some(messageType)
  {
    TypeLimitIsPow256();
    var m := Build(messageType, payload);
    assert m[..8] == Signature;
    assert m[TypeOffset..TypeOffset + TypeSize] == EncodeLE(messageType, TypeSize);
    DecodeEncodeLE(messageType, TypeSize);
  }

  /** Every message with at least a full header is a built one: the header determines the
      signature check and the type. */
  lemma BuildOfHeader(message: Bytes)
    requires |message| >= TypeOffset + TypeSize
    requires IsNtlmMessage(Some(message))
    ensures GetMessageType(message).Some?
    ensures message == Build(GetMessageType(message).value, message[TypeOffset + TypeSize..])
  {
    var t := GetMessageType(message).value;
    assert message[..8] == Signature;
    assert message == message[..8] + message[8..12] + message[12..];
  }

  lemma ClassifyBuildKind(k: MessageKind, payload: Bytes)
    ensures Classify(Some(Build(TypeCode(k), payload))) == Some(k)
  {
    ClassifyBuild(TypeCode(k), payload);
  }

  /** The signature is a prefix property: extra trailing bytes never change the verdict once
      eight bytes are present. */
  lemma SignatureIgnoresTail(message: Bytes, tail: Bytes)
    requires |message| >= |Signature|
    ensures IsNtlmMessage(Some(message + tail)) == IsNtlmMessage(Some(message))
  {
    assert forall i :: 0 <= i < |Signature| ==> (message + tail)[i] == message[i];
  }

  /** Below eight bytes nothing is an NTLM message. */
  lemma ShortIsNotNtlm(message: Bytes)
    requires |message| < |Signature|
    ensures !IsNtlmMessage(Some(message))
  {
  }

  /** The type depends on bytes 8..11 only. */
  lemma TypeIgnoresPayload(a: Bytes, b: Bytes)
    requires |a| >= TypeOffset + TypeSize && |b| >= TypeOffset + TypeSize
    requires a[TypeOffset..TypeOffset + TypeSize] == b[TypeOffset..TypeOffset + TypeSize]
    ensures GetMessageType(a) == GetMessageType(b)
  {
  }

  /** When bytes 9..11 are zero the type is byte 8 itself, so reading the whole 32-bit field and
      reading only its low byte agree on every such message. */
  lemma TypeIsLowByteWhenHighBytesZero(message: Bytes)
    requires |message| >= TypeOffset + TypeSize
    requires message[9] == 0 && message[10] == 0 && message[11] == 0
    ensures GetMessageType(message) == Some(message[8])
  {
    var field := message[TypeOffset..TypeOffset + TypeSize];
    assert DecodeLE(field[3..]) == 0;
    assert DecodeLE(field[2..]) == 0;
    assert DecodeLE(field[1..]) == 0;
  }

  /** A message is of type 1 exactly when its type field holds the bytes 1, 0, 0, 0. */
  lemma TypeOneIff(message: Bytes)
    requires |message| >= TypeOffset + TypeSize
    ensures GetMessageType(message) == Some(1) <==> message[8..12] == [1, 0, 0, 0]
  {
    if GetMessageType(message) == Some(1) {
      assert EncodeLE(1, TypeSize) == [1, 0, 0, 0];
    }
    if message[8..12] == [1, 0, 0, 0] {
      assert message[8] == 1 && message[9] == 0 && message[10] == 0 && message[11] == 0;
      TypeIsLowByteWhenHighBytesZero(message);
    }
  }

  // ---------------------------------------------------------------------------
  // The byte vectors of the classifier's unit tests
  // ---------------------------------------------------------------------------

  lemma NullIsNotNtlm()
    ensures !IsNtlmMessage(None)
  {
  }

  lemma TestVectorsIsNtlmMessage()
    ensures IsNtlmMessage(Some([0x4e, 0x54, 0x4c, 0x4d, 0x53, 0x53, 0x50, 0x00]))
    ensures !IsNtlmMessage(Some([0x4e, 0x54, 0x4c, 0x4d, 0x53, 0x53, 0x50]))
    ensures IsNtlmMessage(Some([0x4e, 0x54, 0x4c, 0x4d, 0x53, 0x53, 0x50, 0x00, 0x00]))
    ensures !IsNtlmMessage(Some([0x00, 0x00, 0x00, 0x00, 0x00, 0x00, 0x00, 0x00, 0x00]))
  {
    var bad: Bytes := [0x00, 0x00, 0x00, 0x00, 0x00, 0x00, 0x00, 0x00, 0x00];
    assert bad[0] != Signature[0];
  }

  lemma TestVectorsGetMessageType()
    ensures GetMessageType([0x4e, 0x54, 0x4c, 0x4d, 0x53, 0x53, 0x50, 0x00, 0x01, 0x00, 0x00, 0x00,
                            0x02, 0x02, 0x00, 0x00]) == Some(1)
    ensures GetMessageType([0x4e, 0x54, 0x4c, 0x4d, 0x53, 0x53, 0x50, 0x00, 0x02, 0x00, 0x00, 0x00,
                            0x00, 0x00, 0x00, 0x00, 0x00, 0x00, 0x00, 0x00, 0x02, 0x02, 0x00, 0x00,
                            0x01, 0x23, 0x45, 0x67]) == Some(2)
    ensures GetMessageType([0x4e, 0x54, 0x4c, 0x4d, 0x53, 0x53, 0x50, 0x00, 0x03, 0x00, 0x00, 0x00,
                            0x00, 0x00, 0x00, 0x00, 0x00, 0x00, 0x00, 0x00, 0x02, 0x02, 0x00, 0x00,
                            0x01, 0x23, 0x45, 0x67]) == Some(3)
  {
    TestVectorType1();
    TestVectorLonger(2);
    TestVectorLonger(3);
  }

  lemma TestVectorType1()
    ensures GetMessageType([0x4e, 0x54, 0x4c, 0x4d, 0x53, 0x53, 0x50, 0x00, 0x01, 0x00, 0x00, 0x00,
                            0x02, 0x02, 0x00, 0x00]) == Some(1)
  {
    TypeIsLowByteWhenHighBytesZero([0x4e, 0x54, 0x4c, 0x4d, 0x53, 0x53, 0x50, 0x00, 0x01, 0x00, 0x00, 0x00,
                            0x02, 0x02, 0x00, 0x00]);
  }

  /** The longer vectors differ only in their type byte. */
  lemma TestVectorLonger(t: Byte)
    requires 1 <= t <= 3
    ensures GetMessageType([0x4e, 0x54, 0x4c, 0x4d, 0x53, 0x53, 0x50, 0x00, t, 0x00, 0x00, 0x00,
                            0x00, 0x00, 0x00, 0x00, 0x00, 0x00, 0x00, 0x00, 0x02, 0x02, 0x00, 0x00,
                            0x01, 0x23, 0x45, 0x67]) == Some(t)
  {
    TypeIsLowByteWhenHighBytesZero([0x4e, 0x54, 0x4c, 0x4d, 0x53, 0x53, 0x50, 0x00, t, 0x00, 0x00, 0x00,
                                    0x00, 0x00, 0x00, 0x00, 0x00, 0x00, 0x00, 0x00, 0x02, 0x02, 0x00, 0x00,
                                    0x01, 0x23, 0x45, 0x67]);
  }
}
