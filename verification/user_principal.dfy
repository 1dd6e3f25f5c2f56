/** `waffle.jaas.UserPrincipal`: a principal that is nothing but a fully qualified user name.
    Equality is by name, and the hash code is the Java hash of the name, so equal principals
    always hash alike. */
module UserPrincipals {

  datatype UserPrincipal = UserPrincipal(fqn: string)

  /** The argument of `equals(Object)`: null, a user principal, or an instance of some other
      class. */
  datatype JavaObject = Null | User(principal: UserPrincipal) | Other(className: string)

  /** The constructor keeps the name as given. */
  function NewUserPrincipal(fqn: string): (p: UserPrincipal)
    ensures GetName(p) == fqn
  {
    UserPrincipal(fqn)
  }

  /** `getName`: the name the principal was built from. */
  function GetName(p: UserPrincipal): (name: string)
    ensures UserPrincipal(name) == p
  {
    p.fqn
  }

  /** `equals`: the identity shortcut first, then name comparison against another user
      principal; anything else, null included, is unequal. */
  function Equals(p: UserPrincipal, o: JavaObject): (r: bool)
    ensures r <==> o.User? && GetName(o.principal) == GetName(p)
  {
    if o == User(p) then true
    else match o
      case User(q) => GetName(p) == GetName(q)
      case _ => false
  }

  // ---------------------------------------------------------------------------
  // String.hashCode over 32-bit two's-complement int
  // ---------------------------------------------------------------------------

  const IntRange: int := 0x1_0000_0000

  /** Reduction of an integer to Java's signed 32-bit range. */
  function WrapInt(x: int): (r: int)
    ensures -0x8000_0000 <= r < 0x8000_0000
    ensures (r - x) % IntRange == 0
  {
    (x + 0x8000_0000) % IntRange - 0x8000_0000
  }

  /** The UTF-16 code units of one scalar value, as Java stores it in a `String`. */
  function Utf16Units(c: char): (u: seq<nat>)
    ensures 1 <= |u| <= 2
    ensures forall i :: 0 <= i < |u| ==> u[i] < 0x1_0000
  {
    var n := c as int;
    if n < 0x1_0000 then [n]
    else [0xD800 + (n - 0x1_0000) / 0x400, 0xDC00 + (n - 0x1_0000) % 0x400]
  }

  function Utf16(s: string): seq<nat> {
    if |s| == 0 then [] else Utf16Units(s[0]) + Utf16(s[1..])
  }

  /** `h = 31 * h + unit` over the code units, wrapping at every step like Java's `int`. */
  function HashFrom(h: int, units: seq<nat>): (r: int)
    requires -0x8000_0000 <= h < 0x8000_0000
    ensures -0x8000_0000 <= r < 0x8000_0000
    decreases |units|
  {
    if |units| == 0 then h else HashFrom(WrapInt(31 * h + units[0]), units[1..])
  }

  function StringHashCode(s: string): int {
    HashFrom(0, Utf16(s))
  }

  /** `hashCode`: the hash of the name, that is the polynomial `sum units[i] * 31^(n-1-i)` over
      the name's UTF-16 code units, reduced into the signed 32-bit range. */
  function HashCode(p: UserPrincipal): (h: int)
    ensures -0x8000_0000 <= h < 0x8000_0000
    ensures (h - Polynomial(0, Utf16(GetName(p)))) % IntRange == 0
  {
    HashFromIsPolynomial(0, Utf16(GetName(p)));
    StringHashCode(GetName(p))
  }

  // ---------------------------------------------------------------------------
  // The equals/hashCode contract
  // ---------------------------------------------------------------------------

  lemma GetNameOfNew(fqn: string)
    ensures GetName(NewUserPrincipal(fqn)) == fqn
  {
  }

  lemma EqualsReflexive(p: UserPrincipal)
    ensures Equals(p, User(p))
  {
  }

  lemma EqualsSymmetric(p: UserPrincipal, q: UserPrincipal)
    ensures Equals(p, User(q)) <==> Equals(q, User(p))
  {
  }

  lemma EqualsTransitive(p: UserPrincipal, q: UserPrincipal, r: UserPrincipal)
    requires Equals(p, User(q)) && Equals(q, User(r))
    ensures Equals(p, User(r))
  {
  }

  /** Two principals are equal exactly when they carry the same name. */
  lemma EqualsIffSameName(p: UserPrincipal, q: UserPrincipal)
    ensures Equals(p, User(q)) <==> p == q
  {
  }

  lemma NeverEqualsOtherKinds(p: UserPrincipal, className: string)
    ensures !Equals(p, Null)
    ensures !Equals(p, Other(className))
  {
  }

  /** Equal principals have equal hash codes. */
  lemma HashConsistentWithEquals(p: UserPrincipal, q: UserPrincipal)
    requires Equals(p, User(q))
    ensures HashCode(p) == HashCode(q)
  {
  }

  /** The step-wise wrapped hash agrees with the polynomial `sum units[i] * 31^(n-1-i)`
      reduced once modulo 2^32, the definition of `String.hashCode`. */
  lemma {:induction false} HashFromIsPolynomial(h: int, units: seq<nat>)
    requires -0x8000_0000 <= h < 0x8000_0000
    ensures (HashFrom(h, units) - Polynomial(h, units)) % IntRange == 0
    decreases |units|
  {
    if |units| > 0 {
      var h' := WrapInt(31 * h + units[0]);
      HashFromIsPolynomial(h', units[1..]);
      PolynomialShift(31 * h + units[0], h', units[1..]);
      CongruentBySharedValue(HashFrom(h', units[1..]), Polynomial(h', units[1..]), Polynomial(31 * h + units[0], units[1..]));
    }
  }

  /** Two values congruent to a third modulo 2^32 are congruent to each other. */
  lemma CongruentBySharedValue(a: int, b: int, c: int)
    requires (a - b) % IntRange == 0 && (c - b) % IntRange == 0
    ensures (a - c) % IntRange == 0
  {
    var i := (a - b) / IntRange;
    var j := (c - b) / IntRange;
    assert a - c == (i - j) * IntRange;
  }

  function Polynomial(h: int, units: seq<nat>): int
    decreases |units|
  {
    if |units| == 0 then h else Polynomial(31 * h + units[0], units[1..])
  }

  lemma {:induction false} PolynomialShift(a: int, b: int, units: seq<nat>)
    requires (a - b) % IntRange == 0
    ensures (Polynomial(a, units) - Polynomial(b, units)) % IntRange == 0
    decreases |units|
  {
    if |units| > 0 {
      CongruentStep(a, b, units[0]);
      PolynomialShift(31 * a + units[0], 31 * b + units[0], units[1..]);
    }
  }

  /** One step of the polynomial keeps two congruent values congruent. */
  lemma CongruentStep(a: int, b: int, u: int)
    requires (a - b) % IntRange == 0
    ensures ((31 * a + u) - (31 * b + u)) % IntRange == 0
  {
    var k := (a - b) / IntRange;
    assert a - b == k * IntRange;
    assert (31 * a + u) - (31 * b + u) == (31 * k) * IntRange;
  }
}
