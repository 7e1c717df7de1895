/**
  The hand-written DER encoding of an RSA public key (SubjectPublicKeyInfo of RFC 5280, section
  4.1, around RSAPublicKey of RFC 8017, appendix A.1.1), and a strict decoder that accepts
  nothing but minimal DER (ITU-T X.690, sections 8.1.3, 8.3 and 10.1). The decoder is the
  independent reading of the bytes: the code has none.
 */
module Der {
  import opened Common

  type Byte = x: int | 0 <= x < 256
  type Bytes = seq<Byte>

  // ---------------------------------------------------------------- numbers

  /** The unsigned big-endian value of a byte string. */
  function Value(raw: Bytes): nat {
    if raw == [] then 0 else Value(raw[..|raw| - 1]) * 256 + raw[|raw| - 1]
  }

  /** `int.to_bytes` with the least number of bytes; zero needs none. */
  function ToBytes(n: nat): (raw: Bytes)
    ensures Value(raw) == n
    ensures n > 0 ==> raw != [] && raw[0] != 0
  {
    if n == 0 then []
    else
      var init := ToBytes(n / 256);
      assert (init + [n % 256])[..|init|] == init;
      init + [n % 256]
  }

  /** Left-strips zero bytes. */
  function StripZeros(raw: Bytes): (stripped: Bytes)
    ensures stripped != [] ==> stripped[0] != 0
    ensures |stripped| <= |raw|
  {
    if raw != [] && raw[0] == 0 then StripZeros(raw[1..]) else raw
  }

  lemma {:induction false} LeadingZero(raw: Bytes)
    ensures Value([0] + raw) == Value(raw)
  {
    if raw != [] {
      LeadingZero(raw[..|raw| - 1]);
      assert ([0] + raw)[..|raw|] == [0] + raw[..|raw| - 1];
    }
  }

  lemma {:induction false} StripKeepsValue(raw: Bytes)
    ensures Value(StripZeros(raw)) == Value(raw)
  {
    if raw != [] && raw[0] == 0 {
      StripKeepsValue(raw[1..]);
      LeadingZero(raw[1..]);
      assert raw == [0] + raw[1..];
    }
  }

  lemma {:induction false} LeadingByteBounds(raw: Bytes)
    requires raw != [] && raw[0] != 0
    ensures Value(raw) > 0
  {
    if |raw| > 1 {
      LeadingByteBounds(raw[..|raw| - 1]);
    }
  }

  /** Two byte strings without leading zeros and with the same value are the same. */
  lemma {:induction false} MinimalBytesAreUnique(a: Bytes, b: Bytes)
    requires a != [] ==> a[0] != 0
    requires b != [] ==> b[0] != 0
    requires Value(a) == Value(b)
    ensures a == b
  {
    if a != [] { LeadingByteBounds(a); }
    if b != [] { LeadingByteBounds(b); }
    if a != [] && b != [] {
      var a', b' := a[..|a| - 1], b[..|b| - 1];
      MinimalBytesAreUnique(a', b');
      assert a == a' + [a[|a| - 1]] && b == b' + [b[|b| - 1]];
    }
  }

  // ---------------------------------------------------------------- the encoder

  /** `0x80 | k` on a byte count. */
  function Or80(k: nat): nat {
    if k % 256 < 128 then k + 128 else k
  }

  /** A byte string cannot be built from a value above 255: the code then raises. */
  function DerLength(value: nat): Option<Bytes> {
    if value < 128 then Some([value])
    else
      var raw := ToBytes(value);
      if Or80(|raw|) < 256 then Some([Or80(|raw|)] + raw) else None
  }

  /** Tag, length, contents. */
  function Tlv(tag: Byte, contents: Bytes): Option<Bytes> {
    match DerLength(|contents|)
    case None => None
    case Some(length) => Some([tag] + (length + contents))
  }

  /** Contents octets of a non-negative INTEGER. */
  function IntegerContents(raw: Bytes): (contents: Bytes)
    ensures contents != []
  {
    var stripped := if StripZeros(raw) == [] then [0] else StripZeros(raw);
    if stripped[0] >= 128 then [0] + stripped else stripped
  }

  function DerInteger(raw: Bytes): Option<Bytes> {
    Tlv(2, IntegerContents(raw))
  }

  /** AlgorithmIdentifier: rsaEncryption with NULL parameters. */
  const ALGORITHM: Bytes := [0x30, 0x0d, 0x06, 0x09, 0x2a, 0x86, 0x48, 0x86, 0xf7, 0x0d, 0x01, 0x01, 0x01, 0x05, 0x00]

  function Join(a: Option<Bytes>, b: Option<Bytes>): Option<Bytes> {
    if a.Some? && b.Some? then Some(a.value + b.value) else None
  }

  function Wrap(tag: Byte, prefix: Bytes, body: Option<Bytes>): Option<Bytes> {
    if body.Some? then Tlv(tag, prefix + body.value) else None
  }

  /** The SubjectPublicKeyInfo for modulus and exponent given as big-endian bytes. */
  function RsaPublicKey(n: Bytes, e: Bytes): Option<Bytes> {
    var rsa := Wrap(0x30, [], Join(DerInteger(n), DerInteger(e)));
    var bits := Wrap(3, [0], rsa);
    Wrap(0x30, ALGORITHM, bits)
  }

  // ---------------------------------------------------------------- a strict decoder

  /** A minimal length field at the front: its value and the bytes after it. */
  function ReadLength(bytes: Bytes): Option<(nat, Bytes)> {
    if bytes == [] then None
    else if bytes[0] < 128 then Some((bytes[0], bytes[1..]))
    else
      var count := bytes[0] - 128;
      if count == 0 || count == 127 || |bytes| < 1 + count then None
      else
        var raw := bytes[1..1 + count];
        if raw[0] == 0 || Value(raw) < 128 then None else Some((Value(raw), bytes[1 + count..]))
  }

  /** One element with the given tag: its contents and the bytes after it. */
  function ReadTlv(tag: Byte, bytes: Bytes): Option<(Bytes, Bytes)> {
    if bytes == [] || bytes[0] != tag then None
    else
      match ReadLength(bytes[1..])
      case None => None
      case Some((length, rest)) => if |rest| < length then None else Some((rest[..length], rest[length..]))
  }

  /** Contents of a minimal, non-negative INTEGER. */
  function ReadUnsigned(contents: Bytes): Option<nat> {
    if contents == [] || contents[0] >= 128 then None
    else if contents[0] == 0 && |contents| > 1 && contents[1] < 128 then None
    else Some(Value(contents))
  }

  function ReadInteger(bytes: Bytes): Option<(nat, Bytes)> {
    match ReadTlv(2, bytes)
    case None => None
    case Some((contents, rest)) =>
      match ReadUnsigned(contents)
      case None => None
      case Some(value) => Some((value, rest))
  }

  /** The only element in the bytes, with the given tag and required first contents bytes. */
  function Unwrap(tag: Byte, prefix: Bytes, bytes: Bytes): Option<Bytes> {
    match ReadTlv(tag, bytes)
    case None => None
    case Some((contents, rest)) => if rest == [] && prefix <= contents then Some(contents[|prefix|..]) else None
  }

  /** Two integers and nothing else. */
  function ReadIntegers(body: Bytes): Option<(nat, nat)> {
    match ReadInteger(body)
    case None => None
    case Some((n, rest)) =>
      match ReadInteger(rest)
      case None => None
      case Some((e, tail)) => if tail == [] then Some((n, e)) else None
  }

  /** Modulus and exponent of a SubjectPublicKeyInfo, with nothing left over at any level. */
  function ReadRsaPublicKey(bytes: Bytes): Option<(nat, nat)> {
    match Unwrap(0x30, ALGORITHM, bytes)
    case None => None
    case Some(bits) =>
      match Unwrap(3, [0], bits)
      case None => None
      case Some(rsa) =>
        match Unwrap(0x30, [], rsa)
        case None => None
        case Some(body) => ReadIntegers(body)
  }

  /** The arcs of an object identifier after the first two: base 128, the high bit marking all but the last octet. */
  function Arcs(octets: Bytes, arc: nat): Option<seq<nat>> {
    if octets == [] then if arc == 0 then Some([]) else None
    else if octets[0] >= 128 then Arcs(octets[1..], arc * 128 + (octets[0] - 128))
    else
      match Arcs(octets[1..], 0)
      case None => None
      case Some(rest) => Some([arc * 128 + octets[0]] + rest)
  }

  /** An object identifier; its first octet holds two arcs (section 8.19 of X.690). */
  function ObjectIdentifier(octets: Bytes): Option<seq<nat>> {
    if octets == [] || octets[0] >= 80 then None
    else
      match Arcs(octets[1..], 0)
      case None => None
      case Some(rest) => Some([octets[0] / 40, octets[0] % 40] + rest)
  }

  /**
    The constant prefix is one sequence of an identifier and a NULL, and the identifier is
    rsaEncryption, 1.2.840.113549.1.1.1 (appendix A.1 of RFC 8017).
   */
  lemma AlgorithmIsRsaEncryption()
    ensures ReadTlv(0x30, ALGORITHM).Some? && ReadTlv(0x30, ALGORITHM).value.1 == []
    ensures var inner := ReadTlv(0x30, ALGORITHM).value.0;
            && ReadTlv(6, inner).Some?
            && ObjectIdentifier(ReadTlv(6, inner).value.0) == Some([1, 2, 840, 113549, 1, 1, 1])
            && ReadTlv(5, ReadTlv(6, inner).value.1) == Some(([], []))
  {
    var oid: Bytes := [0x2a, 0x86, 0x48, 0x86, 0xf7, 0x0d, 0x01, 0x01, 0x01];
    var none: Bytes := [0x05, 0x00];
    var inner := [0x06, 9] + oid + none;
    assert ALGORITHM == [0x30, 13] + inner + [] && none == [0x05, 0] + [] + [];
    ShortTlv(0x30, inner, []);
    ShortTlv(6, oid, none);
    ShortTlv(5, [], []);
    RsaArcs(oid);
  }

  lemma ShortTlv(tag: Byte, contents: Bytes, rest: Bytes)
    requires |contents| < 128
    ensures ReadTlv(tag, [tag, |contents|] + contents + rest) == Some((contents, rest))
  {
    var bytes := [tag, |contents|] + contents + rest;
    assert bytes[1..] == [|contents|] + (contents + rest);
    assert bytes[1..][1..] == contents + rest;
    assert (contents + rest)[..|contents|] == contents && (contents + rest)[|contents|..] == rest;
  }

  lemma ArcOctet(octet: Byte, rest: Bytes, arc: nat)
    ensures octet >= 128 ==> Arcs([octet] + rest, arc) == Arcs(rest, arc * 128 + (octet - 128))
    ensures octet < 128 && Arcs(rest, 0).Some? ==>
              Arcs([octet] + rest, arc) == Some([arc * 128 + octet] + Arcs(rest, 0).value)
  {
    assert ([octet] + rest)[1..] == rest;
  }

  lemma LargeArc(octets: Bytes)
    requires octets == [0x86, 0xf7, 0x0d, 0x01, 0x01, 0x01]
    ensures Arcs(octets, 0) == Some([113549, 1, 1, 1])
  {
    var ones: Bytes := [0x01, 0x01, 0x01];
    ThreeOnes();
    ArcOctet(0x0d, ones, 6 * 128 + 119);
    assert [113549] + [1, 1, 1] == [113549, 1, 1, 1];
    ArcOctet(0xf7, [0x0d] + ones, 6);
    assert octets == [0x86] + ([0xf7] + ([0x0d] + ones));
    ArcOctet(0x86, [0xf7] + ([0x0d] + ones), 0);
  }

  lemma RsaArcs(oid: Bytes)
    requires oid == [0x2a, 0x86, 0x48, 0x86, 0xf7, 0x0d, 0x01, 0x01, 0x01]
    ensures ObjectIdentifier(oid) == Some([1, 2, 840, 113549, 1, 1, 1])
  {
    var rest: Bytes := [0x86, 0xf7, 0x0d, 0x01, 0x01, 0x01];
    LargeArc(rest);
    var tail := [0x86] + ([0x48] + rest);
    ArcOctet(0x48, rest, 6);
    assert [840] + [113549, 1, 1, 1] == [840, 113549, 1, 1, 1];
    ArcOctet(0x86, [0x48] + rest, 0);
    assert Arcs(tail, 0) == Some([840, 113549, 1, 1, 1]);
    assert oid[1..] == tail;
    assert [1, 2] + [840, 113549, 1, 1, 1] == [1, 2, 840, 113549, 1, 1, 1];
  }

  lemma ThreeOnes()
    ensures Arcs([0x01, 0x01, 0x01], 0) == Some([1, 1, 1])
  {
    var one: Bytes := [0x01];
    var two: Bytes := [0x01, 0x01];
    ArcOctet(0x01, [], 0);
    assert [0x01] + [] == one && Arcs(one, 0) == Some([1]);
    ArcOctet(0x01, one, 0);
    assert [0x01] + one == two && Arcs(two, 0) == Some([1, 1]);
    ArcOctet(0x01, two, 0);
    assert [0x01] + two == [0x01, 0x01, 0x01];
  }

  // ---------------------------------------------------------------- round trips

  /** The length fits in at most 126 octets, the most section 8.1.3.5 of X.690 allows. */
  predicate LengthFits(value: nat) {
    |ToBytes(value)| <= 126
  }

  lemma LengthRoundTrip(value: nat, rest: Bytes)
    requires LengthFits(value)
    ensures DerLength(value).Some?
    ensures ReadLength(DerLength(value).value + rest) == Some((value, rest))
  {
  }

  lemma LongFormIsLarge(value: nat)
    requires |ToBytes(value)| > 1
    ensures value >= 128
  {
  }

  /** Announcing more than 126 octets makes a decoder give up or stop early. */
  lemma OverlongIsMisread(bytes: Bytes, count: nat)
    requires 126 < count < 256 && |bytes| > count && bytes[0] == Or80(count)
    ensures ReadLength(bytes).Some? ==> |ReadLength(bytes).value.1| > |bytes| - 1 - count
  {
  }

  /**
    A length field decodes to its value if and only if it needs at most 126 octets: at 127 its first
    octet is the reserved one, up to 255 it announces too few octets, and beyond that there is none.
   */
  lemma LengthDecodesExactlyWhenItFits(value: nat, rest: Bytes)
    ensures LengthFits(value) <==>
            DerLength(value).Some? && ReadLength(DerLength(value).value + rest) == Some((value, rest))
    ensures |ToBytes(value)| == 127 ==> DerLength(value).Some? && DerLength(value).value[0] == 0xff
  {
    if LengthFits(value) {
      LengthRoundTrip(value, rest);
    } else {
      LongFormIsLarge(value);
      if DerLength(value).Some? {
        OverlongIsMisread(DerLength(value).value + rest, |ToBytes(value)|);
      }
    }
  }

  lemma TlvRoundTrip(tag: Byte, contents: Bytes, rest: Bytes)
    requires LengthFits(|contents|)
    ensures Tlv(tag, contents).Some?
    ensures ReadTlv(tag, Tlv(tag, contents).value + rest) == Some((contents, rest))
  {
    var length, body := DerLength(|contents|), contents + rest;
    LengthRoundTrip(|contents|, body);
    assert Tlv(tag, contents).value + rest == [tag] + (length.value + body);
    assert body[..|contents|] == contents && body[|contents|..] == rest;
  }

  /** The contents octets are the minimal two's-complement form of the unsigned value. */
  lemma ContentsRoundTrip(raw: Bytes)
    ensures ReadUnsigned(IntegerContents(raw)) == Some(Value(raw))
  {
    StripKeepsValue(raw);
    var stripped := StripZeros(raw);
    if stripped != [] && stripped[0] >= 128 {
      LeadingZero(stripped);
    }
  }

  lemma IntegerRoundTrip(raw: Bytes, rest: Bytes)
    requires LengthFits(|IntegerContents(raw)|)
    ensures DerInteger(raw).Some?
    ensures ReadInteger(DerInteger(raw).value + rest) == Some((Value(raw), rest))
  {
    TlvRoundTrip(2, IntegerContents(raw), rest);
    ContentsRoundTrip(raw);
  }

  lemma WrapRoundTrip(tag: Byte, prefix: Bytes, body: Bytes)
    requires LengthFits(|prefix + body|)
    ensures Wrap(tag, prefix, Some(body)).Some?
    ensures Unwrap(tag, prefix, Wrap(tag, prefix, Some(body)).value) == Some(body)
  {
    TlvRoundTrip(tag, prefix + body, []);
    var bytes := Tlv(tag, prefix + body).value;
    assert bytes + [] == bytes;
    assert (prefix + body)[|prefix|..] == body;
  }

  function Pow256(k: nat): (p: nat)
    ensures p > 0
  {
    if k == 0 then 1 else 256 * Pow256(k - 1)
  }

  /** The largest length that needs no more than 126 octets is 256^126 - 1. */
  lemma {:induction false} ByteCount(n: nat, k: nat)
    ensures n < Pow256(k) <==> |ToBytes(n)| <= k
  {
    if n > 0 && k > 0 {
      ByteCount(n / 256, k - 1);
    }
  }

  /** Key material short enough for every length field to be legal; any real key is. */
  predicate KeyFits(n: Bytes, e: Bytes) {
    |n| + |e| + 1000 <= Pow256(126)
  }

  lemma LengthSize(value: nat)
    requires value < Pow256(126)
    ensures LengthFits(value)
    ensures DerLength(value).Some? && |DerLength(value).value| <= 127
  {
    ByteCount(value, 126);
  }

  lemma TlvSize(tag: Byte, contents: Bytes)
    requires |contents| < Pow256(126)
    ensures LengthFits(|contents|)
    ensures Tlv(tag, contents).Some? && |Tlv(tag, contents).value| <= |contents| + 128
  {
    LengthSize(|contents|);
  }

  lemma IntegersRoundTrip(n: Bytes, e: Bytes)
    requires KeyFits(n, e)
    ensures DerInteger(n).Some? && DerInteger(e).Some?
    ensures |DerInteger(n).value + DerInteger(e).value| <= |n| + |e| + 258
    ensures ReadIntegers(DerInteger(n).value + DerInteger(e).value) == Some((Value(n), Value(e)))
  {
    TlvSize(2, IntegerContents(n));
    TlvSize(2, IntegerContents(e));
    IntegerRoundTrip(n, DerInteger(e).value);
    IntegerRoundTrip(e, []);
    assert DerInteger(e).value + [] == DerInteger(e).value;
  }

  lemma WrapFits(tag: Byte, prefix: Bytes, body: Bytes)
    requires |prefix| + |body| < Pow256(126)
    ensures Wrap(tag, prefix, Some(body)).Some?
    ensures |Wrap(tag, prefix, Some(body)).value| <= |prefix| + |body| + 128
    ensures Unwrap(tag, prefix, Wrap(tag, prefix, Some(body)).value) == Some(body)
  {
    TlvSize(tag, prefix + body);
    WrapRoundTrip(tag, prefix, body);
  }

  /** Strict decoding recovers exactly the unsigned modulus and exponent. */
  lemma KeyRoundTrip(n: Bytes, e: Bytes)
    requires KeyFits(n, e)
    ensures RsaPublicKey(n, e).Some?
    ensures ReadRsaPublicKey(RsaPublicKey(n, e).value) == Some((Value(n), Value(e)))
  {
    IntegersRoundTrip(n, e);
    var body := DerInteger(n).value + DerInteger(e).value;
    WrapFits(0x30, [], body);
    var rsa := Wrap(0x30, [], Some(body)).value;
    WrapFits(3, [0], rsa);
    var bits := Wrap(3, [0], Some(rsa)).value;
    WrapFits(0x30, ALGORITHM, bits);
  }

  /** Two keys encode alike exactly when they are the same pair of numbers. */
  lemma EncodingIsInjective(n: Bytes, e: Bytes, n': Bytes, e': Bytes)
    requires KeyFits(n, e) && KeyFits(n', e')
    ensures RsaPublicKey(n, e) == RsaPublicKey(n', e') <==> Value(n) == Value(n') && Value(e) == Value(e')
  {
    KeyRoundTrip(n, e);
    KeyRoundTrip(n', e');
    if Value(n) == Value(n') && Value(e) == Value(e') {
      KeyIsCanonical(RsaPublicKey(n, e).value, n', e');
    }
  }

  // ---------------------------------------------------------------- the encoding is the only one

  lemma {:induction false} ToBytesOfValue(raw: Bytes)
    requires raw != [] ==> raw[0] != 0
    ensures ToBytes(Value(raw)) == raw
  {
    MinimalBytesAreUnique(ToBytes(Value(raw)), raw);
  }

  lemma LengthIsCanonical(bytes: Bytes)
    requires ReadLength(bytes).Some?
    ensures var (value, rest) := ReadLength(bytes).value;
            DerLength(value).Some? && bytes == DerLength(value).value + rest
  {
    if bytes[0] >= 128 {
      var count := bytes[0] - 128;
      var raw := bytes[1..1 + count];
      ToBytesOfValue(raw);
      assert DerLength(Value(raw)).value == [bytes[0]] + raw;
      assert bytes == ([bytes[0]] + raw) + bytes[1 + count..];
    }
  }

  lemma Reassociate(a: Bytes, b: Bytes, tail: Bytes, n: nat)
    requires n <= |tail|
    ensures a + (b + tail) == a + (b + tail[..n]) + tail[n..]
  {
  }

  lemma TlvIsCanonical(tag: Byte, bytes: Bytes)
    requires ReadTlv(tag, bytes).Some?
    ensures var (contents, rest) := ReadTlv(tag, bytes).value;
            Tlv(tag, contents).Some? && bytes == Tlv(tag, contents).value + rest
  {
    LengthIsCanonical(bytes[1..]);
    var (length, tail) := ReadLength(bytes[1..]).value;
    Reassociate([tag], DerLength(length).value, tail, length);
    assert bytes == [tag] + bytes[1..];
  }

  lemma ContentsAreCanonical(contents: Bytes, raw: Bytes)
    requires ReadUnsigned(contents) == Some(Value(raw))
    ensures contents == IntegerContents(raw)
  {
    var stripped := StripZeros(raw);
    StripKeepsValue(raw);
    if contents[0] != 0 {
      MinimalBytesAreUnique(contents, stripped);
    } else {
      assert contents == [0] + contents[1..];
      LeadingZero(contents[1..]);
      MinimalBytesAreUnique(contents[1..], stripped);
    }
  }

  lemma IntegerIsCanonical(bytes: Bytes, raw: Bytes)
    requires ReadInteger(bytes).Some? && ReadInteger(bytes).value.0 == Value(raw)
    ensures DerInteger(raw).Some? && bytes == DerInteger(raw).value + ReadInteger(bytes).value.1
  {
    TlvIsCanonical(2, bytes);
    ContentsAreCanonical(ReadTlv(2, bytes).value.0, raw);
  }

  lemma WrapIsCanonical(tag: Byte, prefix: Bytes, bytes: Bytes)
    requires Unwrap(tag, prefix, bytes).Some?
    ensures Wrap(tag, prefix, Unwrap(tag, prefix, bytes)) == Some(bytes)
  {
    TlvIsCanonical(tag, bytes);
    var contents := ReadTlv(tag, bytes).value.0;
    assert contents == prefix + contents[|prefix|..];
    assert Tlv(tag, contents).value + [] == Tlv(tag, contents).value;
  }

  /** Any bytes the strict decoder reads as a key are exactly what the encoder writes for that key. */
  lemma KeyIsCanonical(bytes: Bytes, n: Bytes, e: Bytes)
    requires ReadRsaPublicKey(bytes) == Some((Value(n), Value(e)))
    ensures RsaPublicKey(n, e) == Some(bytes)
  {
    var bits := Unwrap(0x30, ALGORITHM, bytes).value;
    var rsa := Unwrap(3, [0], bits).value;
    var body := Unwrap(0x30, [], rsa).value;
    WrapIsCanonical(0x30, ALGORITHM, bytes);
    WrapIsCanonical(3, [0], bits);
    WrapIsCanonical(0x30, [], rsa);
    IntegerIsCanonical(body, n);
    IntegerIsCanonical(ReadInteger(body).value.1, e);
    assert DerInteger(e).value + [] == DerInteger(e).value;
  }
}
