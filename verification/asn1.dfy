/**
 * A minimal stand-in for the ASN.1 BER element classes that the extended
 * request codec relies on: an element tree made of OCTET STRINGs and
 * SEQUENCEs, and its definite-length tag-length-value byte encoding as
 * ITU-T X.690 defines it (identifier octets in section 8.1.2, length octets
 * in section 8.1.3, OCTET STRING in section 8.7, SEQUENCE in section 8.9).
 *
 * The encoder always emits the minimal (DER-style) length form; the decoder
 * is lenient in the BER way and also accepts long-form lengths that carry
 * leading zero octets.
 */
module Asn1 {
  import opened Wrappers

  newtype byte = x: int | 0 <= x < 256

  /** An element of the tree: a primitive OCTET STRING or a constructed SEQUENCE. */
  datatype Element = OctetString(bytes: seq<byte>) | Sequence(elements: seq<Element>)

  /** Universal class, primitive, tag number 4 (X.690 section 8.7). */
  const OctetStringTag: byte := 0x04

  /** Universal class, constructed, tag number 16 (X.690 section 8.9). */
  const SequenceTag: byte := 0x30

  /** The longest content a Java byte array can hold, and so the longest the encoder emits. */
  const MaxLength: nat := 0x7FFF_FFFF

  /** The most length octets the long form may carry here (enough for MaxLength). */
  const MaxLengthOctets: nat := 4

  /** Why a byte string is not the encoding of an element. */
  datatype DecodeError =
    | Truncated                       // the header or the content runs past the end of the buffer
    | IndefiniteLength                // length octet 0x80 (X.690 section 8.1.3.6), not used by LDAP
    | TooManyLengthOctets(count: nat) // a long-form length with more than MaxLengthOctets octets
    | UnsupportedTag(tag: byte)       // neither OCTET STRING nor SEQUENCE
    | TrailingBytes(count: nat)       // bytes left over after the one top-level element

  function Pow256(k: nat): (r: nat)
    ensures r >= 1
  {
    if k == 0 then 1 else 256 * Pow256(k - 1)
  }

  /** The minimal big-endian base-256 digits of n: never empty, no leading zero digit. */
  function BigEndian(n: nat): (r: seq<byte>)
    ensures |r| >= 1
    ensures |r| > 1 ==> r[0] != 0
    decreases n
  {
    if n < 256 then [n as byte] else BigEndian(n / 256) + [(n % 256) as byte]
  }

  /** The number a big-endian base-256 digit string denotes (leading zeros allowed). */
  function FromBigEndian(digits: seq<byte>): nat
  {
    if digits == [] then 0
    else FromBigEndian(digits[..|digits| - 1]) * 256 + digits[|digits| - 1] as nat
  }

  lemma {:induction false} FromBigEndianInverse(n: nat)
    ensures FromBigEndian(BigEndian(n)) == n
    decreases n
  {
    if n >= 256 {
      var digits := BigEndian(n);
      assert digits[..|digits| - 1] == BigEndian(n / 256);
      FromBigEndianInverse(n / 256);
    }
  }

  /** k digits suffice for every number below 256^k. */
  lemma {:induction false} BigEndianWidth(n: nat, k: nat)
    requires 1 <= k && n < Pow256(k)
    ensures |BigEndian(n)| <= k
    decreases k
  {
    if n >= 256 {
      assert n / 256 < Pow256(k - 1);
      BigEndianWidth(n / 256, k - 1);
    }
  }

  /** A string of k digits denotes a number below 256^k. */
  lemma {:induction false} FromBigEndianBound(digits: seq<byte>)
    ensures FromBigEndian(digits) < Pow256(|digits|)
  {
    if digits != [] {
      FromBigEndianBound(digits[..|digits| - 1]);
    }
  }

  /** A larger number never needs fewer digits. */
  lemma {:induction false} BigEndianMonotone(m: nat, n: nat)
    requires m <= n
    ensures |BigEndian(m)| <= |BigEndian(n)|
    decreases n
  {
    if m >= 256 {
      BigEndianMonotone(m / 256, n / 256);
    }
  }

  /** The number of length octets for a content of n octets. */
  function LengthSize(n: nat): nat
  {
    if n < 128 then 1 else 1 + |BigEndian(n)|
  }

  /**
   * The length octets of X.690 section 8.1.3: the short form for lengths below
   * 128; otherwise the long form, 0x80 plus the count of length octets, then
   * the length in minimal big-endian form.
   */
  function LengthOctets(n: nat): (r: seq<byte>)
    requires n <= MaxLength
    ensures |r| == LengthSize(n) <= 1 + MaxLengthOctets
  {
    if n < 128 then [n as byte]
    else
      assert Pow256(MaxLengthOctets) == 0x1_0000_0000;
      BigEndianWidth(n, MaxLengthOctets);
      [(0x80 + |BigEndian(n)|) as byte] + BigEndian(n)
  }

  /** The number of content octets of an element's encoding. */
  function ContentSize(e: Element): nat
    decreases e, 0
  {
    match e
    case OctetString(b) => |b|
    case Sequence(es) => SizeAll(es)
  }

  /** The number of octets of an element's minimal encoding: identifier, length and content. */
  function Size(e: Element): nat
    decreases e, 1
  {
    1 + LengthSize(ContentSize(e)) + ContentSize(e)
  }

  function SizeAll(es: seq<Element>): nat
    decreases es
  {
    if es == [] then 0 else Size(es[0]) + SizeAll(es[1..])
  }

  /** Dropping trailing siblings never makes their encoding longer. */
  lemma {:induction false} SizeAllPrefix(es: seq<Element>, k: nat)
    requires k <= |es|
    ensures SizeAll(es[..k]) <= SizeAll(es)
  {
    if k > 0 {
      assert es[..k][1..] == es[1..][..k - 1];
      SizeAllPrefix(es[1..], k - 1);
    }
  }

  /** Every content in the tree fits in a Java byte array. */
  predicate Encodable(e: Element)
  {
    && ContentSize(e) <= MaxLength
    && match e
       case OctetString(_) => true
       case Sequence(es) => forall x :: x in es ==> Encodable(x)
  }

  /** The minimal definite-length encoding of an element. */
  function Encode(e: Element): (r: seq<byte>)
    requires Encodable(e)
    ensures |r| == Size(e)
    decreases e, 1
  {
    match e
    case OctetString(b) => [OctetStringTag] + LengthOctets(|b|) + b
    case Sequence(es) =>
      var content := EncodeAll(es);
      [SequenceTag] + LengthOctets(|content|) + content
  }

  /** The concatenated encodings of a list of sibling elements. */
  function EncodeAll(es: seq<Element>): (r: seq<byte>)
    requires forall x :: x in es ==> Encodable(x)
    ensures |r| == SizeAll(es)
    decreases es, 0
  {
    if es == [] then [] else Encode(es[0]) + EncodeAll(es[1..])
  }

  /** Reads the length octets at the start of bs: the length and the number of octets read. */
  function ParseLength(bs: seq<byte>): (r: Result<(nat, nat), DecodeError>)
    ensures r.Success? ==> 1 <= r.value.1 <= |bs|
  {
    if |bs| == 0 then Failure(Truncated)
    else if bs[0] < 0x80 then Success((bs[0] as nat, 1))
    else if bs[0] == 0x80 then Failure(IndefiniteLength)
    else
      var count := (bs[0] - 0x80) as nat;
      if count > MaxLengthOctets then Failure(TooManyLengthOctets(count))
      else if |bs| < 1 + count then Failure(Truncated)
      else Success((FromBigEndian(bs[1..1 + count]), 1 + count))
  }

  /** Reads one element at the start of bs: the element and the number of octets it took. */
  function ParseElement(bs: seq<byte>): (r: Result<(Element, nat), DecodeError>)
    ensures r.Success? ==> 2 <= r.value.1 <= |bs|
    decreases |bs|, 1
  {
    if |bs| == 0 then Failure(Truncated)
    else if bs[0] != OctetStringTag && bs[0] != SequenceTag then Failure(UnsupportedTag(bs[0]))
    else
      match ParseLength(bs[1..])
      case Failure(err) => Failure(err)
      case Success((len, h)) =>
        if |bs| - 1 - h < len then Failure(Truncated)
        else
          var end := 1 + h + len;
          var content := bs[1 + h..end];
          if bs[0] == OctetStringTag then Success((OctetString(content), end))
          else
            match ParseElements(content)
            case Failure(err) => Failure(err)
            case Success(es) => Success((Sequence(es), end))
  }

  /** Reads a buffer that must hold exactly a concatenation of sibling elements. */
  function ParseElements(bs: seq<byte>): Result<seq<Element>, DecodeError>
    decreases |bs|, 2
  {
    if bs == [] then Success([])
    else
      match ParseElement(bs)
      case Failure(err) => Failure(err)
      case Success((e, n)) =>
        match ParseElements(bs[n..])
        case Failure(err) => Failure(err)
        case Success(es) => Success([e] + es)
  }

  /** Decodes a buffer that must hold exactly one element. */
  function Decode(bs: seq<byte>): Result<Element, DecodeError>
  {
    match ParseElement(bs)
    case Failure(err) => Failure(err)
    case Success((e, n)) => if n < |bs| then Failure(TrailingBytes(|bs| - n)) else Success(e)
  }

  lemma ParseLengthOctets(n: nat, rest: seq<byte>)
    requires n <= MaxLength
    ensures ParseLength(LengthOctets(n) + rest) == Success((n, LengthSize(n)))
  {
    if n >= 128 {
      var bs := LengthOctets(n) + rest;
      var digits := BigEndian(n);
      assert bs[1..1 + |digits|] == digits;
      FromBigEndianInverse(n);
    }
  }

  /** The identifier and length octets written before a content are read back as that content's length. */
  lemma ParseHeader(tag: byte, content: seq<byte>, rest: seq<byte>)
    requires |content| <= MaxLength
    ensures var bs := [tag] + LengthOctets(|content|) + content + rest;
            var h := LengthSize(|content|);
            && ParseLength(bs[1..]) == Success((|content|, h))
            && |bs| - 1 - h >= |content|
            && bs[1 + h..1 + h + |content|] == content
  {
    var bs := [tag] + LengthOctets(|content|) + content + rest;
    assert bs[1..] == LengthOctets(|content|) + (content + rest);
    ParseLengthOctets(|content|, content + rest);
  }

  /** Parsing an OCTET STRING identifier, its length octets and its content gives back that content. */
  lemma ParseFramedOctetString(content: seq<byte>, rest: seq<byte>)
    requires |content| <= MaxLength
    ensures ParseElement([OctetStringTag] + LengthOctets(|content|) + content + rest)
            == Success((OctetString(content), 1 + LengthSize(|content|) + |content|))
  {
    ParseHeader(OctetStringTag, content, rest);
  }

  /** Parsing a SEQUENCE identifier, its length octets and a content that parses as siblings gives back the SEQUENCE. */
  lemma ParseFramedSequence(content: seq<byte>, es: seq<Element>, rest: seq<byte>)
    requires |content| <= MaxLength
    requires ParseElements(content) == Success(es)
    ensures ParseElement([SequenceTag] + LengthOctets(|content|) + content + rest)
            == Success((Sequence(es), 1 + LengthSize(|content|) + |content|))
  {
    ParseHeader(SequenceTag, content, rest);
  }

  /** Parsing the encoding of an element, whatever follows it, gives back the element. */
  lemma {:induction false} ParseEncoded(e: Element, rest: seq<byte>)
    requires Encodable(e)
    ensures ParseElement(Encode(e) + rest) == Success((e, Size(e)))
    decreases e, 2
  {
    match e
    case OctetString(b) =>
      ParseEncodedOctetString(b, rest);
    case Sequence(es) =>
      ParseEncodedSequence(es, rest);
  }

  /** The OCTET STRING case of ParseEncoded. */
  lemma ParseEncodedOctetString(b: seq<byte>, rest: seq<byte>)
    requires Encodable(OctetString(b))
    ensures ParseElement(Encode(OctetString(b)) + rest) == Success((OctetString(b), Size(OctetString(b))))
  {
    assert Encode(OctetString(b)) == [OctetStringTag] + LengthOctets(|b|) + b;
    ParseFramedOctetString(b, rest);
  }

  /** The SEQUENCE case of ParseEncoded. */
  lemma {:induction false} ParseEncodedSequence(es: seq<Element>, rest: seq<byte>)
    requires Encodable(Sequence(es))
    ensures ParseElement(Encode(Sequence(es)) + rest) == Success((Sequence(es), Size(Sequence(es))))
    decreases es, 1
  {
    assert forall x :: x in es ==> Encodable(x);
    ParseAllEncoded(es);
    ParseEncodedSequenceFrame(es, rest);
  }

  /** A SEQUENCE whose children's encodings parse back is itself parsed back. */
  lemma ParseEncodedSequenceFrame(es: seq<Element>, rest: seq<byte>)
    requires Encodable(Sequence(es))
    requires ParseElements(EncodeAll(es)) == Success(es)
    ensures ParseElement(Encode(Sequence(es)) + rest) == Success((Sequence(es), Size(Sequence(es))))
  {
    var content := EncodeAll(es);
    assert Encode(Sequence(es)) == [SequenceTag] + LengthOctets(|content|) + content;
    ParseFramedSequence(content, es, rest);
  }

  lemma {:induction false} ParseAllEncoded(es: seq<Element>)
    requires forall x :: x in es ==> Encodable(x)
    ensures ParseElements(EncodeAll(es)) == Success(es)
    decreases es, 0
  {
    if es != [] {
      var bs := EncodeAll(es);
      ParseEncoded(es[0], EncodeAll(es[1..]));
      assert bs[Size(es[0])..] == EncodeAll(es[1..]);
      ParseAllEncoded(es[1..]);
      assert [es[0]] + es[1..] == es;
    }
  }

  /** Round trip: decoding the encoding of an element yields that element. */
  lemma DecodeEncoded(e: Element)
    requires Encodable(e)
    ensures Decode(Encode(e)) == Success(e)
  {
    ParseEncoded(e, []);
    assert Encode(e) + [] == Encode(e);
  }

  /** The minimal length octets of a length are never more than the ones it was read from. */
  lemma ParsedLengthSize(bs: seq<byte>)
    requires ParseLength(bs).Success?
    ensures LengthSize(ParseLength(bs).value.0) <= ParseLength(bs).value.1
  {
    var (len, h) := ParseLength(bs).value;
    if len >= 128 {
      var digits := bs[1..h];
      FromBigEndianBound(digits);
      BigEndianWidth(len, h - 1);
    }
  }

  lemma LengthSizeMonotone(m: nat, n: nat)
    requires m <= n
    ensures LengthSize(m) <= LengthSize(n)
  {
    BigEndianMonotone(m, n);
  }

  /**
   * Whatever the lenient decoder accepts re-encodes minimally in no more
   * octets than it was read from, so it fits wherever its input fitted.
   */
  lemma {:induction false} ParsedSize(bs: seq<byte>)
    requires ParseElement(bs).Success?
    ensures Size(ParseElement(bs).value.0) <= ParseElement(bs).value.1
    ensures ParseElement(bs).value.1 <= MaxLength ==> Encodable(ParseElement(bs).value.0)
    decreases |bs|, 1
  {
    var (len, h) := ParseLength(bs[1..]).value;
    ParsedLengthSize(bs[1..]);
    var content := bs[1 + h..1 + h + len];
    if bs[0] == SequenceTag {
      ParsedAllSize(content);
      var es := ParseElements(content).value;
      LengthSizeMonotone(SizeAll(es), len);
    }
  }

  lemma {:induction false} ParsedAllSize(bs: seq<byte>)
    requires ParseElements(bs).Success?
    ensures SizeAll(ParseElements(bs).value) <= |bs|
    ensures |bs| <= MaxLength ==> forall x :: x in ParseElements(bs).value ==> Encodable(x)
    decreases |bs|, 2
  {
    if bs != [] {
      var (e, n) := ParseElement(bs).value;
      ParsedSize(bs);
      ParsedAllSize(bs[n..]);
      var es := ParseElements(bs).value;
      assert es == [e] + ParseElements(bs[n..]).value;
      assert es[1..] == ParseElements(bs[n..]).value;
    }
  }

  /** A decoded element always has a minimal re-encoding no longer than its input. */
  lemma DecodedSize(bs: seq<byte>)
    requires Decode(bs).Success?
    ensures Size(Decode(bs).value) <= |bs|
    ensures |bs| <= MaxLength ==> Encodable(Decode(bs).value)
  {
    ParsedSize(bs);
  }
}
