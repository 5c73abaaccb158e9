/**
 * The revocation reasons a CRL distribution point can cover: the ReasonFlags
 * BIT STRING of section 4.2.1.13 of RFC 5280, where bit i set means that the
 * reason at position i is covered. getReasonSet reads a bit string into a
 * set of reasons and toBitString writes a set back as a bit string.
 */
module RevocationReason {
  import opened Wrappers
  import opened Enumerations
  import Asn1

  datatype CRLDistributionPointRevocationReason =
    | Unspecified
    | KeyCompromise
    | CaCompromise
    | AffiliationChanged
    | Superseded
    | CessationOfOperation
    | CertificateHold
    | PrivilegeWithdrawn
    | AaCompromise

  /** values(), in declaration order, which is also bit position order. */
  const AllReasons: seq<CRLDistributionPointRevocationReason> :=
    [Unspecified, KeyCompromise, CaCompromise, AffiliationChanged, Superseded,
     CessationOfOperation, CertificateHold, PrivilegeWithdrawn, AaCompromise]

  /** The set of all reasons: EnumSet.allOf. */
  const AllReasonSet: set<CRLDistributionPointRevocationReason> := set r | r in AllReasons

  lemma AllReasonsComplete()
    ensures forall r: CRLDistributionPointRevocationReason :: r in AllReasons
  {
    forall r: CRLDistributionPointRevocationReason
      ensures r in AllReasons
    {
      match r {
        case Unspecified =>
        case KeyCompromise =>
        case CaCompromise =>
        case AffiliationChanged =>
        case Superseded =>
        case CessationOfOperation =>
        case CertificateHold =>
        case PrivilegeWithdrawn =>
        case AaCompromise =>
      }
    }
  }

  /** getBitPosition(): the reason's bit in ReasonFlags. */
  function BitPosition(r: CRLDistributionPointRevocationReason): nat
  {
    match r
    case Unspecified => 0
    case KeyCompromise => 1
    case CaCompromise => 2
    case AffiliationChanged => 3
    case Superseded => 4
    case CessationOfOperation => 5
    case CertificateHold => 6
    case PrivilegeWithdrawn => 7
    case AaCompromise => 8
  }

  /** The reason at each position of values() sits at that bit; so positions are distinct and below the number of reasons. */
  lemma BitPositionsAreIndices()
    ensures forall i :: 0 <= i < |AllReasons| ==> BitPosition(AllReasons[i]) == i
    ensures forall r :: BitPosition(r) < |AllReasons| && AllReasons[BitPosition(r)] == r
  {
    AllReasonsComplete();
  }

  /** getName(): the reason's name in the ASN.1 module of RFC 5280. */
  function DisplayName(r: CRLDistributionPointRevocationReason): (name: string)
    ensures name != []
  {
    match r
    case Unspecified => "unspecified"
    case KeyCompromise => "keyCompromise"
    case CaCompromise => "cACompromise"
    case AffiliationChanged => "affiliationChanged"
    case Superseded => "superseded"
    case CessationOfOperation => "cessationOfOperation"
    case CertificateHold => "certificateHold"
    case PrivilegeWithdrawn => "privilegeWithdrawn"
    case AaCompromise => "aACompromise"
  }

  /** name(): the Java constant's name. */
  function Name(r: CRLDistributionPointRevocationReason): string
  {
    match r
    case Unspecified => "UNSPECIFIED"
    case KeyCompromise => "KEY_COMPROMISE"
    case CaCompromise => "CA_COMPROMISE"
    case AffiliationChanged => "AFFILIATION_CHANGED"
    case Superseded => "SUPERSEDED"
    case CessationOfOperation => "CESSATION_OF_OPERATION"
    case CertificateHold => "CERTIFICATE_HOLD"
    case PrivilegeWithdrawn => "PRIVILEGE_WITHDRAWN"
    case AaCompromise => "AA_COMPROMISE"
  }

  /** No two reasons share a name: the length and first letter of a name already tell the reasons apart. */
  lemma NamesDistinct()
    ensures InjectiveOn(AllReasons, Name)
  {
    forall a, b | Name(a) == Name(b)
      ensures a == b
    {
      assert |Name(a)| == |Name(b)| && Name(a)[0] == Name(b)[0];
    }
  }

  /** valueOf(String): the reason with that constant name, or an IllegalArgumentException. */
  function ValueOfName(name: string): (r: Result<CRLDistributionPointRevocationReason, LookupError>)
    ensures forall reason :: r == Success(reason) <==> Name(reason) == name
    ensures r.Failure? <==> r == Failure(IllegalArgument(name))
  {
    AllReasonsComplete();
    NamesDistinct();
    FindFirstInjective(AllReasons, Name);
    Enumerations.ValueOfName(AllReasons, Name, name)
  }

  /** Every reason is found again by its name. */
  lemma NameRoundTrip(reason: CRLDistributionPointRevocationReason)
    ensures ValueOfName(Name(reason)) == Success(reason)
  {
  }

  /** Every constant name starts with a capital letter. */
  lemma NameStartsUpperCase(reason: CRLDistributionPointRevocationReason)
    ensures |Name(reason)| > 0 && 'A' <= Name(reason)[0] <= 'Z'
  {
  }

  /** A name that starts with a lower-case letter, such as "nonexistent", is no constant's name and yields an error. */
  lemma LowerCaseNameUndefined(name: string)
    requires |name| > 0 && 'a' <= name[0] <= 'z'
    ensures ValueOfName(name) == Failure(IllegalArgument(name))
  {
    forall reason: CRLDistributionPointRevocationReason
      ensures Name(reason) != name
    {
      NameStartsUpperCase(reason);
    }
  }

  /** A BER bit string: its BER type and its bits, the first being bit 0. */
  datatype BitString = BitString(berType: Asn1.byte, bits: seq<bool>)

  /** Whether a bit string sets the given bit; a bit past its end is not set. */
  predicate IsSet(bits: seq<bool>, position: nat)
  {
    position < |bits| && bits[position]
  }

  /** The loop of getReasonSet over some of the reasons: those whose bit is set. */
  function ReasonsSet(reasons: seq<CRLDistributionPointRevocationReason>, bits: seq<bool>)
    : (s: set<CRLDistributionPointRevocationReason>)
    ensures forall r :: r in s <==> r in reasons && IsSet(bits, BitPosition(r))
  {
    if reasons == [] then {}
    else
      var rest := ReasonsSet(reasons[1..], bits);
      if IsSet(bits, BitPosition(reasons[0])) then {reasons[0]} + rest else rest
  }

  /** getReasonSet: the reasons whose bit the bit string sets; bits past the last reason are ignored. */
  function GetReasonSet(bitString: BitString): (s: set<CRLDistributionPointRevocationReason>)
    ensures forall r :: r in s <==> IsSet(bitString.bits, BitPosition(r))
  {
    AllReasonsComplete();
    ReasonsSet(AllReasons, bitString.bits)
  }

  /**
   * The number of bits needed to write the reasons among the first n of
   * values(): one past the position of the last of them in the set, or 0.
   */
  function EncodedLength(reasons: set<CRLDistributionPointRevocationReason>, n: nat): (len: nat)
    requires n <= |AllReasons|
    ensures len <= n
    ensures len > 0 ==> AllReasons[len - 1] in reasons
    ensures forall i :: len <= i < n ==> AllReasons[i] !in reasons
  {
    if n == 0 then 0
    else if AllReasons[n - 1] in reasons then n
    else EncodedLength(reasons, n - 1)
  }

  /** A bit string with no unset bit at its end, as DER writes a named bit list. */
  predicate NoTrailingUnsetBit(bits: seq<bool>)
  {
    bits == [] || bits[|bits| - 1]
  }

  /**
   * toBitString: the bit of every reason in the set is set and every other
   * bit is unset, up to the highest set bit and no further.
   */
  function ToBitString(berType: Asn1.byte, reasons: set<CRLDistributionPointRevocationReason>): (b: BitString)
    ensures b.berType == berType
    ensures |b.bits| <= |AllReasons| && NoTrailingUnsetBit(b.bits)
    ensures forall r :: IsSet(b.bits, BitPosition(r)) <==> r in reasons
  {
    BitPositionsAreIndices();
    var len := EncodedLength(reasons, |AllReasons|);
    BitString(berType, seq(len, i requires 0 <= i < len => AllReasons[i] in reasons))
  }

  /** Writing a set of reasons and reading it back gives the same set. */
  lemma ReasonSetRoundTrip(berType: Asn1.byte, reasons: set<CRLDistributionPointRevocationReason>)
    ensures GetReasonSet(ToBitString(berType, reasons)) == reasons
  {
  }

  /**
   * Reading a bit string that has no more bits than reasons and no unset bit
   * at its end, and writing the set back, gives the same bits.
   */
  lemma BitStringRoundTrip(bitString: BitString)
    requires |bitString.bits| <= |AllReasons| && NoTrailingUnsetBit(bitString.bits)
    ensures ToBitString(bitString.berType, GetReasonSet(bitString)) == bitString
  {
    BitPositionsAreIndices();
    var bits := bitString.bits;
    var b := ToBitString(bitString.berType, GetReasonSet(bitString)).bits;
    forall i | 0 <= i < |b|
      ensures i < |bits| && b[i] == bits[i]
    {
      assert BitPosition(AllReasons[i]) == i;
    }
    if bits != [] {
      assert IsSet(b, BitPosition(AllReasons[|bits| - 1]));
    }
    assert |b| == |bits|;
  }

  /** The shortest bit string that sets only the reason's bit reads as just that reason. */
  lemma SingleBit(reason: CRLDistributionPointRevocationReason)
    ensures var p := BitPosition(reason);
            GetReasonSet(BitString(0x03, seq(p + 1, i requires 0 <= i <= p => i == p))) == {reason}
  {
    var p := BitPosition(reason);
    var s := GetReasonSet(BitString(0x03, seq(p + 1, i requires 0 <= i <= p => i == p)));
    forall r | r in s
      ensures r == reason
    {
      AllReasonsComplete();
      assert BitPosition(r) == p;
    }
  }

  /** A bit string with no bit set, of any length including zero, reads as the empty set. */
  lemma NoBitsSet(bitString: BitString)
    requires forall i :: 0 <= i < |bitString.bits| ==> !bitString.bits[i]
    ensures GetReasonSet(bitString) == {}
  {
  }

  /** A bit string with every bit set reads as all reasons once it has a bit for each. */
  lemma AllBitsSet(bitString: BitString)
    requires |bitString.bits| >= |AllReasons|
    requires forall i :: 0 <= i < |bitString.bits| ==> bitString.bits[i]
    ensures GetReasonSet(bitString) == AllReasonSet
  {
    BitPositionsAreIndices();
  }
}
