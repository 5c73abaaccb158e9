/**
 * The kinds of count a matching entry count response control can carry,
 * from the most to the least specific, each with the BER type of the
 * CHOICE alternative that carries it.
 */
module MatchingEntryCount {
  import opened Wrappers
  import opened Enumerations
  import Asn1

  datatype MatchingEntryCountType = ExaminedCount | UnexaminedCount | UpperBound | Unknown

  /** values(), in declaration order. */
  const AllTypes: seq<MatchingEntryCountType> := [ExaminedCount, UnexaminedCount, UpperBound, Unknown]

  lemma AllTypesComplete()
    ensures forall t: MatchingEntryCountType :: t in AllTypes
  {
    forall t: MatchingEntryCountType
      ensures t in AllTypes
    {
      match t {
        case ExaminedCount =>
        case UnexaminedCount =>
        case UpperBound =>
        case Unknown =>
      }
    }
  }

  /** name(): the Java constant's name. */
  function Name(t: MatchingEntryCountType): string
  {
    match t
    case ExaminedCount => "EXAMINED_COUNT"
    case UnexaminedCount => "UNEXAMINED_COUNT"
    case UpperBound => "UPPER_BOUND"
    case Unknown => "UNKNOWN"
  }

  /** getBERType(): context-specific primitive tags [0] to [3]. */
  function BerType(t: MatchingEntryCountType): Asn1.byte
  {
    match t
    case ExaminedCount => 0x80
    case UnexaminedCount => 0x81
    case UpperBound => 0x82
    case Unknown => 0x83
  }

  /** valueOf(byte): the type with that BER type, or null. */
  function ValueOf(berType: Asn1.byte): (r: Option<MatchingEntryCountType>)
    ensures forall t :: r == Some(t) <==> BerType(t) == berType
    ensures r.None? <==> berType !in {0x80, 0x81, 0x82, 0x83}
  {
    AllTypesComplete();
    FindFirstInjective(AllTypes, BerType);
    FindFirst(AllTypes, BerType, berType)
  }

  /** valueOf(String): the type with that constant name, or an IllegalArgumentException. */
  function ValueOfName(name: string): (r: Result<MatchingEntryCountType, LookupError>)
    ensures forall t :: r == Success(t) <==> Name(t) == name
    ensures r.Failure? <==> r == Failure(IllegalArgument(name))
  {
    AllTypesComplete();
    FindFirstInjective(AllTypes, Name);
    Enumerations.ValueOfName(AllTypes, Name, name)
  }

  /** Every type is found again by its BER type and by its name. */
  lemma RoundTrips(t: MatchingEntryCountType)
    ensures ValueOf(BerType(t)) == Some(t)
    ensures ValueOfName(Name(t)) == Success(t)
  {
  }

  /** An undefined BER type yields nothing. */
  lemma UndefinedCode()
    ensures ValueOf(0x12) == None
  {
  }

  /** A name that starts with a lower-case letter, such as "undefined", is no constant's name and yields an error. */
  lemma LowerCaseNameUndefined(name: string)
    requires |name| > 0 && 'a' <= name[0] <= 'z'
    ensures ValueOfName(name) == Failure(IllegalArgument(name))
  {
    forall t: MatchingEntryCountType
      ensures Name(t) != name
    {
      assert Name(t)[0] != name[0];
    }
  }

  /** isMoreSpecificThan: the switch over this type. */
  predicate IsMoreSpecificThan(t: MatchingEntryCountType, other: MatchingEntryCountType)
  {
    match t
    case ExaminedCount => other != ExaminedCount
    case UnexaminedCount => other != ExaminedCount && other != UnexaminedCount
    case UpperBound => other != ExaminedCount && other != UnexaminedCount && other != UpperBound
    case Unknown => false
  }

  /** isLessSpecificThan: the switch over this type. */
  predicate IsLessSpecificThan(t: MatchingEntryCountType, other: MatchingEntryCountType)
  {
    match t
    case Unknown => other != Unknown
    case UpperBound => other != Unknown && other != UpperBound
    case UnexaminedCount => other == ExaminedCount
    case ExaminedCount => false
  }

  /** How specific a count is: an exact count of examined entries is the most, no information the least. */
  function Specificity(t: MatchingEntryCountType): nat
  {
    match t
    case ExaminedCount => 3
    case UnexaminedCount => 2
    case UpperBound => 1
    case Unknown => 0
  }

  /** Both comparisons agree with the specificity ranking. */
  lemma SpecificityOrder(a: MatchingEntryCountType, b: MatchingEntryCountType)
    ensures IsMoreSpecificThan(a, b) <==> Specificity(a) > Specificity(b)
    ensures IsLessSpecificThan(a, b) <==> Specificity(a) < Specificity(b)
  {
  }

  /** isMoreSpecificThan is a strict total order, and isLessSpecificThan is its converse. */
  lemma StrictTotalOrder()
    ensures forall a :: !IsMoreSpecificThan(a, a) && !IsLessSpecificThan(a, a)
    ensures forall a, b, c :: IsMoreSpecificThan(a, b) && IsMoreSpecificThan(b, c) ==> IsMoreSpecificThan(a, c)
    ensures forall a, b :: a == b || IsMoreSpecificThan(a, b) || IsMoreSpecificThan(b, a)
    ensures forall a, b :: IsLessSpecificThan(a, b) == IsMoreSpecificThan(b, a)
  {
    forall a, b
      ensures IsMoreSpecificThan(a, b) <==> Specificity(a) > Specificity(b)
      ensures IsLessSpecificThan(a, b) <==> Specificity(a) < Specificity(b)
    {
      SpecificityOrder(a, b);
    }
  }
}
