/**
 * The kinds of sync info message of the LDAP content synchronization
 * operation: the alternatives of the syncInfoValue CHOICE of section 2.5 of
 * RFC 4533, each identified on the wire by its context-specific tag byte.
 */
module ContentSyncInfo {
  import opened Wrappers
  import opened Enumerations
  import Asn1

  datatype ContentSyncInfoType = NewCookie | RefreshDelete | RefreshPresent | SyncIdSet

  /** values(), in declaration order. */
  const AllTypes: seq<ContentSyncInfoType> := [NewCookie, RefreshDelete, RefreshPresent, SyncIdSet]

  lemma AllTypesComplete()
    ensures forall t: ContentSyncInfoType :: t in AllTypes
  {
    forall t: ContentSyncInfoType
      ensures t in AllTypes
    {
      match t {
        case NewCookie =>
        case RefreshDelete =>
        case RefreshPresent =>
        case SyncIdSet =>
      }
    }
  }

  /** name(): the Java constant's name. */
  function Name(t: ContentSyncInfoType): string
  {
    match t
    case NewCookie => "NEW_COOKIE"
    case RefreshDelete => "REFRESH_DELETE"
    case RefreshPresent => "REFRESH_PRESENT"
    case SyncIdSet => "SYNC_ID_SET"
  }

  /** getType(): the tag byte of the alternative. */
  function TypeByte(t: ContentSyncInfoType): Asn1.byte
  {
    match t
    case NewCookie => 0x80
    case RefreshDelete => 0xA1
    case RefreshPresent => 0xA2
    case SyncIdSet => 0xA3
  }

  /** The tag number of the alternative in the syncInfoValue CHOICE. */
  function ChoiceNumber(t: ContentSyncInfoType): nat
  {
    match t
    case NewCookie => 0
    case RefreshDelete => 1
    case RefreshPresent => 2
    case SyncIdSet => 3
  }

  /** newcookie is a bare OCTET STRING; the other three alternatives are SEQUENCEs. */
  predicate IsConstructed(t: ContentSyncInfoType)
  {
    !t.NewCookie?
  }

  /**
   * The identifier octet of a context-specific tag with a low tag number, as
   * section 8.1.2 of ITU-T X.690 lays it out: class bits 10, then the
   * constructed bit, then the five-bit tag number.
   */
  function ContextSpecificTag(number: nat, constructed: bool): (b: Asn1.byte)
    requires number < 31
    ensures b as int / 64 == 2
    ensures (b as int / 32) % 2 == (if constructed then 1 else 0)
    ensures b as int % 32 == number
  {
    (0x80 + (if constructed then 0x20 else 0) + number) as Asn1.byte
  }

  /** Each type byte is the context-specific tag of its alternative. */
  lemma TypeByteIsChoiceTag(t: ContentSyncInfoType)
    ensures TypeByte(t) == ContextSpecificTag(ChoiceNumber(t), IsConstructed(t))
  {
  }

  /** valueOf(byte): the type with that tag byte, or null. */
  function ValueOf(typeByte: Asn1.byte): (r: Option<ContentSyncInfoType>)
    ensures forall t :: r == Some(t) <==> TypeByte(t) == typeByte
    ensures r.None? <==> typeByte !in {0x80, 0xA1, 0xA2, 0xA3}
  {
    AllTypesComplete();
    FindFirstInjective(AllTypes, TypeByte);
    FindFirst(AllTypes, TypeByte, typeByte)
  }

  /** valueOf(String): the type with that constant name, or an IllegalArgumentException. */
  function ValueOfName(name: string): (r: Result<ContentSyncInfoType, LookupError>)
    ensures forall t :: r == Success(t) <==> Name(t) == name
    ensures r.Failure? <==> r == Failure(IllegalArgument(name))
  {
    AllTypesComplete();
    FindFirstInjective(AllTypes, Name);
    Enumerations.ValueOfName(AllTypes, Name, name)
  }

  /** Every type is found again by its tag byte and by its name. */
  lemma RoundTrips(t: ContentSyncInfoType)
    ensures ValueOf(TypeByte(t)) == Some(t)
    ensures ValueOfName(Name(t)) == Success(t)
  {
  }

  /** An unknown tag byte yields nothing. */
  lemma UndefinedCode()
    ensures ValueOf(0x00) == None
  {
  }

  /** A name that starts with a lower-case letter, such as "invalid", is no constant's name and yields an error. */
  lemma LowerCaseNameUndefined(name: string)
    requires |name| > 0 && 'a' <= name[0] <= 'z'
    ensures ValueOfName(name) == Failure(IllegalArgument(name))
  {
    forall t: ContentSyncInfoType
      ensures Name(t) != name
    {
      assert Name(t)[0] != name[0];
    }
  }
}
