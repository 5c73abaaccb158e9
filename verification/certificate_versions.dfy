/**
 * The version numbers of two certificate-related structures: the version
 * field of a PKCS #10 certification request (section 4.1 of RFC 2986) and of
 * a PKCS #8 / asymmetric key package private key (section 2 of RFC 5958).
 * Each version has the integer that appears in the encoding and a display
 * name.
 */
module Pkcs10Version {
  import opened Wrappers
  import opened Enumerations

  datatype PKCS10CertificateSigningRequestVersion = V1

  /** values(), in declaration order. */
  const AllVersions: seq<PKCS10CertificateSigningRequestVersion> := [V1]

  lemma AllVersionsComplete()
    ensures forall v: PKCS10CertificateSigningRequestVersion :: v in AllVersions
  {
    forall v: PKCS10CertificateSigningRequestVersion
      ensures v in AllVersions
    {
      match v {
        case V1 =>
      }
    }
  }

  /** name(): the Java constant's name. */
  function Name(v: PKCS10CertificateSigningRequestVersion): string
  {
    match v
    case V1 => "V1"
  }

  /** getIntValue(): the version's integer in the encoded request; v1 is 0. */
  function IntValue(v: PKCS10CertificateSigningRequestVersion): int
  {
    match v
    case V1 => 0
  }

  /** getName(): the version's display name. */
  function DisplayName(v: PKCS10CertificateSigningRequestVersion): (name: string)
    ensures name != []
  {
    match v
    case V1 => "v1"
  }

  /** valueOf(int): the version with that integer, or null. */
  function ValueOf(intValue: int): (r: Option<PKCS10CertificateSigningRequestVersion>)
    ensures forall v :: r == Some(v) <==> IntValue(v) == intValue
    ensures r.None? <==> intValue != 0
  {
    AllVersionsComplete();
    FindFirstInjective(AllVersions, IntValue);
    FindFirst(AllVersions, IntValue, intValue)
  }

  /** valueOf(String): the version with that constant name, or an IllegalArgumentException. */
  function ValueOfName(name: string): (r: Result<PKCS10CertificateSigningRequestVersion, LookupError>)
    ensures forall v :: r == Success(v) <==> Name(v) == name
    ensures r.Failure? <==> r == Failure(IllegalArgument(name))
  {
    AllVersionsComplete();
    FindFirstInjective(AllVersions, Name);
    Enumerations.ValueOfName(AllVersions, Name, name)
  }

  /** Every version is found again by its integer and by its name. */
  lemma RoundTrips(v: PKCS10CertificateSigningRequestVersion)
    ensures ValueOf(IntValue(v)) == Some(v)
    ensures ValueOfName(Name(v)) == Success(v)
  {
  }

  /** An undefined integer yields nothing. */
  lemma UndefinedCode()
    ensures ValueOf(1234) == None
  {
  }

  /** A name that starts with a lower-case letter, such as "nonexistent", is no constant's name and yields an error. */
  lemma LowerCaseNameUndefined(name: string)
    requires |name| > 0 && 'a' <= name[0] <= 'z'
    ensures ValueOfName(name) == Failure(IllegalArgument(name))
  {
    forall v: PKCS10CertificateSigningRequestVersion
      ensures Name(v) != name
    {
      assert Name(v)[0] != name[0];
    }
  }
}

module Pkcs8Version {
  import opened Wrappers
  import opened Enumerations

  datatype PKCS8PrivateKeyVersion = V1 | V2

  /** values(), in declaration order. */
  const AllVersions: seq<PKCS8PrivateKeyVersion> := [V1, V2]

  lemma AllVersionsComplete()
    ensures forall v: PKCS8PrivateKeyVersion :: v in AllVersions
  {
    forall v: PKCS8PrivateKeyVersion
      ensures v in AllVersions
    {
      match v {
        case V1 =>
        case V2 =>
      }
    }
  }

  /** name(): the Java constant's name. */
  function Name(v: PKCS8PrivateKeyVersion): string
  {
    match v
    case V1 => "V1"
    case V2 => "V2"
  }

  /** getIntValue(): v1 (0) is the PKCS #8 form; v2 (1) adds the public key. */
  function IntValue(v: PKCS8PrivateKeyVersion): int
  {
    match v
    case V1 => 0
    case V2 => 1
  }

  /** getName(): the version's display name. */
  function DisplayName(v: PKCS8PrivateKeyVersion): (name: string)
    ensures name != []
  {
    match v
    case V1 => "v1"
    case V2 => "v2"
  }

  /** valueOf(int): the version with that integer, or null. */
  function ValueOf(intValue: int): (r: Option<PKCS8PrivateKeyVersion>)
    ensures forall v :: r == Some(v) <==> IntValue(v) == intValue
    ensures r.None? <==> intValue !in {0, 1}
  {
    AllVersionsComplete();
    FindFirstInjective(AllVersions, IntValue);
    FindFirst(AllVersions, IntValue, intValue)
  }

  /** valueOf(String): the version with that constant name, or an IllegalArgumentException. */
  function ValueOfName(name: string): (r: Result<PKCS8PrivateKeyVersion, LookupError>)
    ensures forall v :: r == Success(v) <==> Name(v) == name
    ensures r.Failure? <==> r == Failure(IllegalArgument(name))
  {
    AllVersionsComplete();
    FindFirstInjective(AllVersions, Name);
    Enumerations.ValueOfName(AllVersions, Name, name)
  }

  /** Every version is found again by its integer and by its name. */
  lemma RoundTrips(v: PKCS8PrivateKeyVersion)
    ensures ValueOf(IntValue(v)) == Some(v)
    ensures ValueOfName(Name(v)) == Success(v)
  {
  }

  /** An undefined integer yields nothing. */
  lemma UndefinedCode()
    ensures ValueOf(1234) == None
  {
  }

  /** A name that starts with a lower-case letter, such as "nonexistent", is no constant's name and yields an error. */
  lemma LowerCaseNameUndefined(name: string)
    requires |name| > 0 && 'a' <= name[0] <= 'z'
    ensures ValueOfName(name) == Failure(IllegalArgument(name))
  {
    forall v: PKCS8PrivateKeyVersion
      ensures Name(v) != name
    {
      assert Name(v)[0] != name[0];
    }
  }
}
