/**
 * The kinds of authentication a bind request recorded in an access log can
 * use. Only lookup by constant name is offered.
 */
module BindAuthenticationType {
  import opened Wrappers
  import opened Enumerations

  datatype BindRequestAuthenticationType = Internal | Sasl | Simple

  /** values(), in declaration order. */
  const AllTypes: seq<BindRequestAuthenticationType> := [Internal, Sasl, Simple]

  lemma AllTypesComplete()
    ensures forall t: BindRequestAuthenticationType :: t in AllTypes
  {
    forall t: BindRequestAuthenticationType
      ensures t in AllTypes
    {
      match t {
        case Internal =>
        case Sasl =>
        case Simple =>
      }
    }
  }

  /** name(): the Java constant's name. */
  function Name(t: BindRequestAuthenticationType): string
  {
    match t
    case Internal => "INTERNAL"
    case Sasl => "SASL"
    case Simple => "SIMPLE"
  }

  /** valueOf(String): the type with that constant name, or an IllegalArgumentException. */
  function ValueOfName(name: string): (r: Result<BindRequestAuthenticationType, LookupError>)
    ensures forall t :: r == Success(t) <==> Name(t) == name
    ensures r.Failure? <==> r == Failure(IllegalArgument(name))
  {
    AllTypesComplete();
    FindFirstInjective(AllTypes, Name);
    Enumerations.ValueOfName(AllTypes, Name, name)
  }

  /** Every type is found again by its name, so no two types share a name. */
  lemma NameRoundTrip()
    ensures forall t :: ValueOfName(Name(t)) == Success(t)
    ensures forall a, b :: Name(a) == Name(b) ==> a == b
  {
    forall a, b | Name(a) == Name(b)
      ensures a == b
    {
      assert ValueOfName(Name(a)) == Success(a);
    }
  }

  /** A name that starts with a lower-case letter, such as "invalid", is no constant's name and yields an error. */
  lemma LowerCaseNameUndefined(name: string)
    requires |name| > 0 && 'a' <= name[0] <= 'z'
    ensures ValueOfName(name) == Failure(IllegalArgument(name))
  {
    forall t: BindRequestAuthenticationType
      ensures Name(t) != name
    {
      assert Name(t)[0] != name[0];
    }
  }
}
