/**
 * How durably a transaction's changes are committed before the response:
 * not synchronized to disk, partially synchronized, or fully synchronized,
 * each with the integer that identifies it in the transaction settings
 * request control.
 */
module CommitDurability {
  import opened Wrappers
  import opened Enumerations

  datatype TransactionSettingsCommitDurability = Nonsynchronous | PartiallySynchronous | FullySynchronous

  /** values(), in declaration order. */
  const AllValues: seq<TransactionSettingsCommitDurability> :=
    [Nonsynchronous, PartiallySynchronous, FullySynchronous]

  lemma AllValuesComplete()
    ensures forall v: TransactionSettingsCommitDurability :: v in AllValues
  {
    forall v: TransactionSettingsCommitDurability
      ensures v in AllValues
    {
      match v {
        case Nonsynchronous =>
        case PartiallySynchronous =>
        case FullySynchronous =>
      }
    }
  }

  /** name(): the Java constant's name. */
  function Name(v: TransactionSettingsCommitDurability): string
  {
    match v
    case Nonsynchronous => "NONSYNCHRONOUS"
    case PartiallySynchronous => "PARTIALLY_SYNCHRONOUS"
    case FullySynchronous => "FULLY_SYNCHRONOUS"
  }

  /** intValue(): the integer that identifies the durability in the control. */
  function IntValue(v: TransactionSettingsCommitDurability): int
  {
    match v
    case Nonsynchronous => 0
    case PartiallySynchronous => 1
    case FullySynchronous => 2
  }

  /** valueOf(int): the durability with that integer, or null. */
  function ValueOf(intValue: int): (r: Option<TransactionSettingsCommitDurability>)
    ensures forall v :: r == Some(v) <==> IntValue(v) == intValue
    ensures r.None? <==> !(0 <= intValue <= 2)
  {
    AllValuesComplete();
    FindFirstInjective(AllValues, IntValue);
    FindFirst(AllValues, IntValue, intValue)
  }

  /** valueOf(String): the durability with that constant name, or an IllegalArgumentException. */
  function ValueOfName(name: string): (r: Result<TransactionSettingsCommitDurability, LookupError>)
    ensures forall v :: r == Success(v) <==> Name(v) == name
    ensures r.Failure? <==> r == Failure(IllegalArgument(name))
  {
    AllValuesComplete();
    FindFirstInjective(AllValues, Name);
    Enumerations.ValueOfName(AllValues, Name, name)
  }

  /** Every durability is found again by its integer and by its name. */
  lemma RoundTrips(v: TransactionSettingsCommitDurability)
    ensures ValueOf(IntValue(v)) == Some(v)
    ensures ValueOfName(Name(v)) == Success(v)
  {
  }

  /** An undefined integer yields nothing. */
  lemma UndefinedCode()
    ensures ValueOf(12345) == None
  {
  }

  /** A name that starts with a lower-case letter, such as "undefined", is no constant's name and yields an error. */
  lemma LowerCaseNameUndefined(name: string)
    requires |name| > 0 && 'a' <= name[0] <= 'z'
    ensures ValueOfName(name) == Failure(IllegalArgument(name))
  {
    forall v: TransactionSettingsCommitDurability
      ensures Name(v) != name
    {
      assert Name(v)[0] != name[0];
    }
  }
}
