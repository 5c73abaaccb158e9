/**
 * What the SDK's enumerations with a wire value have in common. Each one
 * lists its constants in declaration order; lookup by wire value walks that
 * list and yields nothing on a miss, while lookup by constant name (the
 * Java enum's own valueOf(String)) fails with an IllegalArgumentException on
 * a miss.
 */
module Enumerations {
  import opened Wrappers

  /** The exception valueOf(String) throws for a name no constant has. */
  datatype LookupError = IllegalArgument(name: string)

  /** No two of the values share a key. */
  predicate InjectiveOn<T(==), K(==)>(values: seq<T>, key: T -> K)
  {
    forall a, b :: a in values && b in values && key(a) == key(b) ==> a == b
  }

  /** The first of the values whose key is k, if any: the loop over values() that valueOf(code) runs. */
  function FindFirst<T(==), K(==)>(values: seq<T>, key: T -> K, k: K): (r: Option<T>)
    ensures r.Some? ==> r.value in values && key(r.value) == k
    ensures r.None? <==> forall v :: v in values ==> key(v) != k
  {
    if values == [] then None
    else if key(values[0]) == k then Some(values[0])
    else FindFirst(values[1..], key, k)
  }

  /** When keys are distinct, the lookup finds a value exactly when that value's key is asked for. */
  lemma FindFirstInjective<T, K>(values: seq<T>, key: T -> K)
    requires InjectiveOn(values, key)
    ensures forall v, k :: v in values ==> (FindFirst(values, key, k) == Some(v) <==> key(v) == k)
  {
    forall v, k | v in values && key(v) == k
      ensures FindFirst(values, key, k) == Some(v)
    {
      var r := FindFirst(values, key, k);
      assert r.Some?;
      assert key(r.value) == key(v);
    }
  }

  /** valueOf(String): the constant with that exact name, or an IllegalArgumentException. */
  function ValueOfName<T(==)>(values: seq<T>, name: T -> string, s: string): (r: Result<T, LookupError>)
    ensures r.Success? ==> r.value in values && name(r.value) == s
    ensures r.Failure? <==> forall v :: v in values ==> name(v) != s
    ensures r.Failure? ==> r.error == IllegalArgument(s)
  {
    match FindFirst(values, name, s)
    case Some(v) => Success(v)
    case None => Failure(IllegalArgument(s))
  }
}
