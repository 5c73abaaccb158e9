/**
 * The pieces of the LDAP data model that the add attribute transformation
 * works with: DNs, search scopes, filters, attribute type definitions from
 * the schema, attributes, and the entry, whose attributes are changed in
 * place by addAttribute.
 *
 * An entry keeps its attributes in a map whose keys are meant to be the
 * lower-cased attribute names: AddAttribute always stores under the
 * lower-cased name, but the constructor takes the map as it is given, so an
 * entry built with an upper-case key holds an attribute that HasAttribute
 * does not see. Attribute options are not modelled.
 */
module LdapEntry {
  import opened Wrappers
  import Asn1

  /** An attribute value: its raw bytes. */
  type Value = seq<Asn1.byte>

  /** A distinguished name as its list of RDNs; the null DN has none. */
  datatype Dn = Dn(rdns: seq<string>)

  const NullDn: Dn := Dn([])

  predicate IsNullDn(dn: Dn)
  {
    dn.rdns == []
  }

  datatype SearchScope = Base | One | Sub | SubordinateSubtree

  /** A search filter; only whether it is an AND and how many components it has matter here. */
  datatype Filter =
    | And(components: seq<Filter>)
    | Or(components: seq<Filter>)
    | Not(component: Filter)
    | Assertion(text: string)

  /** What the schema says about an attribute type: its OID and its names. */
  datatype AttributeTypeDefinition = AttributeTypeDefinition(oid: string, names: seq<string>)

  /** An attribute: a name and its values. */
  datatype Attribute = Attribute(name: string, values: seq<Value>)

  /** The content of an entry: its DN and its attributes, keyed by lower-cased name. */
  datatype EntryData = EntryData(dn: Dn, attributes: map<string, seq<Value>>)

  function LowerChar(c: char): char
  {
    if 'A' <= c <= 'Z' then (c as int + 32) as char else c
  }

  /** Lower-cases the ASCII letters of a name. */
  function ToLower(s: string): (r: string)
    ensures |r| == |s|
    ensures forall i :: 0 <= i < |s| ==> r[i] == LowerChar(s[i])
  {
    seq(|s|, i requires 0 <= i < |s| => LowerChar(s[i]))
  }

  /** A name that lower-casing leaves as it is. */
  predicate IsLower(s: string)
  {
    ToLower(s) == s
  }

  lemma ToLowerIsLower(s: string)
    ensures IsLower(ToLower(s))
  {
    assert forall i :: 0 <= i < |s| ==> LowerChar(LowerChar(s[i])) == LowerChar(s[i]);
  }

  /**
   * The values of an attribute after more are added: the existing values in
   * their order, then each added value that is not already there.
   */
  function MergeValues(existing: seq<Value>, added: seq<Value>): seq<Value>
    decreases |added|
  {
    if added == [] then existing
    else if added[0] in existing then MergeValues(existing, added[1..])
    else MergeValues(existing + [added[0]], added[1..])
  }

  /** Merging keeps the existing values as a prefix and yields exactly the values of both, each once. */
  lemma {:induction false} MergeValuesContents(existing: seq<Value>, added: seq<Value>)
    ensures existing <= MergeValues(existing, added)
    ensures forall v :: v in MergeValues(existing, added) <==> v in existing || v in added
    ensures NoDuplicates(existing) ==> NoDuplicates(MergeValues(existing, added))
    decreases |added|
  {
    if added != [] {
      if added[0] in existing {
        MergeValuesContents(existing, added[1..]);
      } else {
        var grown := existing + [added[0]];
        MergeValuesContents(grown, added[1..]);
        assert existing <= grown;
      }
      assert forall v :: v in added <==> v == added[0] || v in added[1..];
    }
  }

  predicate NoDuplicates(values: seq<Value>)
  {
    forall i, j :: 0 <= i < j < |values| ==> values[i] != values[j]
  }

  /** The entry content after addAttribute(name, values): the values merged into the attribute under that name. */
  function WithValues(d: EntryData, name: string, values: seq<Value>): EntryData
  {
    var key := ToLower(name);
    var existing := if key in d.attributes then d.attributes[key] else [];
    d.(attributes := d.attributes[key := MergeValues(existing, values)])
  }

  /**
   * The names getAttribute(name, schema) tries, lower-cased and in order: the
   * given name, then the names of its attribute type, then the type's OID.
   */
  function LookupNames(name: string, attributeType: Option<AttributeTypeDefinition>): seq<string>
  {
    [ToLower(name)] +
    match attributeType
    case None => []
    case Some(at) => seq(|at.names|, i requires 0 <= i < |at.names| => ToLower(at.names[i])) + [ToLower(at.oid)]
  }

  /** The first of the candidate names under which the entry holds an attribute. */
  function FirstPresent(candidates: seq<string>, attributes: map<string, seq<Value>>): (r: Option<string>)
    ensures r.Some? ==> r.value in candidates && r.value in attributes
    ensures r.None? <==> forall c :: c in candidates ==> c !in attributes
  {
    if candidates == [] then None
    else if candidates[0] in attributes then Some(candidates[0])
    else FirstPresent(candidates[1..], attributes)
  }

  /** The key of the attribute getAttribute(name, schema) finds in the entry, if any. */
  function AttributeKey(d: EntryData, name: string, attributeType: Option<AttributeTypeDefinition>): Option<string>
  {
    FirstPresent(LookupNames(name, attributeType), d.attributes)
  }

  /** An entry, whose attributes addAttribute changes in place. */
  class Entry {
    var dn: Dn
    var attributes: map<string, seq<Value>>

    constructor (dn: Dn, attributes: map<string, seq<Value>>)
      ensures Data() == EntryData(dn, attributes)
    {
      this.dn := dn;
      this.attributes := attributes;
    }

    /** The current content of the entry. */
    function Data(): EntryData
      reads this
    {
      EntryData(dn, attributes)
    }

    /**
     * Whether the entry has an attribute with the given name, compared without
     * case. The test is on that one name only; the transformation checks every
     * alias because its recognised names already list them all.
     */
    predicate HasAttribute(name: string)
      reads this
    {
      ToLower(name) in attributes
    }

    /** A new entry with the same content, sharing nothing with this one. */
    method Duplicate() returns (copy: Entry)
      ensures fresh(copy) && copy.Data() == Data()
    {
      copy := new Entry(dn, attributes);
    }

    /** Adds values to the attribute with the given name, creating it if the entry has none. */
    method AddAttribute(name: string, values: seq<Value>)
      modifies this
      ensures Data() == WithValues(old(Data()), name, values)
    {
      var key := ToLower(name);
      var existing := if key in attributes then attributes[key] else [];
      attributes := attributes[key := MergeValues(existing, values)];
    }
  }
}
