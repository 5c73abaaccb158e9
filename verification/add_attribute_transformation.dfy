/**
 * The add attribute entry transformation: it adds an attribute, with given
 * values, to each entry that lies under a base DN and scope and matches a
 * filter, optionally only when the entry does not hold the attribute yet.
 *
 * The transformation's settings are fixed when it is built, so it is a value;
 * the entry it rewrites is an object, duplicated before it is changed.
 * Whether an entry is within a base and scope, and whether it matches a
 * filter, are decided by code that is not part of this model; they are
 * parameters here, and either may throw.
 */
module AddAttribute {
  import opened Wrappers
  import opened LdapEntry

  /** The outcome of a base-and-scope or filter check, which may throw. */
  datatype Verdict = Matches | DoesNotMatch | Throws

  /** Whether an entry is within a base DN and scope. */
  type ScopeCheck = (EntryData, Dn, SearchScope) -> Verdict

  /** Whether an entry matches a filter. */
  type FilterCheck = (Filter, EntryData) -> Verdict

  /** The settings of an add attribute transformation, as its constructor leaves them. */
  datatype AddAttributeTransformation = AddAttributeTransformation(
    attributeToAdd: Attribute,
    onlyIfMissing: bool,
    attributeType: Option<AttributeTypeDefinition>,  // the schema's definition of the attribute's type
    baseDN: Dn,
    scope: SearchScope,
    filter: Filter,
    examineScope: bool,
    examineFilter: bool,
    names: set<string>)

  /** The lower-cased names that refer to the attribute: its own, and the OID and names the schema gives its type. */
  function RecognisedNames(name: string, attributeType: Option<AttributeTypeDefinition>): set<string>
  {
    {ToLower(name)} +
    match attributeType
    case None => {}
    case Some(at) => {ToLower(at.oid)} + set n | n in at.names :: ToLower(n)
  }

  /** The set of recognised names is the set of names getAttribute tries. */
  lemma RecognisedNamesAreLookupNames(name: string, attributeType: Option<AttributeTypeDefinition>)
    ensures forall n :: n in RecognisedNames(name, attributeType) <==> n in LookupNames(name, attributeType)
  {
    if attributeType.Some? {
      var at := attributeType.value;
      var lowered := seq(|at.names|, i requires 0 <= i < |at.names| => ToLower(at.names[i]));
      assert LookupNames(name, attributeType) == [ToLower(name)] + lowered + [ToLower(at.oid)];
      forall n | n in at.names
        ensures ToLower(n) in lowered
      {
        var i :| 0 <= i < |at.names| && at.names[i] == n;
        assert lowered[i] == ToLower(n);
      }
    }
  }

  /**
   * The loop of the constructor that collects, in a set, every lower-cased
   * name by which the attribute may appear in an entry.
   */
  method CollectNames(name: string, attributeType: Option<AttributeTypeDefinition>) returns (names: set<string>)
    ensures names == RecognisedNames(name, attributeType)
    ensures forall n :: n in names ==> IsLower(n)
  {
    var baseName := ToLower(name);
    ToLowerIsLower(name);
    names := {baseName};
    if attributeType.Some? {
      var at := attributeType.value;
      ToLowerIsLower(at.oid);
      names := names + {ToLower(at.oid)};
      var i := 0;
      while i < |at.names|
        invariant 0 <= i <= |at.names|
        invariant names == {baseName, ToLower(at.oid)} + set n | n in at.names[..i] :: ToLower(n)
        invariant forall n :: n in names ==> IsLower(n)
      {
        ToLowerIsLower(at.names[i]);
        assert at.names[..i + 1] == at.names[..i] + [at.names[i]];
        names := names + {ToLower(at.names[i])};
        i := i + 1;
      }
      assert at.names[..i] == at.names;
    }
  }

  /** What the constructor guarantees of every transformation it builds. */
  ghost predicate Valid(t: AddAttributeTransformation)
  {
    && t.names == RecognisedNames(t.attributeToAdd.name, t.attributeType)
    && (forall n :: n in t.names ==> IsLower(n))
    && (t.examineScope <==> !(IsNullDn(t.baseDN) && t.scope == Sub))
  }

  /**
   * The constructor. A missing base DN means the null DN, a missing scope
   * means a subtree scope, and a missing filter means an AND filter with no
   * components, which matches every entry. The scope is examined unless it
   * cannot exclude anything (the null DN with a subtree scope); the filter is
   * examined unless none was given or it is an AND with no components.
   */
  method NewAddAttributeTransformation(attributeType: Option<AttributeTypeDefinition>, baseDN: Option<Dn>,
                                       scope: Option<SearchScope>, filter: Option<Filter>,
                                       attributeToAdd: Attribute, onlyIfMissing: bool)
    returns (t: AddAttributeTransformation)
    ensures Valid(t)
    ensures t.attributeToAdd == attributeToAdd && t.onlyIfMissing == onlyIfMissing
    ensures t.attributeType == attributeType
    ensures t.baseDN == (if baseDN.Some? then baseDN.value else NullDn)
    ensures t.scope == (if scope.Some? then scope.value else Sub)
    ensures t.filter == (if filter.Some? then filter.value else And([]))
    ensures !t.examineScope <==> (baseDN.None? || IsNullDn(baseDN.value)) && (scope.None? || scope.value == Sub)
    ensures !t.examineFilter <==> filter.None? || filter.value == And([])
  {
    var names := CollectNames(attributeToAdd.name, attributeType);

    var base := NullDn;
    if baseDN.Some? {
      base := baseDN.value;
    }

    var effectiveScope := Sub;
    if scope.Some? {
      effectiveScope := scope.value;
    }

    var effectiveFilter := And([]);
    var examineFilter := false;
    if filter.Some? {
      effectiveFilter := filter.value;
      if effectiveFilter.And? {
        examineFilter := |effectiveFilter.components| > 0;
      } else {
        examineFilter := true;
      }
    }

    var examineScope := !(IsNullDn(base) && effectiveScope == Sub);
    t := AddAttributeTransformation(attributeToAdd, onlyIfMissing, attributeType, base, effectiveScope,
                                    effectiveFilter, examineScope, examineFilter, names);
  }

  /** The entry already holds the attribute under one of its recognised names. */
  predicate HasRecognisedName(t: AddAttributeTransformation, d: EntryData)
  {
    exists n :: n in t.names && n in d.attributes
  }

  /**
   * Whether the transformation rewrites an entry: not when the attribute
   * must be missing and is present, nor when the entry is outside the base
   * and scope, nor when it does not match the filter; a check that throws
   * counts as a mismatch.
   */
  predicate Rewrites(t: AddAttributeTransformation, d: EntryData,
                     matchesBaseAndScope: ScopeCheck, matchesFilter: FilterCheck)
  {
    && !(t.onlyIfMissing && HasRecognisedName(t, d))
    && (t.examineScope ==> matchesBaseAndScope(d, t.baseDN, t.scope) == Matches)
    && (t.examineFilter ==> matchesFilter(t.filter, d) == Matches)
  }

  /**
   * The content of the rewritten copy: the values merged into the attribute
   * the entry already has under a recognised name, or added under the
   * attribute's own name when it has none.
   */
  function Added(t: AddAttributeTransformation, d: EntryData): EntryData
  {
    match AttributeKey(d, t.attributeToAdd.name, t.attributeType)
    case None => WithValues(d, t.attributeToAdd.name, t.attributeToAdd.values)
    case Some(key) => WithValues(d, key, t.attributeToAdd.values)
  }

  /**
   * transformEntry: null for null; otherwise the very entry it was given,
   * untouched, unless the transformation rewrites it, in which case a new
   * entry with the attribute added. The given entry is never changed.
   */
  method TransformEntry(t: AddAttributeTransformation, e: Entry?,
                        matchesBaseAndScope: ScopeCheck, matchesFilter: FilterCheck)
    returns (r: Entry?)
    requires Valid(t)
    ensures e == null <==> r == null
    ensures e != null ==> unchanged(e)
    ensures e != null && !Rewrites(t, e.Data(), matchesBaseAndScope, matchesFilter) ==> r == e
    ensures e != null && Rewrites(t, e.Data(), matchesBaseAndScope, matchesFilter) ==>
              fresh(r) && r.Data() == Added(t, e.Data())
  {
    if e == null {
      return null;
    }

    if t.onlyIfMissing {
      var remaining := t.names;
      while remaining != {}
        invariant remaining <= t.names
        invariant forall n :: n in t.names && n !in remaining ==> n !in e.attributes
        decreases remaining
      {
        var name :| name in remaining;
        if e.HasAttribute(name) {
          return e;
        }
        remaining := remaining - {name};
      }
    }

    if t.examineScope {
      match matchesBaseAndScope(e.Data(), t.baseDN, t.scope) {
        case Throws =>
          return e;
        case DoesNotMatch =>
          return e;
        case Matches =>
      }
    }

    if t.examineFilter {
      match matchesFilter(t.filter, e.Data()) {
        case Throws =>
          return e;
        case DoesNotMatch =>
          return e;
        case Matches =>
      }
    }

    var copy := e.Duplicate();
    match AttributeKey(copy.Data(), t.attributeToAdd.name, t.attributeType) {
      case None =>
        copy.AddAttribute(t.attributeToAdd.name, t.attributeToAdd.values);
      case Some(existingName) =>
        copy.AddAttribute(existingName, t.attributeToAdd.values);
    }
    return copy;
  }

  /** translate: the same as transformEntry; the line number is not used. */
  method Translate(t: AddAttributeTransformation, original: Entry?, firstLineNumber: int,
                   matchesBaseAndScope: ScopeCheck, matchesFilter: FilterCheck)
    returns (r: Entry?)
    requires Valid(t)
    ensures original == null <==> r == null
    ensures original != null ==> unchanged(original)
    ensures original != null && !Rewrites(t, original.Data(), matchesBaseAndScope, matchesFilter) ==> r == original
    ensures original != null && Rewrites(t, original.Data(), matchesBaseAndScope, matchesFilter) ==>
              fresh(r) && r.Data() == Added(t, original.Data())
  {
    r := TransformEntry(t, original, matchesBaseAndScope, matchesFilter);
  }

  /** translateEntryToWrite: the same as transformEntry. */
  method TranslateEntryToWrite(t: AddAttributeTransformation, original: Entry?,
                               matchesBaseAndScope: ScopeCheck, matchesFilter: FilterCheck)
    returns (r: Entry?)
    requires Valid(t)
    ensures original == null <==> r == null
    ensures original != null ==> unchanged(original)
    ensures original != null && !Rewrites(t, original.Data(), matchesBaseAndScope, matchesFilter) ==> r == original
    ensures original != null && Rewrites(t, original.Data(), matchesBaseAndScope, matchesFilter) ==>
              fresh(r) && r.Data() == Added(t, original.Data())
  {
    r := TransformEntry(t, original, matchesBaseAndScope, matchesFilter);
  }

  // ---------------------------------------------------------------------------
  // Properties of the decision
  // ---------------------------------------------------------------------------

  /** With onlyIfMissing, an entry that holds the attribute under any recognised name is left alone. */
  lemma PresentAttributeKeepsEntry(t: AddAttributeTransformation, d: EntryData, name: string,
                                   matchesBaseAndScope: ScopeCheck, matchesFilter: FilterCheck)
    requires t.onlyIfMissing && name in t.names && name in d.attributes
    ensures !Rewrites(t, d, matchesBaseAndScope, matchesFilter)
  {
  }

  /** When the scope is not examined, the base-and-scope check has no influence on the decision. */
  lemma UnexaminedScopeIgnored(t: AddAttributeTransformation, d: EntryData,
                               check1: ScopeCheck, check2: ScopeCheck, matchesFilter: FilterCheck)
    requires !t.examineScope
    ensures Rewrites(t, d, check1, matchesFilter) == Rewrites(t, d, check2, matchesFilter)
  {
  }

  /** When the filter is not examined, the filter check has no influence on the decision. */
  lemma UnexaminedFilterIgnored(t: AddAttributeTransformation, d: EntryData,
                                matchesBaseAndScope: ScopeCheck, check1: FilterCheck, check2: FilterCheck)
    requires !t.examineFilter
    ensures Rewrites(t, d, matchesBaseAndScope, check1) == Rewrites(t, d, matchesBaseAndScope, check2)
  {
  }

  /**
   * The rewritten content: the DN and every other attribute are kept; the
   * target attribute is the one the entry already holds under a recognised
   * name when there is one, and the attribute's own lower-cased name
   * otherwise; its old values come first, and afterwards it holds exactly
   * its old values and the added ones.
   */
  lemma AddedContent(t: AddAttributeTransformation, d: EntryData)
    requires Valid(t)
    ensures var found := AttributeKey(d, t.attributeToAdd.name, t.attributeType);
            var target := if found.Some? then found.value else ToLower(t.attributeToAdd.name);
            var before := if target in d.attributes then d.attributes[target] else [];
            var after := Added(t, d).attributes;
            && (found.Some? <==> HasRecognisedName(t, d))
            && (found.Some? ==> target in t.names && target in d.attributes)
            && Added(t, d).dn == d.dn
            && after.Keys == d.attributes.Keys + {target}
            && (forall k :: k in d.attributes && k != target ==> after[k] == d.attributes[k])
            && before <= after[target]
            && (forall v :: v in after[target] <==> v in before || v in t.attributeToAdd.values)
  {
    var name := t.attributeToAdd.name;
    RecognisedNamesAreLookupNames(name, t.attributeType);
    var found := AttributeKey(d, name, t.attributeType);
    var target := if found.Some? then found.value else ToLower(name);
    if found.Some? {
      assert IsLower(found.value);
    } else {
      ToLowerIsLower(name);
    }
    var before := if target in d.attributes then d.attributes[target] else [];
    MergeValuesContents(before, t.attributeToAdd.values);
  }
}
