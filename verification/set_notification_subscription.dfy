/**
 * The set notification subscription extended request: a typed extended
 * request with a fixed OID whose value is
 *
 *   SEQUENCE { managerID OCTET STRING, destinationID OCTET STRING,
 *              subscriptionID OCTET STRING, details SEQUENCE OF OCTET STRING }
 *
 * The model has the value-level codec (ValueElement / EncodeValue and
 * FieldsOf / DecodeValue) as functions, the detail loop of the decoder as a
 * method proved against them, and the request object as a class whose typed
 * fields never change and whose response timeout is the one mutable setting.
 */
module SetNotificationSubscription {
  import opened Wrappers
  import opened Asn1

  /** The OID of the set notification subscription extended request. */
  const SetNotificationSubscriptionRequestOid: string := "1.3.6.1.4.1.30221.2.6.38"

  /** The response timeout of a request on which none has been set. */
  const NoResponseTimeout: int := -1

  type Bytes = seq<byte>

  /** A request control, carried through without interpretation. */
  datatype Control = Control(oid: string, isCritical: bool, value: Option<Bytes>)

  /** The generic form of an extended request: an OID, an optional value and the controls. */
  datatype GenericRequest = GenericRequest(oid: string, value: Option<Bytes>, controls: seq<Control>)

  /** The typed content of the request: the three identifiers and the details, in order. */
  datatype SubscriptionFields =
    SubscriptionFields(managerID: Bytes, destinationID: Bytes, subscriptionID: Bytes, details: seq<Bytes>)

  /** Why the field constructor refuses its arguments (the SDK's usage exception). */
  datatype UsageError =
    | NullManagerID
    | NullDestinationID
    | NullSubscriptionID
    | NullDetails
    | EmptyDetails
    | ValueTooLarge   // the encoded value would not fit in a Java byte array

  /** What is wrong with a value that is present but does not have the expected shape. */
  datatype ValueProblem =
    | Malformed(error: DecodeError)   // the bytes are not one BER element
    | NotASequence                    // the value is not a SEQUENCE
    | MissingElement(index: nat)      // the SEQUENCE has no element at this index (0 to 3)
    | NotAnOctetString(index: nat)    // one of the first three elements is not an OCTET STRING
    | DetailsNotASequence             // the fourth element is not a SEQUENCE
    | DetailNotAnOctetString          // a detail is not an OCTET STRING

  datatype ResultCode = DecodingError

  /** The cause a decoding failure carries: no value at all, or what is wrong with it. */
  datatype Cause = NoValue | BadValue(problem: ValueProblem)

  /** The LDAP exception the decoding constructor throws. */
  datatype LdapException = LdapException(resultCode: ResultCode, cause: Cause)

  // ---------------------------------------------------------------------------
  // Construction-time validation and the encoder
  // ---------------------------------------------------------------------------

  /**
   * The validation the field constructor performs before encoding, in the
   * order it performs it; a null argument is None.
   */
  function CheckFields(managerID: Option<Bytes>, destinationID: Option<Bytes>,
                       subscriptionID: Option<Bytes>, details: Option<seq<Bytes>>)
    : (r: Result<SubscriptionFields, UsageError>)
    ensures r.Success? <==>
      && managerID.Some? && destinationID.Some? && subscriptionID.Some?
      && details.Some? && |details.value| > 0
      && Encodable(ValueElement(SubscriptionFields(managerID.value, destinationID.value,
                                                   subscriptionID.value, details.value)))
    ensures r.Success? ==>
      r.value == SubscriptionFields(managerID.value, destinationID.value, subscriptionID.value, details.value)
    ensures managerID.None? ==> r == Failure(NullManagerID)
    ensures (managerID.Some? && destinationID.Some? && subscriptionID.Some? &&
             details.Some? && |details.value| == 0) ==> r == Failure(EmptyDetails)
  {
    if managerID.None? then Failure(NullManagerID)
    else if destinationID.None? then Failure(NullDestinationID)
    else if subscriptionID.None? then Failure(NullSubscriptionID)
    else if details.None? then Failure(NullDetails)
    else if |details.value| == 0 then Failure(EmptyDetails)
    else
      var fields := SubscriptionFields(managerID.value, destinationID.value, subscriptionID.value, details.value);
      if !Encodable(ValueElement(fields)) then Failure(ValueTooLarge) else Success(fields)
  }

  /** Each detail as an OCTET STRING element, in order. */
  function DetailElements(details: seq<Bytes>): (r: seq<Element>)
    ensures |r| == |details|
    ensures forall i :: 0 <= i < |r| ==> r[i] == OctetString(details[i])
  {
    seq(|details|, i requires 0 <= i < |details| => OctetString(details[i]))
  }

  /** The value of the request as an element tree. */
  function ValueElement(f: SubscriptionFields): Element
  {
    Sequence([OctetString(f.managerID), OctetString(f.destinationID), OctetString(f.subscriptionID),
              Sequence(DetailElements(f.details))])
  }

  /** The encoded value of the request. */
  function EncodeValue(f: SubscriptionFields): (r: Bytes)
    requires Encodable(ValueElement(f))
    ensures Decode(r) == Success(ValueElement(f))
  {
    DecodeEncoded(ValueElement(f));
    Encode(ValueElement(f))
  }

  // ---------------------------------------------------------------------------
  // The decoder
  // ---------------------------------------------------------------------------

  /** Every element is an OCTET STRING. */
  predicate AllOctetStrings(elements: seq<Element>)
  {
    forall i :: 0 <= i < |elements| ==> elements[i].OctetString?
  }

  /** The details a SEQUENCE OF OCTET STRING holds, or why it holds none. */
  function DetailValues(elements: seq<Element>): Result<seq<Bytes>, ValueProblem>
  {
    if AllOctetStrings(elements)
    then Success(seq(|elements|, i requires 0 <= i < |elements| => elements[i].bytes))
    else Failure(DetailNotAnOctetString)
  }

  /**
   * The loop of the decoding constructor: each detail element is read as an
   * OCTET STRING and appended to the list, and the first that is not one
   * ends the decoding.
   */
  method DecodeDetails(detailElements: seq<Element>) returns (r: Result<seq<Bytes>, ValueProblem>)
    ensures r == DetailValues(detailElements)
  {
    var detailList: seq<Bytes> := [];
    var i := 0;
    while i < |detailElements|
      invariant 0 <= i <= |detailElements|
      invariant |detailList| == i
      invariant forall j :: 0 <= j < i ==> detailElements[j] == OctetString(detailList[j])
    {
      var e := detailElements[i];
      if !e.OctetString? {
        return Failure(DetailNotAnOctetString);
      }
      detailList := detailList + [e.bytes];
      i := i + 1;
    }
    assert detailList == seq(|detailElements|, j requires 0 <= j < |detailElements| => detailElements[j].bytes);
    return Success(detailList);
  }

  /** The i-th identifier of the value SEQUENCE, or why it cannot be read. */
  function IdAt(elements: seq<Element>, i: nat): Result<Bytes, ValueProblem>
  {
    if |elements| <= i then Failure(MissingElement(i))
    else if !elements[i].OctetString? then Failure(NotAnOctetString(i))
    else Success(elements[i].bytes)
  }

  /**
   * The typed fields a decoded value holds, checked in the order the decoding
   * constructor reads them; elements after the fourth are not looked at.
   */
  function FieldsOf(value: Element): Result<SubscriptionFields, ValueProblem>
  {
    if !value.Sequence? then Failure(NotASequence)
    else
      var elements := value.elements;
      match IdAt(elements, 0)
      case Failure(p) => Failure(p)
      case Success(managerID) =>
        match IdAt(elements, 1)
        case Failure(p) => Failure(p)
        case Success(destinationID) =>
          match IdAt(elements, 2)
          case Failure(p) => Failure(p)
          case Success(subscriptionID) =>
            if |elements| <= 3 then Failure(MissingElement(3))
            else if !elements[3].Sequence? then Failure(DetailsNotASequence)
            else
              match DetailValues(elements[3].elements)
              case Failure(p) => Failure(p)
              case Success(details) => Success(SubscriptionFields(managerID, destinationID, subscriptionID, details))
  }

  /** The decoding of a generic request's value, or the exception the decoding constructor throws. */
  function DecodeValue(value: Option<Bytes>): (r: Result<SubscriptionFields, LdapException>)
    ensures r.Failure? ==> r.error.resultCode == DecodingError
    ensures r.Failure? && r.error.cause == NoValue <==> value.None?
  {
    match value
    case None => Failure(LdapException(DecodingError, NoValue))
    case Some(bytes) =>
      match Decode(bytes)
      case Failure(err) => Failure(LdapException(DecodingError, BadValue(Malformed(err))))
      case Success(element) =>
        match FieldsOf(element)
        case Failure(p) => Failure(LdapException(DecodingError, BadValue(p)))
        case Success(fields) => Success(fields)
  }

  // ---------------------------------------------------------------------------
  // Properties of the codec
  // ---------------------------------------------------------------------------

  /** The shape the decoder accepts, stated without reference to the decoder. */
  predicate WellShaped(value: Element)
  {
    && value.Sequence?
    && |value.elements| >= 4
    && value.elements[0].OctetString?
    && value.elements[1].OctetString?
    && value.elements[2].OctetString?
    && value.elements[3].Sequence?
    && AllOctetStrings(value.elements[3].elements)
  }

  /**
   * The decoder accepts exactly the well-shaped values, and then yields the
   * first three OCTET STRINGs and the details in order.
   */
  lemma FieldsOfAcceptsExactlyWellShaped(value: Element)
    ensures FieldsOf(value).Success? <==> WellShaped(value)
    ensures FieldsOf(value).Success? ==>
      var es := value.elements;
      var f := FieldsOf(value).value;
      && f.managerID == es[0].bytes && f.destinationID == es[1].bytes && f.subscriptionID == es[2].bytes
      && |f.details| == |es[3].elements|
      && forall i :: 0 <= i < |f.details| ==> es[3].elements[i] == OctetString(f.details[i])
  {
  }

  /** A value SEQUENCE with fewer than four elements is rejected for its first missing or ill-typed element. */
  lemma TooFewElementsRejected(elements: seq<Element>)
    requires |elements| < 4
    ensures FieldsOf(Sequence(elements)).Failure?
    ensures FieldsOf(Sequence(elements)).error == MissingElement(|elements|) <==> AllOctetStrings(elements)
  {
    if AllOctetStrings(elements) {
      assert forall i :: 0 <= i < |elements| ==> IdAt(elements, i) == Success(elements[i].bytes);
    } else {
      var k :| 0 <= k < |elements| && !elements[k].OctetString?;
    }
  }

  /**
   * The element-level round trip: the fields come back unchanged from the
   * element the encoder builds, whatever elements follow the fourth.
   */
  lemma FieldsOfValueElement(f: SubscriptionFields, extra: seq<Element>)
    ensures FieldsOf(Sequence(ValueElement(f).elements + extra)) == Success(f)
  {
    var details := DetailElements(f.details);
    assert DetailValues(details) == Success(f.details) by {
      assert seq(|details|, i requires 0 <= i < |details| => details[i].bytes) == f.details;
    }
  }

  /** The round trip: decoding the value the field constructor encodes yields the same fields. */
  lemma RoundTrip(f: SubscriptionFields)
    requires Encodable(ValueElement(f))
    ensures DecodeValue(Some(EncodeValue(f))) == Success(f)
  {
    FieldsOfValueElement(f, []);
    assert ValueElement(f).elements + [] == ValueElement(f).elements;
  }

  /**
   * The decoder does not require a detail: a value with an empty details
   * SEQUENCE decodes, although the field constructor refuses those fields.
   */
  lemma DecodeAcceptsNoDetails(managerID: Bytes, destinationID: Bytes, subscriptionID: Bytes)
    requires Encodable(ValueElement(SubscriptionFields(managerID, destinationID, subscriptionID, [])))
    ensures DecodeValue(Some(EncodeValue(SubscriptionFields(managerID, destinationID, subscriptionID, []))))
            == Success(SubscriptionFields(managerID, destinationID, subscriptionID, []))
    ensures CheckFields(Some(managerID), Some(destinationID), Some(subscriptionID), Some([]))
            == Failure(EmptyDetails)
  {
    RoundTrip(SubscriptionFields(managerID, destinationID, subscriptionID, []));
  }

  /** An encoded value that stops after the three identifiers is rejected for its missing fourth element. */
  lemma ThreeElementsRejected(managerID: Bytes, destinationID: Bytes, subscriptionID: Bytes)
    requires Encodable(Sequence([OctetString(managerID), OctetString(destinationID), OctetString(subscriptionID)]))
    ensures var value := Sequence([OctetString(managerID), OctetString(destinationID), OctetString(subscriptionID)]);
            DecodeValue(Some(Encode(value))) == Failure(LdapException(DecodingError, BadValue(MissingElement(3))))
  {
    var value := Sequence([OctetString(managerID), OctetString(destinationID), OctetString(subscriptionID)]);
    DecodeEncoded(value);
    TooFewElementsRejected(value.elements);
  }

  // ---------------------------------------------------------------------------
  // The request object
  // ---------------------------------------------------------------------------

  /**
   * A set notification subscription extended request. Like the generic
   * request it extends, it has an OID, a value and controls; its typed fields
   * are fixed at construction. The response timeout is a setting of the
   * request that may be changed afterwards.
   */
  class SetNotificationSubscriptionExtendedRequest {
    const oid: string
    const value: Option<Bytes>
    const controls: seq<Control>
    const managerID: Bytes
    const destinationID: Bytes
    const subscriptionID: Bytes
    const subscriptionDetails: seq<Bytes>
    var responseTimeoutMillis: int

    /** The typed fields together. */
    function Fields(): SubscriptionFields
    {
      SubscriptionFields(managerID, destinationID, subscriptionID, subscriptionDetails)
    }

    /** The object invariant: the stored value decodes to the typed fields, which can be re-encoded. */
    ghost predicate Valid()
    {
      && DecodeValue(value) == Success(Fields())
      && Encodable(ValueElement(Fields()))
    }

    /** The field constructor once its arguments have been validated (see Create). */
    constructor (fields: SubscriptionFields, controls: seq<Control>)
      requires CheckFields(Some(fields.managerID), Some(fields.destinationID), Some(fields.subscriptionID),
                           Some(fields.details)) == Success(fields)
      ensures Valid()
      ensures oid == SetNotificationSubscriptionRequestOid
      ensures value == Some(EncodeValue(fields))
      ensures Fields() == fields && this.controls == controls
      ensures responseTimeoutMillis == NoResponseTimeout
    {
      oid := SetNotificationSubscriptionRequestOid;
      value := Some(EncodeValue(fields));
      this.controls := controls;
      managerID := fields.managerID;
      destinationID := fields.destinationID;
      subscriptionID := fields.subscriptionID;
      subscriptionDetails := fields.details;
      responseTimeoutMillis := NoResponseTimeout;
      RoundTrip(fields);
    }

    /** The decoding constructor once the fields have been read: the generic request's own OID, value and controls are kept. */
    constructor FromGeneric(generic: GenericRequest, fields: SubscriptionFields)
      requires DecodeValue(generic.value) == Success(fields)
      requires Encodable(ValueElement(fields))
      ensures Valid()
      ensures oid == generic.oid && value == generic.value && controls == generic.controls
      ensures Fields() == fields
      ensures responseTimeoutMillis == NoResponseTimeout
    {
      oid := generic.oid;
      value := generic.value;
      controls := generic.controls;
      managerID := fields.managerID;
      destinationID := fields.destinationID;
      subscriptionID := fields.subscriptionID;
      subscriptionDetails := fields.details;
      responseTimeoutMillis := NoResponseTimeout;
    }

    /** Sets the response timeout of this request. */
    method SetResponseTimeoutMillis(timeout: int)
      modifies this
      ensures responseTimeoutMillis == timeout
    {
      responseTimeoutMillis := timeout;
    }

    /**
     * A new request with the same typed fields, the given controls and the
     * same response timeout. It goes through the field constructor, so it
     * fails exactly when this request has no detail, which a decoded request
     * may lack.
     */
    method DuplicateWithControls(controls: seq<Control>)
      returns (r: Result<SetNotificationSubscriptionExtendedRequest, UsageError>)
      requires Valid()
      ensures r.Success? <==> |subscriptionDetails| > 0
      ensures r.Failure? ==> r.error == EmptyDetails
      ensures r.Success? ==>
        && fresh(r.value) && r.value.Valid()
        && r.value.Fields() == Fields()
        && r.value.oid == SetNotificationSubscriptionRequestOid
        && r.value.controls == controls
        && r.value.responseTimeoutMillis == responseTimeoutMillis
    {
      var created := Create(Some(managerID), Some(destinationID), Some(subscriptionID),
                            Some(subscriptionDetails), controls);
      if created.Failure? {
        return Failure(created.error);
      }
      var copy := created.value;
      copy.SetResponseTimeoutMillis(responseTimeoutMillis);
      return Success(copy);
    }

    /** A new request with the same typed fields, controls and response timeout. */
    method Duplicate() returns (r: Result<SetNotificationSubscriptionExtendedRequest, UsageError>)
      requires Valid()
      ensures r.Success? <==> |subscriptionDetails| > 0
      ensures r.Failure? ==> r.error == EmptyDetails
      ensures r.Success? ==>
        && fresh(r.value) && r.value.Valid()
        && r.value.Fields() == Fields()
        && r.value.oid == SetNotificationSubscriptionRequestOid
        && r.value.controls == controls
        && r.value.responseTimeoutMillis == responseTimeoutMillis
    {
      r := DuplicateWithControls(controls);
    }
  }

  /**
   * The field constructor: validates its arguments (a null is None), then
   * builds the request with the fixed OID and the encoded value.
   */
  method Create(managerID: Option<Bytes>, destinationID: Option<Bytes>, subscriptionID: Option<Bytes>,
                details: Option<seq<Bytes>>, controls: seq<Control>)
    returns (r: Result<SetNotificationSubscriptionExtendedRequest, UsageError>)
    ensures r.Failure? ==> CheckFields(managerID, destinationID, subscriptionID, details) == Failure(r.error)
    ensures r.Success? ==>
      && CheckFields(managerID, destinationID, subscriptionID, details) == Success(r.value.Fields())
      && fresh(r.value) && r.value.Valid()
      && r.value.oid == SetNotificationSubscriptionRequestOid
      && r.value.value == Some(EncodeValue(r.value.Fields()))
      && r.value.controls == controls
      && r.value.responseTimeoutMillis == NoResponseTimeout
  {
    var checked := CheckFields(managerID, destinationID, subscriptionID, details);
    if checked.Failure? {
      return Failure(checked.error);
    }
    var request := new SetNotificationSubscriptionExtendedRequest(checked.value, controls);
    return Success(request);
  }

  /** True when the generic request's value, if any, fits in a Java byte array. */
  predicate ValueFits(generic: GenericRequest)
  {
    generic.value.Some? ==> |generic.value.value| <= MaxLength
  }

  /**
   * The decoding constructor: reads the typed fields from a generic request's
   * value, keeping the generic request's OID, value and controls; the OID is
   * not checked.
   */
  method DecodeRequest(generic: GenericRequest)
    returns (r: Result<SetNotificationSubscriptionExtendedRequest, LdapException>)
    requires ValueFits(generic)
    ensures r.Failure? ==> DecodeValue(generic.value) == Failure(r.error)
    ensures r.Success? ==>
      && DecodeValue(generic.value) == Success(r.value.Fields())
      && fresh(r.value) && r.value.Valid()
      && r.value.oid == generic.oid && r.value.value == generic.value && r.value.controls == generic.controls
      && r.value.responseTimeoutMillis == NoResponseTimeout
  {
    if generic.value.None? {
      return Failure(LdapException(DecodingError, NoValue));
    }
    var bytes := generic.value.value;
    var decoded := Asn1.Decode(bytes);
    if decoded.Failure? {
      return Failure(LdapException(DecodingError, BadValue(Malformed(decoded.error))));
    }
    var element := decoded.value;
    DecodedSize(bytes);
    if !element.Sequence? {
      return Failure(LdapException(DecodingError, BadValue(NotASequence)));
    }
    var elements := element.elements;
    var managerID := IdAt(elements, 0);
    if managerID.Failure? {
      return Failure(LdapException(DecodingError, BadValue(managerID.error)));
    }
    var destinationID := IdAt(elements, 1);
    if destinationID.Failure? {
      return Failure(LdapException(DecodingError, BadValue(destinationID.error)));
    }
    var subscriptionID := IdAt(elements, 2);
    if subscriptionID.Failure? {
      return Failure(LdapException(DecodingError, BadValue(subscriptionID.error)));
    }
    if |elements| <= 3 {
      return Failure(LdapException(DecodingError, BadValue(MissingElement(3))));
    }
    if !elements[3].Sequence? {
      return Failure(LdapException(DecodingError, BadValue(DetailsNotASequence)));
    }
    var details := DecodeDetails(elements[3].elements);
    if details.Failure? {
      return Failure(LdapException(DecodingError, BadValue(details.error)));
    }
    var fields := SubscriptionFields(managerID.value, destinationID.value, subscriptionID.value, details.value);
    DecodedFieldsEncodable(element, bytes);
    var request := new SetNotificationSubscriptionExtendedRequest.FromGeneric(generic, fields);
    return Success(request);
  }

  /** The fields of a decoded value always re-encode within the size of the value they came from. */
  lemma DecodedFieldsEncodable(value: Element, bytes: Bytes)
    requires Decode(bytes) == Success(value)
    requires |bytes| <= MaxLength
    requires FieldsOf(value).Success?
    ensures Encodable(ValueElement(FieldsOf(value).value))
  {
    DecodedSize(bytes);
    var es := value.elements;
    var f := FieldsOf(value).value;
    FieldsOfAcceptsExactlyWellShaped(value);
    assert DetailElements(f.details) == es[3].elements;
    assert ValueElement(f) == Sequence(es[..4]);
    SizeAllPrefix(es, 4);
  }
}
