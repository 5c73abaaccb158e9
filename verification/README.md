# A verified model of four pieces of the UnboundID LDAP SDK

This project models, in Dafny, four pieces of the UnboundID LDAP SDK for Java and proves properties of them:

1. **The set notification subscription extended request** (OID 1.3.6.1.4.1.30221.2.6.38). Its value is
   `SEQUENCE { managerID OCTET STRING, destinationID OCTET STRING, subscriptionID OCTET STRING, details SEQUENCE OF OCTET STRING }`.
   The model covers the field constructor's validation, the encoder, the decoding constructor with its failure paths, and `duplicate`.
   - The ASN.1 classes of the SDK are represented by a small element type (`Asn1.Element`) and a definite-length BER byte layer (section 8.1.3 of ITU-T X.690 for lengths, 8.7 for OCTET STRING, 8.9 for SEQUENCE).
   - The request is a class whose typed fields are fixed at construction; its response timeout is the one setting that changes afterwards.
   - The detail loop of the decoder is a method proved against the value-level decoding function.
2. **The add attribute entry transformation.** It either returns the entry it was given, untouched, or a copy with an attribute added or merged.
   - The transformation's settings are a value, built by a constructor method whose name-collecting loop is proved.
   - The entry is a class whose attributes `addAttribute` changes in place.
   - Base-and-scope matching and filter evaluation are function parameters that answer *matches*, *does not match* or *throws*.
3. **Enumerations with wire-value lookup**: `MatchingEntryCountType`, `ContentSyncInfoType`, `PKCS10CertificateSigningRequestVersion`, `PKCS8PrivateKeyVersion`, `TransactionSettingsCommitDurability` and `BindRequestAuthenticationType`.
   - Lookup by wire value (`valueOf(byte)` / `valueOf(int)`) yields nothing on a miss.
   - Lookup by constant name (`valueOf(String)`) fails with an `IllegalArgumentException` on a miss.
4. **The CRL distribution point revocation reasons**: the ReasonFlags BIT STRING of section 4.2.1.13 of RFC 5280.
   - `getReasonSet` reads a bit string into a set of reasons.
   - `toBitString` writes a set of reasons as a bit string.

Modules: `Wrappers` (Option, Result), `Asn1`, `SetNotificationSubscription`, `LdapEntry`, `AddAttribute`, `Enumerations` (the lookup shared by all enumerations), `MatchingEntryCount`, `ContentSyncInfo`, `Pkcs10Version`, `Pkcs8Version`, `CommitDurability`, `BindAuthenticationType`, `RevocationReason`.

## Model

| member | source | states |
|---|---|---|
| Asn1.DecodeEncoded | src/com/unboundid/ldap/sdk/unboundidds/extensions/SetNotificationSubscriptionExtendedRequest.java:246-251 | decoding the bytes written for any element that fits the definite-length form gives back exactly that element |
| Asn1.DecodedSize | src/com/unboundid/ldap/sdk/unboundidds/extensions/SetNotificationSubscriptionExtendedRequest.java:189-190 | whatever the decoder accepts re-encodes in no more bytes than it was read from, so an element read from a Java-sized array can always be written again |
| SetNotificationSubscription.CheckFields | src/com/unboundid/ldap/sdk/unboundidds/extensions/SetNotificationSubscriptionExtendedRequest.java:240-244 | construction succeeds if and only if the three IDs and the detail collection are present, there is at least one detail, and the value fits; on success the fields are the arguments; a null manager ID is reported first; an empty detail list is refused |
| SetNotificationSubscription.EncodeValue | src/com/unboundid/ldap/sdk/unboundidds/extensions/SetNotificationSubscriptionExtendedRequest.java:246-251 | the encoded value is one BER element: the SEQUENCE of the three IDs and the SEQUENCE of the details, in that order |
| SetNotificationSubscription.DecodeValue | src/com/unboundid/ldap/sdk/unboundidds/extensions/SetNotificationSubscriptionExtendedRequest.java:180-215 | every failure carries DECODING_ERROR; the "no value" failure occurs exactly when the generic request has no value |
| SetNotificationSubscription.DecodeDetails | src/com/unboundid/ldap/sdk/unboundidds/extensions/SetNotificationSubscriptionExtendedRequest.java:198-206 | the decoder's loop yields every detail in order when all are OCTET STRINGs, and fails otherwise |
| SetNotificationSubscription.FieldsOfAcceptsExactlyWellShaped | src/com/unboundid/ldap/sdk/unboundidds/extensions/SetNotificationSubscriptionExtendedRequest.java:187-215 | a decoded value is accepted if and only if it is a SEQUENCE of at least four elements whose first three are OCTET STRINGs and whose fourth is a SEQUENCE of OCTET STRINGs; the IDs and the details are then those elements, in order |
| SetNotificationSubscription.TooFewElementsRejected | src/com/unboundid/ldap/sdk/unboundidds/extensions/SetNotificationSubscriptionExtendedRequest.java:189-199 | a value SEQUENCE with fewer than four elements is always rejected; it is rejected for its first missing element exactly when the elements it has are OCTET STRINGs |
| SetNotificationSubscription.FieldsOfValueElement | src/com/unboundid/ldap/sdk/unboundidds/extensions/SetNotificationSubscriptionExtendedRequest.java:189-206 | the fields come back unchanged from the element the encoder builds, whatever elements follow the fourth |
| SetNotificationSubscription.RoundTrip | src/com/unboundid/ldap/sdk/unboundidds/extensions/SetNotificationSubscriptionExtendedRequest.java:152-206 | decoding the value the field constructor encodes gives the same three IDs and the same details in the same order |
| SetNotificationSubscription.DecodeAcceptsNoDetails | src/com/unboundid/ldap/sdk/unboundidds/extensions/SetNotificationSubscriptionExtendedRequest.java:198-206 | a value with an empty details SEQUENCE decodes, although the field constructor refuses the same fields |
| SetNotificationSubscription.ThreeElementsRejected | src/com/unboundid/ldap/sdk/unboundidds/extensions/SetNotificationSubscriptionExtendedRequest.java:198-199 | the encoding of any SEQUENCE of just the three IDs (that fits the definite-length form) is rejected with DECODING_ERROR for its missing fourth element |
| SetNotificationSubscription.DecodedFieldsEncodable | src/com/unboundid/ldap/sdk/unboundidds/extensions/SetNotificationSubscriptionExtendedRequest.java:174-216 | the fields of any decoded request can be encoded again, so a decoded request can be duplicated whenever it has a detail |
| SetNotificationSubscription.SetNotificationSubscriptionExtendedRequest.constructor | src/com/unboundid/ldap/sdk/unboundidds/extensions/SetNotificationSubscriptionExtendedRequest.java:146-161 | the request has the fixed OID, the encoded fields as its value, the given controls, getters that return exactly the given fields, and no response timeout |
| SetNotificationSubscription.SetNotificationSubscriptionExtendedRequest.FromGeneric | src/com/unboundid/ldap/sdk/unboundidds/extensions/SetNotificationSubscriptionExtendedRequest.java:174-178 | a decoded request keeps the generic request's OID, value and controls, and its value decodes to its typed fields |
| SetNotificationSubscription.SetNotificationSubscriptionExtendedRequest.SetResponseTimeoutMillis | src/com/unboundid/ldap/sdk/unboundidds/extensions/SetNotificationSubscriptionExtendedRequest.java:327 | the request's response timeout becomes the given one |
| SetNotificationSubscription.SetNotificationSubscriptionExtendedRequest.DuplicateWithControls | src/com/unboundid/ldap/sdk/unboundidds/extensions/SetNotificationSubscriptionExtendedRequest.java:321-329 | the copy is a new request with equal IDs and details, the fixed OID, the given controls and the same response timeout; it fails, with the empty-details error, exactly when the request has no detail |
| SetNotificationSubscription.SetNotificationSubscriptionExtendedRequest.Duplicate | src/com/unboundid/ldap/sdk/unboundidds/extensions/SetNotificationSubscriptionExtendedRequest.java:310-313 | the copy has equal IDs and details, the same controls and the same response timeout |
| SetNotificationSubscription.Create | src/com/unboundid/ldap/sdk/unboundidds/extensions/SetNotificationSubscriptionExtendedRequest.java:146-161 | the field constructor fails exactly as the validation says; otherwise it gives a new request with the fixed OID, the encoded value, the given controls and the given fields |
| SetNotificationSubscription.DecodeRequest | src/com/unboundid/ldap/sdk/unboundidds/extensions/SetNotificationSubscriptionExtendedRequest.java:174-216 | the decoding constructor fails exactly when the value does not decode, and with the same exception; otherwise the request's fields are the decoded ones and its OID, value and controls are the generic request's |
| LdapEntry.ToLowerIsLower | src/com/unboundid/ldap/sdk/transformations/AddAttributeTransformation.java:141-142 | a lower-cased name is left as it is by lower-casing again |
| LdapEntry.MergeValuesContents | src/com/unboundid/ldap/sdk/transformations/AddAttributeTransformation.java:280-281 | adding values to an attribute keeps its old values first, in order; afterwards it holds exactly the old values and the added ones, with no value twice if there was none before; values are compared byte for byte |
| LdapEntry.FirstPresent | src/com/unboundid/ldap/sdk/transformations/AddAttributeTransformation.java:272-273 | the name found is one of the candidates and names an attribute of the entry; nothing is found exactly when no candidate does |
| LdapEntry.Entry.constructor | src/com/unboundid/ldap/sdk/transformations/AddAttributeTransformation.java:271 | a new entry holds the given DN and attributes |
| LdapEntry.Entry.Duplicate | src/com/unboundid/ldap/sdk/transformations/AddAttributeTransformation.java:271 | the duplicate is a new entry with the same content |
| LdapEntry.Entry.AddAttribute | src/com/unboundid/ldap/sdk/transformations/AddAttributeTransformation.java:276-281 | the entry's content becomes the old content with the values merged into the attribute of that name |
| AddAttribute.RecognisedNamesAreLookupNames | src/com/unboundid/ldap/sdk/transformations/AddAttributeTransformation.java:140-155 | the names the constructor collects are exactly the names under which the existing attribute is looked up |
| AddAttribute.CollectNames | src/com/unboundid/ldap/sdk/transformations/AddAttributeTransformation.java:140-156 | the loop collects the lower-cased base name, and the lower-cased OID and names of the attribute type when the schema defines it, and every collected name is lower case |
| AddAttribute.NewAddAttributeTransformation | src/com/unboundid/ldap/sdk/transformations/AddAttributeTransformation.java:110-204 | a missing base DN becomes the null DN, a missing scope SUB and a missing filter an empty AND; the scope is skipped exactly when the base is the null DN and the scope SUB; the filter is skipped exactly when none was given or it is an AND with no components |
| AddAttribute.TransformEntry | src/com/unboundid/ldap/sdk/transformations/AddAttributeTransformation.java:211-284 | null gives null; the given entry is never changed; it is returned itself when the attribute must be missing and is present, when it is outside the base and scope, when it fails the filter, or when a check throws; otherwise the result is a new entry with the attribute added |
| AddAttribute.Translate | src/com/unboundid/ldap/sdk/transformations/AddAttributeTransformation.java:291-294 | has the same outcome as transformEntry for the same entry; the line number plays no part |
| AddAttribute.TranslateEntryToWrite | src/com/unboundid/ldap/sdk/transformations/AddAttributeTransformation.java:301-304 | has the same outcome as transformEntry for the same entry |
| AddAttribute.PresentAttributeKeepsEntry | src/com/unboundid/ldap/sdk/transformations/AddAttributeTransformation.java:222-231 | with onlyIfMissing, an entry that holds the attribute under any recognised name is not rewritten |
| AddAttribute.UnexaminedScopeIgnored | src/com/unboundid/ldap/sdk/transformations/AddAttributeTransformation.java:236-249 | when the scope is not examined, what the base-and-scope check would say has no influence |
| AddAttribute.UnexaminedFilterIgnored | src/com/unboundid/ldap/sdk/transformations/AddAttributeTransformation.java:254-267 | when the filter is not examined, what the filter check would say has no influence |
| AddAttribute.AddedContent | src/com/unboundid/ldap/sdk/transformations/AddAttributeTransformation.java:270-283 | in the copy, the DN and every other attribute are kept; the values go to the attribute the entry already holds under a recognised name, or to a new attribute under the attribute's own name; the old values stay first and the attribute ends up with exactly the old and the added values, compared byte for byte |
| Enumerations.FindFirst | tests/unit/src/com/unboundid/ldap/sdk/unboundidds/controls/MatchingEntryCountTypeTestCase.java:47-54 | the value found has the key asked for; nothing is found exactly when no value has it |
| Enumerations.FindFirstInjective | tests/unit/src/com/unboundid/ldap/sdk/unboundidds/controls/MatchingEntryCountTypeTestCase.java:47-50 | when no two values share a key, lookup finds a value exactly when that value's key is asked for |
| Enumerations.ValueOfName | tests/unit/src/com/unboundid/ldap/sdk/unboundidds/controls/MatchingEntryCountTypeTestCase.java:51-64 | the constant found has the name asked for; an IllegalArgumentException for that name occurs exactly when no constant has it |
| MatchingEntryCount.ValueOf | tests/unit/src/com/unboundid/ldap/sdk/unboundidds/controls/MatchingEntryCountTypeTestCase.java:47-54 | the lookup yields a type exactly when that type's BER type is asked for; it yields null exactly for bytes other than 0x80 to 0x83 |
| MatchingEntryCount.ValueOfName | tests/unit/src/com/unboundid/ldap/sdk/unboundidds/controls/MatchingEntryCountTypeTestCase.java:51-64 | the lookup yields a type exactly when its name is asked for, and otherwise an IllegalArgumentException |
| MatchingEntryCount.RoundTrips | tests/unit/src/com/unboundid/ldap/sdk/unboundidds/controls/MatchingEntryCountTypeTestCase.java:47-52 | every type is found again by its BER type and by its name |
| MatchingEntryCount.UndefinedCode | tests/unit/src/com/unboundid/ldap/sdk/unboundidds/controls/MatchingEntryCountTypeTestCase.java:54 | BER type 0x12 yields null |
| MatchingEntryCount.LowerCaseNameUndefined | tests/unit/src/com/unboundid/ldap/sdk/unboundidds/controls/MatchingEntryCountTypeTestCase.java:56-64 | every name that starts with a lower-case letter, "undefined" among them, names no constant and yields an IllegalArgumentException for that name |
| MatchingEntryCount.SpecificityOrder | tests/unit/src/com/unboundid/ldap/sdk/unboundidds/controls/MatchingEntryCountTypeTestCase.java:78-160 | isMoreSpecificThan and isLessSpecificThan agree with the ranking EXAMINED_COUNT > UNEXAMINED_COUNT > UPPER_BOUND > UNKNOWN |
| MatchingEntryCount.StrictTotalOrder | tests/unit/src/com/unboundid/ldap/sdk/unboundidds/controls/MatchingEntryCountTypeTestCase.java:78-160 | isMoreSpecificThan is irreflexive, transitive and total on distinct types; isLessSpecificThan is irreflexive and is its converse |
| ContentSyncInfo.ContextSpecificTag | tests/unit/src/com/unboundid/ldap/sdk/controls/ContentSyncInfoTypeTestCase.java:52 | the tag byte has class bits 10, the constructed bit as asked and the tag number in its low five bits |
| ContentSyncInfo.TypeByteIsChoiceTag | tests/unit/src/com/unboundid/ldap/sdk/controls/ContentSyncInfoTypeTestCase.java:52-127 | NEW_COOKIE is the primitive tag [0] (0x80); REFRESH_DELETE, REFRESH_PRESENT and SYNC_ID_SET are the constructed tags [1] to [3] (0xA1 to 0xA3) |
| ContentSyncInfo.ValueOf | tests/unit/src/com/unboundid/ldap/sdk/controls/ContentSyncInfoTypeTestCase.java:147-169 | the lookup yields a type exactly when that type's tag byte is asked for; it yields null for every other byte |
| ContentSyncInfo.ValueOfName | tests/unit/src/com/unboundid/ldap/sdk/controls/ContentSyncInfoTypeTestCase.java:154-167 | the lookup yields a type exactly when its name is asked for, and otherwise an IllegalArgumentException |
| ContentSyncInfo.RoundTrips | tests/unit/src/com/unboundid/ldap/sdk/controls/ContentSyncInfoTypeTestCase.java:147-157 | every type is found again by its tag byte and by its name |
| ContentSyncInfo.UndefinedCode | tests/unit/src/com/unboundid/ldap/sdk/controls/ContentSyncInfoTypeTestCase.java:169 | the byte 0x00 yields null |
| ContentSyncInfo.LowerCaseNameUndefined | tests/unit/src/com/unboundid/ldap/sdk/controls/ContentSyncInfoTypeTestCase.java:159-167 | every name that starts with a lower-case letter, "invalid" among them, names no constant and yields an IllegalArgumentException for that name |
| Pkcs10Version.DisplayName | tests/unit/src/com/unboundid/util/ssl/cert/PKCS10CertificateSigningRequestVersionTestCase.java:54 | every version has a non-empty display name |
| Pkcs10Version.ValueOf | tests/unit/src/com/unboundid/util/ssl/cert/PKCS10CertificateSigningRequestVersionTestCase.java:56-59 | the lookup yields a version exactly when that version's integer is asked for; it yields null for every integer but 0 |
| Pkcs10Version.ValueOfName | tests/unit/src/com/unboundid/util/ssl/cert/PKCS10CertificateSigningRequestVersionTestCase.java:61-87 | the lookup yields a version exactly when its name is asked for, and otherwise an IllegalArgumentException |
| Pkcs10Version.RoundTrips | tests/unit/src/com/unboundid/util/ssl/cert/PKCS10CertificateSigningRequestVersionTestCase.java:56-62 | every version is found again by its integer and by its name |
| Pkcs10Version.UndefinedCode | tests/unit/src/com/unboundid/util/ssl/cert/PKCS10CertificateSigningRequestVersionTestCase.java:77 | 1234 yields null |
| Pkcs10Version.LowerCaseNameUndefined | tests/unit/src/com/unboundid/util/ssl/cert/PKCS10CertificateSigningRequestVersionTestCase.java:79-87 | every name that starts with a lower-case letter, "nonexistent" among them, names no constant and yields an IllegalArgumentException for that name |
| Pkcs8Version.DisplayName | tests/unit/src/com/unboundid/util/ssl/cert/PKCS8PrivateKeyVersionTestCase.java:52 | every version has a non-empty display name |
| Pkcs8Version.ValueOf | tests/unit/src/com/unboundid/util/ssl/cert/PKCS8PrivateKeyVersionTestCase.java:54-55 | the lookup yields a version exactly when that version's integer is asked for; it yields null for every integer but 0 and 1 |
| Pkcs8Version.ValueOfName | tests/unit/src/com/unboundid/util/ssl/cert/PKCS8PrivateKeyVersionTestCase.java:57-83 | the lookup yields a version exactly when its name is asked for, and otherwise an IllegalArgumentException |
| Pkcs8Version.RoundTrips | tests/unit/src/com/unboundid/util/ssl/cert/PKCS8PrivateKeyVersionTestCase.java:54-58 | every version is found again by its integer and by its name |
| Pkcs8Version.UndefinedCode | tests/unit/src/com/unboundid/util/ssl/cert/PKCS8PrivateKeyVersionTestCase.java:73 | 1234 yields null |
| Pkcs8Version.LowerCaseNameUndefined | tests/unit/src/com/unboundid/util/ssl/cert/PKCS8PrivateKeyVersionTestCase.java:75-83 | every name that starts with a lower-case letter, "nonexistent" among them, names no constant and yields an IllegalArgumentException for that name |
| CommitDurability.ValueOf | tests/unit/src/com/unboundid/ldap/sdk/unboundidds/controls/TransactionSettingsCommitDurabilityTestCase.java:52-57 | the lookup yields a durability exactly when that durability's integer is asked for; it yields null for every integer outside 0 to 2 |
| CommitDurability.ValueOfName | tests/unit/src/com/unboundid/ldap/sdk/unboundidds/controls/TransactionSettingsCommitDurabilityTestCase.java:51-67 | the lookup yields a durability exactly when its name is asked for, and otherwise an IllegalArgumentException |
| CommitDurability.RoundTrips | tests/unit/src/com/unboundid/ldap/sdk/unboundidds/controls/TransactionSettingsCommitDurabilityTestCase.java:47-55 | every durability is found again by its name and by its integer |
| CommitDurability.UndefinedCode | tests/unit/src/com/unboundid/ldap/sdk/unboundidds/controls/TransactionSettingsCommitDurabilityTestCase.java:57 | 12345 yields null |
| CommitDurability.LowerCaseNameUndefined | tests/unit/src/com/unboundid/ldap/sdk/unboundidds/controls/TransactionSettingsCommitDurabilityTestCase.java:59-67 | every name that starts with a lower-case letter, "undefined" among them, names no constant and yields an IllegalArgumentException for that name |
| BindAuthenticationType.ValueOfName | tests/unit/src/com/unboundid/ldap/sdk/unboundidds/logs/BindRequestAuthenticationTypeTestCase.java:48-53 | the lookup yields a type exactly when its name is asked for, and otherwise an IllegalArgumentException |
| BindAuthenticationType.NameRoundTrip | tests/unit/src/com/unboundid/ldap/sdk/unboundidds/logs/BindRequestAuthenticationTypeTestCase.java:48-53 | every type is found again by its name, so no two types share a name |
| BindAuthenticationType.LowerCaseNameUndefined | tests/unit/src/com/unboundid/ldap/sdk/unboundidds/logs/BindRequestAuthenticationTypeTestCase.java:63-68 | every name that starts with a lower-case letter, "invalid" among them, names no constant and yields an IllegalArgumentException for that name |
| RevocationReason.BitPositionsAreIndices | tests/unit/src/com/unboundid/util/ssl/cert/CRLDistributionPointRevocationReasonTestCase.java:58-68 | each reason's bit position is its place among the reasons, so positions are distinct and below the number of reasons |
| RevocationReason.DisplayName | tests/unit/src/com/unboundid/util/ssl/cert/CRLDistributionPointRevocationReasonTestCase.java:56 | every reason has a non-empty display name |
| RevocationReason.ValueOfName | tests/unit/src/com/unboundid/util/ssl/cert/CRLDistributionPointRevocationReasonTestCase.java:80-83 | the lookup yields a reason exactly when its name is asked for, and otherwise an IllegalArgumentException |
| RevocationReason.NameRoundTrip | tests/unit/src/com/unboundid/util/ssl/cert/CRLDistributionPointRevocationReasonTestCase.java:80-83 | every reason is found again by its name |
| RevocationReason.LowerCaseNameUndefined | tests/unit/src/com/unboundid/util/ssl/cert/CRLDistributionPointRevocationReasonTestCase.java:176-184 | every name that starts with a lower-case letter, "nonexistent" among them, names no constant and yields an IllegalArgumentException for that name |
| RevocationReason.NamesDistinct | tests/unit/src/com/unboundid/util/ssl/cert/CRLDistributionPointRevocationReasonTestCase.java:80-83 | no two reasons share a constant name |
| RevocationReason.ReasonsSet | tests/unit/src/com/unboundid/util/ssl/cert/CRLDistributionPointRevocationReasonTestCase.java:62-68 | the loop over some of the reasons keeps exactly those whose bit the bit string sets |
| RevocationReason.GetReasonSet | tests/unit/src/com/unboundid/util/ssl/cert/CRLDistributionPointRevocationReasonTestCase.java:98-162 | a reason is in the set exactly when the bit string is long enough to hold its bit and that bit is set; bits beyond the last reason are ignored |
| RevocationReason.EncodedLength | tests/unit/src/com/unboundid/util/ssl/cert/CRLDistributionPointRevocationReasonTestCase.java:198-218 | the length written is one past the position of the highest reason in the set, or zero for the empty set |
| RevocationReason.ToBitString | tests/unit/src/com/unboundid/util/ssl/cert/CRLDistributionPointRevocationReasonTestCase.java:198-218 | the bit string has the given BER type, sets exactly the bits of the reasons in the set, and ends with a set bit |
| RevocationReason.ReasonSetRoundTrip | tests/unit/src/com/unboundid/util/ssl/cert/CRLDistributionPointRevocationReasonTestCase.java:198-218 | reading back the bit string written for any set of reasons gives that set |
| RevocationReason.BitStringRoundTrip | tests/unit/src/com/unboundid/util/ssl/cert/CRLDistributionPointRevocationReasonTestCase.java:198-218 | writing back the set read from a bit string with no more bits than reasons and no unset bit at its end gives that bit string |
| RevocationReason.SingleBit | tests/unit/src/com/unboundid/util/ssl/cert/CRLDistributionPointRevocationReasonTestCase.java:58-68 | the shortest bit string that sets only a reason's bit reads as that reason alone |
| RevocationReason.NoBitsSet | tests/unit/src/com/unboundid/util/ssl/cert/CRLDistributionPointRevocationReasonTestCase.java:98-123 | a bit string with no bit set, of any length including zero, reads as the empty set |
| RevocationReason.AllBitsSet | tests/unit/src/com/unboundid/util/ssl/cert/CRLDistributionPointRevocationReasonTestCase.java:137-162 | a bit string with every bit set reads as all reasons once it has at least one bit per reason |

## Left out

- Strings are not converted to and from UTF-8. The three subscription IDs are byte sequences, so the decoder's `stringValue()` conversion is not modelled.
- The SDK's ASN.1 classes (`ASN1Sequence`, `ASN1OctetString`, `ASN1BitString`) are not part of this model. They are represented by `Asn1.Element` and the byte layer in `asn1.dfy`:
  - the byte layer accepts non-minimal lengths;
  - it refuses indefinite lengths and lengths of more than four octets;
  - it refuses tags other than OCTET STRING and SEQUENCE, and a detail or ID with another tag is rejected.
  How leniently the SDK's own classes treat tags is not captured.
- SetNotificationSubscription.DecodeValue: decodes the whole value tree before it looks at the fields, so elements after the fourth must be well-formed OCTET STRING or SEQUENCE trees. The SDK decodes the value SEQUENCE one level deep and never inspects those elements. For example, `30 0E 04 01 6D 04 01 64 04 01 73 30 00 02 01 00` (a fifth element that is INTEGER 0) and `30 0F 04 01 6D 04 01 64 04 01 73 30 00 30 02 04 05` (a fifth element that is a SEQUENCE with truncated content) are accepted by the SDK and rejected by the model. The same eager decoding applies to the content of the details SEQUENCE. At the element level the fields are read whatever follows the fourth element (`FieldsOfValueElement`).
- The details are OCTET STRINGs whose BER type is always 0x04. Details with another BER type are not represented.
- Controls are opaque values that are carried through unchanged. The model treats a null control array as an empty sequence.
- The extended request base class is not part of this model. The response timeout is a plain integer, -1 meaning "not set". A decoded request starts with no timeout, rather than a copy of the generic request's timeout.
- `getExtendedRequestName` and `toString` are not modelled.
- SetNotificationSubscription.DecodeRequest: requires the generic request's value to be at most 2^31-1 bytes, the largest Java byte array. Every value the SDK can hold meets this.
- SetNotificationSubscription.CheckFields: adds a failure (`ValueTooLarge`) for fields whose encoding would not fit a Java byte array. The SDK would fail on allocation there instead.
- Attribute names are lower-cased in ASCII only. Attribute options (`cn;lang-en`) are not modelled: `getBaseName` and `getName` are taken to be the same name.
- The schema is a parameter: the attribute type definition of the attribute, or none. Loading the default standard schema when none is given is not modelled.
- The order in which `getAttribute(name, schema)` tries names is taken to be the given name, then the type's names, then its OID. The entry class that implements it is not part of this model. `LdapEntry.AttributeKey`, and through it the merge target in `AddAttribute.Added` and `AddAttribute.AddedContent`, depend on this assumed order.
- The SDK's `Entry.addAttribute` and `Attribute.mergeAttributes` are not part of this model, so the merge they perform is assumed, as the next three lines say.
- LdapEntry.MergeValuesContents: values are equal only when their bytes are equal. The SDK compares values with the attribute's matching rule, which ignores case for most string attributes. So adding `Foo` to `cn: foo` gives two values here and one in the SDK.
- LdapEntry.Entry.AddAttribute: when the entry has no attribute of that name, the model still merges into an empty list. This drops duplicates within the added values, where the SDK stores the attribute as given. The attribute is stored under its lower-cased name, not under its own spelling of the name.
- AddAttribute.AddedContent: "exactly the old and the added values, each once" holds for the byte-equality merge above, not for the SDK's matching-rule merge.
- DN base-and-scope matching and filter evaluation are function parameters whose answer may be that they throw. Their semantics are not modelled.
- The enumerations' own source files are not part of this model. Their tests assert only round trips, a few undefined values and a few names; the rest of each enumeration is taken from the SDK's published enums, whose source is not in view:
  - the MatchingEntryCount BER types 0x80 to 0x83, the CommitDurability integers 0 to 2, and the BindRequestAuthenticationType constants INTERNAL, SASL and SIMPLE come from the SDK, not from any standard or test;
  - every display name and constant name comes from the SDK;
  - only these values are also fixed by a standard: the RFC 5280 ReasonFlags bit positions, the RFC 4533 syncInfoValue CHOICE tags, version v1 = 0 of RFC 2986, and versions v1 = 0 and v2 = 1 of RFC 5958.
- Java `byte` is signed. Wire bytes here are unsigned, 0 to 255, so `(byte) 0x80` is 0x80.
- RevocationReason.ToBitString: the enumeration's own code is not part of this model. `toBitString` is modelled as writing bits up to the highest set one, the DER form for a named bit list (section 11.2.2 of ITU-T X.690). The unused-bits count that the BER type argument accompanies is not modelled.
- `ModRate` (a multi-threaded command-line load generator) is not part of this model, because it has no sequential core with statable properties.
- `IssuerAlternativeNameExtension` is not part of this model, because it only fixes OID 2.5.29.18 and forwards everything else.
