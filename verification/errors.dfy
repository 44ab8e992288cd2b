/**
 * Status codes of the library (include/sdb.h): the library's own codes,
 * the three code families built by macro from curl, curl-multi and
 * service error indices, the table of service error names, and the
 * success/failure/early-return macros.
 */
module Errors {
  import opened Wrappers

  // The library's own status codes.
  const OK: int := 0
  const CURL_INIT_FAILED: int := -1
  const OPEN_SSL_FAILED: int := -2
  const CAPACITY_TOO_SMALL: int := -3
  const INVALID_SIGNATURE_VER: int := -4
  const URL_ENCODE_FAILED: int := -5
  const NOT_INITIALIZED: int := -6
  const ALREADY_INITIALIZED: int := -7
  const INVALID_XML_RESPONSE: int := -8
  const INVALID_ERR_RESPONSE: int := -9
  const INVALID_META_RESPONSE: int := -10
  const FD_ERROR: int := -11
  const INTERNAL_ERROR: int := -12
  const AWS_INTERNAL_ERROR_2: int := -13
  const CURL_INTERNAL_ERROR: int := -14
  const RETRY_FAILED: int := -15

  /** Number of service error names the library claims to know. */
  const AWS_NUM_ERRORS: nat := 42

  /** A curl transfer code c (a CURLcode, non-negative) as a library status. */
  function CurlError(c: int): (r: int)
    ensures c > 0 ==> r < -1000
    ensures CurlCode(r) == c
  {
    -1000 - c
  }

  /** Inverse of CurlError. */
  function CurlCode(r: int): int
  {
    -1000 - r
  }

  /** A curl-multi code c as a library status. */
  function CurlmError(c: int): (r: int)
    ensures c > 0 ==> r < -1500
    ensures CurlmCode(r) == c
  {
    -1500 - c
  }

  /** Inverse of CurlmError. */
  function CurlmCode(r: int): int
  {
    -1500 - r
  }

  /** A service error index i as a library status. */
  function AwsError(i: int): (r: int)
    ensures 0 <= i < AWS_NUM_ERRORS ==> -2000 - AWS_NUM_ERRORS < r <= -2000
    ensures AwsIndex(r) == i
  {
    -2000 - i
  }

  /** Inverse of AwsError: the table index a service status stands for. */
  function AwsIndex(code: int): int
  {
    -(code + 2000)
  }

  /** The code lies in the band SDB_AWS_ERROR_NAME looks up in the table. */
  predicate InAwsBand(code: int)
  {
    !(code > -2000 || code <= -2000 - AWS_NUM_ERRORS)
  }

  /** Curl (below 100), curl-multi (below 500) and service codes never collide. */
  lemma CodeFamiliesDisjoint(c: int, m: int, i: int)
    requires 0 < c < 100 && 0 < m < 100 && 0 <= i < AWS_NUM_ERRORS
    ensures CurlError(c) != CurlmError(m) && CurlmError(m) != AwsError(i)
    ensures CurlError(c) != AwsError(i)
    ensures CurlError(c) < RETRY_FAILED && !InAwsBand(CurlError(c)) && InAwsBand(AwsError(i))
  {
  }

  // The named service codes, in the header's order.
  const ACCESS_FAILURE: int := -2000
  const AUTH_FAILURE: int := -2001
  const AUTH_MISSING_FAILURE: int := -2002
  const FEATURE_DEPRECATED: int := -2003
  const AWS_INTERNAL_ERROR: int := -2004
  const INVALID_ACTION: int := -2005
  const INVALID_BATCH_REQUEST: int := -2006
  const INVALID_HTTP_AUTH_HEADER: int := -2007
  const INVALID_HTTP_REQUEST: int := -2008
  const INVALID_LITERAL: int := -2009
  const INVALID_NEXT_TOKEN: int := -2010
  const INVALID_NUMBER_PREDICATES: int := -2011
  const INVALID_NUMBER_VALUE_TESTS: int := -2012
  const INVALID_PARAMETER_COMBINATION: int := -2013
  const INVALID_PARAMETER_VALUE: int := -2014
  const INVALID_QUERY_EXPRESSION: int := -2015
  const INVALID_RESPONSE_GROUPS: int := -2016
  const INVALID_SERVICE: int := -2017
  const INVALID_SOAP_REQUEST: int := -2018
  const INVALID_URI: int := -2019
  const INVALID_WS_ADDRESSING_PROPERTY: int := -2020
  const MALFORMED_SOAP_SIGNATURE: int := -2021
  const MISSING_ACTION: int := -2022
  const MISSING_PARAMETER: int := -2023
  const MISSING_WS_ADDRESSING_PROPERTY: int := -2024
  const NO_SUCH_DOMAIN: int := -2025
  const NO_SUCH_VERSION: int := -2026
  const NOT_YET_IMPLEMENTED: int := -2027
  const NUMBER_DOMAINS_EXCEEDED: int := -2028
  const NUMBER_DOMAIN_ATTRIBUTES_EXCEEDED: int := -2029
  const NUMBER_DOMAIN_BYTES_EXCEEDED: int := -2030
  const NUMBER_ITEM_ATTRIBUTES_EXCEEDED: int := -2031
  const NUMBER_SUBMITTED_ATTRIBUTES_EXCEEDED: int := -2032
  const REQUEST_EXPIRED: int := -2033
  const REQUEST_TIMEOUT: int := -2034
  const SERVICE_UNAVAILABLE: int := -2035
  const SIGNATURE_DOES_NOT_MATCH: int := -2036
  const TOO_MANY_REQUESTED_ATTRIBUTES: int := -2037
  const UNSUPPORTED_HTTP_VERB: int := -2038
  const UNSUPPORTED_NEXT_TOKEN: int := -2039
  const URI_TOO_LONG: int := -2040
  const DUPLICATE_ITEM_NAME: int := -2041

  const NamedAwsCodes: seq<int> := [
    ACCESS_FAILURE, AUTH_FAILURE, AUTH_MISSING_FAILURE, FEATURE_DEPRECATED,
    AWS_INTERNAL_ERROR, INVALID_ACTION, INVALID_BATCH_REQUEST, INVALID_HTTP_AUTH_HEADER,
    INVALID_HTTP_REQUEST, INVALID_LITERAL, INVALID_NEXT_TOKEN, INVALID_NUMBER_PREDICATES,
    INVALID_NUMBER_VALUE_TESTS, INVALID_PARAMETER_COMBINATION, INVALID_PARAMETER_VALUE,
    INVALID_QUERY_EXPRESSION, INVALID_RESPONSE_GROUPS, INVALID_SERVICE, INVALID_SOAP_REQUEST,
    INVALID_URI, INVALID_WS_ADDRESSING_PROPERTY, MALFORMED_SOAP_SIGNATURE, MISSING_ACTION,
    MISSING_PARAMETER, MISSING_WS_ADDRESSING_PROPERTY, NO_SUCH_DOMAIN, NO_SUCH_VERSION,
    NOT_YET_IMPLEMENTED, NUMBER_DOMAINS_EXCEEDED, NUMBER_DOMAIN_ATTRIBUTES_EXCEEDED,
    NUMBER_DOMAIN_BYTES_EXCEEDED, NUMBER_ITEM_ATTRIBUTES_EXCEEDED,
    NUMBER_SUBMITTED_ATTRIBUTES_EXCEEDED, REQUEST_EXPIRED, REQUEST_TIMEOUT,
    SERVICE_UNAVAILABLE, SIGNATURE_DOES_NOT_MATCH, TOO_MANY_REQUESTED_ATTRIBUTES,
    UNSUPPORTED_HTTP_VERB, UNSUPPORTED_NEXT_TOKEN, URI_TOO_LONG, DUPLICATE_ITEM_NAME
  ]

  /**
   * The name table exactly as the library defines it: 41 names, one fewer
   * than AWS_NUM_ERRORS, with no entry for DuplicateItemName.
   */
  const AwsErrorTableAsWritten: seq<string> := [
    "AccessFailure", "AuthFailure", "AuthMissingFailure", "FeatureDeprecated",
    "InternalError", "InvalidAction", "InvalidBatchRequest", "InvalidHTTPAuthHeader",
    "InvalidHttpRequest", "InvalidLiteral", "InvalidNextToken", "InvalidNumberPredicates",
    "InvalidNumberValueTests", "InvalidParameterCombination", "InvalidParameterValue",
    "InvalidQueryExpression", "InvalidResponseGroups", "InvalidService", "InvalidSOAPRequest",
    "InvalidURI", "InvalidWSAddressingProperty", "MalformedSOAPSignature", "MissingAction",
    "MissingParameter", "MissingWSAddressingProperty", "NoSuchDomain", "NoSuchVersion",
    "NotYetImplemented", "NumberDomainsExceeded", "NumberDomainAttributesExceeded",
    "NumberDomainBytesExceeded", "NumberItemAttributesExceeded",
    "NumberSubmittedAttributesExceeded", "RequestExpired", "RequestTimeout",
    "ServiceUnavailable", "SignatureDoesNotMatch", "TooManyRequestedAttributes",
    "UnsupportedHttpVerb", "UnsupportedNextToken", "URITooLong"
  ]

  /** The table with the entry the header's numbering implies at index 41. */
  const AwsErrorTable: seq<string> := AwsErrorTableAsWritten + ["DuplicateItemName"]

  /** AccessFailure sits at index 0 of the table and nowhere else. */
  lemma AccessFailureOnlyFirst()
    ensures AwsErrorTable[0] == "AccessFailure"
    ensures forall j :: 1 <= j < |AwsErrorTable| ==> AwsErrorTable[j] != "AccessFailure"
  {
    assert forall j :: 1 <= j < |AwsErrorTableAsWritten| ==> AwsErrorTableAsWritten[j] != "AccessFailure";
  }

  /** ServiceUnavailable sits at index 35 of the table and nowhere after it. */
  lemma ServiceUnavailableLast()
    ensures AwsErrorTable[35] == "ServiceUnavailable"
    ensures forall j :: 35 < j < |AwsErrorTable| ==> AwsErrorTable[j] != "ServiceUnavailable"
  {
    assert forall j :: 35 < j < |AwsErrorTableAsWritten| ==> AwsErrorTableAsWritten[j] != "ServiceUnavailable";
  }

  /** The header's numbering: named code i is AwsError(i), ending at 41. */
  lemma NamedCodesConsecutive()
    ensures |NamedAwsCodes| == AWS_NUM_ERRORS == |AwsErrorTable|
    ensures forall i :: 0 <= i < |NamedAwsCodes| ==> NamedAwsCodes[i] == AwsError(i)
    ensures SERVICE_UNAVAILABLE == AwsError(35) && AwsErrorTable[35] == "ServiceUnavailable"
    ensures DUPLICATE_ITEM_NAME == AwsError(41) && AwsErrorTable[41] == "DuplicateItemName"
  {
  }

  /**
   * SDB_AWS_ERROR_NAME as written: "UnknownError" outside the band,
   * otherwise the table entry; None where the index runs past the 41-entry
   * table (a read of memory that is not part of the table).
   */
  function AwsErrorNameAsWritten(code: int): (r: Option<string>)
    ensures r.None? <==> code == DUPLICATE_ITEM_NAME
    ensures !InAwsBand(code) ==> r == Some("UnknownError")
  {
    if !InAwsBand(code) then Some("UnknownError")
    else if AwsIndex(code) < |AwsErrorTableAsWritten| then Some(AwsErrorTableAsWritten[AwsIndex(code)])
    else None
  }

  /** SDB_AWS_ERROR_NAME over the completed table. */
  function AwsErrorName(code: int): (r: string)
    ensures InAwsBand(code) ==> 0 <= AwsIndex(code) < |AwsErrorTable| && r == AwsErrorTable[AwsIndex(code)]
    ensures !InAwsBand(code) ==> r == "UnknownError"
  {
    if InAwsBand(code) then AwsErrorTable[AwsIndex(code)] else "UnknownError"
  }

  /** The name of every named code is its table entry, and the two tables agree where both are defined. */
  lemma AwsErrorNameAgrees(i: int)
    requires 0 <= i < AWS_NUM_ERRORS
    ensures AwsErrorName(NamedAwsCodes[i]) == AwsErrorTable[i]
    ensures i < 41 ==> AwsErrorNameAsWritten(NamedAwsCodes[i]) == Some(AwsErrorName(NamedAwsCodes[i]))
    ensures AwsErrorName(NamedAwsCodes[i]) != "UnknownError"
  {
    NamedCodesConsecutive();
  }

  /** The as-written table has no name for DuplicateItemName. */
  lemma DuplicateItemNameUnnamedAsWritten()
    ensures AwsErrorNameAsWritten(DUPLICATE_ITEM_NAME).None?
    ensures |AwsErrorTableAsWritten| == AWS_NUM_ERRORS - 1
    ensures AwsErrorName(DUPLICATE_ITEM_NAME) == "DuplicateItemName"
  {
  }

  /** SDB_SUCCESS. */
  predicate Success(x: int)
  {
    x == 0
  }

  /** SDB_FAILED. */
  predicate Failed(x: int)
  {
    x != 0
  }

  lemma SuccessFailedComplementary(x: int)
    ensures Success(x) != Failed(x)
    ensures Success(x) <==> x == OK
  {
  }

  /**
   * SDB_SAFE over a sequence of steps: the code the enclosing function
   * returns, which is the first failing step's code, or OK after all steps.
   */
  function Safe(steps: seq<int>): (r: int)
    ensures r == OK <==> forall k :: 0 <= k < |steps| ==> Success(steps[k])
    ensures r != OK ==>
      (exists k :: 0 <= k < |steps| && steps[k] == r && (forall j :: 0 <= j < k ==> Success(steps[j])))
  {
    if |steps| == 0 then OK
    else if Failed(steps[0]) then steps[0]
    else
      var r := Safe(steps[1..]);
      r
  }

  // Response type tags.
  const R_NONE: int := 0
  const R_DOMAIN_LIST: int := 1
  const R_DOMAIN_METADATA: int := 2
  const R_ATTRIBUTE_LIST: int := 3
  const R_ITEM_LIST: int := 4
}
