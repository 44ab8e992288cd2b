/**
 * Request signing (private.c sdb_sign and sdb_params_sign, util.c base64).
 * HMAC-SHA1 and the base64 text of a digest are collaborators passed in
 * as functions; the string that is signed is modelled exactly.
 */
module Signer {
  import opened Wrappers
  import opened Errors
  import opened Params
  import opened KeyOrder

  /** EVP_MAX_MD_SIZE: the signature buffer holds twice this many bytes. */
  const EVP_MAX_MD_SIZE: nat := 64

  /**
   * The cryptographic collaborators: mac is HMAC-SHA1 keyed with the
   * account secret; encode is the base64 text of a digest as the memory
   * BIO holds it, without the newline the BIO appends.
   */
  datatype Crypto = Crypto(mac: string -> seq<bv8>, encode: seq<bv8> -> string)

  /**
   * util.c base64: the BIO text plus its newline must fit strictly inside
   * olength bytes; the result length 0 means "did not fit". On success the
   * output is the text without the newline, NUL-terminated within olength.
   */
  function Base64(text: string, olength: nat): (r: (nat, string))
    ensures r.0 == 0 <==> |text| + 1 >= olength || |text| == 0
    ensures r.0 != 0 ==> r.1 == text && |r.1| == r.0 && r.0 + 1 <= olength
  {
    var bioLength := |text| + 1;
    if bioLength >= olength then (0, "")
    else (bioLength - 1, text)
  }

  /** sdb_sign: the base64 HMAC of data, or OPEN_SSL_FAILED when it came back empty. */
  function Sign(crypto: Crypto, data: string): (r: (int, Option<string>))
    ensures r.0 == OK || r.0 == OPEN_SSL_FAILED
    ensures r.0 == OK <==> r.1.Some?
    ensures r.1.Some? ==> r.1.value == crypto.encode(crypto.mac(data)) && 0 < |r.1.value| < 2 * EVP_MAX_MD_SIZE
  {
    var b := Base64(crypto.encode(crypto.mac(data)), 2 * EVP_MAX_MD_SIZE);
    if b.0 == 0 then (OPEN_SSL_FAILED, None) else (OK, Some(b.1))
  }

  /** The string signed under signature version 0: Action's value, then Timestamp's. */
  function Canonical0(ps: seq<Pair>): (r: string)
    requires |ps| >= 2
    ensures |r| == |ps[0].value| + |ps[1].value|
    ensures r[..|ps[0].value|] == ps[0].value && r[|ps[0].value|..] == ps[1].value
  {
    ps[0].value + ps[1].value
  }

  /** The string signed under signature version 1: every key followed by its value, in order. */
  function Canonical1(ps: seq<Pair>): (r: string)
    ensures |ps| == 0 ==> r == ""
    ensures |ps| > 0 ==> |ps[0].key| + |ps[0].value| <= |r| && r[..|ps[0].key| + |ps[0].value|] == ps[0].key + ps[0].value
  {
    if |ps| == 0 then "" else ps[0].key + ps[0].value + Canonical1(ps[1..])
  }

  /** The version 1 string of two runs of pairs is the two strings one after the other. */
  lemma {:induction false} Canonical1Append(a: seq<Pair>, b: seq<Pair>)
    ensures Canonical1(a + b) == Canonical1(a) + Canonical1(b)
  {
    if |a| == 0 {
      assert a + b == b;
    } else {
      assert (a + b)[1..] == a[1..] + b;
      Canonical1Append(a[1..], b);
    }
  }

  /** The outcome of signing: status, the set afterwards (sorted by version 1), the signature. */
  datatype Signed = Signed(code: int, params: ParamSet, signature: Option<string>)

  /**
   * sdb_params_sign. Its callers guarantee at least two pairs and, for
   * version 0, Action and Timestamp in front (the function asserts both).
   * Version 1 sorts the set in place before concatenating; the C buffer
   * for that string is one byte short of its terminating NUL, which a
   * string model does not represent.
   */
  function SignParams(version: int, ps: ParamSet, crypto: Crypto): (r: Signed)
    requires |ps.pairs| >= 2
    requires version == 0 ==> ps.pairs[0].key == "Action" && ps.pairs[1].key == "Timestamp"
    ensures version == 0 ==> r.params == ps && (r.code, r.signature) == Sign(crypto, Canonical0(ps.pairs))
    ensures version == 1 ==>
      r.params == ps.(pairs := SortByKey(ps.pairs))
      && (r.code, r.signature) == Sign(crypto, Canonical1(SortByKey(ps.pairs)))
    ensures version != 0 && version != 1 ==> r == Signed(INVALID_SIGNATURE_VER, ps, None)
    ensures r.code == OK <==> r.signature.Some?
    ensures multiset(r.params.pairs) == multiset(ps.pairs) && r.params.id == ps.id
    ensures |r.params.pairs| == |ps.pairs| && r.params.capacity == ps.capacity
  {
    if version == 0 then
      var s := Sign(crypto, Canonical0(ps.pairs));
      Signed(s.0, ps, s.1)
    else if version == 1 then
      var sorted := ps.(pairs := SortByKey(ps.pairs));
      var s := Sign(crypto, Canonical1(sorted.pairs));
      Signed(s.0, sorted, s.1)
    else Signed(INVALID_SIGNATURE_VER, ps, None)
  }

  /**
   * Under version 1 the signature does not depend on the order in which
   * parameters were added, as long as no two keys differ only in case.
   */
  lemma SignatureOrderIndependent(ps: ParamSet, qs: ParamSet, crypto: Crypto)
    requires |ps.pairs| >= 2 && multiset(ps.pairs) == multiset(qs.pairs)
    requires DistinctRanks(ps.pairs, KeyOf)
    ensures |qs.pairs| >= 2
    ensures SignParams(1, ps, crypto).signature == SignParams(1, qs, crypto).signature
    ensures SignParams(1, ps, crypto).params.pairs == SignParams(1, qs, crypto).params.pairs
  {
    assert |qs.pairs| == |multiset(qs.pairs)| == |multiset(ps.pairs)| == |ps.pairs|;
    var a := SortByKey(ps.pairs);
    var b := SortByKey(qs.pairs);
    assert multiset(b) == multiset(ps.pairs) && SortedBy(b, KeyOf);
  }
}
