/**
 * The form-encoded request body (private.c sdb_params_export): sign the
 * set, append the signature as one more parameter, then join
 * key=escaped-value fields with '&'. Escaping follows section 2.1 of
 * RFC 3986: every byte outside the unreserved set of section 2.3 (ALPHA,
 * DIGIT, "-", ".", "_", "~") becomes '%' and two upper-case hex digits.
 */
module FormBody {
  import opened Wrappers
  import opened Errors
  import opened Params
  import opened Signer

  predicate IsByte(c: char)
  {
    c as int < 256
  }

  predicate IsBytes(s: string)
  {
    forall i :: 0 <= i < |s| ==> IsByte(s[i])
  }

  /** The unreserved characters of section 2.3 of RFC 3986. */
  predicate Unreserved(c: char)
  {
    ('A' <= c <= 'Z') || ('a' <= c <= 'z') || ('0' <= c <= '9') || c == '-' || c == '.' || c == '_' || c == '~'
  }

  function HexDigit(d: nat): (c: char)
    requires d < 16
    ensures HexValue(c) == Some(d)
  {
    if d < 10 then ('0' as int + d) as char else ('A' as int + d - 10) as char
  }

  function HexValue(c: char): (r: Option<nat>)
    ensures r.Some? ==> r.value < 16
  {
    if '0' <= c <= '9' then Some(c as int - '0' as int)
    else if 'A' <= c <= 'F' then Some(c as int - 'A' as int + 10)
    else if 'a' <= c <= 'f' then Some(c as int - 'a' as int + 10)
    else None
  }

  /** One byte, percent-encoded unless unreserved. */
  function EncodeByte(c: char): (r: string)
    requires IsByte(c)
    ensures 1 <= |r| <= 3
    ensures forall i :: 0 <= i < |r| ==> r[i] != '&' && r[i] != '='
  {
    if Unreserved(c) then [c] else ['%', HexDigit(c as int / 16), HexDigit(c as int % 16)]
  }

  function PercentEncode(v: string): (r: string)
    requires IsBytes(v)
    ensures |r| <= 3 * |v|
    ensures forall i :: 0 <= i < |r| ==> r[i] != '&' && r[i] != '='
  {
    if |v| == 0 then "" else EncodeByte(v[0]) + PercentEncode(v[1..])
  }

  /** The inverse of PercentEncode: "%XY" becomes one byte, anything else stands for itself. */
  function PercentDecode(e: string): (r: Option<string>)
  {
    if |e| == 0 then Some("")
    else if e[0] == '%' then
      if |e| < 3 then None
      else
        match (HexValue(e[1]), HexValue(e[2]), PercentDecode(e[3..]))
        case (Some(hi), Some(lo), Some(rest)) => Some([(hi * 16 + lo) as char] + rest)
        case _ => None
    else
      match PercentDecode(e[1..])
      case Some(rest) => Some([e[0]] + rest)
      case None => None
  }

  lemma {:induction false} PercentRoundTrip(v: string)
    requires IsBytes(v)
    ensures PercentDecode(PercentEncode(v)) == Some(v)
  {
    if |v| > 0 {
      PercentRoundTrip(v[1..]);
      var e := PercentEncode(v);
      var rest := PercentEncode(v[1..]);
      if Unreserved(v[0]) {
        assert e == [v[0]] + rest;
        assert e[1..] == rest;
      } else {
        assert e == ['%', HexDigit(v[0] as int / 16), HexDigit(v[0] as int % 16)] + rest;
        assert e[3..] == rest;
      }
      assert v == [v[0]] + v[1..];
    }
  }

  /** curl_easy_escape: byte strings escape; anything else is refused. */
  function CurlEscape(v: string): (r: Option<string>)
    ensures r.Some? <==> IsBytes(v)
    ensures r.Some? ==> PercentDecode(r.value) == Some(v)
  {
    if IsBytes(v) then
      PercentRoundTrip(v);
      Some(PercentEncode(v))
    else None
  }

  /** The escaper bound: at most three output characters per input byte. */
  ghost predicate EscapeBounded(esc: string -> Option<string>)
  {
    forall v :: esc(v).Some? ==> |esc(v).value| <= 3 * |v|
  }

  /** One field: key=escaped value. */
  function Field(p: Pair, e: string): string
  {
    p.key + "=" + e
  }

  /** The body string built for a pair sequence, None when an escape failed. */
  function Body(ps: seq<Pair>, esc: string -> Option<string>): (r: Option<string>)
    ensures r.None? <==> exists i :: 0 <= i < |ps| && esc(ps[i].value).None?
    ensures r.Some? && |ps| > 0 ==> StartsWithField(r.value, ps[0], esc)
  {
    if |ps| == 0 then Some("")
    else
      match esc(ps[0].value)
      case None => None
      case Some(e) =>
        match Body(ps[1..], esc)
        case None =>
          assert forall i :: 1 <= i < |ps| ==> ps[i] == ps[1..][i - 1];
          None
        case Some(rest) =>
          assert forall i :: 1 <= i < |ps| ==> ps[i] == ps[1..][i - 1];
          Some(Field(ps[0], e) + (if |ps| > 1 then "&" + rest else rest))
  }

  predicate StartsWithField(body: string, p: Pair, esc: string -> Option<string>)
  {
    esc(p.value).Some? && |Field(p, esc(p.value).value)| <= |body|
    && body[..|Field(p, esc(p.value).value)|] == Field(p, esc(p.value).value)
  }

  /** The allocation size sdb_params_export computes, before its 4 spare bytes. */
  function Allotted(ps: seq<Pair>): nat
  {
    if |ps| == 0 then 0 else |ps[0].key| + 1 + 3 * |ps[0].value| + 1 + Allotted(ps[1..])
  }

  /** With a bounded escaper the body and its NUL fit in the allocated buffer. */
  lemma {:induction false} BodyFits(ps: seq<Pair>, esc: string -> Option<string>)
    requires EscapeBounded(esc) && Body(ps, esc).Some?
    ensures |Body(ps, esc).value| + 1 <= Allotted(ps) + 1
    ensures |ps| > 0 ==> |Body(ps, esc).value| + 1 <= Allotted(ps)
  {
    if |ps| > 0 {
      BodyFits(ps[1..], esc);
    }
  }

  /** The outcome of exporting: status, the set afterwards, the body (NULL on failure). */
  datatype Exported = Exported(code: int, params: ParamSet, body: Option<string>)

  /**
   * sdb_params_export: sign first, then append Signature, then build the
   * body; any failure leaves no body.
   */
  function Export(version: int, ps: ParamSet, crypto: Crypto, esc: string -> Option<string>): (r: Exported)
    requires |ps.pairs| >= 2
    requires version == 0 ==> ps.pairs[0].key == "Action" && ps.pairs[1].key == "Timestamp"
    ensures r.code == OK <==> r.body.Some?
    ensures r.code == OK ==>
      var signed := SignParams(version, ps, crypto);
      signed.code == OK && |r.params.pairs| == |ps.pairs| + 1
      && r.params.pairs[..|ps.pairs|] == signed.params.pairs
      && r.params.pairs[|ps.pairs|] == Pair("Signature", signed.signature.value, ps.id)
      && r.body == Body(r.params.pairs, esc)
    ensures r.code != OK ==> r.code in {INVALID_SIGNATURE_VER, OPEN_SSL_FAILED, CAPACITY_TOO_SMALL, URL_ENCODE_FAILED}
    ensures r.code == CAPACITY_TOO_SMALL <==> SignParams(version, ps, crypto).code == OK && |ps.pairs| >= ps.capacity
    ensures r.code == URL_ENCODE_FAILED <==>
      SignParams(version, ps, crypto).code == OK && |ps.pairs| < ps.capacity && Body(r.params.pairs, esc).None?
  {
    var signed := SignParams(version, ps, crypto);
    if Failed(signed.code) then Exported(signed.code, signed.params, None)
    else
      var added := Add(signed.params, "Signature", signed.signature.value);
      if Failed(added.code) then Exported(added.code, added.params, None)
      else
        match Body(added.params.pairs, esc)
        case None => Exported(URL_ENCODE_FAILED, added.params, None)
        case Some(b) => Exported(OK, added.params, Some(b))
  }

  /** An exported set ends with its Signature. */
  lemma ExportSignatureLast(version: int, ps: ParamSet, crypto: Crypto, esc: string -> Option<string>)
    requires |ps.pairs| >= 2
    requires version == 0 ==> ps.pairs[0].key == "Action" && ps.pairs[1].key == "Timestamp"
    ensures var r := Export(version, ps, crypto, esc);
      r.code == OK ==> |r.params.pairs| > 0 && Entries(r.params.pairs)[|r.params.pairs| - 1].0 == "Signature"
  {
  }

  /** sdb_post: the body, or NULL when exporting failed. */
  function Post(version: int, ps: ParamSet, crypto: Crypto, esc: string -> Option<string>): (r: Option<string>)
    requires |ps.pairs| >= 2
    requires version == 0 ==> ps.pairs[0].key == "Action" && ps.pairs[1].key == "Timestamp"
    ensures r.Some? <==> Export(version, ps, crypto, esc).code == OK
  {
    Export(version, ps, crypto, esc).body
  }

  /** Split a body at its first '&' (or its end). */
  function IndexOf(s: string, c: char): (k: nat)
    ensures k <= |s|
    ensures forall i :: 0 <= i < k ==> s[i] != c
    ensures k < |s| ==> s[k] == c
  {
    if |s| == 0 then 0 else if s[0] == c then 0 else 1 + IndexOf(s[1..], c)
  }

  /** Read a body back into key/value entries, the way a server parses the form. */
  function DecodeBody(s: string): (r: Option<seq<(string, string)>>)
    decreases |s|
  {
    if |s| == 0 then Some([])
    else
      var f := IndexOf(s, '&');
      var field := s[..f];
      var eq := IndexOf(field, '=');
      if eq == |field| then None
      else
        var rest := if f < |s| then DecodeBody(s[f + 1..]) else Some([]);
        match (PercentDecode(field[eq + 1..]), rest)
        case (Some(v), Some(entries)) => Some([(field[..eq], v)] + entries)
        case _ => None
  }

  lemma IndexOfPrefix(a: string, b: string, c: char)
    requires forall i :: 0 <= i < |a| ==> a[i] != c
    ensures IndexOf(a + [c] + b, c) == |a|
    ensures IndexOf(a, c) == |a|
  {
    if |a| > 0 {
      assert (a + [c] + b)[1..] == a[1..] + [c] + b;
      IndexOfPrefix(a[1..], b, c);
    }
  }

  predicate PlainKey(k: string)
  {
    forall i :: 0 <= i < |k| ==> k[i] != '&' && k[i] != '='
  }

  /** Where DecodeBody cuts a body that starts with one field. */
  lemma FieldSplit(key: string, e: string, tail: string)
    requires PlainKey(key) && forall i :: 0 <= i < |e| ==> e[i] != '&'
    requires tail == "" || tail[0] == '&'
    ensures var field := key + "=" + e;
      var s := field + tail;
      IndexOf(s, '&') == |field| && s[..|field|] == field
      && IndexOf(field, '=') == |key| && field[..|key|] == key && field[|key| + 1..] == e
      && (tail != "" ==> s[|field| + 1..] == tail[1..])
  {
    var field := key + "=" + e;
    assert forall i :: 0 <= i < |field| ==> field[i] != '&';
    assert field == key + ['='] + e;
    IndexOfPrefix(key, e, '=');
    if tail == "" {
      IndexOfPrefix(field, "", '&');
      assert field + tail == field;
    } else {
      assert field + tail == field + ['&'] + tail[1..];
      IndexOfPrefix(field, tail[1..], '&');
    }
  }

  /** Decoding a body that starts with one field: that field's entry, then the entries of the rest. */
  lemma DecodeField(key: string, e: string, tail: string, v: string, entries: seq<(string, string)>)
    requires PlainKey(key) && forall i :: 0 <= i < |e| ==> e[i] != '&'
    requires PercentDecode(e) == Some(v)
    requires (tail == "" && entries == []) || (tail != "" && tail[0] == '&' && DecodeBody(tail[1..]) == Some(entries))
    ensures DecodeBody(key + "=" + e + tail) == Some([(key, v)] + entries)
  {
    FieldSplit(key, e, tail);
  }

  /** An escaper whose output never holds '&' and always decodes back to its input. */
  ghost predicate Reversible(esc: string -> Option<string>)
  {
    forall v :: esc(v).Some? ==>
      PercentDecode(esc(v).value) == Some(v) && forall i :: 0 <= i < |esc(v).value| ==> esc(v).value[i] != '&'
  }

  /**
   * With a reversible escaper that accepts every value, decoding the body
   * gives back exactly the pairs' keys and values, in order, when no key
   * contains '&' or '='.
   */
  lemma {:induction false} BodyRoundTripWith(ps: seq<Pair>, esc: string -> Option<string>)
    requires Reversible(esc)
    requires forall i :: 0 <= i < |ps| ==> PlainKey(ps[i].key) && esc(ps[i].value).Some?
    ensures Body(ps, esc).Some?
    ensures DecodeBody(Body(ps, esc).value) == Some(Entries(ps))
  {
    if |ps| > 0 {
      BodyRoundTripWith(ps[1..], esc);
      var e := esc(ps[0].value).value;
      var rest := Body(ps[1..], esc).value;
      var tail := if |ps| > 1 then "&" + rest else rest;
      if |ps| == 1 {
        assert Entries(ps[1..]) == [];
        assert rest == "";
      } else {
        assert tail[1..] == rest;
      }
      DecodeField(ps[0].key, e, tail, ps[0].value, Entries(ps[1..]));
      BodyCons(ps, esc);
      EntriesCons(ps);
    }
  }

  lemma BodyCons(ps: seq<Pair>, esc: string -> Option<string>)
    requires |ps| > 0 && esc(ps[0].value).Some? && Body(ps[1..], esc).Some?
    ensures Body(ps, esc) == Some(Field(ps[0], esc(ps[0].value).value)
                                  + (if |ps| > 1 then "&" + Body(ps[1..], esc).value else Body(ps[1..], esc).value))
  {
  }

  /**
   * What the server reads from an exported request: with a reversible
   * escaper and keys free of '&' and '=', the body decodes to the signed
   * set's entries followed by the Signature entry.
   */
  lemma ExportDecodes(version: int, ps: ParamSet, crypto: Crypto, esc: string -> Option<string>)
    requires |ps.pairs| >= 2
    requires version == 0 ==> ps.pairs[0].key == "Action" && ps.pairs[1].key == "Timestamp"
    requires Reversible(esc)
    requires forall i :: 0 <= i < |ps.pairs| ==> PlainKey(ps.pairs[i].key)
    ensures var r := Export(version, ps, crypto, esc);
      var signed := SignParams(version, ps, crypto);
      r.code == OK ==>
        DecodeBody(r.body.value) == Some(Entries(signed.params.pairs) + [("Signature", signed.signature.value)])
  {
    var r := Export(version, ps, crypto, esc);
    var signed := SignParams(version, ps, crypto);
    if r.code == OK {
      var sig := Pair("Signature", signed.signature.value, ps.id);
      assert r.params.pairs == signed.params.pairs + [sig];
      PermutedKeysPlain(ps.pairs, signed.params.pairs);
      DecodeSigned(signed.params.pairs, sig, esc);
    }
  }

  /** A permutation of pairs whose keys are free of '&' and '=' has such keys too. */
  lemma PermutedKeysPlain(ps: seq<Pair>, qs: seq<Pair>)
    requires multiset(qs) == multiset(ps)
    requires forall i :: 0 <= i < |ps| ==> PlainKey(ps[i].key)
    ensures forall i :: 0 <= i < |qs| ==> PlainKey(qs[i].key)
  {
    forall i | 0 <= i < |qs| ensures PlainKey(qs[i].key) {
      assert qs[i] in multiset(ps);
    }
  }

  /** A set with the Signature appended decodes to the set's entries, then the Signature's. */
  lemma DecodeSigned(qs: seq<Pair>, sig: Pair, esc: string -> Option<string>)
    requires Reversible(esc) && PlainKey(sig.key)
    requires forall i :: 0 <= i < |qs| ==> PlainKey(qs[i].key)
    requires Body(qs + [sig], esc).Some?
    ensures DecodeBody(Body(qs + [sig], esc).value) == Some(Entries(qs) + [(sig.key, sig.value)])
  {
    SnocPlain(qs, sig, esc);
    BodyRoundTripWith(qs + [sig], esc);
    EntriesSnoc(qs, sig);
  }

  lemma SnocPlain(qs: seq<Pair>, sig: Pair, esc: string -> Option<string>)
    requires PlainKey(sig.key) && forall i :: 0 <= i < |qs| ==> PlainKey(qs[i].key)
    requires Body(qs + [sig], esc).Some?
    ensures forall i :: 0 <= i < |qs + [sig]| ==> PlainKey((qs + [sig])[i].key) && esc((qs + [sig])[i].value).Some?
  {
    var all := qs + [sig];
    forall i | 0 <= i < |all| ensures PlainKey(all[i].key) && esc(all[i].value).Some? {
      if i < |qs| {
        assert all[i] == qs[i];
      }
    }
  }

  lemma EntriesSnoc(qs: seq<Pair>, sig: Pair)
    ensures Entries(qs + [sig]) == Entries(qs) + [(sig.key, sig.value)]
  {
    EntriesAppend(qs, [sig]);
    assert Entries([sig]) == [(sig.key, sig.value)];
  }

  lemma EntriesCons(ps: seq<Pair>)
    requires |ps| > 0
    ensures Entries(ps) == [(ps[0].key, ps[0].value)] + Entries(ps[1..])
  {
  }

  /**
   * Escaping with curl's escaper is lossless: when no key contains '&' or
   * '=' and every value is a byte string, decoding the body gives back
   * exactly the pairs' keys and values, in order.
   */
  lemma BodyRoundTrip(ps: seq<Pair>)
    requires forall i :: 0 <= i < |ps| ==> PlainKey(ps[i].key) && IsBytes(ps[i].value)
    ensures Body(ps, CurlEscape).Some?
    ensures DecodeBody(Body(ps, CurlEscape).value) == Some(Entries(ps))
  {
    BodyRoundTripWith(ps, CurlEscape);
  }
}
