/**
 * The result-set record (include/sdb.h struct sdb_response, response.c
 * sdb_response_init and sdb_response_prepare_append). The C union and its
 * type tag are one Payload datatype whose constructor determines the tag;
 * the chain of internal blocks, one per fetched page, is a head Page and
 * the older pages, newest first.
 */
module Responses {
  import opened Wrappers
  import opened Errors
  import opened Params

  datatype Attribute = Attribute(name: string, value: string)

  /** An item; attributes is None for an item listed by name only (size 0, NULL array). */
  datatype Item = Item(name: string, attributes: Option<seq<Attribute>>)
  {
    function Size(): nat
    {
      if attributes.None? then 0 else |attributes.value|
    }
  }

  /**
   * The typed part of a response. Domain metadata fields are keyed by
   * their element names; a field the server did not send is absent (the C
   * structure leaves it uninitialised).
   */
  datatype Payload =
    | NoResult
    | DomainList(domains: seq<string>)
    | DomainMetadata(fields: map<string, int>)
    | AttributeList(attributes: seq<Attribute>)
    | ItemList(items: seq<Item>)

  /** The response type tag of include/sdb.h. */
  function Tag(p: Payload): (t: int)
    ensures 0 <= t <= 4
    ensures t == R_NONE <==> p.NoResult?
    ensures t == R_DOMAIN_LIST <==> p.DomainList?
    ensures t == R_DOMAIN_METADATA <==> p.DomainMetadata?
    ensures t == R_ATTRIBUTE_LIST <==> p.AttributeList?
    ensures t == R_ITEM_LIST <==> p.ItemList?
  {
    match p
    case NoResult => R_NONE
    case DomainList(_) => R_DOMAIN_LIST
    case DomainMetadata(_) => R_DOMAIN_METADATA
    case AttributeList(_) => R_ATTRIBUTE_LIST
    case ItemList(_) => R_ITEM_LIST
  }

  /** The size field: the number of list elements (0 for no result and for domain metadata). */
  function Size(p: Payload): nat
  {
    match p
    case NoResult => 0
    case DomainList(ds) => |ds|
    case DomainMetadata(_) => 0
    case AttributeList(attrs) => |attrs|
    case ItemList(items) => |items|
  }

  /**
   * One internal block: the continuation token its page carried, and the
   * parameters and command kept for fetching further pages by hand.
   */
  datatype Page = Page(nextToken: Option<string>, params: Option<ParamSet>, command: Option<string>)

  const EmptyPage: Page := Page(None, None, None)

  /**
   * A response. error is the service error index (0 for none, 42 for a
   * code the library does not know); multiHandle is the transfer that
   * produced it in a multi-call batch.
   */
  datatype Response = Response(
    payload: Payload,
    hasMore: bool,
    error: int,
    errorMessage: Option<string>,
    numErrors: nat,
    multiHandle: Option<nat>,
    returnCode: int,
    head: Page,
    older: seq<Page>)

  /** sdb_response_init (and sdb_response_allocate). */
  function Init(): (r: Response)
    ensures Tag(r.payload) == R_NONE && Size(r.payload) == 0
    ensures !r.hasMore && r.error == 0 && r.errorMessage.None? && r.numErrors == 0
    ensures r.multiHandle.None? && r.returnCode == OK
    ensures r.head == EmptyPage && r.older == []
  {
    Response(NoResult, false, 0, None, 0, None, OK, EmptyPage, [])
  }

  /**
   * sdb_response_prepare_append: a new head block takes over the params
   * and command of the old one (which loses them); error, message and
   * return code are reset; the payload and the more-pages flag stay.
   */
  function PrepareAppend(r: Response): (a: Response)
    ensures a.payload == r.payload && Tag(a.payload) == Tag(r.payload) && Size(a.payload) == Size(r.payload)
    ensures a.hasMore == r.hasMore && a.numErrors == r.numErrors && a.multiHandle == r.multiHandle
    ensures a.error == 0 && a.errorMessage.None? && a.returnCode == OK
    ensures a.head == Page(None, r.head.params, r.head.command)
    ensures a.older == [r.head.(params := None, command := None)] + r.older
  {
    r.(head := Page(None, r.head.params, r.head.command),
       older := [r.head.(params := None, command := None)] + r.older,
       returnCode := OK, error := 0, errorMessage := None)
  }

  /**
   * The call a result set records for fetching further pages by hand:
   * the head block's parameters and command (nothing for no result set).
   */
  function CallOf(r: Option<Response>): (Option<ParamSet>, Option<string>)
  {
    if r.None? then (None, None) else (r.value.head.params, r.value.head.command)
  }

  /** All pages, newest first. */
  function Pages(r: Response): seq<Page>
  {
    [r.head] + r.older
  }

  /** The first recorded token in a page sequence. */
  function FirstToken(ps: seq<Page>): (t: Option<string>)
    ensures t.Some? <==> exists i :: 0 <= i < |ps| && ps[i].nextToken.Some?
    ensures t.Some? ==>
      (exists i :: 0 <= i < |ps| && ps[i].nextToken == t && (forall j :: 0 <= j < i ==> ps[j].nextToken.None?))
  {
    if |ps| == 0 then None
    else if ps[0].nextToken.Some? then ps[0].nextToken
    else
      var t := FirstToken(ps[1..]);
      assert forall i :: 1 <= i < |ps| ==> ps[i] == ps[1..][i - 1];
      t
  }

  /**
   * The token sdb_execute_rs, sdb_next and the multi-call retries send to
   * continue a result set: the head block's token only.
   */
  function HeadToken(r: Response): (t: Option<string>)
    ensures t.Some? ==> t == ContinuationToken(r)
    ensures t != ContinuationToken(r) ==> |r.older| > 0 && t.None?
  {
    r.head.nextToken
  }

  /**
   * The token a continuation should send: the most recently recorded one.
   * After a page that failed with a service error (whose block records no
   * token) this is still the token of the last page that succeeded.
   */
  function ContinuationToken(r: Response): (t: Option<string>)
    ensures r.head.nextToken.Some? ==> t == r.head.nextToken
    ensures t.None? <==> forall i :: 0 <= i < |Pages(r)| ==> Pages(r)[i].nextToken.None?
  {
    FirstToken(Pages(r))
  }

  lemma {:induction false} SameTokens(ps: seq<Page>, qs: seq<Page>)
    requires |ps| == |qs| && forall i :: 0 <= i < |ps| ==> ps[i].nextToken == qs[i].nextToken
    ensures FirstToken(ps) == FirstToken(qs)
  {
    if |ps| > 0 {
      SameTokens(ps[1..], qs[1..]);
    }
  }

  /** A response that says more pages exist also records where to continue. */
  predicate Continuable(r: Response)
  {
    r.hasMore ==> ContinuationToken(r).Some?
  }

  /**
   * Appending keeps the continuation token and the continuable property,
   * but the head block no longer holds a token.
   */
  lemma PrepareAppendKeepsToken(r: Response)
    ensures ContinuationToken(PrepareAppend(r)) == ContinuationToken(r)
    ensures Continuable(r) ==> Continuable(PrepareAppend(r))
    ensures HeadToken(PrepareAppend(r)).None?
  {
    var a := PrepareAppend(r);
    assert Pages(a)[1..] == [r.head.(params := None, command := None)] + r.older;
    SameTokens(Pages(a)[1..], Pages(r));
  }

  /** A fresh response is continuable and holds no token. */
  lemma InitContinuable()
    ensures Continuable(Init()) && ContinuationToken(Init()).None?
  {
  }
}
