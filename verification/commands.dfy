/**
 * The command functions of sdb.c (sdb_put_many, sdb_put_batch, sdb_get,
 * sdb_select, ...) as the parameter sets they build, and the request
 * assembly every execute path performs on top of them (private.c
 * sdb_execute, sdb_execute_rs, sdb_execute_multi).
 */
module Commands {
  import opened Wrappers
  import opened Errors
  import opened Text
  import opened Params
  import opened Responses
  import opened Signer
  import opened Numbers

  /** One item of a batch put: its name and its attributes (struct sdb_item). */
  datatype BatchItem = BatchItem(name: string, attributes: seq<Attribute>)

  /** The commands of the library, with their arguments. */
  datatype Command =
    | CreateDomain(domain: string)
    | DeleteDomain(domain: string)
    | ListDomains
    | DomainMetadataOf(domain: string)
    | Put(domain: string, item: string, attribute: Attribute)
    | Replace(domain: string, item: string, attribute: Attribute)
    | PutMany(domain: string, item: string, attributes: seq<Attribute>)
    | ReplaceMany(domain: string, item: string, attributes: seq<Attribute>)
    | PutBatch(domain: string, items: seq<BatchItem>)
    | ReplaceBatch(domain: string, items: seq<BatchItem>)
    | Get(domain: string, item: string, key: string)
    | GetMany(domain: string, item: string, keys: seq<string>)
    | GetAll(domain: string, item: string)
    | Query(domain: string, query: string)
    | QueryAttr(domain: string, query: string, key: string)
    | QueryAttrMany(domain: string, query: string, keys: seq<string>)
    | QueryAttrAll(domain: string, query: string)
    | Select(expression: string)

  /** The Action each command sends. */
  function Action(c: Command): string
  {
    match c
    case CreateDomain(_) => "CreateDomain"
    case DeleteDomain(_) => "DeleteDomain"
    case ListDomains => "ListDomains"
    case DomainMetadataOf(_) => "DomainMetadata"
    case Put(_, _, _) => "PutAttributes"
    case Replace(_, _, _) => "PutAttributes"
    case PutMany(_, _, _) => "PutAttributes"
    case ReplaceMany(_, _, _) => "PutAttributes"
    case PutBatch(_, _) => "BatchPutAttributes"
    case ReplaceBatch(_, _) => "BatchPutAttributes"
    case Get(_, _, _) => "GetAttributes"
    case GetMany(_, _, _) => "GetAttributes"
    case GetAll(_, _) => "GetAttributes"
    case Query(_, _) => "Query"
    case QueryAttr(_, _, _) => "QueryWithAttributes"
    case QueryAttrMany(_, _, _) => "QueryWithAttributes"
    case QueryAttrAll(_, _) => "QueryWithAttributes"
    case Select(_) => "Select"
  }

  /** Commands that return a result set (executed with SDB_COMMAND_EXECUTE_RS). */
  predicate ReturnsResults(c: Command)
  {
    c.ListDomains? || c.DomainMetadataOf? || c.Get? || c.GetMany? || c.GetAll? || c.Query?
    || c.QueryAttr? || c.QueryAttrMany? || c.QueryAttrAll? || c.Select?
  }

  /** A numbered request key: "Attribute.<i>.<field>". */
  function AttributeKey(i: nat, field: string): string
  {
    "Attribute." + Show(i) + "." + field
  }

  function AttributeNameKey(i: nat): string
  {
    "AttributeName." + Show(i)
  }

  /** The per-attribute fields: Name and Value, and Replace for the replace commands. */
  const PUT_FIELDS: seq<string> := ["Name", "Value"]
  const REPLACE_FIELDS: seq<string> := ["Name", "Value", "Replace"]

  function FieldValue(a: Attribute, field: string): string
  {
    if field == "Name" then a.name else if field == "Value" then a.value else "true"
  }

  lemma DivLess(m: nat, n: nat, w: nat)
    requires w > 0 && m < n * w
    ensures m / w < n && m % w < w
  {
  }

  function AttributeCell(attrs: seq<Attribute>, fields: seq<string>, m: nat): (string, string)
    requires |fields| > 0 && m < |attrs| * |fields|
  {
    DivLess(m, |attrs|, |fields|);
    var i, k := m / |fields|, m % |fields|;
    (AttributeKey(i, fields[k]), FieldValue(attrs[i], fields[k]))
  }

  /**
   * The loop of sdb_put_many / sdb_replace_many: for each attribute i in
   * order, its fields under "Attribute.<i>.<field>".
   */
  function AttributeFields(attrs: seq<Attribute>, fields: seq<string>): (r: seq<(string, string)>)
    requires |fields| > 0
    ensures |r| == |attrs| * |fields|
  {
    seq(|attrs| * |fields|, m requires 0 <= m < |attrs| * |fields| => AttributeCell(attrs, fields, m))
  }

  /** The loop of sdb_get_many / sdb_query_attr_many: "AttributeName.<i>" for each name. */
  function NameFields(keys: seq<string>): (r: seq<(string, string)>)
    ensures |r| == |keys|
  {
    seq(|keys|, i requires 0 <= i < |keys| => (AttributeNameKey(i), keys[i]))
  }

  function BatchPrefix(i: nat): string
  {
    "Item." + Show(i) + "."
  }

  /** Every key prefixed with p. */
  function Prefixed(p: string, kvs: seq<(string, string)>): (r: seq<(string, string)>)
    ensures |r| == |kvs|
  {
    seq(|kvs|, m requires 0 <= m < |kvs| => (p + kvs[m].0, kvs[m].1))
  }

  /** The attribute fields of batch item i: "Item.<i>.Attribute.<j>.<field>". */
  function ItemAttributeFields(i: nat, attrs: seq<Attribute>, fields: seq<string>): (r: seq<(string, string)>)
    requires |fields| > 0
    ensures |r| == |attrs| * |fields|
  {
    Prefixed(BatchPrefix(i), AttributeFields(attrs, fields))
  }

  function TotalAttributes(items: seq<BatchItem>): nat
  {
    if |items| == 0 then 0 else |items[0].attributes| + TotalAttributes(items[1..])
  }

  /** The fields of batch item number i: its name, then its attributes' fields. */
  function ItemFields(item: BatchItem, i: nat, fields: seq<string>): (r: seq<(string, string)>)
    requires |fields| > 0
    ensures |r| == 1 + |item.attributes| * |fields|
  {
    [(BatchPrefix(i) + "ItemName", item.name)] + ItemAttributeFields(i, item.attributes, fields)
  }

  /** The loops of sdb_put_batch / sdb_replace_batch, from item number i on. */
  function BatchFields(items: seq<BatchItem>, i: nat, fields: seq<string>): (r: seq<(string, string)>)
    requires |fields| > 0
    ensures |r| == |items| + TotalAttributes(items) * |fields|
  {
    if |items| == 0 then []
    else ItemFields(items[0], i, fields) + BatchFields(items[1..], i + 1, fields)
  }

  /** The domain is named by one of the first two fields. */
  predicate NamesDomain(fields: seq<(string, string)>, d: string)
  {
    (|fields| >= 1 && fields[0] == ("DomainName", d)) || (|fields| >= 2 && fields[1] == ("DomainName", d))
  }

  /** The parameters each command function adds, in order. */
  function Fields(c: Command): (r: seq<(string, string)>)
    ensures r == [] <==> c.ListDomains?
    ensures !c.ListDomains? && !c.Select? ==> NamesDomain(r, c.domain)
  {
    match c
    case CreateDomain(d) => [("DomainName", d)]
    case DeleteDomain(d) => [("DomainName", d)]
    case ListDomains => []
    case DomainMetadataOf(d) => [("DomainName", d)]
    case Put(d, it, a) => [("ItemName", it), ("DomainName", d)] + AttributeFields([a], PUT_FIELDS)
    case Replace(d, it, a) => [("ItemName", it), ("DomainName", d)] + AttributeFields([a], REPLACE_FIELDS)
    case PutMany(d, it, attrs) => [("ItemName", it), ("DomainName", d)] + AttributeFields(attrs, PUT_FIELDS)
    case ReplaceMany(d, it, attrs) => [("ItemName", it), ("DomainName", d)] + AttributeFields(attrs, REPLACE_FIELDS)
    case PutBatch(d, items) => [("DomainName", d)] + BatchFields(items, 0, PUT_FIELDS)
    case ReplaceBatch(d, items) => [("DomainName", d)] + BatchFields(items, 0, REPLACE_FIELDS)
    case Get(d, it, k) => [("ItemName", it), ("DomainName", d), ("AttributeName.0", k)]
    case GetMany(d, it, keys) => [("ItemName", it), ("DomainName", d)] + NameFields(keys)
    case GetAll(d, it) => [("ItemName", it), ("DomainName", d)]
    case Query(d, q) => [("DomainName", d), ("QueryExpression", q)]
    case QueryAttr(d, q, k) => [("DomainName", d), ("QueryExpression", q), ("AttributeName.0", k)]
    case QueryAttrMany(d, q, keys) => [("DomainName", d), ("QueryExpression", q)] + NameFields(keys)
    case QueryAttrAll(d, q) => [("DomainName", d), ("QueryExpression", q)]
    case Select(e) => [("SelectExpression", e)]
  }

  /** The capacity each command function allocates (SDB_COMMAND_PREPARE). */
  function Capacity(c: Command): (n: nat)
    ensures n >= 8 && |Fields(c)| <= n
  {
    match c
    case PutMany(_, _, attrs) => 8 + |attrs| * 2
    case ReplaceMany(_, _, attrs) => 8 + |attrs| * 3
    case PutBatch(_, items) => 8 + |items| + TotalAttributes(items) * 2
    case ReplaceBatch(_, items) => 8 + |items| + TotalAttributes(items) * 3
    case GetMany(_, _, keys) => 8 + |keys|
    case QueryAttrMany(_, _, keys) => 8 + |keys|
    case _ => 8
  }

  /** Add pairs one by one, stopping at the first refusal (SDB_SAFE around sdb_params_add). */
  function AddPairs(ps: ParamSet, kvs: seq<(string, string)>): (r: Step)
    ensures |ps.pairs| + |kvs| <= ps.capacity ==>
      r.code == OK && r.params.id == ps.id && r.params.capacity == ps.capacity
      && Entries(r.params.pairs) == Entries(ps.pairs) + kvs
      && r.params.pairs[..|ps.pairs|] == ps.pairs
    ensures |ps.pairs| <= ps.capacity < |ps.pairs| + |kvs| ==> r.code == CAPACITY_TOO_SMALL
    ensures ps.Valid() ==> r.params.Valid()
    decreases |kvs|
  {
    if |kvs| == 0 then
      assert Entries(ps.pairs) + kvs == Entries(ps.pairs);
      Step(OK, ps)
    else
      var s := Add(ps, kvs[0].0, kvs[0].1);
      if Failed(s.code) then s
      else
        var r := AddPairs(s.params, kvs[1..]);
        assert |ps.pairs| + |kvs| <= ps.capacity ==> Entries(r.params.pairs) == Entries(ps.pairs) + kvs by {
          if |ps.pairs| + |kvs| <= ps.capacity {
            assert s.params.pairs == ps.pairs + [Pair(kvs[0].0, kvs[0].1, ps.id)];
            EntriesAppend(ps.pairs, [Pair(kvs[0].0, kvs[0].1, ps.id)]);
            assert kvs == [kvs[0]] + kvs[1..];
          }
        }
        r
  }

  /**
   * The parameter set a command function builds. Every command allocates
   * enough room, so building never fails.
   */
  function Prepare(c: Command, id: nat): (r: Step)
    ensures r.code == OK && r.params.Valid() && r.params.id == id
    ensures Entries(r.params.pairs) == Fields(c) && r.params.capacity == Capacity(c)
  {
    AddPairs(Alloc(id, Capacity(c)), Fields(c))
  }

  /** sdb_put and sdb_get are the one-element cases of sdb_put_many and sdb_get_many. */
  lemma SingleIsMany(d: string, it: string, a: Attribute, k: string)
    ensures Fields(Put(d, it, a)) == Fields(PutMany(d, it, [a]))
    ensures Fields(Replace(d, it, a)) == Fields(ReplaceMany(d, it, [a]))
    ensures Fields(Get(d, it, k)) == Fields(GetMany(d, it, [k]))
    ensures Fields(QueryAttr(d, it, k)) == Fields(QueryAttrMany(d, it, [k]))
  {
    assert Fields(Put(d, it, a)) == Fields(PutMany(d, it, [a]));
    assert Fields(Replace(d, it, a)) == Fields(ReplaceMany(d, it, [a]));
    NameFieldsOne(k);
    assert Fields(Get(d, it, k)) == [("ItemName", it), ("DomainName", d)] + NameFields([k]);
    assert Fields(QueryAttr(d, it, k)) == [("DomainName", d), ("QueryExpression", it)] + NameFields([k]);
  }

  lemma NameFieldsOne(k: string)
    ensures NameFields([k]) == [("AttributeName.0", k)]
  {
    assert Show(0) == "0";
    assert AttributeNameKey(0) == "AttributeName.0";
    assert NameFields([k])[0] == ("AttributeName.0", k);
  }

  // ---------------------------------------------------------------------
  // Reading the numbered fields back

  /** The value of the first pair with the given key. */
  function Lookup(kvs: seq<(string, string)>, key: string): (r: Option<string>)
    ensures r.Some? ==> |kvs| > 0
  {
    if |kvs| == 0 then None
    else if kvs[0].0 == key then Some(kvs[0].1)
    else Lookup(kvs[1..], key)
  }

  /** A key finds nothing exactly when no entry has it. */
  lemma {:induction false} LookupNone(kvs: seq<(string, string)>, key: string)
    ensures Lookup(kvs, key).None? <==> forall i :: 0 <= i < |kvs| ==> kvs[i].0 != key
    decreases |kvs|
  {
    if |kvs| > 0 {
      LookupNone(kvs[1..], key);
      assert forall i :: 1 <= i < |kvs| ==> kvs[i] == kvs[1..][i - 1];
    }
  }

  predicate DistinctKeys(kvs: seq<(string, string)>)
  {
    forall i, j :: 0 <= i < j < |kvs| ==> kvs[i].0 != kvs[j].0
  }

  lemma {:induction false} LookupDistinct(kvs: seq<(string, string)>, m: nat)
    requires DistinctKeys(kvs) && m < |kvs|
    ensures Lookup(kvs, kvs[m].0) == Some(kvs[m].1)
    decreases m
  {
    if m > 0 {
      assert kvs[0].0 != kvs[m].0;
      assert kvs[1..][m - 1] == kvs[m];
      LookupDistinct(kvs[1..], m - 1);
    }
  }

  /** A decimal rendering followed by text that does not start with a digit splits uniquely. */
  lemma ShowSplit(a: nat, b: nat, s: string, t: string)
    requires s == "" || !IsDigit(s[0])
    requires t == "" || !IsDigit(t[0])
    requires Show(a) + s == Show(b) + t
    ensures a == b && s == t
  {
    var x, y := Show(a), Show(b);
    assert x == (x + s)[..|x|] && y == (y + t)[..|y|];
    if a != b {
      ShowInjective(a, b);
    }
    assert s == (x + s)[|x|..] && t == (y + t)[|y|..];
  }

  lemma StripPrefix(p: string, x: string, y: string)
    requires p + x == p + y
    ensures x == y
  {
    assert x == (p + x)[|p|..] && y == (p + y)[|p|..];
  }

  /** Attribute keys of different numbers or different fields differ. */
  lemma AttributeKeyInjective(i: nat, j: nat, f: string, g: string)
    requires AttributeKey(i, f) == AttributeKey(j, g)
    ensures i == j && f == g
  {
    assert AttributeKey(i, f) == "Attribute." + (Show(i) + ("." + f));
    assert AttributeKey(j, g) == "Attribute." + (Show(j) + ("." + g));
    StripPrefix("Attribute.", Show(i) + ("." + f), Show(j) + ("." + g));
    ShowSplit(i, j, "." + f, "." + g);
    StripPrefix(".", f, g);
  }

  lemma AttributeFieldsDistinct(attrs: seq<Attribute>, fields: seq<string>)
    requires |fields| > 0
    requires forall k, l :: 0 <= k < l < |fields| ==> fields[k] != fields[l]
    ensures DistinctKeys(AttributeFields(attrs, fields))
  {
    var r := AttributeFields(attrs, fields);
    var w := |fields|;
    forall m1, m2 | 0 <= m1 < m2 < |r| ensures r[m1].0 != r[m2].0 {
      DivLess(m1, |attrs|, w);
      DivLess(m2, |attrs|, w);
      if r[m1].0 == r[m2].0 {
        AttributeKeyInjective(m1 / w, m2 / w, fields[m1 % w], fields[m2 % w]);
      }
    }
  }

  lemma DivModOf(i: nat, k: nat, w: nat)
    requires k < w
    ensures (w * i + k) / w == i && (w * i + k) % w == k
  {
    var n := w * i + k;
    var q := n / w;
    assert n == w * q + n % w;
    if q > i {
      MulMonotone(w, i + 1, q);
    } else if q < i {
      MulMonotone(w, q + 1, i);
    }
  }

  lemma MulMonotone(w: nat, x: int, y: int)
    requires x <= y
    ensures w * x <= w * y
  {
  }

  /** The field f of attribute i is read back from its numbered key. */
  lemma AttributeFieldsLookup(attrs: seq<Attribute>, fields: seq<string>, i: nat, k: nat)
    requires |fields| > 0 && i < |attrs| && k < |fields|
    requires forall k1, k2 :: 0 <= k1 < k2 < |fields| ==> fields[k1] != fields[k2]
    ensures Lookup(AttributeFields(attrs, fields), AttributeKey(i, fields[k])) == Some(FieldValue(attrs[i], fields[k]))
  {
    var w := |fields|;
    var kvs := AttributeFields(attrs, fields);
    AttributeFieldsDistinct(attrs, fields);
    MulStep(i, |attrs|, w);
    DivModOf(i, k, w);
    var m := w * i + k;
    assert kvs[m] == (AttributeKey(i, fields[k]), FieldValue(attrs[i], fields[k]));
    LookupDistinct(kvs, m);
  }

  /** A field the command does not send is not found under any attribute number. */
  lemma AttributeFieldsAbsent(attrs: seq<Attribute>, fields: seq<string>, i: nat, f: string)
    requires |fields| > 0 && f !in fields
    ensures Lookup(AttributeFields(attrs, fields), AttributeKey(i, f)).None?
  {
    var w := |fields|;
    var kvs := AttributeFields(attrs, fields);
    LookupNone(kvs, AttributeKey(i, f));
    forall m | 0 <= m < |kvs| ensures kvs[m].0 != AttributeKey(i, f) {
      DivLess(m, |attrs|, w);
      if kvs[m].0 == AttributeKey(i, f) {
        AttributeKeyInjective(m / w, i, fields[m % w], f);
      }
    }
  }

  /**
   * What the server reads back from a put_many / replace_many request:
   * under "Attribute.<i>.Name" the i-th key, under "Attribute.<i>.Value"
   * the i-th value, and "true" under "Attribute.<i>.Replace" exactly when
   * replacing.
   */
  lemma AttributeFieldsReadBack(attrs: seq<Attribute>, replace: bool, i: nat)
    requires i < |attrs|
    ensures var kvs := AttributeFields(attrs, if replace then REPLACE_FIELDS else PUT_FIELDS);
      Lookup(kvs, AttributeKey(i, "Name")) == Some(attrs[i].name)
      && Lookup(kvs, AttributeKey(i, "Value")) == Some(attrs[i].value)
      && (replace ==> Lookup(kvs, AttributeKey(i, "Replace")) == Some("true"))
      && (!replace ==> Lookup(kvs, AttributeKey(i, "Replace")).None?)
  {
    var fields := if replace then REPLACE_FIELDS else PUT_FIELDS;
    AttributeFieldsLookup(attrs, fields, i, 0);
    AttributeFieldsLookup(attrs, fields, i, 1);
    if replace {
      AttributeFieldsLookup(attrs, fields, i, 2);
    } else {
      AttributeFieldsAbsent(attrs, fields, i, "Replace");
    }
  }

  /** The first match in a concatenation is the first match in its front part, if any. */
  lemma {:induction false} LookupAppend(a: seq<(string, string)>, b: seq<(string, string)>, key: string)
    ensures Lookup(a + b, key) == if Lookup(a, key).Some? then Lookup(a, key) else Lookup(b, key)
    decreases |a|
  {
    if |a| > 0 {
      assert (a + b)[0] == a[0] && (a + b)[1..] == a[1..] + b;
      LookupAppend(a[1..], b, key);
    } else {
      assert a + b == b;
    }
  }

  lemma DistinctAppend(a: seq<(string, string)>, b: seq<(string, string)>)
    requires DistinctKeys(a) && DistinctKeys(b)
    requires forall m :: 0 <= m < |a| ==> Lookup(b, a[m].0).None?
    ensures DistinctKeys(a + b)
  {
    var c := a + b;
    forall m1, m2 | 0 <= m1 < m2 < |c| ensures c[m1].0 != c[m2].0 {
      if m1 < |a| <= m2 {
        LookupNone(b, a[m1].0);
        assert Lookup(b, a[m1].0).None? && c[m2] == b[m2 - |a|];
      }
    }
  }

  /** Prefixing every key keeps what each prefixed key finds. */
  lemma {:induction false} LookupPrefixed(p: string, kvs: seq<(string, string)>, key: string)
    ensures Lookup(Prefixed(p, kvs), p + key) == Lookup(kvs, key)
    decreases |kvs|
  {
    if |kvs| > 0 {
      if kvs[0].0 != key && p + kvs[0].0 == p + key {
        StripPrefix(p, kvs[0].0, key);
      }
      assert Prefixed(p, kvs)[1..] == Prefixed(p, kvs[1..]);
      LookupPrefixed(p, kvs[1..], key);
    }
  }

  lemma DistinctPrefixed(p: string, kvs: seq<(string, string)>)
    requires DistinctKeys(kvs)
    ensures DistinctKeys(Prefixed(p, kvs))
  {
    var r := Prefixed(p, kvs);
    forall m1, m2 | 0 <= m1 < m2 < |r| ensures r[m1].0 != r[m2].0 {
      if r[m1].0 == r[m2].0 {
        StripPrefix(p, kvs[m1].0, kvs[m2].0);
      }
    }
  }

  /** A key made from an item number and a field name splits back into both. */
  lemma BatchPrefixSplit(a: nat, b: nat, s: string, t: string)
    requires BatchPrefix(a) + s == BatchPrefix(b) + t
    ensures a == b && s == t
  {
    assert BatchPrefix(a) + s == "Item." + (Show(a) + ("." + s));
    assert BatchPrefix(b) + t == "Item." + (Show(b) + ("." + t));
    StripPrefix("Item.", Show(a) + ("." + s), Show(b) + ("." + t));
    ShowSplit(a, b, "." + s, "." + t);
    StripPrefix(".", s, t);
  }

  /** No attribute field is named ItemName. */
  lemma ItemNameNotAttribute(attrs: seq<Attribute>, fields: seq<string>)
    requires |fields| > 0
    ensures Lookup(AttributeFields(attrs, fields), "ItemName").None?
  {
    var kvs := AttributeFields(attrs, fields);
    LookupNone(kvs, "ItemName");
    forall m | 0 <= m < |kvs| ensures kvs[m].0 != "ItemName" {
      DivLess(m, |attrs|, |fields|);
      assert kvs[m].0[0] == 'A';
    }
  }

  /** Every key of item number i's fields is "Item.<i>." followed by the field's own name. */
  lemma ItemFieldsKey(item: BatchItem, i: nat, fields: seq<string>, m: nat)
    requires |fields| > 0 && m < 1 + |item.attributes| * |fields|
    ensures ItemFields(item, i, fields)[m].0
         == BatchPrefix(i) + (if m == 0 then "ItemName" else AttributeFields(item.attributes, fields)[m - 1].0)
  {
  }

  /** Item number i's fields hold no key of another item. */
  lemma ItemFieldsMiss(item: BatchItem, i: nat, fields: seq<string>, a: nat, suffix: string)
    requires |fields| > 0 && a != i
    ensures Lookup(ItemFields(item, i, fields), BatchPrefix(a) + suffix).None?
  {
    var kvs := ItemFields(item, i, fields);
    LookupNone(kvs, BatchPrefix(a) + suffix);
    forall m | 0 <= m < |kvs| ensures kvs[m].0 != BatchPrefix(a) + suffix {
      ItemFieldsKey(item, i, fields, m);
      var x := if m == 0 then "ItemName" else AttributeFields(item.attributes, fields)[m - 1].0;
      if kvs[m].0 == BatchPrefix(a) + suffix {
        BatchPrefixSplit(i, a, x, suffix);
      }
    }
  }

  /** The batch fields from item number i on hold no key of an earlier item. */
  lemma {:induction false} BatchFieldsBelow(items: seq<BatchItem>, i: nat, fields: seq<string>, a: nat, suffix: string)
    requires |fields| > 0 && a < i
    ensures Lookup(BatchFields(items, i, fields), BatchPrefix(a) + suffix).None?
    decreases |items|
  {
    if |items| > 0 {
      ItemFieldsMiss(items[0], i, fields, a, suffix);
      BatchFieldsBelow(items[1..], i + 1, fields, a, suffix);
      LookupAppend(ItemFields(items[0], i, fields), BatchFields(items[1..], i + 1, fields), BatchPrefix(a) + suffix);
    }
  }

  /** The keys of one item's fields never clash when the per-attribute field names do not. */
  lemma ItemFieldsDistinct(item: BatchItem, i: nat, fields: seq<string>)
    requires |fields| > 0
    requires forall k, l :: 0 <= k < l < |fields| ==> fields[k] != fields[l]
    ensures DistinctKeys(ItemFields(item, i, fields))
  {
    var inner := AttributeFields(item.attributes, fields);
    AttributeFieldsDistinct(item.attributes, fields);
    DistinctPrefixed(BatchPrefix(i), inner);
    ItemNameNotAttribute(item.attributes, fields);
    LookupPrefixed(BatchPrefix(i), inner, "ItemName");
    DistinctAppend([(BatchPrefix(i) + "ItemName", item.name)], ItemAttributeFields(i, item.attributes, fields));
  }

  /** The batch keys never clash when the per-attribute field names do not. */
  lemma {:induction false} BatchFieldsDistinct(items: seq<BatchItem>, i: nat, fields: seq<string>)
    requires |fields| > 0
    requires forall k, l :: 0 <= k < l < |fields| ==> fields[k] != fields[l]
    ensures DistinctKeys(BatchFields(items, i, fields))
    decreases |items|
  {
    if |items| > 0 {
      var head := ItemFields(items[0], i, fields);
      var rest := BatchFields(items[1..], i + 1, fields);
      ItemFieldsDistinct(items[0], i, fields);
      forall m | 0 <= m < |head| ensures Lookup(rest, head[m].0).None? {
        ItemFieldsKey(items[0], i, fields, m);
        var x := if m == 0 then "ItemName" else AttributeFields(items[0].attributes, fields)[m - 1].0;
        BatchFieldsBelow(items[1..], i + 1, fields, i, x);
      }
      BatchFieldsDistinct(items[1..], i + 1, fields);
      DistinctAppend(head, rest);
    }
  }

  /** Item number i + t sends its name under "Item.<i + t>.ItemName". */
  lemma BatchItemNameLookup(items: seq<BatchItem>, i: nat, fields: seq<string>, t: nat)
    requires |fields| > 0 && t < |items|
    ensures Lookup(BatchFields(items, i, fields), BatchPrefix(i + t) + "ItemName") == Some(items[t].name)
  {
    var a := i + t;
    var head := ItemFields(items[t], a, fields);
    assert head[0] == (BatchPrefix(a) + "ItemName", items[t].name);
    BatchFindAt(items, i, fields, t, a, "ItemName", items[t].name);
  }

  /**
   * What item number a = i + t sends under "Item.<a>." it also sends in
   * the whole batch from item number i: the items before it use other
   * prefixes.
   */
  lemma {:induction false} BatchFindAt(items: seq<BatchItem>, i: nat, fields: seq<string>, t: nat, a: nat, suffix: string, v: string)
    requires |fields| > 0 && t < |items| && a == i + t
    requires Lookup(ItemFields(items[t], a, fields), BatchPrefix(a) + suffix) == Some(v)
    ensures Lookup(BatchFields(items, i, fields), BatchPrefix(a) + suffix) == Some(v)
    decreases t
  {
    BatchFieldsSplit(items, i, fields, BatchPrefix(a) + suffix);
    if t > 0 {
      ItemFieldsMiss(items[0], i, fields, a, suffix);
      assert items[1..][t - 1] == items[t];
      BatchFindAt(items[1..], i + 1, fields, t - 1, a, suffix, v);
    }
  }

  /** Item number i's fields send field k of its attribute j under "Item.<i>.Attribute.<j>.<field>". */
  lemma ItemFieldsLookup(item: BatchItem, i: nat, fields: seq<string>, j: nat, k: nat)
    requires |fields| > 0 && j < |item.attributes| && k < |fields|
    requires forall k1, k2 :: 0 <= k1 < k2 < |fields| ==> fields[k1] != fields[k2]
    ensures Lookup(ItemFields(item, i, fields), BatchPrefix(i) + AttributeKey(j, fields[k])) == Some(FieldValue(item.attributes[j], fields[k]))
  {
    var key := BatchPrefix(i) + AttributeKey(j, fields[k]);
    var first := [(BatchPrefix(i) + "ItemName", item.name)];
    assert AttributeKey(j, fields[k])[0] == 'A';
    LookupAppend(first, ItemAttributeFields(i, item.attributes, fields), key);
    LookupPrefixed(BatchPrefix(i), AttributeFields(item.attributes, fields), AttributeKey(j, fields[k]));
    AttributeFieldsLookup(item.attributes, fields, j, k);
  }

  /** Field k of attribute j of item number i + t is sent under "Item.<i + t>.Attribute.<j>.<field>". */
  lemma BatchAttributeLookup(items: seq<BatchItem>, i: nat, fields: seq<string>, t: nat, j: nat, k: nat)
    requires |fields| > 0 && t < |items| && j < |items[t].attributes| && k < |fields|
    requires forall k1, k2 :: 0 <= k1 < k2 < |fields| ==> fields[k1] != fields[k2]
    ensures Lookup(BatchFields(items, i, fields), BatchPrefix(i + t) + AttributeKey(j, fields[k]))
         == Some(FieldValue(items[t].attributes[j], fields[k]))
    decreases t
  {
    ItemFieldsLookup(items[t], i + t, fields, j, k);
    BatchFindAt(items, i, fields, t, i + t, AttributeKey(j, fields[k]), FieldValue(items[t].attributes[j], fields[k]));
  }

  /** A key is looked up in the first item's fields, then in the rest of the batch. */
  lemma BatchFieldsSplit(items: seq<BatchItem>, i: nat, fields: seq<string>, key: string)
    requires |fields| > 0 && |items| > 0
    ensures var head := ItemFields(items[0], i, fields);
      Lookup(BatchFields(items, i, fields), key)
      == if Lookup(head, key).Some? then Lookup(head, key) else Lookup(BatchFields(items[1..], i + 1, fields), key)
  {
    var head, rest := ItemFields(items[0], i, fields), BatchFields(items[1..], i + 1, fields);
    assert BatchFields(items, i, fields) == head + rest;
    LookupAppend(head, rest, key);
  }

  /**
   * What the server reads back from a put_batch / replace_batch request:
   * every key appears once; under "Item.<t>.ItemName" the t-th item's
   * name, and under "Item.<t>.Attribute.<j>.Name" and ".Value" the name
   * and value of its j-th attribute, with "true" under ".Replace"
   * exactly when replacing.
   */
  lemma BatchFieldsReadBack(items: seq<BatchItem>, replace: bool, t: nat, j: nat)
    requires t < |items| && j < |items[t].attributes|
    ensures var kvs := BatchFields(items, 0, if replace then REPLACE_FIELDS else PUT_FIELDS);
      DistinctKeys(kvs)
      && Lookup(kvs, BatchPrefix(t) + "ItemName") == Some(items[t].name)
      && Lookup(kvs, BatchPrefix(t) + AttributeKey(j, "Name")) == Some(items[t].attributes[j].name)
      && Lookup(kvs, BatchPrefix(t) + AttributeKey(j, "Value")) == Some(items[t].attributes[j].value)
      && (replace ==> Lookup(kvs, BatchPrefix(t) + AttributeKey(j, "Replace")) == Some("true"))
  {
    var fields := if replace then REPLACE_FIELDS else PUT_FIELDS;
    FieldNamesDistinct(replace);
    BatchFieldsDistinct(items, 0, fields);
    BatchItemNameLookup(items, 0, fields, t);
    BatchAttributeLookup(items, 0, fields, t, j, 0);
    BatchAttributeLookup(items, 0, fields, t, j, 1);
    if replace {
      BatchAttributeLookup(items, 0, fields, t, j, 2);
    }
  }

  /** The field names of an attribute are distinct; Name and Value come first, then Replace. */
  lemma FieldNamesDistinct(replace: bool)
    ensures var fields := if replace then REPLACE_FIELDS else PUT_FIELDS;
      |fields| == (if replace then 3 else 2) && fields[0] == "Name" && fields[1] == "Value"
      && (replace ==> fields[2] == "Replace")
      && forall k1, k2 :: 0 <= k1 < k2 < |fields| ==> fields[k1] != fields[k2]
  {
    assert "Name"[0] != "Value"[0] && "Name"[0] != "Replace"[0] && "Value"[0] != "Replace"[0];
  }

  /**
   * What the server reads back from a get_many / query_attr_many request:
   * every key appears once, and "AttributeName.<i>" is the i-th requested
   * name exactly when i is below the number of names.
   */
  lemma NameFieldsReadBack(keys: seq<string>, i: nat)
    ensures DistinctKeys(NameFields(keys))
    ensures i < |keys| ==> Lookup(NameFields(keys), AttributeNameKey(i)) == Some(keys[i])
    ensures i >= |keys| ==> Lookup(NameFields(keys), AttributeNameKey(i)).None?
  {
    var kvs := NameFields(keys);
    forall m1, m2 | 0 <= m1 < m2 < |kvs| ensures kvs[m1].0 != kvs[m2].0 {
      NameKeyInjective(m1, m2);
    }
    if i < |keys| {
      LookupDistinct(kvs, i);
    } else {
      LookupNone(kvs, AttributeNameKey(i));
      forall m | 0 <= m < |kvs| ensures kvs[m].0 != AttributeNameKey(i) {
        NameKeyInjective(m, i);
      }
    }
  }

  lemma NameKeyInjective(m: nat, n: nat)
    requires m != n
    ensures AttributeNameKey(m) != AttributeNameKey(n)
  {
    if AttributeNameKey(m) == AttributeNameKey(n) {
      StripPrefix("AttributeName.", Show(m), Show(n));
      ShowInjective(m, n);
    }
  }

  lemma MulStep(i: nat, n: nat, w: nat)
    requires i < n && w > 0
    ensures w * i + w <= n * w
  {
    assert w * (i + 1) <= w * n;
  }

  // ---------------------------------------------------------------------
  // Request assembly (the common head of sdb_execute, sdb_execute_rs and
  // sdb_execute_multi)

  function ActionEntries(action: string, timestamp: string): seq<(string, string)>
  {
    [("Action", action), ("Timestamp", timestamp)]
  }

  function TokenEntries(token: Option<string>): seq<(string, string)>
  {
    if token.Some? then [("NextToken", token.value)] else []
  }

  /** The three pairs sdb_params_add_required appends. */
  function RequiredEntries(sigVersion: string, accessKey: string): seq<(string, string)>
  {
    [("SignatureVersion", sigVersion), ("Version", "2007-11-07"), ("AWSAccessKeyId", accessKey)]
  }

  /**
   * The request of one execution: a set of capacity |base| + 8 holding
   * Action, Timestamp, the command's own pairs (borrowed), NextToken when
   * continuing, then the required pairs. Each step is guarded by SDB_SAFE,
   * yet none can fail, and a slot is left for the Signature export adds.
   */
  function Assemble(action: string, timestamp: string, base: ParamSet, token: Option<string>,
                    sigVersion: string, accessKey: string, id: nat): (r: Step)
    ensures r.code == OK && r.params.Valid() && r.params.id == id
    ensures Entries(r.params.pairs) ==
      ActionEntries(action, timestamp) + Entries(base.pairs) + TokenEntries(token) + RequiredEntries(sigVersion, accessKey)
    ensures |r.params.pairs| + 1 < r.params.capacity
    ensures |r.params.pairs| >= 5 && r.params.pairs[0].key == "Action" && r.params.pairs[1].key == "Timestamp"
  {
    var ps := Alloc(id, |base.pairs| + 8);
    var s1 := Add(ps, "Action", action);
    if Failed(s1.code) then s1
    else
      var s2 := Add(s1.params, "Timestamp", timestamp);
      if Failed(s2.code) then s2
      else
        var s3 := AddAll(s2.params, base);
        if Failed(s3.code) then s3
        else
          var s4 := if token.Some? then Add(s3.params, "NextToken", token.value) else s3;
          if Failed(s4.code) then s4
          else
            var r := AddRequired(s4.params, sigVersion, accessKey);
            assert s2.params.pairs == [Pair("Action", action, id), Pair("Timestamp", timestamp, id)] by {
              assert s1.params.pairs == [Pair("Action", action, id)];
            }
            assert Entries(s2.params.pairs) == ActionEntries(action, timestamp);
            assert Entries(s4.params.pairs) == Entries(s3.params.pairs) + TokenEntries(token) by {
              if token.Some? {
                assert s4.params.pairs == s3.params.pairs + [Pair("NextToken", token.value, id)];
                EntriesAppend(s3.params.pairs, [Pair("NextToken", token.value, id)]);
              }
            }
            assert r.params.pairs[0] == s4.params.pairs[0] && r.params.pairs[1] == s4.params.pairs[1] by {
              assert Entries(r.params.pairs)[..|s4.params.pairs|] == Entries(s4.params.pairs);
            }
            r
  }

  // ---------------------------------------------------------------------
  // The handle's configuration (struct SDB, sdb_init, sdb_set_retry,
  // sdb_set_auto_next)

  /**
   * What an execution needs from the handle: the signature version, the
   * access key, the signing and escaping collaborators, the retry budget
   * and delay (microseconds), and automatic continuation.
   */
  datatype Config = Config(
    signatureVersion: nat,
    accessKey: string,
    crypto: Crypto,
    esc: string -> Option<string>,
    retryCount: int,
    retryDelay: int,
    autoNext: bool)

  /** The text form of the signature version sent as SignatureVersion. */
  function SignatureVersionText(c: Config): string
  {
    Show(c.signatureVersion)
  }

  /** sdb_init's settings: signature version 0, ten retries 5 ms apart, automatic continuation. */
  function InitConfig(accessKey: string, crypto: Crypto, esc: string -> Option<string>): (c: Config)
    ensures c.signatureVersion == 0 && SignatureVersionText(c) == "0"
    ensures c.retryCount == 10 && c.retryDelay == 5000 && c.autoNext
    ensures c.accessKey == accessKey
  {
    Config(0, accessKey, crypto, esc, 10, 5000, true)
  }

  /**
   * sdb_set_retry: negative arguments become 0; the delay is stored in
   * microseconds, computed in C int arithmetic (wrapping past 2147483 ms).
   */
  function SetRetry(c: Config, count: int, delay: int): (d: Config)
    requires -0x8000_0000 <= delay < 0x8000_0000
    ensures d.retryCount >= 0 && (count >= 0 ==> d.retryCount == count) && (count < 0 ==> d.retryCount == 0)
    ensures delay <= 0 ==> d.retryDelay == 0
    ensures 0 <= delay <= 2147483 ==> d.retryDelay == delay * 1000 && d.retryDelay >= 0
    ensures -0x8000_0000 <= d.retryDelay < 0x8000_0000
    ensures d == c.(retryCount := d.retryCount, retryDelay := d.retryDelay)
  {
    var n := if count < 0 then 0 else count;
    var ms := if delay < 0 then 0 else delay;
    c.(retryCount := n, retryDelay := ToInt32(ms * 1000))
  }

  /** A delay beyond 2147483 ms wraps: sdb_set_retry stores a negative delay. */
  lemma SetRetryWraps(c: Config)
    ensures SetRetry(c, 1, 2147484).retryDelay < 0
  {
  }

  /** sdb_set_auto_next: any non-zero value enables automatic continuation. */
  function SetAutoNext(c: Config, value: int): (d: Config)
    ensures d.autoNext <==> value != 0
    ensures d == c.(autoNext := d.autoNext)
  {
    c.(autoNext := value != 0)
  }
}
