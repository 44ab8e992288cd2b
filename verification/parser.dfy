/**
 * The response parser (response.c sdb_response_parse and the section
 * parsers it dispatches to). A parse either yields the updated response,
 * rejects the document with a status code, aborts on one of the C
 * asserts the parser places on server input, or reaches undefined
 * behaviour.
 */
module Parser {
  import opened Wrappers
  import opened Errors
  import opened Xml
  import opened Numbers
  import opened Text
  import opened Responses

  datatype Outcome =
    | Parsed(r: Response)
    | Rejected(code: int)
    | Abort
    | Undefined

  /** Element names a section skips. */
  predicate Ignored(name: string)
  {
    name == "RequestID" || name == "RequestId"
  }

  predicate HasChild(ns: seq<Node>, name: string)
  {
    exists i :: 0 <= i < |ns| && ns[i].name == name
  }

  // ---------------------------------------------------------------------
  // Errors section

  /** Which errors-section code to run: the code as written or the corrected one. */
  datatype Build = AsWritten | Corrected

  /**
   * The code-name lookup loop: indices i..n-1 are compared with name and
   * the last match is kept in acc. Reading an index past the table is
   * undefined (None).
   */
  function ScanTable(table: seq<string>, name: string, i: nat, n: nat, acc: nat): (r: Option<nat>)
    ensures n <= |table| ==> r.Some?
    ensures i < n && |table| < n ==> r.None?
    ensures r.Some? && r.value != acc ==> i <= r.value < n && r.value < |table| && table[r.value] == name
    decreases n - i
  {
    if i >= n then Some(acc)
    else if i >= |table| then None
    else ScanTable(table, name, i + 1, n, if table[i] == name then i else acc)
  }

  /**
   * The error index recorded for a code name: the matching table index,
   * or AWS_NUM_ERRORS when the scan found nothing (index 0 counts as
   * nothing, since 0 means "no error").
   */
  function CodeIndex(table: seq<string>, name: string): (r: Option<nat>)
    ensures |table| < AWS_NUM_ERRORS <==> r.None?
    ensures r.Some? ==> 1 <= r.value <= AWS_NUM_ERRORS
    ensures r.Some? && r.value < AWS_NUM_ERRORS ==> table[r.value] == name
  {
    match ScanTable(table, name, 0, AWS_NUM_ERRORS, 0)
    case None => None
    case Some(k) => Some(if k == 0 then AWS_NUM_ERRORS else k)
  }

  lemma {:induction false} ScanTableLastMatch(table: seq<string>, name: string, i: nat, n: nat, acc: nat)
    requires n <= |table| && i <= n
    requires acc == 0 || (acc < i && table[acc] == name)
    requires forall j :: acc < j < i ==> table[j] != name
    ensures ScanTable(table, name, i, n, acc).Some?
    ensures var k := ScanTable(table, name, i, n, acc).value;
      (k == 0 || (k < n && table[k] == name)) && forall j :: k < j < n ==> table[j] != name
    decreases n - i
  {
    if i < n {
      ScanTableLastMatch(table, name, i + 1, n, if table[i] == name then i else acc);
    }
  }

  /**
   * With the full 42-name table a code maps to its index, and to 42
   * exactly when no entry past index 0 carries that name.
   */
  lemma CodeIndexCorrected(name: string)
    ensures CodeIndex(AwsErrorTable, name).Some?
    ensures var e := CodeIndex(AwsErrorTable, name).value;
      1 <= e <= AWS_NUM_ERRORS
      && (e < AWS_NUM_ERRORS ==> AwsErrorTable[e] == name)
      && (e == AWS_NUM_ERRORS <==> forall j :: 1 <= j < AWS_NUM_ERRORS ==> AwsErrorTable[j] != name)
      && (forall j :: e < j < AWS_NUM_ERRORS ==> AwsErrorTable[j] != name)
  {
    ScanTableLastMatch(AwsErrorTable, name, 0, AWS_NUM_ERRORS, 0);
  }

  /** With the 41-name table the loop always reads one entry past the end. */
  lemma CodeIndexAsWrittenUndefined(name: string)
    ensures CodeIndex(AwsErrorTableAsWritten, name).None?
  {
  }

  /** "ServiceUnavailable" is recorded as index 35; "AccessFailure" is reported as unknown. */
  lemma CodeIndexExamples()
    ensures CodeIndex(AwsErrorTable, "ServiceUnavailable") == Some(35)
    ensures AwsError(35) == SERVICE_UNAVAILABLE
    ensures CodeIndex(AwsErrorTable, "AccessFailure") == Some(AWS_NUM_ERRORS)
  {
    CodeIndexCorrected("ServiceUnavailable");
    ServiceUnavailableLast();
    NamedCodesConsecutive();
    CodeIndexCorrected("AccessFailure");
    AccessFailureOnlyFirst();
  }

  /** The fields an errors section may change: error, message, count. */
  predicate SameExceptErrors(a: Response, b: Response)
  {
    a.payload == b.payload && a.hasMore == b.hasMore && a.head == b.head && a.older == b.older
    && a.multiHandle == b.multiHandle && a.returnCode == b.returnCode
  }

  function TableOf(build: Build): seq<string>
  {
    if build == AsWritten then AwsErrorTableAsWritten else AwsErrorTable
  }

  /** The children of one Error element: Code, Message and BoxUsage. */
  function ErrorFields(r: Response, ns: seq<Node>, build: Build): (p: Outcome)
    requires 0 <= r.error <= AWS_NUM_ERRORS
    ensures p.Rejected? ==> p.code == INVALID_ERR_RESPONSE
    ensures p.Parsed? ==> SameExceptErrors(r, p.r) && p.r.numErrors == r.numErrors
    ensures p.Parsed? ==> 0 <= p.r.error <= AWS_NUM_ERRORS && (r.error != 0 ==> p.r.error == r.error)
    ensures p.Parsed? && r.errorMessage.Some? ==> p.r.errorMessage == r.errorMessage
    ensures build == Corrected ==> !p.Undefined?
    decreases |ns|
  {
    if |ns| == 0 then Parsed(r)
    else
      var n := ns[0];
      if n.name == "Code" then
        match FirstText(n)
        case None => Abort
        case Some(c) =>
          if r.error != 0 then ErrorFields(r, ns[1..], build)
          else
            match CodeIndex(TableOf(build), c)
            case None => Undefined
            case Some(e) =>
              assert build == Corrected ==> 1 <= e <= AWS_NUM_ERRORS by {
                if build == Corrected { CodeIndexCorrected(c); }
              }
              if e > AWS_NUM_ERRORS then Undefined
              else ErrorFields(r.(error := e), ns[1..], build)
      else if n.name == "Message" then
        match FirstText(n)
        case None => Abort
        case Some(m) =>
          ErrorFields(if r.errorMessage.None? then r.(errorMessage := Some(m)) else r, ns[1..], build)
      else if n.name == "BoxUsage" then ErrorFields(r, ns[1..], build)
      else Rejected(INVALID_ERR_RESPONSE)
  }

  /**
   * The Errors section. Every Error element adds one to the error count;
   * only the first code and the first message are kept. As written, a
   * child other than Error is examined through the inner loop's cursor,
   * which is NULL or uninitialised at that point.
   */
  function ParseErrors(r: Response, ns: seq<Node>, build: Build): (p: Outcome)
    requires 0 <= r.error <= AWS_NUM_ERRORS
    ensures p.Rejected? ==> p.code == INVALID_ERR_RESPONSE
    ensures p.Parsed? ==> SameExceptErrors(r, p.r)
    ensures p.Parsed? ==> p.r.numErrors == r.numErrors + CountIn(ns, {"Error"})
    ensures p.Parsed? ==> 0 <= p.r.error <= AWS_NUM_ERRORS && (r.error != 0 ==> p.r.error == r.error)
    ensures p.Parsed? && r.errorMessage.Some? ==> p.r.errorMessage == r.errorMessage
    ensures build == Corrected ==> !p.Undefined?
    decreases |ns|
  {
    if |ns| == 0 then Parsed(r)
    else
      var n := ns[0];
      if n.name == "Error" then
        match ErrorFields(r.(numErrors := r.numErrors + 1), n.children, build)
        case Parsed(r1) => ParseErrors(r1, ns[1..], build)
        case other => other
      else if build == AsWritten then Undefined
      else if n.name == "BoxUsage" then ParseErrors(r, ns[1..], build)
      else Rejected(INVALID_ERR_RESPONSE)
  }

  function CodeNode(c: string): Node
  {
    Element("Code", [TextNode(c)])
  }

  /** One Error element with one Code: the recorded index is the code's table index. */
  lemma SingleErrorCode(r: Response, c: string)
    requires r.error == 0
    ensures ParseErrors(r, [Element("Error", [CodeNode(c)])], Corrected)
      == Parsed(r.(numErrors := r.numErrors + 1, error := CodeIndex(AwsErrorTable, c).value))
  {
    CodeIndexCorrected(c);
    var r1 := r.(numErrors := r.numErrors + 1);
    var r2 := r1.(error := CodeIndex(AwsErrorTable, c).value);
    assert FirstText(CodeNode(c)) == Some(c);
    assert [CodeNode(c)][1..] == [];
    assert ErrorFields(r1, [CodeNode(c)], Corrected) == ErrorFields(r2, [], Corrected) == Parsed(r2);
    assert [Element("Error", [CodeNode(c)])][1..] == [];
  }

  /** Inside an Error, a child other than Code, Message or BoxUsage means the parse does not succeed. */
  lemma {:induction false} ErrorFieldsStrayRefused(r: Response, ns: seq<Node>, build: Build, i: nat)
    requires 0 <= r.error <= AWS_NUM_ERRORS
    requires i < |ns| && ns[i].name != "Code" && ns[i].name != "Message" && ns[i].name != "BoxUsage"
    ensures !ErrorFields(r, ns, build).Parsed?
    ensures i == 0 ==> ErrorFields(r, ns, build) == Rejected(INVALID_ERR_RESPONSE)
    decreases i
  {
    if i > 0 {
      var n := ns[0];
      assert ns[1..][i - 1] == ns[i];
      if n.name == "Code" && FirstText(n).Some? {
        if r.error != 0 {
          ErrorFieldsStrayRefused(r, ns[1..], build, i - 1);
        } else if CodeIndex(TableOf(build), FirstText(n).value).Some? {
          var e := CodeIndex(TableOf(build), FirstText(n).value).value;
          if e <= AWS_NUM_ERRORS {
            ErrorFieldsStrayRefused(r.(error := e), ns[1..], build, i - 1);
          }
        }
      } else if n.name == "Message" && FirstText(n).Some? {
        var m := FirstText(n).value;
        ErrorFieldsStrayRefused(if r.errorMessage.None? then r.(errorMessage := Some(m)) else r, ns[1..], build, i - 1);
      } else if n.name == "BoxUsage" {
        ErrorFieldsStrayRefused(r, ns[1..], build, i - 1);
      }
    }
  }

  /**
   * In the corrected parse, the first Code child of an Error with no error
   * yet recorded sets the error to that code's table index.
   */
  lemma {:induction false} ErrorFieldsFirstCode(r: Response, ns: seq<Node>, i: nat)
    requires r.error == 0 && i < |ns| && ns[i].name == "Code"
    requires forall j :: 0 <= j < i ==> ns[j].name != "Code"
    requires ErrorFields(r, ns, Corrected).Parsed?
    ensures FirstText(ns[i]).Some? && CodeIndex(AwsErrorTable, FirstText(ns[i]).value).Some?
    ensures ErrorFields(r, ns, Corrected).r.error == CodeIndex(AwsErrorTable, FirstText(ns[i]).value).value
    decreases i
  {
    var n := ns[0];
    if i == 0 {
      CodeIndexCorrected(FirstText(n).value);
    } else {
      var r1 := if n.name == "Message" && r.errorMessage.None? then r.(errorMessage := FirstText(n)) else r;
      assert ErrorFields(r, ns, Corrected) == ErrorFields(r1, ns[1..], Corrected);
      assert forall j :: 0 <= j < i - 1 ==> ns[1..][j] == ns[j + 1];
      ErrorFieldsFirstCode(r1, ns[1..], i - 1);
    }
  }

  /**
   * In the corrected parse, a child of Errors other than Error or BoxUsage
   * means the parse does not succeed; as written, any child other than
   * Error does not either.
   */
  lemma {:induction false} ParseErrorsStrayRefused(r: Response, ns: seq<Node>, build: Build, i: nat)
    requires 0 <= r.error <= AWS_NUM_ERRORS
    requires i < |ns| && ns[i].name != "Error" && (build == AsWritten || ns[i].name != "BoxUsage")
    ensures !ParseErrors(r, ns, build).Parsed?
    decreases i
  {
    if i > 0 && ns[0].name == "Error" {
      assert ns[1..][i - 1] == ns[i];
      match ErrorFields(r.(numErrors := r.numErrors + 1), ns[0].children, build)
      case Parsed(r1) => ParseErrorsStrayRefused(r1, ns[1..], build, i - 1);
      case _ =>
    } else if i > 0 && ns[0].name == "BoxUsage" && build == Corrected {
      assert ns[1..][i - 1] == ns[i];
      ParseErrorsStrayRefused(r, ns[1..], build, i - 1);
    }
  }

  /**
   * The first code wins: when the first Error begins with a Code, the
   * corrected parse records that code's index, whatever follows.
   */
  lemma ParseErrorsFirstCode(r: Response, c: string, more: seq<Node>, rest: seq<Node>)
    requires r.error == 0
    requires ParseErrors(r, [Element("Error", [CodeNode(c)] + more)] + rest, Corrected).Parsed?
    ensures ParseErrors(r, [Element("Error", [CodeNode(c)] + more)] + rest, Corrected).r.error
      == CodeIndex(AwsErrorTable, c).value
  {
    var ns := [Element("Error", [CodeNode(c)] + more)] + rest;
    var r1 := r.(numErrors := r.numErrors + 1);
    assert ns[1..] == rest;
    var p1 := ErrorFields(r1, [CodeNode(c)] + more, Corrected);
    assert p1.Parsed?;
    ErrorFieldsFirstCode(r1, [CodeNode(c)] + more, 0);
    assert FirstText(CodeNode(c)) == Some(c);
    CodeIndexCorrected(c);
  }

  /**
   * The two defects of the errors section as written: a lone BoxUsage
   * child reads through a stale cursor, and any code lookup reads one
   * entry past the name table. The corrected code accepts both.
   */
  lemma ErrorsAsWrittenUndefined(r: Response)
    requires r.error == 0
    ensures ParseErrors(r, [Element("BoxUsage", [TextNode("0.0000219907")])], AsWritten) == Undefined
    ensures ParseErrors(r, [Element("BoxUsage", [TextNode("0.0000219907")])], Corrected) == Parsed(r)
    ensures ParseErrors(r, [Element("Error", [CodeNode("NoSuchDomain")])], AsWritten) == Undefined
    ensures ParseErrors(r, [Element("Error", [CodeNode("NoSuchDomain")])], Corrected).Parsed?
  {
    CodeIndexAsWrittenUndefined("NoSuchDomain");
    var r1 := r.(numErrors := r.numErrors + 1);
    assert ErrorFields(r1, [CodeNode("NoSuchDomain")], AsWritten) == Undefined;
    SingleErrorCode(r, "NoSuchDomain");
  }

  // ---------------------------------------------------------------------
  // ResponseMetadata section

  /** ResponseMetadata: BoxUsage (whose value is not modelled) and ignored request ids. */
  function ParseMetadata(r: Response, ns: seq<Node>): (p: Outcome)
    ensures p.Parsed? ==> p.r == r
    ensures p.Rejected? ==> p.code == INVALID_META_RESPONSE
    ensures !p.Undefined?
    ensures (forall i :: 0 <= i < |ns| ==> Ignored(ns[i].name)) ==> p == Parsed(r)
    decreases |ns|
  {
    if |ns| == 0 then Parsed(r)
    else if ns[0].name == "BoxUsage" then
      if FirstText(ns[0]).None? then Abort else ParseMetadata(r, ns[1..])
    else if Ignored(ns[0].name) then ParseMetadata(r, ns[1..])
    else Rejected(INVALID_META_RESPONSE)
  }

  // ---------------------------------------------------------------------
  // First pass of the list sections

  /** The first pass over a list: the element count and the last NextToken, or the failure. */
  datatype Count = Counted(n: nat, token: Option<string>) | CountFailed(outcome: Outcome)

  /** The text of the last NextToken child, if any. */
  function LastToken(ns: seq<Node>): (t: Option<string>)
    ensures t.Some? ==> exists i :: 0 <= i < |ns| && ns[i].name == "NextToken" && FirstText(ns[i]) == t
    ensures t.None? ==> forall i :: 0 <= i < |ns| && ns[i].name == "NextToken" ==> FirstText(ns[i]).None?
    decreases |ns|
  {
    if |ns| == 0 then None
    else
      var later := LastToken(ns[1..]);
      if later.Some? then later
      else if ns[0].name == "NextToken" then FirstText(ns[0])
      else None
  }

  function CountPass(ns: seq<Node>, names: set<string>): (c: Count)
    requires "NextToken" !in names && "RequestID" !in names && "RequestId" !in names
    ensures c.Counted? ==> c.n == CountIn(ns, names)
    ensures c.Counted? ==> (c.token.Some? <==> HasChild(ns, "NextToken")) && c.token == LastToken(ns)
    ensures c.CountFailed? ==> c.outcome == Abort || c.outcome == Rejected(INVALID_META_RESPONSE)
    decreases |ns|
  {
    if |ns| == 0 then Counted(0, None)
    else
      var n := ns[0];
      if n.name in names then
        match CountPass(ns[1..], names)
        case Counted(k, t) =>
          assert HasChild(ns, "NextToken") <==> HasChild(ns[1..], "NextToken") by {
            assert forall i :: 1 <= i < |ns| ==> ns[i] == ns[1..][i - 1];
          }
          Counted(k + 1, t)
        case failed => failed
      else if n.name == "NextToken" then
        match FirstText(n)
        case None => CountFailed(Abort)
        case Some(t) =>
          match CountPass(ns[1..], names)
          case Counted(k, later) => Counted(k, if later.Some? then later else Some(t))
          case failed => failed
      else if Ignored(n.name) then
        match CountPass(ns[1..], names)
        case Counted(k, t) =>
          assert HasChild(ns, "NextToken") <==> HasChild(ns[1..], "NextToken") by {
            assert forall i :: 1 <= i < |ns| ==> ns[i] == ns[1..][i - 1];
          }
          Counted(k, t)
        case failed => failed
      else CountFailed(Rejected(INVALID_META_RESPONSE))
  }

  /**
   * Record the result of a successful first pass: the more-pages flag is
   * cleared and set again exactly when a NextToken was present, whose
   * text becomes the head block's token.
   */
  function WithToken(r: Response, token: Option<string>): (a: Response)
    ensures a.hasMore <==> token.Some?
    ensures a.head.nextToken == (if token.Some? then token else r.head.nextToken)
    ensures CallOf(Some(a)) == CallOf(Some(r)) && a.older == r.older
  {
    r.(hasMore := token.Some?, head := r.head.(nextToken := if token.Some? then token else r.head.nextToken))
  }

  // ---------------------------------------------------------------------
  // ListDomainsResult

  /** The texts of the children with the given name, in order; None when one has no text. */
  function NamedTexts(ns: seq<Node>, name: string): (r: Option<seq<string>>)
    ensures r.Some? ==> |r.value| == CountIn(ns, {name})
    decreases |ns|
  {
    if |ns| == 0 then Some([])
    else
      var rest := NamedTexts(ns[1..], name);
      if ns[0].name != name then rest
      else
        match (FirstText(ns[0]), rest)
        case (Some(t), Some(ts)) => Some([t] + ts)
        case _ => None
  }

  /**
   * ListDomainsResult: count, then either start a domain list or append
   * to the existing one; any other result type is an assertion failure.
   */
  function ParseDomains(r: Response, ns: seq<Node>): (p: Outcome)
    ensures p.Rejected? ==> p.code == INVALID_META_RESPONSE
    ensures !p.Undefined?
    ensures p.Parsed? ==> CallOf(Some(p.r)) == CallOf(Some(r))
    ensures p.Parsed? ==> (p.r.hasMore <==> HasChild(ns, "NextToken"))
    ensures p.Parsed? && p.r.hasMore ==> p.r.head.nextToken == LastToken(ns) && LastToken(ns).Some?
    ensures p.Parsed? ==>
      p.r.payload.DomainList? && (r.payload.NoResult? || r.payload.DomainList?)
      && var prior := if r.payload.DomainList? then r.payload.domains else [];
      |p.r.payload.domains| == |prior| + CountIn(ns, {"DomainName"})
      && p.r.payload.domains[..|prior|] == prior
      && Some(p.r.payload.domains[|prior|..]) == NamedTexts(ns, "DomainName")
    ensures CountPass(ns, {"DomainName"}).Counted? && !r.payload.NoResult? && !r.payload.DomainList? ==> p == Abort
  {
    match CountPass(ns, {"DomainName"})
    case CountFailed(o) => o
    case Counted(_, token) =>
      if !(r.payload.NoResult? || r.payload.DomainList?) then Abort
      else
        var prior := if r.payload.DomainList? then r.payload.domains else [];
        match NamedTexts(ns, "DomainName")
        case None => Abort
        case Some(ds) =>
          assert (prior + ds)[..|prior|] == prior && (prior + ds)[|prior|..] == ds;
          Parsed(WithToken(r, token).(payload := DomainList(prior + ds)))
  }

  // ---------------------------------------------------------------------
  // Attributes

  /** The outcome of reading one attribute (or one item). */
  datatype Read<T> = Read(value: T) | ReadFailed(outcome: Outcome)

  /**
   * The children of an Attribute element: the last Name and Value win; a
   * Value without children is the empty string; anything else, or a
   * missing Name or Value, is INVALID_META_RESPONSE.
   */
  function AttributeFields(ns: seq<Node>, name: Option<string>, value: Option<string>): (a: Read<Attribute>)
    ensures a.ReadFailed? ==> a.outcome == Abort || a.outcome == Rejected(INVALID_META_RESPONSE)
    decreases |ns|
  {
    if |ns| == 0 then
      if name.None? || value.None? then ReadFailed(Rejected(INVALID_META_RESPONSE))
      else Read(Attribute(name.value, value.value))
    else
      var n := ns[0];
      if n.name == "Name" then
        match FirstText(n)
        case None => ReadFailed(Abort)
        case Some(t) => AttributeFields(ns[1..], Some(t), value)
      else if n.name == "Value" then
        match ValueText(n)
        case None => ReadFailed(Abort)
        case Some(t) => AttributeFields(ns[1..], name, Some(t))
      else ReadFailed(Rejected(INVALID_META_RESPONSE))
  }

  /** The text of a Value element: "" when it has no children, else its first child's content. */
  function ValueText(n: Node): Option<string>
  {
    if |n.children| == 0 then Some("") else n.children[0].content
  }

  /** Some child is neither a Name nor a Value: the attribute is refused. */
  lemma {:induction false} AttributeStrayRefused(ns: seq<Node>, name: Option<string>, value: Option<string>, i: nat)
    requires i < |ns| && ns[i].name != "Name" && ns[i].name != "Value"
    ensures AttributeFields(ns, name, value).ReadFailed?
    decreases i
  {
    if i > 0 && ns[0].name == "Name" && FirstText(ns[0]).Some? {
      assert ns[1..][i - 1] == ns[i];
      AttributeStrayRefused(ns[1..], FirstText(ns[0]), value, i - 1);
    } else if i > 0 && ns[0].name == "Value" && ValueText(ns[0]).Some? {
      assert ns[1..][i - 1] == ns[i];
      AttributeStrayRefused(ns[1..], name, ValueText(ns[0]), i - 1);
    }
  }

  /** Without a Name child (and none carried in), or without a Value child, the attribute is refused. */
  lemma {:induction false} AttributeFieldsRequired(ns: seq<Node>, name: Option<string>, value: Option<string>)
    requires (name.None? && forall i :: 0 <= i < |ns| ==> ns[i].name != "Name")
      || (value.None? && forall i :: 0 <= i < |ns| ==> ns[i].name != "Value")
    ensures AttributeFields(ns, name, value).ReadFailed?
    decreases |ns|
  {
    if |ns| > 0 {
      assert ns[0].name != "Name" || ns[0].name != "Value";
      assert forall i :: 0 <= i < |ns[1..]| ==> ns[1..][i] == ns[i + 1];
      if ns[0].name == "Name" && FirstText(ns[0]).Some? {
        AttributeFieldsRequired(ns[1..], FirstText(ns[0]), value);
      } else if ns[0].name == "Value" && ValueText(ns[0]).Some? {
        AttributeFieldsRequired(ns[1..], name, ValueText(ns[0]));
      }
    }
  }

  /** The last child of the given name among ns, as a predicate on its index. */
  predicate LastNamed(ns: seq<Node>, i: int, tag: string)
  {
    0 <= i < |ns| && ns[i].name == tag && forall j :: i < j < |ns| ==> ns[j].name != tag
  }

  /**
   * A read attribute holds the text of the last Name child and of the last
   * Value child; with no such child, the value carried in.
   */
  lemma {:induction false} AttributeReadBack(ns: seq<Node>, name: Option<string>, value: Option<string>)
    requires AttributeFields(ns, name, value).Read?
    ensures var a := AttributeFields(ns, name, value).value;
      && ((forall i :: 0 <= i < |ns| ==> ns[i].name != "Name") ==> name == Some(a.name))
      && (forall i :: LastNamed(ns, i, "Name") ==> FirstText(ns[i]) == Some(a.name))
      && ((forall i :: 0 <= i < |ns| ==> ns[i].name != "Value") ==> value == Some(a.value))
      && (forall i :: LastNamed(ns, i, "Value") ==> ValueText(ns[i]) == Some(a.value))
    decreases |ns|
  {
    if |ns| > 0 {
      var n, rest := ns[0], ns[1..];
      var name', value' := if n.name == "Name" then FirstText(n) else name, if n.name == "Value" then ValueText(n) else value;
      assert AttributeFields(ns, name, value) == AttributeFields(rest, name', value');
      AttributeReadBack(rest, name', value');
      assert forall i :: 0 < i < |ns| ==> ns[i] == rest[i - 1];
      forall i | LastNamed(ns, i, "Name") && i > 0 ensures LastNamed(rest, i - 1, "Name") {}
      forall i | LastNamed(ns, i, "Value") && i > 0 ensures LastNamed(rest, i - 1, "Value") {}
    }
  }

  function ParseAttribute(n: Node): (a: Read<Attribute>)
    ensures a.ReadFailed? ==> a.outcome == Abort || a.outcome == Rejected(INVALID_META_RESPONSE)
  {
    AttributeFields(n.children, None, None)
  }

  function NameNode(k: string): Node
  {
    Element("Name", [TextNode(k)])
  }

  /** An empty Value element is the empty string; a missing Value or Name, or a stray child, is refused. */
  lemma AttributeExamples(k: string, v: string)
    ensures ParseAttribute(Element("Attribute", [NameNode(k), Element("Value", [])])) == Read(Attribute(k, ""))
    ensures ParseAttribute(Element("Attribute", [NameNode(k), Element("Value", [TextNode(v)])])) == Read(Attribute(k, v))
    ensures ParseAttribute(Element("Attribute", [NameNode(k)])) == ReadFailed(Rejected(INVALID_META_RESPONSE))
    ensures ParseAttribute(Element("Attribute", [Element("Value", [TextNode(v)])]))
      == ReadFailed(Rejected(INVALID_META_RESPONSE))
    ensures ParseAttribute(Element("Attribute", [NameNode(k), Element("Type", [])]))
      == ReadFailed(Rejected(INVALID_META_RESPONSE))
  {
    var empty, full := Element("Value", []), Element("Value", [TextNode(v)]);
    assert [NameNode(k), empty][1..] == [empty];
    assert AttributeFields([empty], Some(k), None) == AttributeFields([], Some(k), Some(""));
    assert [NameNode(k), full][1..] == [full];
    assert AttributeFields([full], Some(k), None) == AttributeFields([], Some(k), Some(v));
    assert AttributeFields([NameNode(k)], None, None) == AttributeFields([], Some(k), None);
    assert AttributeFields([full], None, None) == AttributeFields([], None, Some(v));
    assert [NameNode(k), Element("Type", [])][1..] == [Element("Type", [])];
    assert AttributeFields([NameNode(k), Element("Type", [])], None, None)
      == AttributeFields([Element("Type", [])], Some(k), None);
  }

  /** The Attribute children of a list, read in order. */
  function ReadAttributes(ns: seq<Node>): (a: Read<seq<Attribute>>)
    ensures a.Read? ==> |a.value| == CountIn(ns, {"Attribute"})
    ensures a.ReadFailed? ==> a.outcome == Abort || a.outcome == Rejected(INVALID_META_RESPONSE)
    decreases |ns|
  {
    if |ns| == 0 then Read([])
    else if ns[0].name != "Attribute" then ReadAttributes(ns[1..])
    else
      match ParseAttribute(ns[0])
      case ReadFailed(o) => ReadFailed(o)
      case Read(a) =>
        match ReadAttributes(ns[1..])
        case ReadFailed(o) => ReadFailed(o)
        case Read(rest) => Read([a] + rest)
  }

  /** GetAttributesResult: as for domains, over Attribute elements. */
  function ParseAttributes(r: Response, ns: seq<Node>): (p: Outcome)
    ensures p.Rejected? ==> p.code == INVALID_META_RESPONSE
    ensures !p.Undefined?
    ensures p.Parsed? ==> CallOf(Some(p.r)) == CallOf(Some(r))
    ensures p.Parsed? ==> (p.r.hasMore <==> HasChild(ns, "NextToken"))
    ensures p.Parsed? && p.r.hasMore ==> p.r.head.nextToken == LastToken(ns) && LastToken(ns).Some?
    ensures p.Parsed? ==>
      p.r.payload.AttributeList? && (r.payload.NoResult? || r.payload.AttributeList?)
      && var prior := if r.payload.AttributeList? then r.payload.attributes else [];
      |p.r.payload.attributes| == |prior| + CountIn(ns, {"Attribute"})
      && p.r.payload.attributes[..|prior|] == prior
      && Read(p.r.payload.attributes[|prior|..]) == ReadAttributes(ns)
    ensures CountPass(ns, {"Attribute"}).Counted? && !r.payload.NoResult? && !r.payload.AttributeList? ==> p == Abort
  {
    match CountPass(ns, {"Attribute"})
    case CountFailed(o) => o
    case Counted(_, token) =>
      if !(r.payload.NoResult? || r.payload.AttributeList?) then Abort
      else
        var prior := if r.payload.AttributeList? then r.payload.attributes else [];
        match ReadAttributes(ns)
        case ReadFailed(o) => o
        case Read(attrs) =>
          assert (prior + attrs)[..|prior|] == prior && (prior + attrs)[|prior|..] == attrs;
          Parsed(WithToken(r, token).(payload := AttributeList(prior + attrs)))
  }

  // ---------------------------------------------------------------------
  // Items

  /** The second pass over an Item element: its (last) Name and its attributes in order. */
  function ItemFields(ns: seq<Node>, name: Option<string>, attrs: seq<Attribute>): (a: Read<Item>)
    ensures a.Read? ==> a.value.attributes.Some? && |a.value.attributes.value| == |attrs| + CountIn(ns, {"Attribute"})
    ensures a.ReadFailed? ==> a.outcome == Abort || a.outcome == Rejected(INVALID_META_RESPONSE)
    decreases |ns|
  {
    if |ns| == 0 then
      if name.None? then ReadFailed(Abort) else Read(Item(name.value, Some(attrs)))
    else
      var n := ns[0];
      if n.name == "Name" then
        match FirstText(n)
        case None => ReadFailed(Abort)
        case Some(t) => ItemFields(ns[1..], Some(t), attrs)
      else if n.name == "Attribute" then
        match ParseAttribute(n)
        case ReadFailed(o) => ReadFailed(o)
        case Read(a) => ItemFields(ns[1..], name, attrs + [a])
      else ItemFields(ns[1..], name, attrs)
  }

  /** Only Name and Attribute children are allowed in an Item. */
  predicate ItemChildrenValid(ns: seq<Node>)
  {
    forall i :: 0 <= i < |ns| ==> ns[i].name == "Name" || ns[i].name == "Attribute"
  }

  /** sdb_response_parse_item: check the children, then read the name and attributes. */
  function ParseItem(n: Node): (a: Read<Item>)
    ensures !ItemChildrenValid(n.children) ==> a == ReadFailed(Rejected(INVALID_META_RESPONSE))
    ensures a.Read? ==> a.value.Size() == CountIn(n.children, {"Attribute"})
    ensures a.ReadFailed? ==> a.outcome == Abort || a.outcome == Rejected(INVALID_META_RESPONSE)
  {
    if !ItemChildrenValid(n.children) then ReadFailed(Rejected(INVALID_META_RESPONSE))
    else ItemFields(n.children, None, [])
  }

  /** The Item and ItemName children of a list, read in order. */
  function ReadItems(ns: seq<Node>): (a: Read<seq<Item>>)
    ensures a.Read? ==> |a.value| == CountIn(ns, {"Item", "ItemName"})
    ensures a.ReadFailed? ==> a.outcome == Abort || a.outcome == Rejected(INVALID_META_RESPONSE)
    decreases |ns|
  {
    if |ns| == 0 then Read([])
    else
      if ns[0].name != "ItemName" && ns[0].name != "Item" then ReadItems(ns[1..])
      else
        var first: Read<Item> :=
          if ns[0].name == "Item" then ParseItem(ns[0])
          else
            match FirstText(ns[0])
            case None => ReadFailed(Abort)
            case Some(t) => Read(Item(t, None));
        match first
        case ReadFailed(o) => ReadFailed(o)
        case Read(it) =>
          match ReadItems(ns[1..])
          case ReadFailed(o) => ReadFailed(o)
          case Read(rest) => Read([it] + rest)
  }

  /** An ItemName entry is an item of size 0 without an attribute array. */
  lemma ItemNameEntry(k: string)
    ensures ReadItems([Element("ItemName", [TextNode(k)])]) == Read([Item(k, None)])
    ensures Item(k, None).Size() == 0
  {
    var n := Element("ItemName", [TextNode(k)]);
    assert [n][1..] == [];
    assert n.name == "ItemName" && n.name != "Item";
    assert FirstText(n) == Some(k);
    assert ReadItems([]) == Read([]);
    assert [Item(k, None)] + [] == [Item(k, None)];
    assert ReadItems([n]) == Read([Item(k, None)] + []);
  }

  /** QueryResult, QueryWithAttributesResult, SelectResult: as for domains, over Item and ItemName. */
  function ParseItems(r: Response, ns: seq<Node>): (p: Outcome)
    ensures p.Rejected? ==> p.code == INVALID_META_RESPONSE
    ensures !p.Undefined?
    ensures p.Parsed? ==> CallOf(Some(p.r)) == CallOf(Some(r))
    ensures p.Parsed? ==> (p.r.hasMore <==> HasChild(ns, "NextToken"))
    ensures p.Parsed? && p.r.hasMore ==> p.r.head.nextToken == LastToken(ns) && LastToken(ns).Some?
    ensures p.Parsed? ==>
      p.r.payload.ItemList? && (r.payload.NoResult? || r.payload.ItemList?)
      && var prior := if r.payload.ItemList? then r.payload.items else [];
      |p.r.payload.items| == |prior| + CountIn(ns, {"Item", "ItemName"})
      && p.r.payload.items[..|prior|] == prior
      && Read(p.r.payload.items[|prior|..]) == ReadItems(ns)
    ensures CountPass(ns, {"Item", "ItemName"}).Counted? && !r.payload.NoResult? && !r.payload.ItemList? ==> p == Abort
  {
    match CountPass(ns, {"Item", "ItemName"})
    case CountFailed(o) => o
    case Counted(_, token) =>
      if !(r.payload.NoResult? || r.payload.ItemList?) then Abort
      else
        var prior := if r.payload.ItemList? then r.payload.items else [];
        match ReadItems(ns)
        case ReadFailed(o) => o
        case Read(items) =>
          assert (prior + items)[..|prior|] == prior && (prior + items)[|prior|..] == items;
          Parsed(WithToken(r, token).(payload := ItemList(prior + items)))
  }

  // ---------------------------------------------------------------------
  // DomainMetadataResult

  /** The seven integer fields of sdb_domain_metadata, by element name. */
  const MetadataFields: set<string> := {
    "Timestamp", "ItemCount", "AttributeValueCount", "AttributeNameCount",
    "ItemNamesSizeBytes", "AttributeValuesSizeBytes", "AttributeNamesSizeBytes"
  }

  function MetadataValues(ns: seq<Node>, fields: map<string, int>): (p: Read<map<string, int>>)
    ensures p.ReadFailed? ==> p.outcome == Abort || p.outcome == Rejected(INVALID_META_RESPONSE)
    ensures p.Read? ==> p.value.Keys <= fields.Keys + MetadataFields
    ensures p.Read? ==> forall k :: k in p.value ==> LONG_MIN <= p.value[k] <= LONG_MAX || (k in fields && p.value[k] == fields[k])
    decreases |ns|
  {
    if |ns| == 0 then Read(fields)
    else
      var n := ns[0];
      if n.name in MetadataFields then
        match FirstText(n)
        case None => ReadFailed(Abort)
        case Some(t) =>
          match GetLong(t)
          case None => ReadFailed(Rejected(INVALID_META_RESPONSE))
          case Some(v) => MetadataValues(ns[1..], fields[n.name := v])
      else if Ignored(n.name) then MetadataValues(ns[1..], fields)
      else ReadFailed(Rejected(INVALID_META_RESPONSE))
  }

  /** A metadata field whose text GET_LONG refuses, or a stray child, makes the read fail. */
  lemma {:induction false} MetadataRefused(ns: seq<Node>, fields: map<string, int>, i: nat)
    requires i < |ns|
    requires (ns[i].name in MetadataFields && FirstText(ns[i]).Some? && GetLong(FirstText(ns[i]).value).None?)
      || (ns[i].name !in MetadataFields && !Ignored(ns[i].name))
    ensures MetadataValues(ns, fields).ReadFailed?
    decreases i
  {
    if i > 0 {
      var n := ns[0];
      assert ns[1..][i - 1] == ns[i];
      if n.name in MetadataFields && FirstText(n).Some? && GetLong(FirstText(n).value).Some? {
        MetadataRefused(ns[1..], fields[n.name := GetLong(FirstText(n).value).value], i - 1);
      } else if n.name !in MetadataFields && Ignored(n.name) {
        MetadataRefused(ns[1..], fields, i - 1);
      }
    }
  }

  /**
   * A successful read holds, for each metadata field, GET_LONG of the text
   * of the last element of that name; a field no element names keeps its
   * carried value; and no other key appears.
   */
  lemma {:induction false} MetadataReadBack(ns: seq<Node>, fields: map<string, int>)
    requires MetadataValues(ns, fields).Read?
    ensures var m := MetadataValues(ns, fields).value;
      && (forall i :: 0 <= i < |ns| && LastNamed(ns, i, ns[i].name) && ns[i].name in MetadataFields ==>
            ns[i].name in m && FirstText(ns[i]).Some? && GetLong(FirstText(ns[i]).value) == Some(m[ns[i].name]))
      && (forall k :: k in fields && (forall j :: 0 <= j < |ns| ==> ns[j].name != k) ==> k in m && m[k] == fields[k])
      && (forall k :: k in m ==> k in fields || exists j :: 0 <= j < |ns| && ns[j].name == k)
    decreases |ns|
  {
    if |ns| > 0 {
      var n, rest := ns[0], ns[1..];
      var fields' := if n.name in MetadataFields then fields[n.name := GetLong(FirstText(n).value).value] else fields;
      assert MetadataValues(ns, fields) == MetadataValues(rest, fields');
      MetadataReadBack(rest, fields');
      var m := MetadataValues(ns, fields).value;
      assert forall i :: 0 < i < |ns| ==> ns[i] == rest[i - 1];
      forall i | 0 <= i < |ns| && LastNamed(ns, i, ns[i].name) && ns[i].name in MetadataFields
        ensures ns[i].name in m && FirstText(ns[i]).Some? && GetLong(FirstText(ns[i]).value) == Some(m[ns[i].name])
      {
        if i > 0 {
          assert LastNamed(rest, i - 1, rest[i - 1].name);
        } else {
          assert forall j :: 0 <= j < |rest| ==> rest[j].name != n.name;
        }
      }
      forall k | k in fields && (forall j :: 0 <= j < |ns| ==> ns[j].name != k) ensures k in m && m[k] == fields[k] {
        assert ns[0].name != k;
        assert k in fields' && fields'[k] == fields[k];
        assert forall j :: 0 <= j < |rest| ==> rest[j].name != k;
      }
      forall k | k in m ensures k in fields || exists j :: 0 <= j < |ns| && ns[j].name == k {
        if k !in fields' {
          var j :| 0 <= j < |rest| && rest[j].name == k;
          assert ns[j + 1].name == k;
        } else if k !in fields {
          assert ns[0].name == k;
        }
      }
    }
  }

  /**
   * DomainMetadataResult read back: the keys are exactly the metadata
   * elements present, each GET_LONG of its last element's text; a field
   * GET_LONG refuses, or a stray child, fails the parse.
   */
  lemma DomainMetadataReadBack(r: Response, ns: seq<Node>)
    requires r.payload.NoResult?
    ensures var p := ParseDomainMetadata(r, ns);
      && (p.Parsed? ==> forall k :: k in p.r.payload.fields <==> k in MetadataFields && exists j :: 0 <= j < |ns| && ns[j].name == k)
      && (p.Parsed? ==> forall i :: 0 <= i < |ns| && LastNamed(ns, i, ns[i].name) && ns[i].name in MetadataFields ==>
            FirstText(ns[i]).Some? && GetLong(FirstText(ns[i]).value) == Some(p.r.payload.fields[ns[i].name]))
      && ((exists i :: 0 <= i < |ns| && ((ns[i].name in MetadataFields && FirstText(ns[i]).Some? && GetLong(FirstText(ns[i]).value).None?)
            || (ns[i].name !in MetadataFields && !Ignored(ns[i].name)))) ==> !p.Parsed?)
  {
    if MetadataValues(ns, map[]).Read? {
      MetadataReadBack(ns, map[]);
      var m := MetadataValues(ns, map[]).value;
      forall k | k in MetadataFields && exists j :: 0 <= j < |ns| && ns[j].name == k ensures k in m {
        var j :| 0 <= j < |ns| && ns[j].name == k;
        LastExists(ns, j);
        var i :| 0 <= i < |ns| && LastNamed(ns, i, ns[i].name) && ns[i].name == k;
        assert ns[i].name in m;
      }
    }
    if i :| (0 <= i < |ns| && ((ns[i].name in MetadataFields && FirstText(ns[i]).Some? && GetLong(FirstText(ns[i]).value).None?)
         || (ns[i].name !in MetadataFields && !Ignored(ns[i].name)))) {
      MetadataRefused(ns, map[], i);
    }
  }

  /** Every element name present has a last element of that name. */
  lemma {:induction false} LastExists(ns: seq<Node>, j: nat)
    requires j < |ns|
    ensures exists i :: 0 <= i < |ns| && LastNamed(ns, i, ns[i].name) && ns[i].name == ns[j].name
    decreases |ns| - j
  {
    if forall k :: j < k < |ns| ==> ns[k].name != ns[j].name {
      assert LastNamed(ns, j, ns[j].name);
    } else {
      var k :| j < k < |ns| && ns[k].name == ns[j].name;
      LastExists(ns, k);
    }
  }

  /**
   * DomainMetadataResult: only into a fresh response (asserted); each
   * field is a long, optionally followed by ".0".
   */
  function ParseDomainMetadata(r: Response, ns: seq<Node>): (p: Outcome)
    ensures !r.payload.NoResult? ==> p == Abort
    ensures p.Rejected? ==> p.code == INVALID_META_RESPONSE
    ensures !p.Undefined?
    ensures p.Parsed? ==>
      p.r.payload.DomainMetadata? && p.r.payload.fields.Keys <= MetadataFields && p.r == r.(payload := p.r.payload)
  {
    if !r.payload.NoResult? then Abort
    else
      match MetadataValues(ns, map[])
      case ReadFailed(o) => o
      case Read(fields) => Parsed(r.(payload := DomainMetadata(fields)))
  }

  /** A field is read back as the integer the server wrote, with or without ".0". */
  lemma DomainMetadataField(r: Response, field: string, v: int, suffix: string)
    requires r.payload.NoResult? && field in MetadataFields
    requires LONG_MIN <= v <= LONG_MAX && (suffix == "" || suffix == ".0")
    ensures ParseDomainMetadata(r, [Element(field, [TextNode(ShowInt(v) + suffix)])])
      == Parsed(r.(payload := DomainMetadata(map[field := v])))
    ensures ParseDomainMetadata(r, [Element(field, [TextNode(ShowInt(v) + ".5")])])
      == Rejected(INVALID_META_RESPONSE)
  {
    GetLongRoundTrip(v, suffix);
    GetLongRejectsSuffix(v);
    var good, bad := Element(field, [TextNode(ShowInt(v) + suffix)]), Element(field, [TextNode(ShowInt(v) + ".5")]);
    assert [good][1..] == [] && [bad][1..] == [];
    assert MetadataValues([good], map[]) == MetadataValues([], map[field := v]);
    assert MetadataValues([bad], map[]) == ReadFailed(Rejected(INVALID_META_RESPONSE));
  }

  lemma GetLongRejectsSuffix(v: int)
    requires LONG_MIN <= v <= LONG_MAX
    ensures GetLong(ShowInt(v) + ".5") == None
  {
    if v < 0 {
      StrtolOfNegative(Show(-v), ".5");
      assert ShowInt(v) + ".5" == "-" + Show(-v) + ".5";
    } else {
      StrtolOfDigits(Show(v), ".5");
    }
  }

  // ---------------------------------------------------------------------
  // Top level

  /** Element names that hold a list of items. */
  predicate ItemsSection(name: string)
  {
    name == "QueryResult" || name == "QueryWithAttributesResult" || name == "SelectResult"
  }

  predicate KnownSection(name: string)
  {
    name == "Errors" || name == "ResponseMetadata" || name == "ListDomainsResult"
    || name == "DomainMetadataResult" || name == "GetAttributesResult" || ItemsSection(name)
    || Ignored(name)
  }

  /** One child of the root, dispatched by name. */
  function Section(r: Response, n: Node): (p: Outcome)
    requires 0 <= r.error <= AWS_NUM_ERRORS
    ensures !KnownSection(n.name) ==> p == Rejected(INVALID_ERR_RESPONSE)
    ensures Ignored(n.name) ==> p == Parsed(r)
    ensures p.Parsed? ==> 0 <= p.r.error <= AWS_NUM_ERRORS
    ensures !p.Undefined?
    ensures p.Rejected? ==> p.code == INVALID_ERR_RESPONSE || p.code == INVALID_META_RESPONSE
  {
    if n.name == "Errors" then ParseErrors(r, n.children, Corrected)
    else if n.name == "ResponseMetadata" then ParseMetadata(r, n.children)
    else if n.name == "ListDomainsResult" then ParseDomains(r, n.children)
    else if n.name == "DomainMetadataResult" then ParseDomainMetadata(r, n.children)
    else if n.name == "GetAttributesResult" then ParseAttributes(r, n.children)
    else if ItemsSection(n.name) then ParseItems(r, n.children)
    else if Ignored(n.name) then Parsed(r)
    else Rejected(INVALID_ERR_RESPONSE)
  }

  function Sections(r: Response, ns: seq<Node>): (p: Outcome)
    requires 0 <= r.error <= AWS_NUM_ERRORS
    ensures p.Parsed? ==> 0 <= p.r.error <= AWS_NUM_ERRORS
    ensures !p.Undefined?
    ensures (exists i :: 0 <= i < |ns| && !KnownSection(ns[i].name)) ==> !p.Parsed?
    ensures p.Rejected? ==> p.code == INVALID_ERR_RESPONSE || p.code == INVALID_META_RESPONSE
    decreases |ns|
  {
    if |ns| == 0 then Parsed(r)
    else
      match Section(r, ns[0])
      case Parsed(r1) =>
        var p := Sections(r1, ns[1..]);
        assert forall i :: 1 <= i < |ns| ==> ns[i] == ns[1..][i - 1];
        p
      case other => other
  }

  /**
   * sdb_response_parse: doc is what libxml made of the body (None when it
   * is not XML); the root's children are parsed in document order.
   */
  function Parse(r: Response, doc: Option<Node>): (p: Outcome)
    requires 0 <= r.error <= AWS_NUM_ERRORS
    ensures doc.None? ==> p == Rejected(INVALID_XML_RESPONSE)
    ensures doc.Some? ==> p == Sections(r, doc.value.children)
    ensures p.Parsed? ==> 0 <= p.r.error <= AWS_NUM_ERRORS
    ensures !p.Undefined?
    ensures p.Rejected? ==> p.code in {INVALID_XML_RESPONSE, INVALID_ERR_RESPONSE, INVALID_META_RESPONSE}
  {
    match doc
    case None => Rejected(INVALID_XML_RESPONSE)
    case Some(root) => Sections(r, root.children)
  }

  /**
   * Appending a page keeps the result type: a list section parsed into a
   * response of the same list type yields that type again.
   */
  lemma AppendKeepsTag(r: Response, n: Node)
    requires 0 <= r.error <= AWS_NUM_ERRORS
    requires r.payload.DomainList? || r.payload.AttributeList? || r.payload.ItemList?
    requires n.name != "DomainMetadataResult"
    ensures Section(r, n).Parsed? ==> Tag(Section(r, n).r.payload) == Tag(r.payload)
  {
  }

  /**
   * A parsed page leaves a continuable response: whenever the more-pages
   * flag is set, the newest page carries the token to continue from.
   */
  lemma SectionContinuable(r: Response, n: Node)
    requires 0 <= r.error <= AWS_NUM_ERRORS
    requires Continuable(r)
    ensures Section(r, n).Parsed? ==> Continuable(Section(r, n).r)
  {
    var p := Section(r, n);
    if p.Parsed? && p.r.hasMore {
      if n.name == "ListDomainsResult" || n.name == "GetAttributesResult" || ItemsSection(n.name) {
        assert p.r.head.nextToken.Some?;
      } else {
        assert p.r.hasMore == r.hasMore && p.r.head == r.head && p.r.older == r.older;
        SameTokens(Pages(p.r), Pages(r));
      }
    }
  }

  lemma {:induction false} SectionsContinuable(r: Response, ns: seq<Node>)
    requires 0 <= r.error <= AWS_NUM_ERRORS
    requires Continuable(r)
    ensures Sections(r, ns).Parsed? ==> Continuable(Sections(r, ns).r)
    decreases |ns|
  {
    if |ns| > 0 {
      SectionContinuable(r, ns[0]);
      if Section(r, ns[0]).Parsed? {
        SectionsContinuable(Section(r, ns[0]).r, ns[1..]);
      }
    }
  }

  /** Parsing a page never touches the call a result set records. */
  lemma {:induction false} SectionsKeepCall(r: Response, ns: seq<Node>)
    requires 0 <= r.error <= AWS_NUM_ERRORS
    ensures Sections(r, ns).Parsed? ==> CallOf(Some(Sections(r, ns).r)) == CallOf(Some(r))
    decreases |ns|
  {
    if |ns| > 0 && Section(r, ns[0]).Parsed? {
      SectionsKeepCall(Section(r, ns[0]).r, ns[1..]);
    }
  }
}
