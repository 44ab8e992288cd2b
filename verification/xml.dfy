/**
 * The parsed XML document, as libxml's tree presents it to the response
 * parser: element nodes with a name and children, and text nodes whose
 * content is their text (XML_GET_CONTENT is NULL for an element).
 * Whether a body parses at all is decided by libxml and is an input of
 * the model.
 */
module Xml {
  import opened Wrappers

  datatype Node = Node(name: string, children: seq<Node>, content: Option<string>)

  function Element(name: string, children: seq<Node>): Node
  {
    Node(name, children, None)
  }

  function TextNode(s: string): Node
  {
    Node("text", [], Some(s))
  }

  /**
   * The text of an element the parser requires to have text: the content
   * of its first child, None when it has no child or the first child is
   * not text (the parser asserts both).
   */
  function FirstText(n: Node): (r: Option<string>)
    ensures r.Some? ==> |n.children| > 0 && n.children[0].content == r
    ensures |n.children| > 0 && n.children[0].content.Some? ==> r.Some?
  {
    if |n.children| == 0 then None else n.children[0].content
  }

  /** The number of nodes whose name is in names. */
  function CountIn(ns: seq<Node>, names: set<string>): (k: nat)
    ensures k <= |ns|
  {
    if |ns| == 0 then 0 else (if ns[0].name in names then 1 else 0) + CountIn(ns[1..], names)
  }
}
