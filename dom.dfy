/**
 * The slice of the DOM that the block converter reads: element and text
 * nodes, attributes in document order, textContent and
 * getElementsByTagName().
 */
module Dom {
  import opened Wrappers

  datatype Attr = Attr(name: string, value: string)

  /** A DOM node: a text node, an element, or a node of any other type (a comment, say), which carries no text. */
  datatype Node = Text(text: string) | Elem(name: string, attrs: seq<Attr>, children: seq<Node>) | Other(data: string)

  predicate HasAttribute(attrs: seq<Attr>, name: string) {
    exists k | 0 <= k < |attrs| :: attrs[k].name == name
  }

  /** getAttribute(): the value of the named attribute, "" when it is absent. */
  function GetAttribute(attrs: seq<Attr>, name: string): (v: string)
    ensures !HasAttribute(attrs, name) ==> v == ""
    ensures HasAttribute(attrs, name) ==>
      exists k | 0 <= k < |attrs| :: attrs[k].name == name && attrs[k].value == v
  {
    if attrs == [] then ""
    else if attrs[0].name == name then attrs[0].value
    else
      var v := GetAttribute(attrs[1..], name);
      assert forall k | 1 <= k < |attrs| :: attrs[k] == attrs[1..][k - 1];
      v
  }

  /** The attributes of a node; a text node has none. */
  function AttrsOf(n: Node): seq<Attr> {
    if n.Elem? then n.attrs else []
  }

  /** textContent: the concatenated text of all descendant text nodes. */
  function TextContent(n: Node): string {
    match n
    case Text(s) => s
    case Elem(_, _, children) => TextContentAll(children)
    case Other(_) => ""
  }

  function TextContentAll(ns: seq<Node>): string {
    if ns == [] then "" else TextContent(ns[0]) + TextContentAll(ns[1..])
  }

  /**
   * getElementsByTagName(): the descendant elements of n with the given
   * name, in document order; n itself is not included.
   */
  function ElementsByTagName(n: Node, tag: string): (r: seq<Node>)
    ensures forall k | 0 <= k < |r| :: r[k].Elem? && r[k].name == tag
  {
    match n
    case Elem(_, _, children) => ElementsByTagNameAll(children, tag)
    case _ => []
  }

  function ElementsByTagNameAll(ns: seq<Node>, tag: string): (r: seq<Node>)
    ensures forall k | 0 <= k < |r| :: r[k].Elem? && r[k].name == tag
  {
    if ns == [] then []
    else
      var c := ns[0];
      (if c.Elem? && c.name == tag then [c] else []) + ElementsByTagName(c, tag) + ElementsByTagNameAll(ns[1..], tag)
  }

  /** The children of a node; only an element has any. */
  function ChildrenOf(n: Node): seq<Node> {
    if n.Elem? then n.children else []
  }

  /** ->item(0) of a node list: its first node, if any. */
  function First(ns: seq<Node>): (r: Option<Node>)
    ensures r.None? <==> ns == []
    ensures r.Some? ==> r.value == ns[0]
  {
    if ns == [] then None else Some(ns[0])
  }
}
