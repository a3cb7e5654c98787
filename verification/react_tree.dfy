/**
 The JSON tree the React test renderer produces: elements with a `type`,
 a `props` object and `children`, and raw text/number children.
 */
module ReactTree {
  import opened Js

  /** A props object: its `style`, its `className`, and every other prop. */
  datatype Props = Props(style: Option<Style>, className: Option<string>, rest: map<string, Value>)

  /** The `{}` props object. */
  const NoProps := Props(None, None, map[])

  /** A node of the rendered tree. `children` is `[]` where the renderer gives `null`. */
  datatype Node =
    | Element(tag: string, props: Props, children: seq<Node>)
    | Content(value: Value)

  /** `node.type` is truthy. */
  predicate HasType(n: Node) {
    n.Element? && n.tag != ""
  }

  /** `node.props.style`, or `{}` when it is absent. */
  function StyleOf(n: Node): Style {
    if n.Element? && n.props.style.Some? then n.props.style.value else map[]
  }

  /** `node.children`, or no children for raw content. */
  function ChildrenOf(n: Node): seq<Node> {
    if n.Element? then n.children else []
  }

  /** `{...node.props}`: raw content has no props. */
  function PropsOf(n: Node): Props {
    if n.Element? then n.props else NoProps
  }

  /** Two trees with the same nodes, children and raw content, whatever their tags and props. */
  predicate SameShape(a: Node, b: Node) {
    match a
    case Content(v) => b == a
    case Element(_, _, ach) =>
      && b.Element?
      && |b.children| == |ach|
      && forall i :: 0 <= i < |ach| ==> SameShape(ach[i], b.children[i])
  }

  /** No element of the tree is tagged `t`. */
  predicate NoTag(n: Node, t: string) {
    match n
    case Content(_) => true
    case Element(tag, _, ch) => tag != t && forall i :: 0 <= i < |ch| ==> NoTag(ch[i], t)
  }
}
