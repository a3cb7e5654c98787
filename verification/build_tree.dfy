/**
 The merge of the styled component tree with the computed layout tree
 into the flex tree the emitter consumes, and the simpler text wrapping
 the build step applies before it.

 The layout engine is abstract: a tree of computed boxes of the same
 shape as the component tree. The z-order sort of children, the text
 tree computation and the set of inheritable font properties are
 parameters.
 */
module BuildTree {
  import opened Js
  import opened ReactTree
  import opened TagTable
  import S = StyledSketchTree

  const SVG := "svg"
  const TEXT := S.TEXT
  const FLEX_DIRECTION := "flexDirection"

  /** The failure when a component has more children than its layout node. */
  const MISSING_LAYOUT_CHILD := "layout node has no child at this index"

  /** The six computed fields of a layout node. */
  datatype Box = Box(left: int, right: int, top: int, bottom: int, width: int, height: int)

  /** A laid-out node: its computed box and its children, in layout order. */
  datatype LayoutTree = LayoutNode(box: Box, children: seq<LayoutTree>)

  /** One run of the text tree computed for a text node. */
  datatype TextRun = TextRun(content: string, textStyle: Style)

  /** `{...node.props, textNodes}`. */
  datatype FlexProps = FlexProps(props: Props, textNodes: Option<seq<TextRun>>)

  /** Merged children, or an svg node's children passed through unmerged. */
  datatype FlexChildren = Merged(nodes: seq<FlexNode>) | Unmerged(raw: seq<Node>)

  /** A node of the flex tree; `tag` is the node's `type`. */
  datatype FlexNode = FlexNode(tag: string, style: Style, textStyle: Style, layout: Box, props: FlexProps, children: FlexChildren)

  /**
   The collaborators of the merge: the inheritable font properties, the
   z-order sort of a node's children, and the text tree computation.
   */
  datatype Env = Env(inheritable: set<string>, zIndex: seq<Node> -> seq<Node>, textTree: (Node, Style) -> seq<TextRun>)

  /** The z-order sort only reorders. */
  ghost predicate Reorders(env: Env) {
    forall s :: multiset(env.zIndex(s)) == multiset(s)
  }

  /** `node.type || 'text'`. */
  function FlexTypeOf(n: Node): (r: string)
    ensures r != ""
    ensures n.Element? && n.tag != "" ==> r == n.tag
    ensures n.Content? || n.tag == "" ==> r == TEXT
  {
    if HasType(n) then n.tag else TEXT
  }

  /** The reordered children of an element are its own children. */
  lemma ReorderedChildren(env: Env, n: Node)
    requires Reorders(env)
    ensures |env.zIndex(ChildrenOf(n))| == |ChildrenOf(n)|
    ensures forall i :: 0 <= i < |env.zIndex(ChildrenOf(n))| ==> env.zIndex(ChildrenOf(n))[i] in ChildrenOf(n)
  {
    var kids := env.zIndex(ChildrenOf(n));
    assert multiset(kids) == multiset(ChildrenOf(n));
    assert |kids| == |multiset(kids)|;
    forall i | 0 <= i < |kids| ensures kids[i] in ChildrenOf(n) {
      assert kids[i] in multiset(kids);
    }
  }

  /** The inheritable styles a text node passes down: its font properties, laid out in a row. */
  function TextInheritable(env: Env, style: Style): Style {
    Pick(style, env.inheritable)[FLEX_DIRECTION := Str("row")]
  }

  /**
   The flex node of a text node: a leaf that carries its text runs. A
   styled text node that sets an inheritable font property adds its font
   properties to the inherited ones and lays its runs out in a row; any
   other text node passes the inherited styles on unchanged.
   */
  function TextFlex(env: Env, n: Node, y: LayoutTree, ctx: Style): (f: FlexNode)
    requires FlexTypeOf(n) == TEXT
    ensures f.tag == TEXT && f.style == StyleOf(n) && f.layout == y.box && f.props.props == PropsOf(n)
    ensures f.children == Merged([]) && f.props.textNodes == Some(env.textTree(n, f.textStyle))
    ensures n.Element? && n.props.style.Some? && HasAnyDefined(StyleOf(n), env.inheritable) ==>
      && f.textStyle.Keys == ctx.Keys + (StyleOf(n).Keys * env.inheritable) + {FLEX_DIRECTION}
      && f.textStyle[FLEX_DIRECTION] == Str("row")
      && (forall k :: k in env.inheritable && k in StyleOf(n) && k != FLEX_DIRECTION ==> f.textStyle[k] == StyleOf(n)[k])
      && (forall k :: k in ctx && !(k in env.inheritable && k in StyleOf(n)) && k != FLEX_DIRECTION ==> f.textStyle[k] == ctx[k])
    ensures !(n.Element? && n.props.style.Some? && HasAnyDefined(StyleOf(n), env.inheritable)) ==> f.textStyle == ctx
  {
    var style := StyleOf(n);
    var textCtx :=
      if n.Element? && n.props.style.Some? && HasAnyDefined(style, env.inheritable)
      then Assign(ctx, TextInheritable(env, style))
      else ctx;
    FlexNode(TEXT, style, textCtx, y.box, FlexProps(PropsOf(n), Some(env.textTree(n, textCtx))), Merged([]))
  }

  /** `reactTreeToFlexTree(node, yogaNode, context)`, with the context's inherited styles as `ctx`. */
  function ToFlex(env: Env, n: Node, y: LayoutTree, ctx: Style): (r: Result<FlexNode, string>)
    requires Reorders(env)
    decreases n, 1
    ensures r.Success? ==>
      && r.value.tag == FlexTypeOf(n)
      && r.value.style == StyleOf(n)
      && r.value.layout == y.box
      && r.value.props.props == PropsOf(n)
      && WellFormed(r.value)
    ensures FlexTypeOf(n) == SVG ==> r == Success(FlexNode(SVG, StyleOf(n), ctx, y.box, FlexProps(PropsOf(n), None), Unmerged(ChildrenOf(n))))
    ensures FlexTypeOf(n) == TEXT ==> r == Success(TextFlex(env, n, y, ctx))
    ensures FlexTypeOf(n) != SVG && FlexTypeOf(n) != TEXT && r.Success? ==>
      && r.value.textStyle == ctx
      && r.value.props.textNodes.None?
      && r.value.children.Merged?
      && |r.value.children.nodes| == |ChildrenOf(n)|
      && |ChildrenOf(n)| <= |y.children|
  {
    var t := FlexTypeOf(n);
    var style := StyleOf(n);
    if t == SVG then
      Success(FlexNode(t, style, ctx, y.box, FlexProps(PropsOf(n), None), Unmerged(ChildrenOf(n))))
    else if t == TEXT then
      Success(TextFlex(env, n, y, ctx))
    else if |ChildrenOf(n)| > 0 then
      var kids := env.zIndex(ChildrenOf(n));
      ReorderedChildren(env, n);
      match MergeChildren(env, n, kids, y.children, ctx)
      case Failure(e) => Failure(e)
      case Success(fs) => Success(FlexNode(t, style, ctx, y.box, FlexProps(PropsOf(n), None), Merged(fs)))
    else
      Success(FlexNode(t, style, ctx, y.box, FlexProps(PropsOf(n), None), Merged([])))
  }

  /** The loop over a node's reordered children: child `i` is merged with layout child `i`. */
  function MergeChildren(env: Env, parent: Node, kids: seq<Node>, ys: seq<LayoutTree>, ctx: Style): (r: Result<seq<FlexNode>, string>)
    requires Reorders(env)
    requires parent.Element? && forall i :: 0 <= i < |kids| ==> kids[i] in parent.children
    decreases parent, 0, |kids|
    ensures r.Success? ==>
      && |r.value| == |kids| <= |ys|
    ensures r.Success? ==> forall i :: 0 <= i < |r.value| ==> WellFormed(r.value[i])
  {
    if kids == [] then Success([])
    else if ys == [] then Failure(MISSING_LAYOUT_CHILD)
    else
      assert kids[0] in parent.children;
      match ToFlex(env, kids[0], ys[0], ctx)
      case Failure(e) => Failure(e)
      case Success(f) =>
        match MergeChildren(env, parent, kids[1..], ys[1..], ctx)
        case Failure(e) => Failure(e)
        case Success(fs) => Success([f] + fs)
  }

  /** A successful merge holds, at index `i`, the merge of child `i` with layout child `i`. */
  lemma {:induction false} MergeChildrenAt(env: Env, parent: Node, kids: seq<Node>, ys: seq<LayoutTree>, ctx: Style, i: nat)
    requires Reorders(env)
    requires parent.Element? && forall j :: 0 <= j < |kids| ==> kids[j] in parent.children
    requires i < |kids| && MergeChildren(env, parent, kids, ys, ctx).Success?
    decreases i
    ensures i < |ys|
    ensures ToFlex(env, kids[i], ys[i], ctx) == Success(MergeChildren(env, parent, kids, ys, ctx).value[i])
  {
    if i > 0 {
      MergeChildrenAt(env, parent, kids[1..], ys[1..], ctx, i - 1);
      assert kids[1..][i - 1] == kids[i] && ys[1..][i - 1] == ys[i];
    }
  }

  /**
   Child `i` of a merged node is the merge of the `i`-th child in z-order
   with the `i`-th layout child, under the same inherited styles.
   */
  lemma ToFlexChildren(env: Env, n: Node, y: LayoutTree, ctx: Style)
    requires Reorders(env)
    requires FlexTypeOf(n) != SVG && FlexTypeOf(n) != TEXT && ToFlex(env, n, y, ctx).Success?
    ensures (ReorderedChildren(env, n);
      forall i :: 0 <= i < |ChildrenOf(n)| ==>
        ToFlex(env, env.zIndex(ChildrenOf(n))[i], y.children[i], ctx) == Success(ToFlex(env, n, y, ctx).value.children.nodes[i]))
  {
    ReorderedChildren(env, n);
    var kids := env.zIndex(ChildrenOf(n));
    forall i | 0 <= i < |ChildrenOf(n)|
      ensures ToFlex(env, kids[i], y.children[i], ctx) == Success(ToFlex(env, n, y, ctx).value.children.nodes[i])
    {
      MergeChildrenAt(env, n, kids, y.children, ctx, i);
    }
  }

  /** Unmerged children occur only under svg nodes, at any depth. */
  predicate WellFormed(f: FlexNode) {
    match f.children
    case Unmerged(_) => f.tag == SVG
    case Merged(ns) => forall i :: 0 <= i < |ns| ==> WellFormed(ns[i])
  }

  /** The layout tree has a node for every component the merge visits. */
  predicate Covers(env: Env, n: Node, y: LayoutTree)
    requires Reorders(env)
    decreases n
  {
    var t := FlexTypeOf(n);
    var kids := env.zIndex(ChildrenOf(n));
    ReorderedChildren(env, n);
    t == SVG || t == TEXT ||
    (|kids| <= |y.children| && forall i :: 0 <= i < |kids| ==> Covers(env, kids[i], y.children[i]))
  }

  /** The merge succeeds exactly when the layout tree covers the component tree. */
  lemma {:induction false} ToFlexSucceedsIffCovers(env: Env, n: Node, y: LayoutTree, ctx: Style)
    requires Reorders(env)
    decreases n, 1
    ensures ToFlex(env, n, y, ctx).Success? <==> Covers(env, n, y)
  {
    var t := FlexTypeOf(n);
    if t != SVG && t != TEXT && |ChildrenOf(n)| > 0 {
      ReorderedChildren(env, n);
      MergeChildrenSucceedsIffCovers(env, n, env.zIndex(ChildrenOf(n)), y.children, ctx);
    }
  }

  lemma {:induction false} MergeChildrenSucceedsIffCovers(env: Env, parent: Node, kids: seq<Node>, ys: seq<LayoutTree>, ctx: Style)
    requires Reorders(env)
    requires parent.Element? && forall i :: 0 <= i < |kids| ==> kids[i] in parent.children
    decreases parent, 0, |kids|
    ensures MergeChildren(env, parent, kids, ys, ctx).Success? <==>
      |kids| <= |ys| && forall i :: 0 <= i < |kids| ==> Covers(env, kids[i], ys[i])
  {
    if kids != [] && ys != [] {
      assert kids[0] in parent.children;
      ToFlexSucceedsIffCovers(env, kids[0], ys[0], ctx);
      MergeChildrenSucceedsIffCovers(env, parent, kids[1..], ys[1..], ctx);
      if |kids| <= |ys| && forall i :: 0 <= i < |kids| ==> Covers(env, kids[i], ys[i]) {
        assert Covers(env, kids[0], ys[0]);
        forall i | 0 <= i < |kids[1..]| ensures Covers(env, kids[1..][i], ys[1..][i]) {
          assert Covers(env, kids[i + 1], ys[i + 1]);
        }
      }
      if MergeChildren(env, parent, kids, ys, ctx).Success? {
        forall i | 0 <= i < |kids| ensures Covers(env, kids[i], ys[i]) {
          if i > 0 {
            assert kids[i] == kids[1..][i - 1] && ys[i] == ys[1..][i - 1];
          }
        }
      }
    }
  }

  /**
   The error the build step's wrapping walk throws when it visits a `null`:
   it reads `children` of every value before testing that the value exists.
   */
  const NULL_READ := "TypeError: Cannot read property 'children' of null"

  /** A props object holding a `null`, directly or in its style. */
  predicate HasNullProp(p: Props) {
    Null in p.rest.Values || (p.style.Some? && Null in p.style.value.Values)
  }

  /**
   The as-written wrapping walk reaches a `null`. A non-text element with
   children is replaced and not entered. Every other element is entered:
   its props are walked, its `null` children list when it has none, and
   each of its children in turn.
   */
  predicate ReachesNull(n: Node) {
    match n
    case Content(v) => v == Null
    case Element(tag, props, ch) =>
      && (tag == TEXT || |ch| == 0)
      && (HasNullProp(props) || |ch| == 0 || exists i :: 0 <= i < |ch| && ReachesNull(ch[i]))
  }

  /**
   `convertHTMLInnerText` as written: every non-text element with children
   has them replaced by one text node holding the first child, whether or
   not that child is raw content, and the walk stops there. The walk
   enters every other node, and throws when it meets a `null`.
   */
  function ConvertInnerTextAsWritten(inheritable: set<string>, n: Node): (r: Result<Node, string>)
    decreases n, 1
    ensures n.Element? && n.tag != TEXT && |n.children| > 0 ==>
      r == Success(n.(children := [S.TextNode(inheritable, map[], n)]))
    ensures n.Element? && |n.children| == 0 ==> r == Failure(NULL_READ)
    ensures n.Element? && n.tag == TEXT && HasNullProp(n.props) ==> r == Failure(NULL_READ)
    ensures n.Content? ==> r == if n.value == Null then Failure(NULL_READ) else Success(n)
    ensures r.Success? && n.Element? ==>
      && r.value.Element? && r.value.tag == n.tag && r.value.props == n.props
      && (n.tag == TEXT ==> |r.value.children| == |n.children|)
    ensures r.Success? && n.Element? && n.tag == TEXT ==>
      forall i :: 0 <= i < |n.children| ==> ConvertInnerTextAsWritten(inheritable, n.children[i]) == Success(r.value.children[i])
  {
    match n
    case Content(v) => if v == Null then Failure(NULL_READ) else Success(n)
    case Element(tag, props, ch) =>
      if tag != TEXT && |ch| > 0 then Success(n.(children := [S.TextNode(inheritable, map[], n)]))
      else if |ch| == 0 || HasNullProp(props) then Failure(NULL_READ)
      else
        match WrapChildrenAsWritten(inheritable, n, ch)
        case Failure(e) => Failure(e)
        case Success(kids) => Success(Element(tag, props, kids))
  }

  /** The walk over the children of an entered element, in order, stopping at the first throw. */
  function WrapChildrenAsWritten(inheritable: set<string>, parent: Node, kids: seq<Node>): (r: Result<seq<Node>, string>)
    requires parent.Element? && forall i :: 0 <= i < |kids| ==> kids[i] in parent.children
    decreases parent, 0, |kids|
    ensures r.Success? ==> |r.value| == |kids|
    ensures r.Success? ==> forall i :: 0 <= i < |kids| ==> ConvertInnerTextAsWritten(inheritable, kids[i]) == Success(r.value[i])
  {
    if kids == [] then Success([])
    else
      assert kids[0] in parent.children;
      match ConvertInnerTextAsWritten(inheritable, kids[0])
      case Failure(e) => Failure(e)
      case Success(k) =>
        match WrapChildrenAsWritten(inheritable, parent, kids[1..])
        case Failure(e) => Failure(e)
        case Success(ks) => Success([k] + ks)
  }

  /** The as-written wrapping throws exactly when its walk reaches a `null`. */
  lemma {:induction false} AsWrittenFailsIffReachesNull(inheritable: set<string>, n: Node)
    decreases n, 1
    ensures ConvertInnerTextAsWritten(inheritable, n).Failure? <==> ReachesNull(n)
  {
    if n.Element? && n.tag == TEXT && |n.children| > 0 && !HasNullProp(n.props) {
      WrapChildrenFailsIffReachesNull(inheritable, n, n.children);
    }
  }

  lemma {:induction false} WrapChildrenFailsIffReachesNull(inheritable: set<string>, parent: Node, kids: seq<Node>)
    requires parent.Element? && forall i :: 0 <= i < |kids| ==> kids[i] in parent.children
    decreases parent, 0, |kids|
    ensures WrapChildrenAsWritten(inheritable, parent, kids).Failure? <==>
      exists i :: 0 <= i < |kids| && ReachesNull(kids[i])
  {
    if kids != [] {
      assert kids[0] in parent.children;
      AsWrittenFailsIffReachesNull(inheritable, kids[0]);
      WrapChildrenFailsIffReachesNull(inheritable, parent, kids[1..]);
      if exists i :: 0 <= i < |kids| && ReachesNull(kids[i]) {
        var i :| 0 <= i < |kids| && ReachesNull(kids[i]);
        if i > 0 {
          assert kids[1..][i - 1] == kids[i];
        }
      }
      if exists i :: 0 <= i < |kids[1..]| && ReachesNull(kids[1..][i]) {
        var i :| 0 <= i < |kids[1..]| && ReachesNull(kids[1..][i]);
        assert ReachesNull(kids[i + 1]);
      }
    }
  }

  /** A `div` holding a `span` and an `img`, neither of them raw text. */
  const TwoTypedChildren := Element("div", NoProps, [Element("span", NoProps, []), Element("img", NoProps, [])])

  /**
   As written, the `span` is wrapped in a text node and the `img` is
   dropped, though nothing needed wrapping; the corrected wrapping leaves
   the tree as it is.
   */
  lemma AsWrittenDropsTypedChildren(inheritable: set<string>)
    ensures S.NothingToWrap(TwoTypedChildren)
    ensures ConvertInnerTextAsWritten(inheritable, TwoTypedChildren) ==
      Success(Element("div", NoProps, [Element(TEXT, Props(Some(map[]), None, map[]), [Element("span", NoProps, [])])]))
    ensures ConvertInnerTextAsWritten(inheritable, TwoTypedChildren) != Success(TwoTypedChildren)
    ensures S.ConvertInnerText(inheritable, map[], TwoTypedChildren) == TwoTypedChildren
  {
    var n := TwoTypedChildren;
    assert Pick(StyleOf(n), inheritable) + map[] == map[];
    S.ConvertInnerTextNoop(inheritable, map[], n);
  }

  /**
   The type pass seen from a node that the pass replaced elsewhere: the
   node keeps its own tag, while its children, reached through the shared
   children list, are rewritten in place.
   */
  function RewriteBelow(m: TagsMap, n: Node): (r: Node)
    ensures SameShape(n, r)
    ensures n.Content? ==> r == n
    ensures n.Element? ==> r.tag == n.tag && r.props == n.props
    ensures n.Element? ==> forall i :: 0 <= i < |n.children| ==> r.children[i] == S.ConvertTypes(m, n.children[i])
  {
    match n
    case Content(_) => n
    case Element(tag, props, ch) =>
      Element(tag, props, seq(|ch|, i requires 0 <= i < |ch| => S.ConvertTypes(m, ch[i])))
  }

  /**
   The tree `buildTree` hands to the merge as written, or the error it
   throws. Both passes update the rendered tree in place, except that a
   replaced root is only returned, and the merge reads the original root.
   When the root is a non-text element with children, text wrapping
   replaces the root and stops there, so the rendered tree is left as it
   was and no `null` is visited; the type pass then walks the replacement,
   which shares only the first child, and rewrites the tree below that
   child. Otherwise both passes act in place on everything below the
   root, whose own tag is kept, and the wrapping walk may throw.
   */
  function BuildInputAsWritten(m: TagsMap, inheritable: set<string>, json: Node): (r: Result<Node, string>)
    ensures r.Failure? <==> ReachesNull(json)
    ensures r.Success? && json.Element? ==> r.value.Element? && r.value.tag == json.tag && r.value.props == json.props
    ensures json.Element? && json.tag != TEXT && |json.children| > 0 ==>
      && r.Success?
      && |r.value.children| == |json.children|
      && r.value.children[0] == RewriteBelow(m, json.children[0])
      && r.value.children[1..] == json.children[1..]
    ensures r.Success? && json.Element? && json.tag == TEXT ==>
      && |r.value.children| == |json.children|
      && forall i :: 0 <= i < |json.children| ==>
           && ConvertInnerTextAsWritten(inheritable, json.children[i]).Success?
           && r.value.children[i] == S.ConvertTypes(m, ConvertInnerTextAsWritten(inheritable, json.children[i]).value)
    ensures json.Content? ==> r == if json.value == Null then Failure(NULL_READ) else Success(json)
  {
    if json.Element? && json.tag != TEXT && |json.children| > 0 then
      Success(json.(children := [RewriteBelow(m, json.children[0])] + json.children[1..]))
    else
      AsWrittenFailsIffReachesNull(inheritable, json);
      match ConvertInnerTextAsWritten(inheritable, json)
      case Failure(e) => Failure(e)
      case Success(w) =>
        var t := S.ConvertTypes(m, w);
        Success(if json.Element? then t.(tag := json.tag) else t)
  }

  /** Two nested `div`s, a childless `div`, and a table in which `div` is a `View`. */
  const NestedDivs := Element("div", NoProps, [Element("div", NoProps, [])])
  const ChildlessDiv := Element("div", NoProps, [])
  const DivAsView: TagsMap := [Mapping("View", ["div"])]

  /** As written, neither `div` reaches the merge as a `View`; the intended input has both rewritten. */
  lemma AsWrittenKeepsRootTag(inheritable: set<string>)
    ensures BuildInputAsWritten(DivAsView, inheritable, NestedDivs) == Success(NestedDivs)
    ensures BuildInput(DivAsView, inheritable, NestedDivs) == Element("View", NoProps, [Element("View", NoProps, [])])
  {
    var inner := Element("div", NoProps, []);
    assert RewriteBelow(DivAsView, inner) == inner;
    assert NestedDivs.(children := [inner] + NestedDivs.children[1..]) == NestedDivs;
    assert Flatten(DivAsView) == [TagEntry("div", "View")];
    assert S.ConvertTypes(DivAsView, inner) == Element("View", NoProps, []);
    assert S.ConvertInnerText(inheritable, map[], inner) == inner;
    assert S.ConvertInnerText(inheritable, map[], NestedDivs) == NestedDivs;
  }

  /** As written, a lone childless `div` makes the build throw; the intended input is a `View`. */
  lemma AsWrittenThrowsOnChildless(inheritable: set<string>)
    ensures BuildInputAsWritten(DivAsView, inheritable, ChildlessDiv) == Failure(NULL_READ)
    ensures BuildInput(DivAsView, inheritable, ChildlessDiv) == Element("View", NoProps, [])
  {
    assert Flatten(DivAsView) == [TagEntry("div", "View")];
  }

  /**
   The tree the merge is evidently meant to consume: the whole rendered
   tree after text wrapping and type rewriting, root included.
   */
  function BuildInput(m: TagsMap, inheritable: set<string>, json: Node): (r: Node)
    decreases json
    ensures json.Content? ==> r == json
    ensures S.Convertible(m, json) ==> r.Element? && r.tag == ComponentType(m, json).value.sketchComponent
    ensures json.Element? && !S.Convertible(m, json) ==> r.Element? && r.tag == json.tag
    ensures json.Element? ==> r.Element? && r.props == json.props
    ensures S.NeedsTextNode(json) ==> r.children == [S.ConvertTypes(m, S.TextNode(inheritable, map[], json))]
    ensures json.Element? && !S.NeedsTextNode(json) ==>
      && |r.children| == |json.children|
      && forall i :: 0 <= i < |json.children| ==> r.children[i] == BuildInput(m, inheritable, json.children[i])
  {
    var wrapped := S.ConvertInnerText(inheritable, map[], json);
    assert json.Element? ==> ComponentType(m, wrapped) == ComponentType(m, json);
    S.ConvertTypes(m, wrapped)
  }

  /**
   `buildTree` after rendering: the merge of the wrapped and rewritten
   tree with the layout computed for it, from an empty context.
   */
  function Build(m: TagsMap, env: Env, layout: LayoutTree, json: Node): (r: Result<FlexNode, string>)
    requires Reorders(env)
    ensures r.Success? <==> Covers(env, BuildInput(m, env.inheritable, json), layout)
    ensures r.Success? ==> r.value.layout == layout.box && WellFormed(r.value)
    ensures r == ToFlex(env, BuildInput(m, env.inheritable, json), layout, map[])
    ensures r.Success? ==> r.value.tag == FlexTypeOf(BuildInput(m, env.inheritable, json))
    ensures r.Success? && json.Element? ==> r.value.props.props == json.props
  {
    var tree := BuildInput(m, env.inheritable, json);
    ToFlexSucceedsIffCovers(env, tree, layout, map[]);
    ToFlex(env, tree, layout, map[])
  }
}
