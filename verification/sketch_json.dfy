/**
 Emission of Sketch JSON from the flex tree. Each node's type resolves to
 a renderer key through the tag table; the renderer draws a group layer
 and backing layers, and the node's children are emitted below them,
 except under an svg node, whose renderer owns its children.

 The renderer registry is a parameter: the keys that have a renderer and
 the two drawing operations of each.
 */
module SketchJson {
  import opened Js
  import opened TagTable
  import opened BuildTree

  /** An emitted layer: the renderer's group layer with its `layers`. */
  datatype Layer<G> = Layer(group: G, layers: seq<Layer<G>>)

  /** The renderers: which keys have one, and what `renderGroupLayer` and `renderBackingLayers` return. */
  datatype Renderers<G> = Renderers(
    keys: set<string>,
    group: (string, FlexNode) -> G,
    backing: (string, FlexNode) -> seq<Option<Layer<G>>>)

  const ERROR_PREFIX := "Could not find renderer for type '"
  const DOCUMENT_HINT := "\nBe sure to only have <Page> components as children of <Document>."
  const SVG_HINT := "\nBe sure to always have <Svg.*> components as children of <Svg>."

  /** The renderer key of a type: the component of the first table entry for it, else the type itself. */
  function RenderKey(m: TagsMap, t: string): (k: string)
    ensures FirstMapping(m, t).Some? ==> k == m[FirstMapping(m, t).value].component
    ensures FirstMapping(m, t).None? ==> k == t
  {
    FindFirstMapping(m, t);
    match Find(Flatten(m), t)
    case Some(e) => e.sketchComponent
    case None => t
  }

  predicate StartsWith(s: string, prefix: string) {
    |prefix| <= |s| && s[..|prefix|] == prefix
  }

  predicate EndsWith(s: string, suffix: string) {
    |suffix| <= |s| && s[|s| - |suffix|..] == suffix
  }

  /** The error thrown when no renderer exists: it names the type and adds a hint for the two common mistakes. */
  function MissingRendererMessage(t: string): (msg: string)
    ensures StartsWith(msg, ERROR_PREFIX + t + "'. ")
    ensures t == "document" ==> EndsWith(msg, DOCUMENT_HINT)
    ensures t != "document" && StartsWith(t, "svg") ==> EndsWith(msg, SVG_HINT)
    ensures t != "document" && !StartsWith(t, "svg") ==> EndsWith(msg, "'. ")
  {
    var notes := if t == "document" then DOCUMENT_HINT else if StartsWith(t, "svg") then SVG_HINT else "";
    ERROR_PREFIX + t + "'. " + notes
  }

  /** Every node the emitter visits has a renderer. */
  predicate Renderable<G>(m: TagsMap, rs: Renderers<G>, n: FlexNode) {
    && RenderKey(m, n.tag) in rs.keys
    && (n.tag != SVG && n.children.Merged? ==>
          forall i :: 0 <= i < |n.children.nodes| ==> Renderable(m, rs, n.children.nodes[i]))
  }

  /** `flexToSketchJSON(node)`. */
  function Emit<G>(m: TagsMap, rs: Renderers<G>, n: FlexNode): (r: Result<Layer<G>, string>)
    requires WellFormed(n)
    decreases n, 1
    ensures RenderKey(m, n.tag) !in rs.keys ==> r == Failure(MissingRendererMessage(n.tag))
    ensures r.Success? ==> RenderKey(m, n.tag) in rs.keys && r.value.group == rs.group(RenderKey(m, n.tag), n)
  {
    var key := RenderKey(m, n.tag);
    if key !in rs.keys then
      Failure(MissingRendererMessage(n.tag))
    else
      var group := rs.group(key, n);
      var backing := rs.backing(key, n);
      var sublayers := if n.tag == SVG then Success([]) else EmitChildren(m, rs, n, 0);
      match sublayers
      case Failure(e) => Failure(e)
      case Success(subs) =>
        Success(Layer(group, Present(backing + Somes(subs))))
  }

  /** `children.map(flexToSketchJSON)` from index `i` on: the first failure, or one layer per child in order. */
  function EmitChildren<G>(m: TagsMap, rs: Renderers<G>, parent: FlexNode, i: nat): (r: Result<seq<Layer<G>>, string>)
    requires WellFormed(parent) && parent.tag != SVG && i <= |parent.children.nodes|
    decreases parent, 0, |parent.children.nodes| - i
    ensures r.Success? ==> |r.value| == |parent.children.nodes| - i
  {
    var kids := parent.children.nodes;
    if i == |kids| then Success([])
    else
      match Emit(m, rs, kids[i])
      case Failure(e) => Failure(e)
      case Success(l) =>
        match EmitChildren(m, rs, parent, i + 1)
        case Failure(e) => Failure(e)
        case Success(ls) =>
          Success([l] + ls)
  }

  /** A successful run from index `i` is the `i`-th child's layer followed by the run from `i + 1`. */
  lemma EmitChildrenCons<G>(m: TagsMap, rs: Renderers<G>, parent: FlexNode, i: nat)
    requires WellFormed(parent) && parent.tag != SVG && i < |parent.children.nodes|
    requires EmitChildren(m, rs, parent, i).Success?
    ensures Emit(m, rs, parent.children.nodes[i]).Success?
    ensures EmitChildren(m, rs, parent, i + 1).Success?
    ensures EmitChildren(m, rs, parent, i).value ==
      [Emit(m, rs, parent.children.nodes[i]).value] + EmitChildren(m, rs, parent, i + 1).value
  {
  }

  /** A successful run from index `i` holds, at position `j`, the emitted layer of child `i + j`. */
  lemma {:induction false} EmitChildrenAt<G>(m: TagsMap, rs: Renderers<G>, parent: FlexNode, i: nat, j: nat)
    requires WellFormed(parent) && parent.tag != SVG && i + j < |parent.children.nodes|
    requires EmitChildren(m, rs, parent, i).Success?
    decreases j
    ensures j < |EmitChildren(m, rs, parent, i).value|
    ensures Emit(m, rs, parent.children.nodes[i + j]) == Success(EmitChildren(m, rs, parent, i).value[j])
  {
    EmitChildrenCons(m, rs, parent, i);
    var kids := parent.children.nodes;
    var ls := EmitChildren(m, rs, parent, i).value;
    if j == 0 {
      assert ls[0] == Emit(m, rs, kids[i]).value;
    } else {
      var tail := EmitChildren(m, rs, parent, i + 1).value;
      EmitChildrenAt(m, rs, parent, i + 1, j - 1);
      assert (i + 1) + (j - 1) == i + j;
      assert Emit(m, rs, kids[i + j]) == Success(tail[j - 1]);
      assert ls[j] == tail[j - 1];
    }
  }

  /**
   The layers of a successful emission: the renderer's present backing
   layers, followed, unless the node is an svg node, by the children's
   emitted layers.
   */
  lemma EmitLayers<G>(m: TagsMap, rs: Renderers<G>, n: FlexNode)
    requires WellFormed(n) && Emit(m, rs, n).Success?
    ensures n.tag == SVG ==> Emit(m, rs, n).value.layers == Present(rs.backing(RenderKey(m, n.tag), n))
    ensures n.tag != SVG ==>
      && EmitChildren(m, rs, n, 0).Success?
      && Emit(m, rs, n).value.layers == Present(rs.backing(RenderKey(m, n.tag), n)) + EmitChildren(m, rs, n, 0).value
  {
    var backing := rs.backing(RenderKey(m, n.tag), n);
    if n.tag == SVG {
      PresentAppend(backing, Somes([]));
      PresentAllSome<Layer<G>>([]);
      assert backing + Somes([]) == backing;
    } else {
      var subs := EmitChildren(m, rs, n, 0);
      assert subs.Success?;
      PresentAppend(backing, Somes(subs.value));
      PresentAllSome(subs.value);
    }
  }

  /** After the backing layers come the children's emitted layers, one per child, in order. */
  lemma EmitSublayers<G>(m: TagsMap, rs: Renderers<G>, n: FlexNode)
    requires WellFormed(n) && n.tag != SVG && Emit(m, rs, n).Success?
    ensures var r := Emit(m, rs, n).value;
      var backing := Present(rs.backing(RenderKey(m, n.tag), n));
      && |r.layers| == |backing| + |n.children.nodes|
      && r.layers[..|backing|] == backing
      && forall i :: 0 <= i < |n.children.nodes| ==>
        Emit(m, rs, n.children.nodes[i]) == Success(r.layers[|backing| + i])
  {
    EmitLayers(m, rs, n);
    forall k | 0 <= k < |n.children.nodes| {
      EmitSublayerAt(m, rs, n, k);
    }
  }

  lemma EmitSublayerAt<G>(m: TagsMap, rs: Renderers<G>, n: FlexNode, k: nat)
    requires WellFormed(n) && n.tag != SVG && Emit(m, rs, n).Success? && k < |n.children.nodes|
    ensures var backing := Present(rs.backing(RenderKey(m, n.tag), n));
      && |backing| + k < |Emit(m, rs, n).value.layers|
      && Emit(m, rs, n.children.nodes[k]) == Success(Emit(m, rs, n).value.layers[|backing| + k])
  {
    EmitLayers(m, rs, n);
    EmitChildrenAt(m, rs, n, 0, k);
    SuffixAt(Emit(m, rs, n).value.layers, Present(rs.backing(RenderKey(m, n.tag), n)), EmitChildren(m, rs, n, 0).value, k);
  }

  lemma SuffixAt<T>(whole: seq<T>, prefix: seq<T>, suffix: seq<T>, k: nat)
    requires whole == prefix + suffix && k < |suffix|
    ensures |prefix| + k < |whole| && whole[|prefix| + k] == suffix[k]
  {
  }

  /** Emission fails exactly when some node it visits has no renderer. */
  lemma {:induction false} EmitFailsIffUnrenderable<G>(m: TagsMap, rs: Renderers<G>, n: FlexNode)
    requires WellFormed(n)
    decreases n, 1
    ensures Emit(m, rs, n).Failure? <==> !Renderable(m, rs, n)
  {
    if RenderKey(m, n.tag) in rs.keys && n.tag != SVG {
      EmitChildrenFailsIffUnrenderable(m, rs, n, 0);
    }
  }

  lemma {:induction false} EmitChildrenFailsIffUnrenderable<G>(m: TagsMap, rs: Renderers<G>, parent: FlexNode, i: nat)
    requires WellFormed(parent) && parent.tag != SVG && i <= |parent.children.nodes|
    decreases parent, 0, |parent.children.nodes| - i
    ensures EmitChildren(m, rs, parent, i).Failure? <==>
      exists j :: i <= j < |parent.children.nodes| && !Renderable(m, rs, parent.children.nodes[j])
  {
    var kids := parent.children.nodes;
    if i < |kids| {
      EmitFailsIffUnrenderable(m, rs, kids[i]);
      EmitChildrenFailsIffUnrenderable(m, rs, parent, i + 1);
      if !Renderable(m, rs, kids[i]) {
        assert Emit(m, rs, kids[i]).Failure?;
        assert EmitChildren(m, rs, parent, i).Failure?;
      } else {
        assert Emit(m, rs, kids[i]).Success?;
        assert EmitChildren(m, rs, parent, i).Failure? <==> EmitChildren(m, rs, parent, i + 1).Failure?;
        if exists j :: i <= j < |kids| && !Renderable(m, rs, kids[j]) {
          var j :| i <= j < |kids| && !Renderable(m, rs, kids[j]);
          assert j != i;
        }
      }
    }
  }

  /** A node with no backing layers and no emitted children gets an empty, never missing, `layers` list. */
  lemma EmptyLayers<G>(m: TagsMap, rs: Renderers<G>, n: FlexNode)
    requires WellFormed(n) && RenderKey(m, n.tag) in rs.keys
    requires forall i :: 0 <= i < |rs.backing(RenderKey(m, n.tag), n)| ==> rs.backing(RenderKey(m, n.tag), n)[i].None?
    requires n.tag == SVG || n.children == Merged([])
    ensures Emit(m, rs, n) == Success(Layer(rs.group(RenderKey(m, n.tag), n), []))
  {
    if n.tag != SVG {
      assert EmitChildren(m, rs, n, 0) == Success([]);
    }
    var r := Emit(m, rs, n);
    assert r.Success?;
    assert |r.value.layers| == 0;
  }
}
