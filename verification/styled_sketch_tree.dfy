/**
 The three passes that turn a rendered React tree into a styled Sketch
 tree: style hydration from the global stylesheet, synthetic text-node
 wrapping of raw inner text, and rewriting of HTML tags to Sketch
 component types. Each pass is a pre-order walk that replaces nodes; a
 replacement made with "stop here" is not walked into.
 */
module StyledSketchTree {
  import opened Js
  import opened ReactTree
  import opened TagTable
  import opened CompileComponentStyles

  /** Tags whose elements keep their own style. */
  const FRAME_TAGS: set<string> := {"document", "page", "artboard"}

  /** The style property hydration removes, since Sketch would mask every layer with it. */
  const OVERFLOW := "overflow"

  /** The type of synthetic text nodes. */
  const TEXT := "text"

  /**
   The guard of style hydration: a listed HTML tag whose entry is neither a
   frame tag nor blacklisted. The entry is the one of the first key listing
   the tag, so the listing test itself adds nothing to the lookup.
   */
  predicate Hydratable(m: TagsMap, n: Node): (b: bool)
    ensures b <==>
      && n.Element?
      && FirstMapping(m, n.tag).Some?
      && n.tag !in FRAME_TAGS
      && m[FirstMapping(m, n.tag).value].component != BLACKLIST
  {
    if n.Element? then
      FindFirstMapping(m, n.tag);
      ListedIffFound(m, n.tag);
      && n.tag in AllTags(m)
      && Find(Flatten(m), n.tag).Some?
      && Find(Flatten(m), n.tag).value.html !in FRAME_TAGS
      && Find(Flatten(m), n.tag).value.sketchComponent != BLACKLIST
    else false
  }

  /** The style hydration gives an element: its compiled stylesheet styles without `overflow`. */
  function CompiledStyle(sheet: Stylesheet, n: Node): (r: Style)
    requires n.Element?
    ensures OVERFLOW !in r
    ensures forall k :: k in r <==> k in ComponentStyles(sheet, n.tag, n.props.className) && k != OVERFLOW
    ensures forall k :: k in r ==> r[k] == ComponentStyles(sheet, n.tag, n.props.className)[k]
  {
    Omit(ComponentStyles(sheet, n.tag, n.props.className), {OVERFLOW})
  }

  /** `hydrateTreeWithStyleProps`. */
  function Hydrate(m: TagsMap, sheet: Stylesheet, n: Node): (r: Node)
    ensures SameShape(n, r)
    ensures n.Content? ==> r == n
    ensures n.Element? ==> r.tag == n.tag
    ensures n.Element? ==> r.props.className == n.props.className && r.props.rest == n.props.rest
    ensures Hydratable(m, n) ==> r.props.style == Some(CompiledStyle(sheet, n))
    ensures n.Element? && !Hydratable(m, n) ==> r.props == n.props
    ensures n.Element? ==> forall i :: 0 <= i < |n.children| ==> r.children[i] == Hydrate(m, sheet, n.children[i])
  {
    match n
    case Content(_) => n
    case Element(tag, props, ch) =>
      var p := if Hydratable(m, n) then props.(style := Some(CompiledStyle(sheet, n))) else props;
      Element(tag, p, seq(|ch|, i requires 0 <= i < |ch| => Hydrate(m, sheet, ch[i])))
  }

  /** Every hydratable element has a style, and that style has no `overflow`. */
  predicate OverflowFree(m: TagsMap, n: Node) {
    match n
    case Content(_) => true
    case Element(_, props, ch) =>
      && (Hydratable(m, n) ==> props.style.Some? && OVERFLOW !in props.style.value)
      && forall i :: 0 <= i < |ch| ==> OverflowFree(m, ch[i])
  }

  /** After hydration no hydrated element's style holds `overflow`, at any depth. */
  lemma {:induction false} HydrateOverflowFree(m: TagsMap, sheet: Stylesheet, n: Node)
    ensures OverflowFree(m, Hydrate(m, sheet, n))
  {
    if n.Element? {
      var r := Hydrate(m, sheet, n);
      forall i | 0 <= i < |n.children|
        ensures OverflowFree(m, r.children[i])
      {
        HydrateOverflowFree(m, sheet, n.children[i]);
      }
    }
  }

  /** A hydrated property is the value given by the last selector whose stylesheet entry defines it. */
  lemma HydratedPropertyLastWins(m: TagsMap, sheet: Stylesheet, n: Node, k: string, j: nat)
    requires Hydratable(m, n)
    requires k != OVERFLOW
    requires j < |Classes(n.tag, n.props.className)| && Defines(sheet, Classes(n.tag, n.props.className)[j], k)
    requires forall j' :: j < j' < |Classes(n.tag, n.props.className)| ==>
      !Defines(sheet, Classes(n.tag, n.props.className)[j'], k)
    ensures var s := Hydrate(m, sheet, n).props.style;
      s.Some? && k in s.value && s.value[k] == sheet[Classes(n.tag, n.props.className)[j]][k]
  {
    CascadeLastWins(sheet, Classes(n.tag, n.props.className), k, j);
  }

  /** Hydration keeps every tag of the tree. */
  lemma {:induction false} HydrateKeepsTags(m: TagsMap, sheet: Stylesheet, n: Node, t: string)
    requires NoTag(n, t)
    ensures NoTag(Hydrate(m, sheet, n), t)
  {
    if n.Element? {
      forall i | 0 <= i < |n.children|
        ensures NoTag(Hydrate(m, sheet, n).children[i], t)
      {
        HydrateKeepsTags(m, sheet, n.children[i], t);
      }
    }
  }

  /** The guard of text wrapping: a non-text element whose first child has no type. */
  predicate NeedsTextNode(n: Node): (b: bool)
    ensures b <==>
      && n.Element? && n.tag != TEXT && |n.children| > 0
      && (n.children[0].Content? || n.children[0].tag == "")
  {
    n.Element? && n.tag != TEXT && |n.children| > 0 && !HasType(n.children[0])
  }

  /**
   The style the styled-tree pass adds to its text nodes. The build step
   wraps with the same shape of node but adds nothing.
   */
  const FULL_WIDTH: Style := map["width" := Str("100%")]

  /** The synthetic text node: the parent's inheritable font styles with `extra` on top, holding the first child. */
  function TextNode(inheritable: set<string>, extra: Style, n: Node): (t: Node)
    requires n.Element? && |n.children| > 0
    ensures t.Element? && t.tag == TEXT && t.children == [n.children[0]]
    ensures t.props.className.None? && t.props.rest == map[] && t.props.style.Some?
    ensures forall k :: k in extra ==> k in t.props.style.value && t.props.style.value[k] == extra[k]
    ensures forall k :: k in t.props.style.value && k !in extra ==>
      k in inheritable && k in StyleOf(n) && t.props.style.value[k] == StyleOf(n)[k]
    ensures forall k :: k in inheritable && k in StyleOf(n) ==> k in t.props.style.value
  {
    Element(TEXT, Props(Some(Pick(StyleOf(n), inheritable) + extra), None, map[]), [n.children[0]])
  }

  /**
   `convertHTMLInnerTextToSketchNode`, with `FULL_WIDTH` as `extra`; the
   build step's wrapping, corrected, with no `extra`.
   */
  function ConvertInnerText(inheritable: set<string>, extra: Style, n: Node): (r: Node)
    ensures n.Content? ==> r == n
    ensures n.Element? ==> r.Element? && r.tag == n.tag && r.props == n.props
    ensures NeedsTextNode(n) ==>
      && |r.children| == 1
      && var t := r.children[0];
      && t.Element? && t.tag == TEXT && t.children == [n.children[0]]
      && t.props.className.None? && t.props.rest == map[] && t.props.style.Some?
      && var s := t.props.style.value;
      && (forall k :: k in extra ==> k in s && s[k] == extra[k])
      && (forall k :: k in s && k !in extra ==> k in inheritable && k in StyleOf(n) && s[k] == StyleOf(n)[k])
      && (forall k :: k in inheritable && k in StyleOf(n) ==> k in s)
    ensures n.Element? && !NeedsTextNode(n) ==>
      && |r.children| == |n.children|
      && forall i :: 0 <= i < |n.children| ==> r.children[i] == ConvertInnerText(inheritable, extra, n.children[i])
  {
    if NeedsTextNode(n) then
      n.(children := [TextNode(inheritable, extra, n)])
    else
      match n
      case Content(_) => n
      case Element(tag, props, ch) =>
        Element(tag, props, seq(|ch|, i requires 0 <= i < |ch| => ConvertInnerText(inheritable, extra, ch[i])))
  }

  /**
   No non-text element reached without passing through a text element has
   a first child without a type.
   */
  predicate TextNormalized(n: Node) {
    match n
    case Content(_) => true
    case Element(tag, _, ch) =>
      tag == TEXT || ((|ch| == 0 || HasType(ch[0])) && forall i :: 0 <= i < |ch| ==> TextNormalized(ch[i]))
  }

  /** Text wrapping leaves no raw first child outside text elements. */
  lemma {:induction false} ConvertInnerTextNormalizes(inheritable: set<string>, extra: Style, n: Node)
    ensures TextNormalized(ConvertInnerText(inheritable, extra, n))
  {
    var r := ConvertInnerText(inheritable, extra, n);
    if n.Element? && !NeedsTextNode(n) && n.tag != TEXT {
      forall i | 0 <= i < |n.children|
        ensures TextNormalized(r.children[i])
      {
        ConvertInnerTextNormalizes(inheritable, extra, n.children[i]);
      }
      if |n.children| > 0 {
        assert HasType(r.children[0]) by {
          assert HasType(n.children[0]);
        }
      }
    }
  }

  /** No element anywhere in the tree needs a text node. */
  predicate NothingToWrap(n: Node) {
    match n
    case Content(_) => true
    case Element(_, _, ch) => !NeedsTextNode(n) && forall i :: 0 <= i < |ch| ==> NothingToWrap(ch[i])
  }

  /** Text wrapping is the identity on a tree in which no non-text element has an untyped first child. */
  lemma {:induction false} ConvertInnerTextNoop(inheritable: set<string>, extra: Style, n: Node)
    requires NothingToWrap(n)
    ensures ConvertInnerText(inheritable, extra, n) == n
  {
    if n.Element? {
      var r := ConvertInnerText(inheritable, extra, n);
      forall i | 0 <= i < |n.children|
        ensures r.children[i] == n.children[i]
      {
        ConvertInnerTextNoop(inheritable, extra, n.children[i]);
      }
      assert r.children == n.children;
    }
  }

  /** Text wrapping adds only `text` tags. */
  lemma {:induction false} ConvertInnerTextKeepsTags(inheritable: set<string>, extra: Style, n: Node, t: string)
    requires NoTag(n, t) && t != TEXT
    ensures NoTag(ConvertInnerText(inheritable, extra, n), t)
  {
    if n.Element? && !NeedsTextNode(n) {
      forall i | 0 <= i < |n.children|
        ensures NoTag(ConvertInnerText(inheritable, extra, n).children[i], t)
      {
        ConvertInnerTextKeepsTags(inheritable, extra, n.children[i], t);
      }
    }
  }

  /** The guard of type rewriting: a typed element whose entry is not blacklisted. */
  predicate Convertible(m: TagsMap, n: Node): (b: bool)
    ensures b <==>
      && n.Element? && n.tag != ""
      && FirstMapping(m, n.tag).Some?
      && m[FirstMapping(m, n.tag).value].component != BLACKLIST
  {
    HasType(n) && ComponentType(m, n).Some? && ComponentType(m, n).value.sketchComponent != BLACKLIST
  }

  /** `convertTreeToSketchComponents`. */
  function ConvertTypes(m: TagsMap, n: Node): (r: Node)
    ensures SameShape(n, r)
    ensures n.Content? ==> r == n
    ensures n.Element? ==> r.props == n.props
    ensures Convertible(m, n) ==> r.tag == ComponentType(m, n).value.sketchComponent
    ensures n.Element? && !Convertible(m, n) ==> r.tag == n.tag
    ensures n.Element? ==> forall i :: 0 <= i < |n.children| ==> r.children[i] == ConvertTypes(m, n.children[i])
  {
    match n
    case Content(_) => n
    case Element(tag, props, ch) =>
      var t := if Convertible(m, n) then ComponentType(m, n).value.sketchComponent else tag;
      Element(t, props, seq(|ch|, i requires 0 <= i < |ch| => ConvertTypes(m, ch[i])))
  }

  /** Along two trees of the same shape, every blacklisted element of `a` keeps its tag in `b`. */
  predicate KeepsBlacklisted(m: TagsMap, a: Node, b: Node)
    requires SameShape(a, b)
  {
    match a
    case Content(_) => true
    case Element(tag, _, ch) =>
      && (ComponentType(m, a).Some? && ComponentType(m, a).value.sketchComponent == BLACKLIST ==> b.tag == tag)
      && forall i :: 0 <= i < |ch| ==> KeepsBlacklisted(m, ch[i], b.children[i])
  }

  /** Blacklisted tags are never given a Sketch type, at any depth. */
  lemma {:induction false} ConvertKeepsBlacklisted(m: TagsMap, n: Node)
    ensures KeepsBlacklisted(m, n, ConvertTypes(m, n))
  {
    if n.Element? {
      forall i | 0 <= i < |n.children|
        ensures KeepsBlacklisted(m, n.children[i], ConvertTypes(m, n).children[i])
      {
        ConvertKeepsBlacklisted(m, n.children[i]);
      }
    }
  }

  /** The sentinel never becomes a type: type rewriting introduces no `BLACKLIST` tag. */
  lemma {:induction false} ConvertNeverBlacklist(m: TagsMap, n: Node)
    requires NoTag(n, BLACKLIST)
    ensures NoTag(ConvertTypes(m, n), BLACKLIST)
  {
    if n.Element? {
      forall i | 0 <= i < |n.children|
        ensures NoTag(ConvertTypes(m, n).children[i], BLACKLIST)
      {
        ConvertNeverBlacklist(m, n.children[i]);
      }
    }
  }

  /** `ReactTreeToStyledSketchTree`: hydration, then text wrapping, then type rewriting. */
  function ToStyledSketchTree(m: TagsMap, sheet: Stylesheet, inheritable: set<string>, n: Node): (r: Node)
    ensures r == ConvertTypes(m, ConvertInnerText(inheritable, FULL_WIDTH, Hydrate(m, sheet, n)))
    ensures SameShape(ConvertInnerText(inheritable, FULL_WIDTH, Hydrate(m, sheet, n)), r)
    ensures Hydratable(m, n) ==> r.Element? && r.props.style == Some(CompiledStyle(sheet, n))
    ensures Convertible(m, n) ==> r.Element? && r.tag == ComponentType(m, n).value.sketchComponent
    ensures NoTag(n, BLACKLIST) ==> NoTag(r, BLACKLIST)
  {
    var hydrated := Hydrate(m, sheet, n);
    var wrapped := ConvertInnerText(inheritable, FULL_WIDTH, hydrated);
    if NoTag(n, BLACKLIST) then
      HydrateKeepsTags(m, sheet, n, BLACKLIST);
      ConvertInnerTextKeepsTags(inheritable, FULL_WIDTH, hydrated, BLACKLIST);
      ConvertNeverBlacklist(m, wrapped);
      ConvertTypes(m, wrapped)
    else
      ConvertTypes(m, wrapped)
  }
}
