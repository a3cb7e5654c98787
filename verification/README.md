# react-sketchapp style and tree pipeline, in Dafny

This project models the core of a react-sketchapp fork that turns a
rendered React/HTML element tree into Sketch layers:

- **Component styles** (`CompileComponentStyles`): an element's selector
  list is its tag followed by the words of its `className`, with empty
  words dropped. Its style is the left-to-right `Object.assign` merge of the
  global stylesheet entries for those selectors.
- **Styled Sketch tree** (`StyledSketchTree`, with the tag table in
  `TagTable`). Three passes run in turn:
  - *hydration* gives every listed, non-frame, non-blacklisted HTML element
    its compiled stylesheet style, without `overflow`;
  - *text wrapping* looks only at the first child of each non-text element.
    When that child is raw content, the element's children are replaced by one
    synthetic `text` node holding that first child, so its other children are
    dropped;
  - *type rewriting* replaces every listed, non-blacklisted tag by its Sketch
    component name.
- **Flex tree** (`BuildTree`): the build step first applies its own text
  wrapping and type rewriting. Its wrapping uses the same kind of text node,
  without the full width. It then merges the component tree with the
  computed layout tree:
  - svg nodes pass their children through unmerged;
  - text nodes compute inheritable text styles and a text tree;
  - every other node merges its z-ordered children with the layout node's
    children, index by index.
- **Sketch JSON emission** (`SketchJson`): a node's type resolves to a
  renderer key through the tag table. A missing renderer raises an error
  with a hint for `document` and `svg*` types. Otherwise the node's layers
  are its renderer's backing layers followed by its children's emitted
  layers, with nulls filtered out. Under svg there are no children's layers.
- **Borders** (`Borders`): each side's width, colour and style fall back
  from the shorthands `borderWidth`/`borderColor`/`borderStyle`, then to
  `0`/`'transparent'`/`'solid'`.
  - When all four sides agree, the content layer gets border options and,
    for a positive width, one inside stroke.
  - Otherwise the content layer becomes a clipping mask, followed by one
    named rectangle per side of positive width, in the order top, right,
    bottom, left.

Shared vocabulary lives in `Js`: JavaScript values with truthiness, style
maps, `Option`/`Result`, and `filter`. The element tree lives in
`ReactTree`.

The layout engine, the renderers, `zIndex`, `computeTextTree`, the set of
inheritable font properties and the tag table are parameters. So are the
shape, colour and border-option constructors. Every model is a pure
function. Each in-place `traverse(...).forEach` pass is modelled as a
pre-order rewrite.

## Model

| member | source | states |
|---|---|---|
| TagTable.Entries | src/reactTreeToStyledSketchTree.js:13-15 | one key of the tag table contributes one `{html, sketchComponent}` entry per tag, in tag order |
| TagTable.Find | src/reactTreeToStyledSketchTree.js:22 | lodash `find` returns an entry of the table whose `html` is the tag; it returns nothing exactly when no entry has that tag |
| TagTable.Flatten | src/reactTreeToStyledSketchTree.js:11-16 | the flattened table holds an entry exactly when some key lists the entry's tag under the entry's component |
| TagTable.AllTags | src/reactTreeToStyledSketchTree.js:56 | the flattened tag lists are the `html` column of the flattened table, position by position |
| TagTable.ComponentType | src/reactTreeToStyledSketchTree.js:20-27 | `getSketchComponentType`, here and in `buildTree.js`: nothing for raw content; for an element, the entry of the first key in key order that lists its type, and nothing when no key does |
| TagTable.FirstMapping | src/buildTree.js:88-93 | reference definition of lookup: the first key of the table whose tag list holds the tag, and no earlier key holds it |
| TagTable.FindAppend | src/reactTreeToStyledSketchTree.js:11-16 | lookup in a concatenation of tables finds in the first part before the second |
| TagTable.FindEntries | src/reactTreeToStyledSketchTree.js:13-15 | lookup in one key's entries finds that key's component exactly when the key lists the tag |
| TagTable.FindFirstMapping | src/reactTreeToStyledSketchTree.js:11-23 | lookup in the flattened table agrees with the reference definition: the first key in key order that lists the tag wins |
| TagTable.ListedIffFound | src/reactTreeToStyledSketchTree.js:54-60 | `isHTMLnode` agrees with lookup: a tag is in the flattened tag lists exactly when `find` returns an entry for it |
| TagTable.ListedIffSomeMapping | src/reactTreeToStyledSketchTree.js:54-60 | a tag is listed exactly when some key of the table lists it |
| CompileComponentStyles.Split | src/utils/compileComponentStyles.js:13 | `split(' ')` gives at least one piece, and no piece contains a space |
| CompileComponentStyles.JoinSplit | src/utils/compileComponentStyles.js:13 | joining the pieces of a split with single spaces gives back the class name |
| CompileComponentStyles.SplitJoin | src/utils/compileComponentStyles.js:13 | splitting a space-join of space-free pieces gives back the pieces |
| CompileComponentStyles.SplitWord | src/utils/compileComponentStyles.js:13 | a space-free first word is split off whole, ahead of the pieces of the rest |
| CompileComponentStyles.JoinConsChar | src/utils/compileComponentStyles.js:13 | a character put before the first piece appears at the front of the joined string |
| CompileComponentStyles.Compact | src/utils/compileComponentStyles.js:16 | `compact` keeps exactly the non-empty strings, so no empty selector remains |
| CompileComponentStyles.CompactAppend | src/utils/compileComponentStyles.js:16 | `compact` of a concatenation is the concatenation of the compacts, so selectors keep their order |
| CompileComponentStyles.CompactNoEmpty | src/utils/compileComponentStyles.js:16 | a list without empty strings passes `compact` unchanged |
| CompileComponentStyles.Classes | src/utils/compileComponentStyles.js:6-17 | the selector list is empty for an empty tag, starts with the tag otherwise, holds no empty selector, and holds the tag and the class words when there is a class name |
| CompileComponentStyles.Cascade | src/utils/compileComponentStyles.js:27 | the merged style has a property exactly when some selector's stylesheet entry defines it; missing entries add nothing |
| CompileComponentStyles.CascadeLastWins | src/utils/compileComponentStyles.js:24-27 | each property of the merged style comes from the last selector whose entry defines it |
| CompileComponentStyles.ComponentStyles | src/utils/compileComponentStyles.js:20-28 | an element's compiled style has a property exactly when a stylesheet entry for its tag or one of its classes defines it; with no matching entries it is empty |
| StyledSketchTree.Hydratable | src/reactTreeToStyledSketchTree.js:66-72 | an element is hydrated exactly when some key lists its type, the type is not `document`, `page` or `artboard`, and the first such key is not `BLACKLIST`; the `isHTMLnode` test adds nothing to the lookup |
| StyledSketchTree.CompiledStyle | src/reactTreeToStyledSketchTree.js:80-81 | the compiled style has exactly the properties of the element's compiled component styles other than `overflow`, with the same values |
| StyledSketchTree.Hydrate | src/reactTreeToStyledSketchTree.js:62-90 | hydration keeps the tree's shape and every tag, class name and other prop. A hydratable element gets its compiled style without `overflow`, other elements keep their props, and each child is the hydration of the original child |
| StyledSketchTree.HydrateOverflowFree | src/reactTreeToStyledSketchTree.js:80-81 | after hydration no hydrated element, at any depth, has an `overflow` style |
| StyledSketchTree.HydratedPropertyLastWins | src/reactTreeToStyledSketchTree.js:81-85 | a hydrated property other than `overflow` has the value of the last selector of the element whose stylesheet entry defines it |
| StyledSketchTree.HydrateKeepsTags | src/reactTreeToStyledSketchTree.js:85 | hydration introduces no tag that was not in the tree |
| StyledSketchTree.TextNode | src/reactTreeToStyledSketchTree.js:35-45 | the synthetic node is a `text` element holding only the first child, with no class name or other props. Its style has every extra property, here `width: '100%'`, and otherwise exactly the element's inheritable font styles |
| StyledSketchTree.NeedsTextNode | src/reactTreeToStyledSketchTree.js:31-34 | an element is wrapped exactly when it is not a `text` element, has children, and its first child is raw content or has an empty type |
| StyledSketchTree.ConvertInnerText | src/reactTreeToStyledSketchTree.js:29-52 | a non-text element whose first child has no type gets one `text` child that holds that first child. That child's style is the element's inheritable font styles, with the pass's extra style (full width here) on top, and the walk does not enter it. Other elements keep their tag and props, and their children are wrapped in turn |
| StyledSketchTree.ConvertInnerTextNormalizes | src/reactTreeToStyledSketchTree.js:31-34 | after wrapping, no non-text element reached outside a text element has an untyped first child |
| StyledSketchTree.ConvertInnerTextNoop | src/reactTreeToStyledSketchTree.js:31-34 | wrapping leaves unchanged a tree in which nothing needs wrapping |
| StyledSketchTree.ConvertInnerTextKeepsTags | src/reactTreeToStyledSketchTree.js:36-48 | wrapping adds no tag except `text` |
| StyledSketchTree.Convertible | src/reactTreeToStyledSketchTree.js:95-98 | an element is rewritten exactly when its type is non-empty, some key lists it, and the first such key is not `BLACKLIST` |
| StyledSketchTree.ConvertTypes | src/reactTreeToStyledSketchTree.js:92-104 | type rewriting keeps the tree's shape and props. A typed, listed, non-blacklisted element gets its Sketch component name, every other element keeps its tag, and each child is the rewriting of the original child |
| StyledSketchTree.ConvertKeepsBlacklisted | src/reactTreeToStyledSketchTree.js:97 | a blacklisted element keeps its tag, at any depth |
| StyledSketchTree.ConvertNeverBlacklist | src/reactTreeToStyledSketchTree.js:97-99 | the `BLACKLIST` sentinel never becomes a tag |
| StyledSketchTree.ToStyledSketchTree | src/reactTreeToStyledSketchTree.js:106-113 | the three passes in order: hydration, text wrapping with full width, then type rewriting. The result has the shape of the hydrated and wrapped tree. A hydratable root has its compiled style, and a convertible root has its Sketch component name. No `BLACKLIST` tag appears that was not in the input |
| Borders.SideOf | src/jsonUtils/borders.js:24-39 | a side's own property wins when present. Otherwise the shorthand is used when truthy, and otherwise the default (`0`, `'transparent'`, `'solid'`) |
| Borders.WithOptions | src/jsonUtils/borders.js:49-52 | border options are set only when `makeBorderOptions` gives some; nothing else changes |
| Borders.SideLayer | src/jsonUtils/borders.js:75-133 | each side's rectangle has that side's name, geometry, colour and border options: top at y 0, right at x width minus border, bottom at y height minus border, left at x 0 |
| Borders.DrawnSides | src/jsonUtils/borders.js:75-133 | only sides of positive width are drawn |
| Borders.DrawnSidesExactly | src/jsonUtils/borders.js:75-133 | a side is drawn exactly when its width is positive |
| Borders.SideLayers | src/jsonUtils/borders.js:73-133 | one rectangle per drawn side, in the same order |
| Borders.CreateBorders | src/jsonUtils/borders.js:15-136 | with no style the content is returned alone. In the uniform case the single content layer gets the border options `makeBorderOptions` gives, whatever the width, and an inside stroke exactly when the width is positive. Otherwise the content is a clipping mask followed by the drawn sides' rectangles |
| Borders.DrawnSidesInOrder | src/jsonUtils/borders.js:75-133 | dropping zero-width sides keeps the emission order |
| Borders.SidesInOrder | src/jsonUtils/borders.js:75-133 | rectangles come in the order top, right, bottom, left, each at most once |
| Borders.SideIndex | src/jsonUtils/borders.js:75-133 | each side has a position in the emission order |
| Borders.UniformExample | src/jsonUtils/borders.js:41-68 | width 2 and one colour on all sides give exactly one layer, with a single inside stroke 2 thick |
| Borders.TopOnlyDrawsTop | src/jsonUtils/borders.js:24-44 | a style with only a top width and colour is not uniform, and only its top side is drawn |
| Borders.TopOnlyExample | src/jsonUtils/borders.js:71-85 | that style gives the clipping content layer and one full-width strip named `Border (top)` at y 0 |
| BuildTree.ReorderedChildren | src/buildTree.js:48 | the z-ordered children are the element's own children |
| BuildTree.FlexTypeOf | src/buildTree.js:22 | the merged type is never empty: an element's non-empty type, and `text` for raw content or an empty type |
| BuildTree.TextFlex | src/buildTree.js:28-42 | a text node's text style is the inherited style overridden by its inheritable font properties and `flexDirection: 'row'` when it defines any, and the inherited style otherwise; its text tree is computed from that style and it has no merged children |
| BuildTree.ToFlex | src/buildTree.js:17-82 | the flex node keeps type, style, props and the layout box. An svg node passes its children through unmerged, and a text node is as `TextFlex` states. Other nodes merge one child per component child and never have more components than layout children |
| BuildTree.ToFlexChildren | src/buildTree.js:48-61 | child `i` of a merged node is the merge of z-ordered component child `i` with layout child `i` |
| BuildTree.MergeChildren | src/buildTree.js:50-61 | a successful loop yields one well-formed flex node per component child |
| BuildTree.MergeChildrenAt | src/buildTree.js:50-61 | entry `i` of a successful loop is the merge of child `i` with layout child `i` |
| BuildTree.ToFlexSucceedsIffCovers | src/buildTree.js:43-61 | the merge succeeds exactly when the layout tree has a node for every component the merge visits |
| BuildTree.MergeChildrenSucceedsIffCovers | src/buildTree.js:50-61 | the children loop succeeds exactly when there are enough layout children and each child's layout covers it |
| BuildTree.ConvertInnerTextAsWritten | src/buildTree.js:98-123 | as written: every non-text element with children has them replaced by one `text` node holding the first child, and is not entered. A childless element, a `null` value, or a text element with a `null` prop makes the walk throw. Otherwise a text element keeps its tag, its props and its number of children, and each child is the as-written wrapping of the original child |
| BuildTree.AsWrittenFailsIffReachesNull | src/buildTree.js:100-104 | the as-written wrapping throws exactly when its walk, entering every node it does not replace, meets a `null` |
| BuildTree.WrapChildrenAsWritten | src/buildTree.js:100 | the walk over an entered element's children yields, when none throws, one result per child, each the as-written wrapping of that child |
| BuildTree.WrapChildrenFailsIffReachesNull | src/buildTree.js:100-101 | the walk over the children throws exactly when some child's walk reaches a `null` |
| BuildTree.AsWrittenDropsTypedChildren | src/buildTree.js:101-104 | a `div` holding a `span` and an `img` needs no wrapping, yet as written it is changed: the `img` is dropped. The corrected wrapping leaves it as it is |
| BuildTree.RewriteBelow | src/buildTree.js:125-138 | a node reached through a replaced parent keeps its own tag, while each of its children is type-rewritten |
| BuildTree.BuildInputAsWritten | src/buildTree.js:140-150 | as written the build throws exactly when the wrapping walk reaches a `null`, and the merge reads a root that keeps its tag and props. A non-text root with children never throws and is unchanged except below its first child. Below a text root each child is the type rewriting of its as-written wrapping. Raw content throws exactly when it is `null` and is otherwise returned as it is |
| BuildTree.AsWrittenKeepsRootTag | src/buildTree.js:144-150 | with `div` mapped to `View`, two nested `div`s reach the merge unchanged; the intended input has two `View`s |
| BuildTree.AsWrittenThrowsOnChildless | src/buildTree.js:101 | as written, a lone childless `div` makes the build throw; the intended input is a childless `View` |
| BuildTree.BuildInput | src/buildTree.js:140-150 | as intended: the root is type-rewritten and keeps its props. A root that needs it gets the text node, type-rewritten, as its only child. Otherwise each child is the intended input built from the original child |
| BuildTree.Build | src/buildTree.js:140-153 | the build is the merge of the wrapped and rewritten tree, root included, with the layout, from an empty context. It succeeds exactly when the layout covers that tree, and then yields a well-formed tree with the root's layout box, the built root's type and, for an element root, the rendered root's props |
| SketchJson.RenderKey | src/flexToSketchJSON.js:10-16 | the renderer key is the component of the first key of the table listing the type, and the type itself when none does |
| SketchJson.MissingRendererMessage | src/flexToSketchJSON.js:23-30 | the error names the type. It ends with the document hint for `document`, with the svg hint for other types starting with `svg`, and with nothing else otherwise |
| SketchJson.Emit | src/flexToSketchJSON.js:6-44 | a missing renderer fails with that message; on success the renderer exists and the group layer is its `renderGroupLayer` |
| SketchJson.EmitChildren | src/flexToSketchJSON.js:38-39 | a successful map yields one layer per child |
| SketchJson.EmitChildrenCons | src/flexToSketchJSON.js:39 | the mapped list is the first child's layer followed by the rest |
| SketchJson.EmitChildrenAt | src/flexToSketchJSON.js:39 | position `j` of the mapped list is the layer emitted for child `i + j` |
| SketchJson.EmitLayers | src/flexToSketchJSON.js:33-43 | under svg the layers are the non-null backing layers alone. Otherwise every child is emitted, and the layers are the non-null backing layers followed by the children's layers |
| SketchJson.EmitSublayers | src/flexToSketchJSON.js:38-43 | after the backing layers come exactly one layer per child, in child order, each the child's own emission |
| SketchJson.EmitSublayerAt | src/flexToSketchJSON.js:38-43 | the layer after the backing layers at offset `k` is child `k`'s emission |
| SketchJson.EmitFailsIffUnrenderable | src/flexToSketchJSON.js:19-39 | emission fails exactly when some node it visits, not below an svg, has no renderer |
| SketchJson.EmitChildrenFailsIffUnrenderable | src/flexToSketchJSON.js:38-39 | mapping the children fails exactly when some child is unrenderable |
| SketchJson.EmptyLayers | src/flexToSketchJSON.js:41-43 | with only null backing layers and no children, `layers` is an empty list |
| Js.Present | src/flexToSketchJSON.js:42 | `filter` removes entries, and leaves nothing from an all-null list |
| Js.PresentMembers | src/flexToSketchJSON.js:42 | `filter` keeps exactly the present entries |
| Js.PresentAppend | src/flexToSketchJSON.js:42 | `filter` of a concatenation is the concatenation of the filters, so order is kept |
| Js.PresentAllSome | src/flexToSketchJSON.js:42 | a list without nulls passes `filter` unchanged |

## Left out

- Rendering with `react-test-renderer`, the yoga layout computation (`computeYogaTree`, `calculateLayout`) and `computeTextTree` are outside this model. The layout is an abstract tree of computed boxes, and the text tree is a parameter.
- `zIndex`, `INHERITABLE_FONT_STYLES` and `htmlTagsMap` are parameters. `zIndex` is constrained only to reorder its input. The tag table's key order is the object's key order.
- The renderers, `makeHorizontalBorder`, `makeVerticalBorder`, `makeColorFromCSS` and `makeBorderOptions` are external. Rectangles and strokes record the arguments they were made from, and border options come from a parameter.
- `debug` and `logJSON` calls are side-effect-only logging.
- Numbers are integers. Fractional widths, `NaN`, and the `> 0` comparison of a string width coerced to a number are not modelled: only a numeric width above zero counts as positive.
- `same(...)` is taken as equality of the four resolved values.
- The `traverse` library also visits the props object and other plain objects inside a node, so a prop named `type` (such as `<input type="text">`) can be matched by the passes. The model visits elements and their children only.
- `Context` is reduced to the inherited style map. Only text nodes add to it, and children receive their parent's map.
- BuildTree.ToFlex: a component child with no layout child makes the merge fail with an error value, where the original reads a missing yoga node and throws.
- BuildTree.ToFlex: the merged children's relation to the component children is stated by BuildTree.ToFlexChildren, not in ToFlex's own contract.
- BuildTree.MergeChildren: its own contract gives the length and well-formedness only; the per-child relation is BuildTree.MergeChildrenAt.
- SketchJson.Emit: its own contract does not describe `layers`; SketchJson.EmitLayers and SketchJson.EmitSublayers do.
- SketchJson.EmitChildren: its own contract gives the length only; the per-child layers are SketchJson.EmitChildrenAt.
- Borders.DrawnSides: its own contract gives one direction only; the converse is Borders.DrawnSidesExactly and the order is Borders.DrawnSidesInOrder.
- Js.Present: its own contract gives only bounds; membership is Js.PresentMembers.
- Border geometry follows the code: the left and right rectangles start at y 0 and span the full height. They are not inset by the top and bottom widths.
- The corrected text wrapping of the build step, like the styled-tree pass, keeps only the first child of a wrapped element. Only the wrapping condition and the `null` read are corrected.
- A `style` or `className` prop set to `null` is treated as absent, so the as-written wrapping does not throw on it. A `null` among the other props or the style's values is modelled.
- BuildTree.ConvertInnerTextAsWritten: a prop explicitly set to `undefined` is treated as absent, although the walk would read its `children` and throw on it as on `null`. The same holds for BuildTree.AsWrittenFailsIffReachesNull and BuildTree.BuildInputAsWritten, so as written the build may throw on more inputs than those the model rejects.
- Borders.SideLayer: the results of the external `makeHorizontalBorder` and `makeVerticalBorder` are modelled as layers with no clipping mask and no borders of their own.
- Helper lemmas (`JoinCons`, `ConcatAssoc`, `SuffixAt`, `OrderedTail`, `OrderedCons`, `DrawnSidesAbove`, `ListsCons`) state facts about sequences, not about the program, and have no row.

## Findings

| source | as written | input that shows it | evidently intended | confidence | as-written member | corrected member |
|---|---|---|---|---|---|---|
| src/buildTree.js:98-123 | every non-text element with children has them replaced by one text node holding only its first child, whatever that child is | a `div` holding a `span` and an `img`: the `span` is wrapped in a text node and the `img` disappears | wrap only an element whose first child has no type, as `convertHTMLInnerTextToSketchNode` does | medium, not executed | BuildTree.ConvertInnerTextAsWritten, BuildTree.AsWrittenDropsTypedChildren | StyledSketchTree.ConvertInnerText, StyledSketchTree.ConvertInnerTextNoop |
| src/buildTree.js:140-150 | the passes' results are discarded and the merge reads the original `json`. `traverse` rewrites a replaced root only in the returned copy, so the root keeps its tag. When the root is a non-text element with children, the wrapping pass stops at the root and the type pass rewrites only below the root's first child. That stop is also what keeps the usual input from reaching the `null` read of the third row | two nested `div`s with `div` mapped to `View`: both reach the merge as `div` | the merge consumes the whole wrapped and rewritten tree, root included | medium, not executed | BuildTree.BuildInputAsWritten, BuildTree.AsWrittenKeepsRootTag | BuildTree.BuildInput, BuildTree.Build |
| src/buildTree.js:101 | reads `node.children` of every value the walk visits before line 103 tests that the value exists. The renderer gives `children: null` to every childless element, so the walk throws when it enters one. Only the stop at a non-text root with children keeps the usual input from reaching such a `null` | a lone childless `div` as the rendered tree: the build throws a `TypeError` | test the value before reading its `children`, as `convertHTMLInnerTextToSketchNode` does | medium, not executed | BuildTree.BuildInputAsWritten, BuildTree.AsWrittenFailsIffReachesNull, BuildTree.AsWrittenThrowsOnChildless | BuildTree.BuildInput, BuildTree.Build |

The second finding hides most of the first. Over-eager wrapping reaches the merge only when the root is a text element. A childless root makes the build throw. Under a text root the nodes below the root are wrapped in place, and the walk throws as soon as it enters a childless element, which is the third finding.
