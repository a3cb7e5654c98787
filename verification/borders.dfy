/**
 Border decomposition of a shape layer. Each side's width, colour and
 style fall back from the shorthand properties. When all four sides
 agree, the content layer gets one inside stroke. Otherwise the content
 layer becomes a clipping mask and one rectangle is added for each side
 that has a positive width, in the order top, right, bottom, left.

 The shape constructors (`makeHorizontalBorder`, `makeVerticalBorder`),
 `makeColorFromCSS` and `makeBorderOptions` are external: a rectangle
 records the arguments it was built from, a stroke records the CSS colour
 it was built from, and border options come from a parameter.
 */
module Borders {
  import opened Js

  const DEFAULT_BORDER_COLOR := Str("transparent")
  const DEFAULT_BORDER_STYLE := Str("solid")

  datatype Side = Top | Right | Bottom | Left

  /** The sides in the order their rectangles are emitted. */
  const SIDES: seq<Side> := [Top, Right, Bottom, Left]

  /** The resolved width, colour and style of one side. */
  datatype SideBorder = SideBorder(width: Value, color: Value, style: Value)

  /** `FillType.Solid` and `BorderPosition.Inside` of the Sketch file format. */
  datatype FillType = FillSolid
  datatype BorderPosition = PositionInside

  /** An entry of `style.borders`; `color` is the CSS colour given to `makeColorFromCSS`. */
  datatype Stroke = Stroke(isEnabled: bool, color: Value, fillType: FillType, position: BorderPosition, thickness: int)

  /** The result of `makeBorderOptions`, whose contents this model does not look into. */
  datatype BorderOptions = BorderOptions(handle: nat)

  /** How a layer was made: the content layer passed in, or a border rectangle with its constructor arguments. */
  datatype Shape =
    | Base(id: nat)
    | HorizontalBorder(x: int, y: int, length: int, thickness: int, color: Value)
    | VerticalBorder(x: int, y: int, length: int, thickness: int, color: Value)

  /** The fields of a shape group layer this pass reads or writes. */
  datatype ShapeLayer = ShapeLayer(
    shape: Shape,
    name: Option<string>,
    hasClippingMask: bool,
    borders: Option<seq<Stroke>>,
    borderOptions: Option<BorderOptions>)

  /** The computed size of the box. */
  datatype Layout = Layout(width: int, height: int)

  function WidthKey(side: Side): string {
    match side
    case Top => "borderTopWidth"
    case Right => "borderRightWidth"
    case Bottom => "borderBottomWidth"
    case Left => "borderLeftWidth"
  }

  function ColorKey(side: Side): string {
    match side
    case Top => "borderTopColor"
    case Right => "borderRightColor"
    case Bottom => "borderBottomColor"
    case Left => "borderLeftColor"
  }

  function StyleKey(side: Side): string {
    match side
    case Top => "borderTopStyle"
    case Right => "borderRightStyle"
    case Bottom => "borderBottomStyle"
    case Left => "borderLeftStyle"
  }

  function SideName(side: Side): string {
    match side
    case Top => "Border (top)"
    case Right => "Border (right)"
    case Bottom => "Border (bottom)"
    case Left => "Border (left)"
  }

  /** `const { key = style.shorthand || fallback } = style`. */
  function Resolve(style: Style, key: string, shorthand: string, fallback: Value): Value {
    if key in style then style[key]
    else if shorthand in style && Truthy(style[shorthand]) then style[shorthand]
    else fallback
  }

  /** The width, colour and style of one side, falling back from the shorthand properties. */
  function SideOf(style: Style, side: Side): (b: SideBorder)
    ensures WidthKey(side) in style ==> b.width == style[WidthKey(side)]
    ensures WidthKey(side) !in style ==>
      b.width == if "borderWidth" in style && Truthy(style["borderWidth"]) then style["borderWidth"] else Num(0)
    ensures ColorKey(side) in style ==> b.color == style[ColorKey(side)]
    ensures ColorKey(side) !in style ==>
      b.color == if "borderColor" in style && Truthy(style["borderColor"]) then style["borderColor"] else DEFAULT_BORDER_COLOR
    ensures StyleKey(side) in style ==> b.style == style[StyleKey(side)]
    ensures StyleKey(side) !in style ==>
      b.style == if "borderStyle" in style && Truthy(style["borderStyle"]) then style["borderStyle"] else DEFAULT_BORDER_STYLE
  {
    SideBorder(
      Resolve(style, WidthKey(side), "borderWidth", Num(0)),
      Resolve(style, ColorKey(side), "borderColor", DEFAULT_BORDER_COLOR),
      Resolve(style, StyleKey(side), "borderStyle", DEFAULT_BORDER_STYLE))
  }

  /** All four sides have the same width, colour and style. */
  predicate Uniform(style: Style) {
    forall side :: SideOf(style, side) == SideOf(style, Top)
  }

  /** `width > 0`, for the numeric widths this model covers. */
  predicate PositiveWidth(v: Value) {
    v.Num? && v.n > 0
  }

  /** Sets `style.borderOptions` when `makeBorderOptions` gives any. */
  function WithOptions(l: ShapeLayer, options: Option<BorderOptions>): (r: ShapeLayer)
    ensures r.shape == l.shape && r.name == l.name && r.hasClippingMask == l.hasClippingMask && r.borders == l.borders
    ensures r.borderOptions == if options.Some? then options else l.borderOptions
  {
    if options.Some? then l.(borderOptions := options) else l
  }

  /** The rectangle drawn for one side of positive width, named after that side. */
  function SideLayer(side: Side, b: SideBorder, layout: Layout, makeOptions: (Value, Value) -> Option<BorderOptions>): (r: ShapeLayer)
    requires PositiveWidth(b.width)
    ensures r.name == Some(SideName(side)) && !r.hasClippingMask && r.borders.None?
    ensures r.borderOptions == makeOptions(b.style, b.width)
    ensures side == Top ==> r.shape == HorizontalBorder(0, 0, layout.width, b.width.n, b.color)
    ensures side == Right ==> r.shape == VerticalBorder(layout.width - b.width.n, 0, layout.height, b.width.n, b.color)
    ensures side == Bottom ==> r.shape == HorizontalBorder(0, layout.height - b.width.n, layout.width, b.width.n, b.color)
    ensures side == Left ==> r.shape == VerticalBorder(0, 0, layout.height, b.width.n, b.color)
  {
    var w := b.width.n;
    var shape := match side
      case Top => HorizontalBorder(0, 0, layout.width, w, b.color)
      case Right => VerticalBorder(layout.width - w, 0, layout.height, w, b.color)
      case Bottom => HorizontalBorder(0, layout.height - w, layout.width, w, b.color)
      case Left => VerticalBorder(0, 0, layout.height, w, b.color);
    WithOptions(ShapeLayer(shape, Some(SideName(side)), false, None, None), makeOptions(b.style, b.width))
  }

  /** The sides, in emission order, whose width is positive. */
  function DrawnSides(style: Style, sides: seq<Side>): (d: seq<Side>)
    ensures forall i :: 0 <= i < |d| ==> PositiveWidth(SideOf(style, d[i]).width)
    ensures |d| <= |sides|
  {
    if sides == [] then []
    else (if PositiveWidth(SideOf(style, sides[0]).width) then [sides[0]] else []) + DrawnSides(style, sides[1..])
  }

  /** A side is drawn exactly when it is listed and its width is positive. */
  lemma {:induction false} DrawnSidesExactly(style: Style, sides: seq<Side>)
    ensures forall side :: side in DrawnSides(style, sides) <==> side in sides && PositiveWidth(SideOf(style, side).width)
  {
    if sides != [] {
      DrawnSidesExactly(style, sides[1..]);
      assert sides == [sides[0]] + sides[1..];
    }
  }

  /** The rectangles for the listed sides, in the same order. */
  function SideLayers(style: Style, sides: seq<Side>, layout: Layout, makeOptions: (Value, Value) -> Option<BorderOptions>): (ls: seq<ShapeLayer>)
    requires forall i :: 0 <= i < |sides| ==> PositiveWidth(SideOf(style, sides[i]).width)
    ensures |ls| == |sides|
    ensures forall i :: 0 <= i < |sides| ==> ls[i] == SideLayer(sides[i], SideOf(style, sides[i]), layout, makeOptions)
  {
    seq(|sides|, i requires 0 <= i < |sides| => SideLayer(sides[i], SideOf(style, sides[i]), layout, makeOptions))
  }

  /** `createBorders(content, layout, style)`. */
  function CreateBorders(content: ShapeLayer, layout: Layout, style: Option<Style>, makeOptions: (Value, Value) -> Option<BorderOptions>): (r: seq<ShapeLayer>)
    ensures |r| >= 1 && r[0].shape == content.shape && r[0].name == content.name
    ensures style.None? ==> r == [content]
    // uniform sides: one layer, with a single inside stroke when the width is positive
    ensures style.Some? && Uniform(style.value) ==>
      var top := SideOf(style.value, Top);
      && |r| == 1
      && r[0].hasClippingMask == content.hasClippingMask
      && r[0].borderOptions == (if makeOptions(top.style, top.width).Some? then makeOptions(top.style, top.width) else content.borderOptions)
      && (PositiveWidth(top.width) ==> r[0].borders == Some([Stroke(true, top.color, FillSolid, PositionInside, top.width.n)]))
      && (!PositiveWidth(top.width) ==> r[0].borders == content.borders)
    // mixed sides: a clipping content layer, then one rectangle per drawn side
    ensures style.Some? && !Uniform(style.value) ==>
      var drawn := DrawnSides(style.value, SIDES);
      && r[0] == content.(hasClippingMask := true)
      && |r| == 1 + |drawn|
      && forall i :: 0 <= i < |drawn| ==> r[i + 1] == SideLayer(drawn[i], SideOf(style.value, drawn[i]), layout, makeOptions)
  {
    if style.None? then [content]
    else
      var s := style.value;
      var top := SideOf(s, Top);
      if Uniform(s) then
        var withOptions := WithOptions(content, makeOptions(top.style, top.width));
        if PositiveWidth(top.width) then
          [withOptions.(borders := Some([Stroke(true, top.color, FillSolid, PositionInside, top.width.n)]))]
        else
          [withOptions]
      else
        [content.(hasClippingMask := true)] + SideLayers(s, DrawnSides(s, SIDES), layout, makeOptions)
  }

  /** Listed sides are strictly increasing in emission order. */
  predicate InEmissionOrder(sides: seq<Side>) {
    forall i, j :: 0 <= i < j < |sides| ==> SideIndex(sides[i]) < SideIndex(sides[j])
  }

  /** Every side kept by `DrawnSides` comes after a bound that all listed sides come after. */
  lemma {:induction false} DrawnSidesAbove(style: Style, sides: seq<Side>, bound: int)
    requires forall i :: 0 <= i < |sides| ==> bound < SideIndex(sides[i])
    ensures forall k :: 0 <= k < |DrawnSides(style, sides)| ==> bound < SideIndex(DrawnSides(style, sides)[k])
  {
    if sides != [] {
      var tail := sides[1..];
      assert forall i :: 0 <= i < |tail| ==> tail[i] == sides[i + 1];
      DrawnSidesAbove(style, tail, bound);
    }
  }

  /** The tail of an ordered list is ordered and comes after its head. */
  lemma OrderedTail(sides: seq<Side>)
    requires sides != [] && InEmissionOrder(sides)
    ensures InEmissionOrder(sides[1..])
    ensures forall k :: 0 <= k < |sides[1..]| ==> SideIndex(sides[0]) < SideIndex(sides[1..][k])
  {
    var tail := sides[1..];
    forall i, j | 0 <= i < j < |tail| ensures SideIndex(tail[i]) < SideIndex(tail[j]) {
      assert tail[i] == sides[i + 1] && tail[j] == sides[j + 1];
    }
  }

  /** A side placed before an ordered list of later sides gives an ordered list. */
  lemma OrderedCons(side: Side, rest: seq<Side>)
    requires InEmissionOrder(rest)
    requires forall k :: 0 <= k < |rest| ==> SideIndex(side) < SideIndex(rest[k])
    ensures InEmissionOrder([side] + rest)
  {
    var d := [side] + rest;
    forall i, j | 0 <= i < j < |d| ensures SideIndex(d[i]) < SideIndex(d[j]) {
      assert d[j] == rest[j - 1];
      if i > 0 {
        assert d[i] == rest[i - 1];
      }
    }
  }

  /** Dropping the sides of zero width keeps the emission order, so no side is drawn twice or out of turn. */
  lemma {:induction false} DrawnSidesInOrder(style: Style, sides: seq<Side>)
    requires InEmissionOrder(sides)
    ensures InEmissionOrder(DrawnSides(style, sides))
  {
    if sides != [] {
      OrderedTail(sides);
      DrawnSidesInOrder(style, sides[1..]);
      if PositiveWidth(SideOf(style, sides[0]).width) {
        DrawnSidesAbove(style, sides[1..], SideIndex(sides[0]));
        OrderedCons(sides[0], DrawnSides(style, sides[1..]));
      }
    }
  }

  /** The rectangles of `createBorders` come in the order top, right, bottom, left. */
  lemma SidesInOrder(style: Style)
    ensures InEmissionOrder(DrawnSides(style, SIDES))
  {
    DrawnSidesInOrder(style, SIDES);
  }

  /** The position of a side in the emission order. */
  function SideIndex(side: Side): (k: nat)
    ensures k < |SIDES| && SIDES[k] == side
  {
    match side
    case Top => 0
    case Right => 1
    case Bottom => 2
    case Left => 3
  }

  /** Width 2 on every side in one colour: a single layer with one inside stroke 2 thick. */
  lemma UniformExample(content: ShapeLayer, layout: Layout, makeOptions: (Value, Value) -> Option<BorderOptions>)
    ensures var r := CreateBorders(content, layout, Some(map["borderWidth" := Num(2), "borderColor" := Str("red")]), makeOptions);
      |r| == 1 && r[0].borders == Some([Stroke(true, Str("red"), FillSolid, PositionInside, 2)])
  {
    var s := map["borderWidth" := Num(2), "borderColor" := Str("red")];
    assert Uniform(s) by {
      forall side ensures SideOf(s, side) == SideOf(s, Top) {
      }
    }
  }

  /** The style of the next example: only the top side has a width. */
  const TOP_ONLY: Style := map["borderTopWidth" := Num(4), "borderTopColor" := Str("red")]

  lemma TopOnlyDrawsTop()
    ensures SideOf(TOP_ONLY, Top) == SideBorder(Num(4), Str("red"), DEFAULT_BORDER_STYLE)
    ensures !Uniform(TOP_ONLY)
    ensures DrawnSides(TOP_ONLY, SIDES) == [Top]
  {
    var s := TOP_ONLY;
    assert SideOf(s, Right).width == Num(0);
    assert SideOf(s, Bottom).width == Num(0);
    assert SideOf(s, Left).width == Num(0);
    assert DrawnSides(s, [Left]) == [];
    assert DrawnSides(s, [Bottom, Left]) == [] by {
      assert [Bottom, Left][1..] == [Left];
    }
    assert DrawnSides(s, [Right, Bottom, Left]) == [] by {
      assert [Right, Bottom, Left][1..] == [Bottom, Left];
    }
    assert SIDES[1..] == [Right, Bottom, Left];
  }

  /** Only a red top border 4 wide: the clipping content layer and one full-width strip at y = 0. */
  lemma TopOnlyExample(content: ShapeLayer, layout: Layout, makeOptions: (Value, Value) -> Option<BorderOptions>)
    ensures var r := CreateBorders(content, layout, Some(TOP_ONLY), makeOptions);
      && |r| == 2
      && r[0].hasClippingMask
      && r[1].name == Some("Border (top)")
      && r[1].shape == HorizontalBorder(0, 0, layout.width, 4, Str("red"))
  {
    TopOnlyDrawsTop();
  }
}
