/**
 * The macro-coordinate clipboard: what a measurement is printed as, what a text is read as, and the
 * anchor a measurement without one is given. Numbers are exact: no rounding of floating point.
 */
module MacroCoordinates {
  import opened Outcomes
  import opened ClipboardText

  datatype Anchor =
    | TopLeft | TopCenter | TopRight | CenterLeft | Center | CenterRight | BottomLeft | BottomCenter | BottomRight

  const ANCHORS: seq<Anchor> :=
    [TopLeft, TopCenter, TopRight, CenterLeft, Center, CenterRight, BottomLeft, BottomCenter, BottomRight]

  function AnchorName(a: Anchor): string {
    match a
    case TopLeft => "top-left"
    case TopCenter => "top-center"
    case TopRight => "top-right"
    case CenterLeft => "center-left"
    case Center => "center"
    case CenterRight => "center-right"
    case BottomLeft => "bottom-left"
    case BottomCenter => "bottom-center"
    case BottomRight => "bottom-right"
  }

  function AnchorOf(name: string): Option<Anchor> {
    if name == "top-left" then Some(TopLeft) else if name == "top-center" then Some(TopCenter)
    else if name == "top-right" then Some(TopRight) else if name == "center-left" then Some(CenterLeft)
    else if name == "center" then Some(Center) else if name == "center-right" then Some(CenterRight)
    else if name == "bottom-left" then Some(BottomLeft) else if name == "bottom-center" then Some(BottomCenter)
    else if name == "bottom-right" then Some(BottomRight) else None
  }

  /** Where an anchor stands, in percent of the viewport. */
  function AnchorBase(a: Anchor): (real, real) {
    (match a
     case TopLeft => 0.0 case CenterLeft => 0.0 case BottomLeft => 0.0
     case TopRight => 100.0 case CenterRight => 100.0 case BottomRight => 100.0
     case _ => 50.0,
     match a
     case TopLeft => 0.0 case TopCenter => 0.0 case TopRight => 0.0
     case BottomLeft => 100.0 case BottomCenter => 100.0 case BottomRight => 100.0
     case _ => 50.0)
  }

  datatype Measurement = Measurement(
    anchor: Option<Anchor>, zoom: Option<real>, referenceHeight: Option<Numeral>, referenceWidth: Option<Numeral>,
    xPercent: real, xPx: Numeral, xReference: Option<real>,
    viewportHeight: Option<Numeral>, viewportWidth: Option<Numeral>,
    yPercent: real, yPx: Numeral, yReference: Option<real>)

  function Exactly(n: int): Numeral {
    Numeral(n, 0)
  }

  const MAX_SAFE_INTEGER: int := 9007199254740991

  predicate PositiveSafe(n: int) {
    0 < n <= MAX_SAFE_INTEGER
  }

  /** `Math.round` */
  function Round(v: real): int {
    (v + 0.5).Floor
  }

  function Rounded(n: Numeral): int {
    Round(ValueOf(n))
  }

  /** A safe integer above zero. */
  predicate Countable(n: Numeral) {
    Integral(n) && PositiveSafe(Rounded(n))
  }

  function RoundPercent(v: real): real {
    Round(v * 100.0) as real / 100.0
  }

  function Abs(n: int): nat {
    if n < 0 then -n else n
  }

  // ---- The nearest anchor ------------------------------------------------------------------

  function Distance(a: Anchor, x: real, y: real, width: real, height: real): real {
    var (ax, ay) := AnchorBase(a);
    var dx, dy := x - width * ax / 100.0, y - height * ay / 100.0;
    dx * dx + dy * dy
  }

  /** The first of the first `n` anchors at the least distance. */
  function NearestOf(n: nat, x: real, y: real, width: real, height: real): Anchor
    requires 0 < n <= |ANCHORS|
  {
    if n == 1 then ANCHORS[0] else
      var best := NearestOf(n - 1, x, y, width, height);
      var closer := Distance(ANCHORS[n - 1], x, y, width, height) < Distance(best, x, y, width, height);
      if closer then ANCHORS[n - 1] else best
  }

  function NearestAnchor(m: Measurement): Option<Anchor> {
    if m.viewportWidth == None || m.viewportHeight == None then None else
    var width, height := ValueOf(m.viewportWidth.value), ValueOf(m.viewportHeight.value);
    if width <= 0.0 || height <= 0.0 then None
    else Some(NearestOf(|ANCHORS|, ValueOf(m.xPx), ValueOf(m.yPx), width, height))
  }

  /** How far an anchor of the measured viewport is from the measured point. */
  function DistanceTo(a: Anchor, m: Measurement): real
    requires m.viewportWidth.Some? && m.viewportHeight.Some?
  {
    Distance(a, ValueOf(m.xPx), ValueOf(m.yPx), ValueOf(m.viewportWidth.value), ValueOf(m.viewportHeight.value))
  }

  /** No anchor is closer, and none listed before it is as close. */
  lemma {:induction false} NearestIsFirstLeast(n: nat, x: real, y: real, width: real, height: real) returns (k: nat)
    requires 0 < n <= |ANCHORS|
    ensures k < n && NearestOf(n, x, y, width, height) == ANCHORS[k]
    ensures forall i | 0 <= i < n ::
      Distance(ANCHORS[k], x, y, width, height) <= Distance(ANCHORS[i], x, y, width, height)
    ensures forall i | 0 <= i < k ::
      Distance(ANCHORS[k], x, y, width, height) < Distance(ANCHORS[i], x, y, width, height)
  {
    if n == 1 {
      k := 0;
    } else {
      var j := NearestIsFirstLeast(n - 1, x, y, width, height);
      var closer := Distance(ANCHORS[n - 1], x, y, width, height) < Distance(ANCHORS[j], x, y, width, height);
      k := if closer then n - 1 else j;
    }
  }

  method FindNearestMacroClickAnchor(m: Measurement) returns (nearest: Option<Anchor>)
    ensures nearest == NearestAnchor(m)
    ensures nearest.Some? ==> forall a :: DistanceTo(nearest.value, m) <= DistanceTo(a, m)
  {
    if m.viewportWidth == None || m.viewportHeight == None {
      return None;
    }
    var x, y := ValueOf(m.xPx), ValueOf(m.yPx);
    var width, height := ValueOf(m.viewportWidth.value), ValueOf(m.viewportHeight.value);
    if width <= 0.0 || height <= 0.0 {
      return None;
    }
    var best := ANCHORS[0];
    var bestDistance := Distance(best, x, y, width, height);
    for i := 1 to |ANCHORS|
      invariant best == NearestOf(i, x, y, width, height)
      invariant bestDistance == Distance(best, x, y, width, height)
    {
      var distance := Distance(ANCHORS[i], x, y, width, height);
      if distance < bestDistance {
        best, bestDistance := ANCHORS[i], distance;
      }
    }
    ghost var k := NearestIsFirstLeast(|ANCHORS|, x, y, width, height);
    forall a ensures DistanceTo(best, m) <= DistanceTo(a, m) {
      AnchorListed(a);
    }
    return Some(best);
  }

  lemma AnchorListed(a: Anchor)
    ensures exists i :: 0 <= i < |ANCHORS| && ANCHORS[i] == a
  {
    assert ANCHORS[0] == TopLeft && ANCHORS[1] == TopCenter && ANCHORS[2] == TopRight && ANCHORS[3] == CenterLeft;
    assert ANCHORS[4] == Center && ANCHORS[5] == CenterRight && ANCHORS[6] == BottomLeft && ANCHORS[7] == BottomCenter;
    assert ANCHORS[8] == BottomRight;
  }

  // ---- Printing ----------------------------------------------------------------------------

  function FilledAnchor(m: Measurement): Option<Anchor> {
    if m.anchor.Some? then m.anchor else NearestAnchor(m)
  }

  predicate HasReference(m: Measurement) {
    && m.zoom.Some? && m.zoom.value > 0.0
    && m.referenceHeight.Some? && Countable(m.referenceHeight.value)
    && m.referenceWidth.Some? && Countable(m.referenceWidth.value)
    && m.viewportHeight.Some? && Countable(m.viewportHeight.value)
    && m.viewportWidth.Some? && Countable(m.viewportWidth.value)
    && m.xReference.Some? && m.yReference.Some?
  }

  /** A word right after what precedes it, and one after a space. */
  function At(text: string): Token { Token("", Literal(text)) }
  function Sp(text: string): Token { Token(" ", Literal(text)) }

  function Coordinate(axis: Token, px: Numeral, percent: real): seq<Token> {
    [axis, At(":"), Token(" ", Shows(px)), At("px"),
     Sp("("), Token("", Hundredths(Round(percent * 100.0))), At("%"), At(")")]
  }

  function AnchorTokens(a: Anchor): seq<Token> {
    [At(","), Sp("Anchor"), At(":"), Token(" ", Label(AnchorName(a)))]
  }

  function SizeTokens(word: string, width: Numeral, height: Numeral): seq<Token> {
    [At(","), Sp(word), At(":"), Token(" ", Shows(width)), At("x"), Token("", Shows(height)), At("px")]
  }

  function CssTokens(x: int, y: int): seq<Token> {
    [At(","), Sp("CSS"), At(":"), Sp("X"), Token(" ", Whole(x)), At("px"),
     At(","), Sp("Y"), Token(" ", Whole(y)), At("px")]
  }

  function ZoomTokens(zoom: real): seq<Token> {
    [At(","), Sp("Zoom"), At(":"), Token(" ", Hundredths(Round(zoom * 100.0 * 100.0))), At("%")]
  }

  function ReferenceTokens(m: Measurement, a: Anchor): seq<Token>
    requires HasReference(m)
  {
    Coordinate(At("X"), Exactly(Round(m.xReference.value)), m.xPercent) + ([At(",")] +
    (Coordinate(Sp("Y"), Exactly(Round(m.yReference.value)), m.yPercent) + (AnchorTokens(a) +
    (SizeTokens("ReferenceViewport", m.referenceWidth.value, m.referenceHeight.value) +
    (CssTokens(Rounded(m.xPx), Rounded(m.yPx)) +
    (SizeTokens("Viewport", m.viewportWidth.value, m.viewportHeight.value) + ZoomTokens(m.zoom.value)))))))
  }

  function PlainTokens(m: Measurement, a: Option<Anchor>): seq<Token> {
    Coordinate(At("X"), m.xPx, m.xPercent) + ([At(",")] +
    (Coordinate(Sp("Y"), m.yPx, m.yPercent) + ((if a.Some? then AnchorTokens(a.value) else []) +
    (if m.viewportWidth.Some? && m.viewportHeight.Some?
     then SizeTokens("Viewport", m.viewportWidth.value, m.viewportHeight.value) else []))))
  }

  function FormatMacroCoordinateClipboard(m: Measurement): string {
    var a := FilledAnchor(m);
    if HasReference(m) && a.Some? then Render(ReferenceTokens(m, a.value)) else Render(PlainTokens(m, a))
  }

  // ---- Reading -----------------------------------------------------------------------------

  function CoordinateItems(axis: string): seq<Item> {
    [Word(axis), Word(":"), Decimal, Word("px"), Word("("), Decimal, Word("%"), Word(")")]
  }

  const ANCHOR_ITEMS: seq<Item> := [Word(","), Word("Anchor"), Word(":"), Name]

  function SizeItems(word: string): seq<Item> {
    [Word(","), Word(word), Word(":"), Integer, Word("x"), Integer, Word("px")]
  }

  const CSS_ITEMS: seq<Item> :=
    [Word(","), Word("CSS"), Word(":"), Word("X"), Decimal, Word("px"), Word(","), Word("Y"), Decimal, Word("px")]
  const ZOOM_ITEMS: seq<Item> := [Word(","), Word("Zoom"), Word(":"), Decimal, Word("%")]

  function ReferencePattern(): seq<Item> {
    CoordinateItems("X") + ([Word(",")] + (CoordinateItems("Y") + (ANCHOR_ITEMS +
    (SizeItems("ReferenceViewport") + (CSS_ITEMS + (SizeItems("Viewport") + ZOOM_ITEMS))))))
  }

  /** The plain expression's optional groups, each present or absent. */
  function PlainPattern(anchor: bool, viewport: bool): seq<Item> {
    CoordinateItems("X") + ([Word(",")] + (CoordinateItems("Y") +
    ((if anchor then ANCHOR_ITEMS else []) + (if viewport then SizeItems("Viewport") else []))))
  }

  predicate ValidPercent(p: real) {
    0.0 <= p <= 100.0
  }

  predicate InRange(n: int, size: int) {
    0 <= n < size
  }

  /** Eleven numbers and, fifth, a name. */
  predicate ReferenceShape(v: seq<Value>) {
    |v| == 12 && v[4].Named? && forall i | 0 <= i < 12 && i != 4 :: v[i].Number?
  }

  /** The reference expression's twelve captures, checked. */
  function ReadReference(v: seq<Value>): Option<Measurement> {
    if !ReferenceShape(v) then None else
    var anchor, zoom := AnchorOf(v[4].name), v[11].value / 100.0;
    var x, y, cssX, cssY := Round(v[0].value), Round(v[2].value), Round(v[7].value), Round(v[8].value);
    var refWidth, refHeight := Round(v[5].value), Round(v[6].value);
    var width, height := Round(v[9].value), Round(v[10].value);
    if anchor == None || !ValidPercent(v[1].value) || !ValidPercent(v[3].value)
      || !PositiveSafe(refWidth) || !PositiveSafe(refHeight) || !PositiveSafe(width) || !PositiveSafe(height)
      || zoom <= 0.0
      || !InRange(x, refWidth) || !InRange(y, refHeight) || !InRange(cssX, width) || !InRange(cssY, height)
      || !Consistent(zoom, x, y, cssX, cssY, refWidth, refHeight, width, height)
    then None
    else Some(Measurement(anchor, Some(zoom), Some(Exactly(refHeight)), Some(Exactly(refWidth)),
      RoundPercent(v[1].value), Exactly(cssX), Some(x as real), Some(Exactly(height)), Some(Exactly(width)),
      RoundPercent(v[3].value), Exactly(cssY), Some(y as real)))
  }

  /** The two coordinate spaces agree under the zoom to within one pixel. */
  predicate Consistent(
    zoom: real, x: int, y: int, cssX: int, cssY: int, refWidth: int, refHeight: int, width: int, height: int)
  {
    && Abs(refWidth - Round(width as real * zoom)) <= 1
    && Abs(refHeight - Round(height as real * zoom)) <= 1
    && Abs(x - Round(cssX as real * zoom)) <= 1
    && Abs(y - Round(cssY as real * zoom)) <= 1
  }

  /** The plain expression's captures, checked. */
  function ReadPlain(v: seq<Value>, hasAnchor: bool, hasViewport: bool): Option<Measurement> {
    var size := 4 + (if hasAnchor then 1 else 0);
    if |v| != size + (if hasViewport then 2 else 0) || (hasAnchor && !v[4].Named?)
      || (exists i | 0 <= i < |v| :: (i < 4 || i >= size) && !v[i].Number?) then None else
    var anchor := if hasAnchor then AnchorOf(v[4].name) else None;
    var x, y := Round(v[0].value), Round(v[2].value);
    var width := if hasViewport then Round(v[size].value) else 0;
    var height := if hasViewport then Round(v[size + 1].value) else 0;
    if !ValidPercent(v[1].value) || !ValidPercent(v[3].value) || v[0].value < 0.0 || v[2].value < 0.0
      || (hasAnchor && anchor == None)
      || (hasViewport && (!PositiveSafe(width) || x >= width || !PositiveSafe(height) || y >= height))
    then None
    else Some(Measurement(anchor, None, None, None, RoundPercent(v[1].value), Exactly(x), None,
      if hasViewport then Some(Exactly(height)) else None, if hasViewport then Some(Exactly(width)) else None,
      RoundPercent(v[3].value), Exactly(y), None))
  }

  /** The reference expression first; then the plain one, whose optional groups are tried longest first. */
  function ParseMacroCoordinateClipboard(text: string): Option<Measurement> {
    var reference := Match(ReferencePattern(), text);
    if reference.Some? then ReadReference(reference.value) else
    var both := Match(PlainPattern(true, true), text);
    if both.Some? then ReadPlain(both.value, true, true) else
    var anchor := Match(PlainPattern(true, false), text);
    if anchor.Some? then ReadPlain(anchor.value, true, false) else
    var viewport := Match(PlainPattern(false, true), text);
    if viewport.Some? then ReadPlain(viewport.value, false, true) else
    var bare := Match(PlainPattern(false, false), text);
    if bare.Some? then ReadPlain(bare.value, false, false) else None
  }
}
