/** The clipboard text piece by piece, and where the anchors stand. */
module ClipboardForm {
  import opened Outcomes
  import opened Text
  import opened ClipboardText
  import opened MacroCoordinates
  import opened MacroCoordinateRoundTrip

  // ---- The printed text --------------------------------------------------------------------

  /** The pieces of a text, one after another. */
  function Join(pieces: seq<string>): string {
    if pieces == [] then "" else pieces[0] + Join(pieces[1..])
  }

  function TextOf(t: Token): string { t.gap + Shown(t.body) }

  /** Each token prints the piece at its place. */
  ghost predicate Prints(tokens: seq<Token>, pieces: seq<string>) {
    |tokens| == |pieces| && forall i | 0 <= i < |tokens| :: TextOf(tokens[i]) == pieces[i]
  }

  lemma {:induction false} RenderIsJoin(tokens: seq<Token>, pieces: seq<string>)
    requires Prints(tokens, pieces)
    ensures Render(tokens) == Join(pieces)
  {
    if tokens != [] {
      assert TextOf(tokens[0]) == pieces[0];
      RenderIsJoin(tokens[1..], pieces[1..]);
    }
  }

  lemma PrintsBoth(a: seq<Token>, p: seq<string>, b: seq<Token>, q: seq<string>)
    requires Prints(a, p) && Prints(b, q)
    ensures Prints(a + b, p + q)
  {
  }

  /** After a blank. */
  function Spaced(s: string): string { " " + s }

  /** A percentage in text, rounded to hundredths. */
  function PercentText(percent: real): string {
    ShowNumeral(Numeral(Round(percent * 100.0), 2))
  }

  lemma Literals(word: string)
    ensures TextOf(At(word)) == word && TextOf(Sp(word)) == Spaced(word)
    ensures forall b :: TextOf(Token("", b)) == Shown(b) && TextOf(Token(" ", b)) == Spaced(Shown(b))
  {
  }

  lemma CoordinatePrints(axis: Token, px: Numeral, percent: real)
    ensures Prints(Coordinate(axis, px, percent),
      [TextOf(axis), ":", Spaced(ShowNumeral(px)), "px", Spaced("("), PercentText(percent), "%", ")"])
  {
    PixelsPrint(axis, px);
    Literals("(");
    Literals("%");
    Literals(")");
    var value := Token("", Hundredths(Round(percent * 100.0)));
    PrintsBoth([axis, At(":"), Token(" ", Shows(px)), At("px")], [TextOf(axis), ":", Spaced(ShowNumeral(px)), "px"],
      [Sp("("), value, At("%"), At(")")], [Spaced("("), PercentText(percent), "%", ")"]);
  }

  lemma PixelsPrint(axis: Token, px: Numeral)
    ensures Prints([axis, At(":"), Token(" ", Shows(px)), At("px")],
      [TextOf(axis), ":", Spaced(ShowNumeral(px)), "px"])
  {
    Literals(":");
    Literals("px");
  }

  lemma LabelPrints(word: string)
    ensures Prints([At(","), Sp(word), At(":")], [",", Spaced(word), ":"])
  {
    Literals(",");
    Literals(word);
    Literals(":");
  }

  lemma AnchorPrints(a: Anchor)
    ensures Prints(AnchorTokens(a), [",", Spaced("Anchor"), ":", Spaced(AnchorName(a))])
  {
    LabelPrints("Anchor");
    Literals("");
    PrintsBoth([At(","), Sp("Anchor"), At(":")], [",", Spaced("Anchor"), ":"],
      [Token(" ", Label(AnchorName(a)))], [Spaced(AnchorName(a))]);
  }

  lemma SizePrints(word: string, width: Numeral, height: Numeral)
    ensures Prints(SizeTokens(word, width, height),
      [",", Spaced(word), ":", Spaced(ShowNumeral(width)), "x", ShowNumeral(height), "px"])
  {
    LabelPrints(word);
    ExtentPrints(width, height);
    PrintsBoth([At(","), Sp(word), At(":")], [",", Spaced(word), ":"],
      [Token(" ", Shows(width)), At("x"), Token("", Shows(height)), At("px")],
      [Spaced(ShowNumeral(width)), "x", ShowNumeral(height), "px"]);
  }

  lemma ExtentPrints(width: Numeral, height: Numeral)
    ensures Prints([Token(" ", Shows(width)), At("x"), Token("", Shows(height)), At("px")],
      [Spaced(ShowNumeral(width)), "x", ShowNumeral(height), "px"])
  {
    Literals("x");
    Literals("px");
  }

  lemma CssPrints(x: int, y: int)
    ensures Prints(CssTokens(x, y),
      [",", Spaced("CSS"), ":", Spaced("X"), Spaced(ShowNumeral(Exactly(x))), "px",
       ",", Spaced("Y"), Spaced(ShowNumeral(Exactly(y))), "px"])
  {
    PointPrints("CSS", "X", x, "Y", y);
  }

  lemma PointPrints(word: string, across: string, x: int, down: string, y: int)
    ensures Prints([At(","), Sp(word), At(":"), Sp(across), Token(" ", Whole(x)), At("px"),
      At(","), Sp(down), Token(" ", Whole(y)), At("px")],
      [",", Spaced(word), ":", Spaced(across), Spaced(ShowNumeral(Exactly(x))), "px",
       ",", Spaced(down), Spaced(ShowNumeral(Exactly(y))), "px"])
  {
    LabelPrints(word);
    AxisPrints(across, x);
    AxisPrints(down, y);
    Literals(",");
    var tx, ty := [Sp(across), Token(" ", Whole(x)), At("px")], [Sp(down), Token(" ", Whole(y)), At("px")];
    var px, py := [Spaced(across), Spaced(ShowNumeral(Exactly(x))), "px"],
      [Spaced(down), Spaced(ShowNumeral(Exactly(y))), "px"];
    PrintsBoth([At(",")], [","], ty, py);
    PrintsBoth(tx, px, [At(",")] + ty, [","] + py);
    PrintsBoth([At(","), Sp(word), At(":")], [",", Spaced(word), ":"], tx + ([At(",")] + ty), px + ([","] + py));
    TenInParts(At(","), Sp(word), At(":"), Sp(across), Token(" ", Whole(x)), At("px"),
      At(","), Sp(down), Token(" ", Whole(y)), At("px"));
    TenInParts(",", Spaced(word), ":", Spaced(across), Spaced(ShowNumeral(Exactly(x))), "px",
      ",", Spaced(down), Spaced(ShowNumeral(Exactly(y))), "px");
  }

  lemma TenInParts<T>(a: T, b: T, c: T, d: T, e: T, f: T, g: T, h: T, i: T, j: T)
    ensures [a, b, c, d, e, f, g, h, i, j] == [a, b, c] + ([d, e, f] + ([g] + [h, i, j]))
  {
  }

  lemma AxisPrints(axis: string, n: int)
    ensures Prints([Sp(axis), Token(" ", Whole(n)), At("px")],
      [Spaced(axis), Spaced(ShowNumeral(Exactly(n))), "px"])
  {
    Literals(axis);
    Literals("px");
  }

  lemma ZoomPrints(zoom: real)
    ensures Prints(ZoomTokens(zoom), [",", Spaced("Zoom"), ":", Spaced(PercentText(zoom * 100.0)), "%"])
  {
    LabelPrints("Zoom");
    Literals("%");
    PrintsBoth([At(","), Sp("Zoom"), At(":")], [",", Spaced("Zoom"), ":"],
      [Token(" ", Hundredths(Round(zoom * 100.0 * 100.0))), At("%")], [Spaced(PercentText(zoom * 100.0)), "%"]);
  }

  /** Both coordinates in text. */
  function PairPieces(x: Numeral, xPercent: real, y: Numeral, yPercent: real): seq<string> {
    ["X", ":", Spaced(ShowNumeral(x)), "px", Spaced("("), PercentText(xPercent), "%", ")"] +
    ([","] + [Spaced("Y"), ":", Spaced(ShowNumeral(y)), "px", Spaced("("), PercentText(yPercent), "%", ")"])
  }

  lemma PairPrints(x: Numeral, xPercent: real, y: Numeral, yPercent: real, rest: seq<Token>, pieces: seq<string>)
    requires Prints(rest, pieces)
    ensures Prints(Coordinate(At("X"), x, xPercent) + ([At(",")] + (Coordinate(Sp("Y"), y, yPercent) + rest)),
      PairPieces(x, xPercent, y, yPercent) + pieces)
  {
    Literals("X");
    Literals("Y");
    Literals(",");
    CoordinatePrints(At("X"), x, xPercent);
    CoordinatePrints(Sp("Y"), y, yPercent);
    var tx, ty := Coordinate(At("X"), x, xPercent), Coordinate(Sp("Y"), y, yPercent);
    var px := ["X", ":", Spaced(ShowNumeral(x)), "px", Spaced("("), PercentText(xPercent), "%", ")"];
    var py := [Spaced("Y"), ":", Spaced(ShowNumeral(y)), "px", Spaced("("), PercentText(yPercent), "%", ")"];
    PrintsBoth(ty, py, rest, pieces);
    PrintsBoth([At(",")], [","], ty + rest, py + pieces);
    PrintsBoth(tx, px, [At(",")] + (ty + rest), [","] + (py + pieces));
    Associate(px, [","], py, pieces);
  }

  lemma Associate(a: seq<string>, b: seq<string>, c: seq<string>, d: seq<string>)
    ensures a + (b + (c + d)) == a + (b + c) + d
  {
  }

  /** Main result: the plain text, as the template has it. */
  lemma PlainTextIs(m: Measurement)
    requires !HasReference(m)
    ensures FormatMacroCoordinateClipboard(m) == Join(PairPieces(m.xPx, m.xPercent, m.yPx, m.yPercent) + (
      (if FilledAnchor(m).Some? then [",", Spaced("Anchor"), ":", Spaced(AnchorName(FilledAnchor(m).value))] else []) +
      (if m.viewportWidth.Some? && m.viewportHeight.Some? then [",", Spaced("Viewport"), ":",
         Spaced(ShowNumeral(m.viewportWidth.value)), "x", ShowNumeral(m.viewportHeight.value), "px"] else [])))
  {
    var a := FilledAnchor(m);
    var measured := m.viewportWidth.Some? && m.viewportHeight.Some?;
    var anchor := if a.Some? then AnchorTokens(a.value) else [];
    var size := if measured then SizeTokens("Viewport", m.viewportWidth.value, m.viewportHeight.value) else [];
    var anchorPieces := if a.Some? then [",", Spaced("Anchor"), ":", Spaced(AnchorName(a.value))] else [];
    var sizePieces := if measured then [",", Spaced("Viewport"), ":",
      Spaced(ShowNumeral(m.viewportWidth.value)), "x", ShowNumeral(m.viewportHeight.value), "px"] else [];
    if a.Some? { AnchorPrints(a.value); }
    if measured { SizePrints("Viewport", m.viewportWidth.value, m.viewportHeight.value); }
    PrintsBoth(anchor, anchorPieces, size, sizePieces);
    PairPrints(m.xPx, m.xPercent, m.yPx, m.yPercent, anchor + size, anchorPieces + sizePieces);
    RenderIsJoin(PlainTokens(m, a),
      PairPieces(m.xPx, m.xPercent, m.yPx, m.yPercent) + (anchorPieces + sizePieces));
  }

  /** Main result: the reference text, as the template has it. */
  lemma ReferenceTextIs(m: Measurement)
    requires HasReference(m) && FilledAnchor(m).Some?
    ensures FormatMacroCoordinateClipboard(m) == Join(
      PairPieces(Exactly(Round(m.xReference.value)), m.xPercent, Exactly(Round(m.yReference.value)), m.yPercent) + (
      [",", Spaced("Anchor"), ":", Spaced(AnchorName(FilledAnchor(m).value))] + (
      [",", Spaced("ReferenceViewport"), ":",
       Spaced(ShowNumeral(m.referenceWidth.value)), "x", ShowNumeral(m.referenceHeight.value), "px"] + (
      [",", Spaced("CSS"), ":", Spaced("X"), Spaced(ShowNumeral(Exactly(Rounded(m.xPx)))), "px",
       ",", Spaced("Y"), Spaced(ShowNumeral(Exactly(Rounded(m.yPx)))), "px"] + (
      [",", Spaced("Viewport"), ":",
       Spaced(ShowNumeral(m.viewportWidth.value)), "x", ShowNumeral(m.viewportHeight.value), "px"] +
      [",", Spaced("Zoom"), ":", Spaced(PercentText(m.zoom.value * 100.0)), "%"])))))
  {
    var a, x, y := FilledAnchor(m).value, Rounded(m.xPx), Rounded(m.yPx);
    var t1, t5 := AnchorTokens(a), ZoomTokens(m.zoom.value);
    var t2 := SizeTokens("ReferenceViewport", m.referenceWidth.value, m.referenceHeight.value);
    var t3, t4 := CssTokens(x, y), SizeTokens("Viewport", m.viewportWidth.value, m.viewportHeight.value);
    var p1 := [",", Spaced("Anchor"), ":", Spaced(AnchorName(a))];
    var p2 := [",", Spaced("ReferenceViewport"), ":",
      Spaced(ShowNumeral(m.referenceWidth.value)), "x", ShowNumeral(m.referenceHeight.value), "px"];
    var p3 := [",", Spaced("CSS"), ":", Spaced("X"), Spaced(ShowNumeral(Exactly(x))), "px",
      ",", Spaced("Y"), Spaced(ShowNumeral(Exactly(y))), "px"];
    var p4 := [",", Spaced("Viewport"), ":",
      Spaced(ShowNumeral(m.viewportWidth.value)), "x", ShowNumeral(m.viewportHeight.value), "px"];
    var p5 := [",", Spaced("Zoom"), ":", Spaced(PercentText(m.zoom.value * 100.0)), "%"];
    AnchorPrints(a);
    SizePrints("ReferenceViewport", m.referenceWidth.value, m.referenceHeight.value);
    CssPrints(x, y);
    SizePrints("Viewport", m.viewportWidth.value, m.viewportHeight.value);
    ZoomPrints(m.zoom.value);
    FivePrint(t1, p1, t2, p2, t3, p3, t4, p4, t5, p5);
    PairPrints(Exactly(Round(m.xReference.value)), m.xPercent, Exactly(Round(m.yReference.value)), m.yPercent,
      t1 + (t2 + (t3 + (t4 + t5))), p1 + (p2 + (p3 + (p4 + p5))));
    RenderIsJoin(ReferenceTokens(m, a),
      PairPieces(Exactly(Round(m.xReference.value)), m.xPercent, Exactly(Round(m.yReference.value)), m.yPercent) +
      (p1 + (p2 + (p3 + (p4 + p5)))));
  }

  lemma FivePrint(t1: seq<Token>, p1: seq<string>, t2: seq<Token>, p2: seq<string>, t3: seq<Token>, p3: seq<string>,
    t4: seq<Token>, p4: seq<string>, t5: seq<Token>, p5: seq<string>)
    requires Prints(t1, p1) && Prints(t2, p2) && Prints(t3, p3) && Prints(t4, p4) && Prints(t5, p5)
    ensures Prints(t1 + (t2 + (t3 + (t4 + t5))), p1 + (p2 + (p3 + (p4 + p5))))
  {
    PrintsBoth(t4, p4, t5, p5);
    PrintsBoth(t3, p3, t4 + t5, p4 + p5);
    PrintsBoth(t2, p2, t3 + (t4 + t5), p3 + (p4 + p5));
    PrintsBoth(t1, p1, t2 + (t3 + (t4 + t5)), p2 + (p3 + (p4 + p5)));
  }

  // ---- The parser's checks -----------------------------------------------------------------

  /** Rounding goes to the nearest whole number, halves upwards. */
  lemma RoundIsNearest(v: real)
    ensures Round(v) as real - 0.5 <= v < Round(v) as real + 0.5
  {
  }

  /** `a` and `b` differ by at most one. */
  predicate WithinOne(a: int, b: int) { a - 1 <= b <= a + 1 }

  /** The bounds of the reference form's numbers. */
  predicate InBounds(x: int, y: int, width: int, height: int) {
    && 1 <= width <= 9007199254740991 && 1 <= height <= 9007199254740991
    && 0 <= x < width && 0 <= y < height
  }

  lemma AgreeIff(
    zoom: real, x: int, y: int, cssX: int, cssY: int, refWidth: int, refHeight: int, width: int, height: int)
    ensures Consistent(zoom, x, y, cssX, cssY, refWidth, refHeight, width, height) <==>
      && WithinOne(refWidth, Round(width as real * zoom)) && WithinOne(refHeight, Round(height as real * zoom))
      && WithinOne(x, Round(cssX as real * zoom)) && WithinOne(y, Round(cssY as real * zoom))
  {
    AbsWithinOne(refWidth, Round(width as real * zoom));
    AbsWithinOne(refHeight, Round(height as real * zoom));
    AbsWithinOne(x, Round(cssX as real * zoom));
    AbsWithinOne(y, Round(cssY as real * zoom));
  }

  lemma AbsWithinOne(a: int, b: int)
    ensures Abs(a - b) <= 1 <==> WithinOne(a, b)
  {
  }

  lemma ZoomInTenThousandths(zoom: real)
    ensures ZoomRead(zoom) == Round(zoom * 10000.0) as real / 10000.0
  {
    assert zoom * 100.0 * 100.0 == zoom * 10000.0;
  }

  /** A whole number of pixels that a double holds exactly. */
  predicate SafeSize(size: Option<Numeral>) {
    size.Some? && var v := ValueOf(size.value); v.Floor as real == v && 1.0 <= v <= 9007199254740991.0
  }

  lemma CountableIff(n: Numeral)
    ensures Countable(n) <==> SafeSize(Some(n))
  {
    NumeralSign(n);
    if n.units >= 0 { IntegralIffWhole(n.units, n.places); }
    RoundIsNearest(ValueOf(n));
  }

  /** Which measurements are printed in the reference form, if they have an anchor. */
  lemma HasReferenceIff(m: Measurement)
    ensures HasReference(m) <==>
      && m.xReference.Some? && m.yReference.Some? && m.zoom.Some? && m.zoom.value > 0.0
      && SafeSize(m.referenceWidth) && SafeSize(m.referenceHeight)
      && SafeSize(m.viewportWidth) && SafeSize(m.viewportHeight)
  {
    if m.referenceWidth.Some? { CountableIff(m.referenceWidth.value); }
    if m.referenceHeight.Some? { CountableIff(m.referenceHeight.value); }
    if m.viewportWidth.Some? { CountableIff(m.viewportWidth.value); }
    if m.viewportHeight.Some? { CountableIff(m.viewportHeight.value); }
  }

  /** An anchor that was chosen is printed; without one the nearest is, if there is a viewport to stand in. */
  lemma AnchorKeptOrNearest(m: Measurement)
    ensures m.anchor.Some? ==> FilledAnchor(m) == m.anchor
    ensures m.anchor == None && FilledAnchor(m).Some? ==>
      m.viewportWidth.Some? && m.viewportHeight.Some? &&
      forall a :: DistanceTo(FilledAnchor(m).value, m) <= DistanceTo(a, m)
    ensures m.anchor == None ==> (FilledAnchor(m) == None <==>
      m.viewportWidth == None || m.viewportHeight == None ||
      ValueOf(m.viewportWidth.value) <= 0.0 || ValueOf(m.viewportHeight.value) <= 0.0)
  {
    if m.anchor == None && FilledAnchor(m).Some? {
      var k := NearestIsFirstLeast(|ANCHORS|, ValueOf(m.xPx), ValueOf(m.yPx),
        ValueOf(m.viewportWidth.value), ValueOf(m.viewportHeight.value));
      forall a ensures DistanceTo(FilledAnchor(m).value, m) <= DistanceTo(a, m) { AnchorListed(a); }
    }
  }

  /** When a printed reference text is accepted, in numbers. */
  lemma ReferenceAcceptedIff(m: Measurement, zoom: real)
    requires HasReference(m) && zoom == Round(m.zoom.value * 10000.0) as real / 10000.0
    ensures
      var width, height := Rounded(m.viewportWidth.value), Rounded(m.viewportHeight.value);
      var refWidth, refHeight := Rounded(m.referenceWidth.value), Rounded(m.referenceHeight.value);
      var x, y, cssX, cssY := Round(m.xReference.value), Round(m.yReference.value), Rounded(m.xPx), Rounded(m.yPx);
      ReferenceAccepted(m) <==>
        && 0 <= Round(m.xPercent * 100.0) <= 10000 && 0 <= Round(m.yPercent * 100.0) <= 10000 && zoom > 0.0
        && InBounds(x, y, refWidth, refHeight) && InBounds(cssX, cssY, width, height)
        && WithinOne(refWidth, Round(width as real * zoom)) && WithinOne(refHeight, Round(height as real * zoom))
        && WithinOne(x, Round(cssX as real * zoom)) && WithinOne(y, Round(cssY as real * zoom))
  {
    ZoomInTenThousandths(m.zoom.value);
    AgreeIff(zoom, Round(m.xReference.value), Round(m.yReference.value), Rounded(m.xPx), Rounded(m.yPx),
      Rounded(m.referenceWidth.value), Rounded(m.referenceHeight.value),
      Rounded(m.viewportWidth.value), Rounded(m.viewportHeight.value));
  }

  // ---- Letter case and blanks --------------------------------------------------------------

  /** The expressions' blanks are the host language's with the byte-order mark and without the next-line character. */
  lemma BlanksAre(c: char)
    ensures IsSpace(c) <==> (IsWhitespace(c) && c != '\U{85}') || c == '\U{FEFF}'
    ensures IsWhitespace(c) <==> (IsSpace(c) && c != '\U{FEFF}') || c == '\U{85}'
  {
  }

  /** The same text but for the case of its letters. */
  predicate SameButCase(a: string, b: string) {
    |a| == |b| && forall i | 0 <= i < |a| :: Lower(a[i]) == Lower(b[i])
  }

  lemma {:induction false} SkipsAlike(a: string, b: string)
    requires SameButCase(a, b)
    ensures SameButCase(SkipSpace(a), SkipSpace(b))
  {
    if a != "" {
      SkipsAlike(a[1..], b[1..]);
    }
  }

  lemma {:induction false} DigitsAlike(a: string, b: string)
    requires SameButCase(a, b)
    ensures DigitRun(a) == DigitRun(b) && a[..DigitRun(a)] == b[..DigitRun(b)]
  {
    if a != "" && IsDigit(a[0]) {
      DigitsAlike(a[1..], b[1..]);
      assert a[..DigitRun(a)] == [a[0]] + a[1..][..DigitRun(a[1..])];
      assert b[..DigitRun(b)] == [b[0]] + b[1..][..DigitRun(b[1..])];
    }
  }

  lemma {:induction false} NameTailsAlike(a: string, b: string)
    requires SameButCase(a, b)
    ensures NameTail(a) == NameTail(b)
  {
    if a != "" {
      NameTailsAlike(a[1..], b[1..]);
    }
  }

  /** Both matches fail, or both take the same and leave texts that are the same but for case. */
  predicate TakeAlike(m: Option<(seq<Value>, string)>, n: Option<(seq<Value>, string)>) {
    match (m, n)
    case (None, None) => true
    case (Some(x), Some(y)) => x.0 == y.0 && SameButCase(x.1, y.1)
    case _ => false
  }

  lemma RestsAlike(a: string, b: string, k: nat)
    requires SameButCase(a, b) && k <= |a|
    ensures SameButCase(a[k..], b[k..])
  {
  }

  lemma SliceAfterFirst(s: string, f: nat)
    requires 1 + f <= |s|
    ensures s[1..1 + f] == s[1..][..f]
  {
  }

  /** The digits after a point. */
  lemma FractionsAlike(a: string, b: string)
    requires SameButCase(a, b) && a != "" && a[0] == '.'
    ensures b[0] == '.' && DigitRun(a[1..]) == DigitRun(b[1..])
    ensures a[1..1 + DigitRun(a[1..])] == b[1..1 + DigitRun(a[1..])]
  {
    DigitsAlike(a[1..], b[1..]);
    SliceAfterFirst(a, DigitRun(a[1..]));
    SliceAfterFirst(b, DigitRun(a[1..]));
  }

  lemma DecimalsAlike(a: string, b: string)
    requires SameButCase(a, b)
    ensures TakeAlike(MatchDecimal(a), MatchDecimal(b))
  {
    DigitsAlike(a, b);
    var k := DigitRun(a);
    RestsAlike(a, b, k);
    var c, d := a[k..], b[k..];
    if c != "" && c[0] == '.' {
      FractionsAlike(c, d);
      RestsAlike(c, d, 1 + DigitRun(c[1..]));
    }
  }

  lemma ItemsAlike(item: Item, a: string, b: string)
    requires SameButCase(a, b)
    ensures TakeAlike(MatchItem(item, a), MatchItem(item, b))
  {
    match item
    case Word(_) =>
    case Decimal => DecimalsAlike(a, b);
    case Integer => DigitsAlike(a, b);
    case Name =>
      if a != "" { NameTailsAlike(a[1..], b[1..]); }
      assert Lowered(a[..NameRun(a)]) == Lowered(b[..NameRun(b)]);
  }

  lemma {:induction false} MatchesAlike(pattern: seq<Item>, a: string, b: string)
    requires SameButCase(a, b)
    ensures Match(pattern, a) == Match(pattern, b)
  {
    SkipsAlike(a, b);
    if pattern != [] {
      ItemsAlike(pattern[0], SkipSpace(a), SkipSpace(b));
      var m, n := MatchItem(pattern[0], SkipSpace(a)), MatchItem(pattern[0], SkipSpace(b));
      if m.Some? {
        MatchesAlike(pattern[1..], m.value.1, n.value.1);
      }
    }
  }

  /** Main result: the case of letters, in words and anchors alike, does not matter to the parser. */
  lemma ParseIgnoresCase(a: string, b: string)
    requires SameButCase(a, b)
    ensures ParseMacroCoordinateClipboard(a) == ParseMacroCoordinateClipboard(b)
  {
    MatchesAlike(ReferencePattern(), a, b);
    MatchesAlike(PlainPattern(true, true), a, b);
    MatchesAlike(PlainPattern(true, false), a, b);
    MatchesAlike(PlainPattern(false, true), a, b);
    MatchesAlike(PlainPattern(false, false), a, b);
  }

  // ---- Anchors -----------------------------------------------------------------------------

  /** The name of the anchor in this row and column of three. */
  function PlaceName(row: nat, column: nat): string
    requires row < 3 && column < 3
  {
    if row == 1 && column == 1 then "center" else
    (if row == 0 then "top" else if row == 1 then "center" else "bottom") + "-" +
    (if column == 0 then "left" else if column == 1 then "center" else "right")
  }

  /** A point at one of the nine places of a viewport is given the anchor named after that place. */
  lemma AnchorsStandAtTheirPlaces(m: Measurement, row: nat, column: nat)
    requires row < 3 && column < 3 && m.viewportWidth.Some? && m.viewportHeight.Some?
    requires ValueOf(m.viewportWidth.value) > 0.0 && ValueOf(m.viewportHeight.value) > 0.0
    requires ValueOf(m.xPx) == ValueOf(m.viewportWidth.value) * column as real / 2.0
    requires ValueOf(m.yPx) == ValueOf(m.viewportHeight.value) * row as real / 2.0
    ensures NearestAnchor(m).Some? && AnchorName(NearestAnchor(m).value) == PlaceName(row, column)
  {
    var width, height := ValueOf(m.viewportWidth.value), ValueOf(m.viewportHeight.value);
    var x, y := ValueOf(m.xPx), ValueOf(m.yPx);
    var k := NearestIsFirstLeast(|ANCHORS|, x, y, width, height);
    var place := 3 * row + column;
    PlaceIsZero(row, column, width, height);
    assert Distance(ANCHORS[k], x, y, width, height) <= Distance(ANCHORS[place], x, y, width, height);
    ZeroIsPlace(k, row, column, width, height);
    PlaceNames(place, row, column);
  }

  lemma PlaceNames(place: nat, row: nat, column: nat)
    requires row < 3 && column < 3 && place == 3 * row + column
    ensures AnchorName(ANCHORS[place]) == PlaceName(row, column)
  {
    AnchorNames();
  }

  lemma AnchorNames()
    ensures AnchorName(ANCHORS[0]) == "top-left" && AnchorName(ANCHORS[1]) == "top-center"
    ensures AnchorName(ANCHORS[2]) == "top-right" && AnchorName(ANCHORS[3]) == "center-left"
    ensures AnchorName(ANCHORS[4]) == "center" && AnchorName(ANCHORS[5]) == "center-right"
    ensures AnchorName(ANCHORS[6]) == "bottom-left" && AnchorName(ANCHORS[7]) == "bottom-center"
    ensures AnchorName(ANCHORS[8]) == "bottom-right"
  {
  }

  /** The offset of a listed anchor from the top left, in the same thirds. */
  lemma PlaceBase(k: nat)
    requires k < 9
    ensures AnchorBase(ANCHORS[k]) == ((k % 3) as real * 50.0, (k / 3) as real * 50.0)
  {
  }

  lemma PlaceIsZero(row: nat, column: nat, width: real, height: real)
    requires row < 3 && column < 3
    ensures Distance(ANCHORS[3 * row + column],
      width * column as real / 2.0, height * row as real / 2.0, width, height) == 0.0
  {
    PlaceBase(3 * row + column);
    Half(width, column);
    Half(height, row);
  }

  lemma Half(size: real, n: nat)
    requires n < 3
    ensures size * (n as real * 50.0) / 100.0 == size * n as real / 2.0
  {
  }

  /** Only the anchor at the point itself is at no distance. */
  lemma ZeroIsPlace(k: nat, row: nat, column: nat, width: real, height: real)
    requires k < 9 && row < 3 && column < 3 && width > 0.0 && height > 0.0
    requires Distance(ANCHORS[k], width * column as real / 2.0, height * row as real / 2.0, width, height) <= 0.0
    ensures k == 3 * row + column
  {
    PlaceBase(k);
    Half(width, k % 3);
    Half(height, k / 3);
    var dx := width * column as real / 2.0 - width * (k % 3) as real / 2.0;
    var dy := height * row as real / 2.0 - height * (k / 3) as real / 2.0;
    assert Distance(ANCHORS[k], width * column as real / 2.0, height * row as real / 2.0, width, height) ==
      dx * dx + dy * dy;
    SquaresVanish(dx, dy);
    SameColumn(width, column, k % 3);
    SameColumn(height, row, k / 3);
  }

  lemma SquaresVanish(a: real, b: real)
    requires a * a + b * b <= 0.0
    ensures a == 0.0 && b == 0.0
  {
    var p := Square(a);
    var q := Square(b);
  }

  lemma Square(a: real) returns (p: real)
    ensures p == a * a && p >= 0.0 && (p == 0.0 ==> a == 0.0)
  {
    if a > 0.0 {
      p := Product(a, a);
    } else if a < 0.0 {
      p := Product(-a, -a);
    } else {
      p := 0.0;
    }
  }

  lemma Product(a: real, b: real) returns (p: real)
    requires a > 0.0 && b > 0.0
    ensures p == a * b && p > 0.0
  {
    p := a * b;
  }

  lemma SameColumn(size: real, a: nat, b: nat)
    requires size > 0.0 && a < 3 && b < 3 && size * a as real / 2.0 - size * b as real / 2.0 == 0.0
    ensures a == b
  {
    assert size * (a as real - b as real) == 0.0;
  }
}
