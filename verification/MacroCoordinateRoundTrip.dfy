/** Reading back a printed measurement: for every measurement, exactly what the text is read as. */
module MacroCoordinateRoundTrip {
  import opened Outcomes
  import opened Text
  import opened ClipboardText
  import opened MacroCoordinates

  // ---- Lists in pieces ---------------------------------------------------------------------

  function Both(a: Option<seq<Value>>, b: Option<seq<Value>>): Option<seq<Value>> {
    if a.Some? && b.Some? then Some(a.value + b.value) else None
  }

  /** Pieces of equal length are compared one after the other. */
  lemma {:induction false} ExpectAppend(p: seq<Item>, t: seq<Token>, q: seq<Item>, u: seq<Token>)
    requires |p| == |t|
    ensures Expect(p + q, t + u) == Both(Expect(p, t), Expect(q, u))
  {
    if p == [] {
      assert p + q == q && t + u == u;
      BothNothing(Expect(q, u));
    } else {
      assert (p + q)[1..] == p[1..] + q && (t + u)[1..] == t[1..] + u;
      ExpectAppend(p[1..], t[1..], q, u);
      BothAssociates(Fit(p[0], t[0].body), Expect(p[1..], t[1..]), Expect(q, u));
      assert Expect(p, t) == Both(Fit(p[0], t[0].body), Expect(p[1..], t[1..]));
    }
  }

  lemma BothNothing(a: Option<seq<Value>>)
    ensures Both(Some([]), a) == a && Both(a, Some([])) == a
  {
    if a.Some? {
      assert [] + a.value == a.value && a.value + [] == a.value;
    }
  }

  lemma BothAssociates(a: Option<seq<Value>>, b: Option<seq<Value>>, c: Option<seq<Value>>)
    ensures Both(a, Both(b, c)) == Both(Both(a, b), c)
  {
    if a.Some? && b.Some? && c.Some? {
      assert a.value + (b.value + c.value) == (a.value + b.value) + c.value;
    }
  }

  lemma {:induction false} ComparableAppend(p: seq<Item>, t: seq<Token>, q: seq<Item>, u: seq<Token>)
    requires |p| == |t| && AllComparable(p, t) && AllComparable(q, u)
    ensures AllComparable(p + q, t + u)
  {
    if p == [] {
      assert p + q == q && t + u == u;
    } else {
      assert (p + q)[1..] == p[1..] + q && (t + u)[1..] == t[1..] + u;
      if Fit(p[0], t[0].body).Some? {
        ComparableAppend(p[1..], t[1..], q, u);
      }
    }
  }

  /** What the first `k` tokens of a piece give. */
  function Joined(p: seq<Item>, t: seq<Token>, k: nat): Option<seq<Value>>
    requires k <= |p| == |t|
  {
    if k == 0 then Some([]) else Both(Joined(p, t, k - 1), Fit(p[k - 1], t[k - 1].body))
  }

  lemma {:induction false} ExpectIsJoined(p: seq<Item>, t: seq<Token>, k: nat)
    requires k <= |p| == |t|
    ensures Expect(p[..k], t[..k]) == Joined(p, t, k)
  {
    if k > 0 {
      ExpectIsJoined(p, t, k - 1);
      assert p[..k] == p[..k - 1] + [p[k - 1]] && t[..k] == t[..k - 1] + [t[k - 1]];
      ExpectAppend(p[..k - 1], t[..k - 1], [p[k - 1]], [t[k - 1]]);
      OneToken(p[k - 1], t[k - 1]);
    }
  }

  lemma OneToken(item: Item, t: Token)
    ensures Expect([item], [t]) == Fit(item, t.body)
  {
    assert Expect([item][1..], [t][1..]) == Some([]);
    if Fit(item, t.body).Some? {
      assert Fit(item, t.body).value + [] == Fit(item, t.body).value;
    }
  }

  lemma WholePiece(p: seq<Item>, t: seq<Token>)
    requires |p| == |t|
    ensures Expect(p, t) == Joined(p, t, |p|)
  {
    ExpectIsJoined(p, t, |p|);
    assert p[..|p|] == p && t[..|t|] == t;
  }

  lemma {:induction false} PieceComparable(p: seq<Item>, t: seq<Token>)
    requires |p| == |t| && forall i | 0 <= i < |p| :: Comparable(p[i], t[i].body)
    ensures AllComparable(p, t)
  {
    if p != [] {
      PieceComparable(p[1..], t[1..]);
    }
  }

  predicate SameWord(item: Item, b: Body) {
    item.Word? && item.text != "" && b == Literal(item.text)
  }

  /** In a piece of words with two numbers, the captures are those two. */
  lemma {:induction false} JoinedUpTo(p: seq<Item>, t: seq<Token>, i: nat, j: nat, k: nat)
    requires k <= |p| == |t| && i < j && forall n: nat | n < k && n != i && n != j :: SameWord(p[n], t[n].body)
    ensures Joined(p, t, k) ==
      if k <= i then Some([])
      else if k <= j then Fit(p[i], t[i].body)
      else Both(Fit(p[i], t[i].body), Fit(p[j], t[j].body))
  {
    if k > 0 {
      JoinedUpTo(p, t, i, j, k - 1);
      BothNothing(Joined(p, t, k - 1));
      BothNothing(Fit(p[k - 1], t[k - 1].body));
    }
  }

  lemma PieceReads(p: seq<Item>, t: seq<Token>, i: nat, j: nat)
    requires i < j < |p| == |t| && forall n: nat | n < |p| && n != i && n != j :: SameWord(p[n], t[n].body)
    requires Comparable(p[i], t[i].body) && Comparable(p[j], t[j].body)
    ensures AllComparable(p, t) && Expect(p, t) == Both(Fit(p[i], t[i].body), Fit(p[j], t[j].body))
  {
    WholePiece(p, t);
    JoinedUpTo(p, t, i, j, |p|);
    forall n: nat | n < |p| ensures Comparable(p[n], t[n].body) {}
    PieceComparable(p, t);
  }

  /** The same of a piece with one capture. */
  lemma SinglePieceReads(p: seq<Item>, t: seq<Token>, i: nat)
    requires i < |p| == |t| && forall n: nat | n < |p| && n != i :: SameWord(p[n], t[n].body)
    requires Comparable(p[i], t[i].body)
    ensures AllComparable(p, t) && Expect(p, t) == Fit(p[i], t[i].body)
  {
    WholePiece(p, t);
    JoinedUpTo(p, t, i, |p|, |p|);
    forall n: nat | n < |p| ensures Comparable(p[n], t[n].body) {}
    PieceComparable(p, t);
  }

  /** Two lists that part at their second word. */
  lemma PartsAtSecond(p: seq<Item>, t: seq<Token>, first: string, wanted: string, found: string)
    requires |p| >= 2 && |t| >= 2 && first != "" && wanted != "" && found != "" && Lower(wanted[0]) != Lower(found[0])
    requires p[0] == Word(first) && t[0].body == Literal(first) && p[1] == Word(wanted) && t[1].body == Literal(found)
    ensures AllComparable(p, t) && Expect(p, t) == None
  {
    assert p[1..][0] == p[1] && t[1..][0] == t[1];
    assert Expect(p[1..], t[1..]) == None;
  }

  // ---- Every printed list can be read ------------------------------------------------------

  predicate Separates(t: Token) {
    t.gap == " " ||
    (t.gap == "" && t.body.Literal? && t.body.text != "" && !IsDigit(t.body.text[0]) && !IsLetter(t.body.text[0])
      && t.body.text[0] != '.' && t.body.text[0] != '-')
  }

  predicate EndsNumber(t: Token) {
    t.gap == " " ||
    (t.gap == "" && t.body.Literal? && t.body.text != "" && !IsDigit(t.body.text[0]) && t.body.text[0] != '.')
  }

  ghost predicate NeatToken(t: Token) {
    && t.gap in {"", " "}
    && (t.body.Literal? ==> t.body.text != "" && !IsSpace(t.body.text[0]))
    && (t.body.Label? ==> IsLabel(t.body.text))
  }

  ghost predicate NeatPair(t: Token, next: Token) {
    && (t.body.Shows? ==> EndsNumber(next))
    && (t.body.Label? ==> Separates(next))
  }

  ghost predicate Neat(t: seq<Token>) {
    && (forall i | 0 <= i < |t| :: NeatToken(t[i]))
    && (forall i | 0 <= i < |t| - 1 :: NeatPair(t[i], t[i + 1]))
  }

  lemma NeatAppend(t: seq<Token>, u: seq<Token>)
    requires Neat(t) && Neat(u) && (u != [] ==> Separates(u[0]))
    ensures Neat(t + u)
  {
    var s := t + u;
    forall i | 0 <= i < |s| - 1 ensures NeatPair(s[i], s[i + 1]) {
      if i < |t| - 1 {
        assert NeatPair(t[i], t[i + 1]);
      } else if i >= |t| {
        assert NeatPair(u[i - |t|], u[i - |t| + 1]);
      }
    }
  }

  lemma FirstOfRender(t: seq<Token>)
    requires t != [] && NeatToken(t[0])
    ensures t[0].gap == " " ==> Render(t) != "" && Render(t)[0] == ' '
    ensures t[0].gap == "" && t[0].body.Literal? ==> Render(t) != "" && Render(t)[0] == t[0].body.text[0]
  {
  }

  lemma {:induction false} NeatIsPrintable(t: seq<Token>)
    requires Neat(t)
    ensures AllPrintable(t)
  {
    if t != [] {
      var rest := t[1..];
      assert NeatToken(t[0]);
      forall i | 0 <= i < |rest| ensures NeatToken(rest[i]) { assert NeatToken(t[i + 1]); }
      forall i | 0 <= i < |rest| - 1 ensures NeatPair(rest[i], rest[i + 1]) { assert NeatPair(t[i + 1], t[i + 2]); }
      NeatIsPrintable(rest);
      if rest != [] {
        assert NeatPair(t[0], t[1]) && NeatToken(t[1]);
        FirstOfRender(rest);
      }
    }
  }

  // ---- The pieces of a clipboard text ------------------------------------------------------

  function CoordinateCaptures(px: Numeral, h: int): Option<seq<Value>> {
    Both(Fit(Decimal, Shows(px)), Fit(Decimal, Hundredths(h)))
  }

  lemma CoordinateReads(axis: Token, px: Numeral, percent: real)
    requires axis in {At("X"), Sp("Y")}
    ensures var p, t := CoordinateItems(axis.body.text), Coordinate(axis, px, percent);
      AllComparable(p, t) && Expect(p, t) == CoordinateCaptures(px, Round(percent * 100.0))
  {
    PieceReads(CoordinateItems(axis.body.text), Coordinate(axis, px, percent), 2, 5);
  }

  lemma CoordinateNeat(axis: Token, px: Numeral, percent: real)
    requires axis in {At("X"), Sp("Y")}
    ensures Neat(Coordinate(axis, px, percent))
  {
    CoordinateTokensNeat(axis, px, percent);
    CoordinatePairsNeat(axis, px, percent);
  }

  lemma CoordinateTokensNeat(axis: Token, px: Numeral, percent: real)
    requires axis in {At("X"), Sp("Y")}
    ensures var t := Coordinate(axis, px, percent); forall i | 0 <= i < |t| :: NeatToken(t[i])
  {
  }

  lemma CoordinatePairsNeat(axis: Token, px: Numeral, percent: real)
    requires axis in {At("X"), Sp("Y")}
    ensures var t := Coordinate(axis, px, percent); forall i | 0 <= i < |t| - 1 :: NeatPair(t[i], t[i + 1])
  {
    var t := Coordinate(axis, px, percent);
    assert NeatPair(t[2], t[3]) && NeatPair(t[5], t[6]);
  }

  lemma AnchorReads(a: Anchor)
    ensures AllComparable(ANCHOR_ITEMS, AnchorTokens(a)) &&
      Expect(ANCHOR_ITEMS, AnchorTokens(a)) == Some([Named(AnchorName(a))])
  {
    SinglePieceReads(ANCHOR_ITEMS, AnchorTokens(a), 3);
  }

  lemma AnchorNeat(a: Anchor)
    ensures Neat(AnchorTokens(a))
  {
    AnchorNameIsLabel(a);
  }

  ghost predicate LowerLetters(s: string) {
    s != "" && forall i | 0 <= i < |s| :: 'a' <= s[i] <= 'z'
  }

  lemma HyphenatedIsLabel(a: string, b: string)
    requires LowerLetters(a) && LowerLetters(b)
    ensures IsLabel(a + "-" + b)
  {
    var t := a + "-" + b;
    forall i | 0 <= i < |t| ensures IsLetter(t[i]) || (t[i] == '-' && i + 1 < |t| && IsLetter(t[i + 1])) {
      if i == |a| {
        assert t[i] == '-' && t[i + 1] == b[0];
      }
    }
    assert Lowered(t) == t;
  }

  lemma WordsAreLowerLetters()
    ensures LowerLetters("top") && LowerLetters("center") && LowerLetters("bottom") && LowerLetters("left") &&
      LowerLetters("right")
  {
  }

  lemma CenterIsLabel()
    ensures IsLabel("center")
  {
    assert Lowered("center") == "center";
  }

  lemma AnchorNameIsLabel(a: Anchor)
    ensures IsLabel(AnchorName(a))
  {
    WordsAreLowerLetters();
    match a
    case TopLeft => HyphenatedIsLabel("top", "left"); assert "top" + "-" + "left" == "top-left";
    case TopCenter => HyphenatedIsLabel("top", "center"); assert "top" + "-" + "center" == "top-center";
    case TopRight => HyphenatedIsLabel("top", "right"); assert "top" + "-" + "right" == "top-right";
    case CenterLeft => HyphenatedIsLabel("center", "left"); assert "center" + "-" + "left" == "center-left";
    case Center => CenterIsLabel();
    case CenterRight => HyphenatedIsLabel("center", "right"); assert "center" + "-" + "right" == "center-right";
    case BottomLeft => HyphenatedIsLabel("bottom", "left"); assert "bottom" + "-" + "left" == "bottom-left";
    case BottomCenter => HyphenatedIsLabel("bottom", "center"); assert "bottom" + "-" + "center" == "bottom-center";
    case BottomRight => HyphenatedIsLabel("bottom", "right"); assert "bottom" + "-" + "right" == "bottom-right";
  }

  lemma AnchorNameIsKnown(a: Anchor)
    ensures AnchorOf(AnchorName(a)) == Some(a)
  {
  }

  function SizeCaptures(width: Numeral, height: Numeral): Option<seq<Value>> {
    Both(Fit(Integer, Shows(width)), Fit(Integer, Shows(height)))
  }

  lemma SizeReads(word: string, width: Numeral, height: Numeral)
    requires word in {"Viewport", "ReferenceViewport"}
    ensures var p, t := SizeItems(word), SizeTokens(word, width, height);
      AllComparable(p, t) && Expect(p, t) == SizeCaptures(width, height)
  {
    PieceReads(SizeItems(word), SizeTokens(word, width, height), 3, 5);
  }

  lemma SizeNeat(word: string, width: Numeral, height: Numeral)
    requires word in {"Viewport", "ReferenceViewport"}
    ensures Neat(SizeTokens(word, width, height))
  {
    var t := SizeTokens(word, width, height);
    assert word != "" && !IsSpace(word[0]);
    forall i | 0 <= i < |t| ensures NeatToken(t[i]) {}
  }

  lemma CssReads(x: int, y: int)
    ensures AllComparable(CSS_ITEMS, CssTokens(x, y)) &&
      Expect(CSS_ITEMS, CssTokens(x, y)) == Both(Fit(Decimal, Whole(x)), Fit(Decimal, Whole(y)))
  {
    PieceReads(CSS_ITEMS, CssTokens(x, y), 4, 8);
  }

  lemma CssNeat(x: int, y: int)
    ensures Neat(CssTokens(x, y))
  {
    CssPairsNeat(x, y);
  }

  lemma CssPairsNeat(x: int, y: int)
    ensures var t := CssTokens(x, y); forall i | 0 <= i < |t| - 1 :: NeatPair(t[i], t[i + 1])
  {
    var t := CssTokens(x, y);
    assert NeatPair(t[4], t[5]) && NeatPair(t[8], t[9]);
  }

  lemma ZoomReads(zoom: real)
    ensures AllComparable(ZOOM_ITEMS, ZoomTokens(zoom)) &&
      Expect(ZOOM_ITEMS, ZoomTokens(zoom)) == Fit(Decimal, Hundredths(Round(zoom * 100.0 * 100.0)))
  {
    SinglePieceReads(ZOOM_ITEMS, ZoomTokens(zoom), 3);
  }

  lemma ZoomNeat(zoom: real)
    ensures Neat(ZoomTokens(zoom))
  {
  }

  // ---- Whole lists -------------------------------------------------------------------------

  function HeadItems(tail: seq<Item>): seq<Item> {
    CoordinateItems("X") + ([Word(",")] + (CoordinateItems("Y") + tail))
  }

  function HeadTokens(x: Numeral, xPercent: real, y: Numeral, yPercent: real, tail: seq<Token>): seq<Token> {
    Coordinate(At("X"), x, xPercent) + ([At(",")] + (Coordinate(Sp("Y"), y, yPercent) + tail))
  }

  function HeadCaptures(x: Numeral, xPercent: real, y: Numeral, yPercent: real): Option<seq<Value>> {
    Both(CoordinateCaptures(x, Round(xPercent * 100.0)), CoordinateCaptures(y, Round(yPercent * 100.0)))
  }

  /** Both coordinates are read first, whatever follows them. */
  lemma HeadReads(x: Numeral, xPercent: real, y: Numeral, yPercent: real, q: seq<Item>, u: seq<Token>)
    requires AllComparable(q, u)
    ensures AllComparable(HeadItems(q), HeadTokens(x, xPercent, y, yPercent, u))
    ensures Expect(HeadItems(q), HeadTokens(x, xPercent, y, yPercent, u))
      == Both(HeadCaptures(x, xPercent, y, yPercent), Expect(q, u))
  {
    var px, tx := CoordinateItems("X"), Coordinate(At("X"), x, xPercent);
    var py, ty := CoordinateItems("Y"), Coordinate(Sp("Y"), y, yPercent);
    CoordinateReads(At("X"), x, xPercent);
    CoordinateReads(Sp("Y"), y, yPercent);
    Comma();
    ExpectAppend(py, ty, q, u);
    ComparableAppend(py, ty, q, u);
    ExpectAppend([Word(",")], [At(",")], py + q, ty + u);
    ComparableAppend([Word(",")], [At(",")], py + q, ty + u);
    ExpectAppend(px, tx, [Word(",")] + (py + q), [At(",")] + (ty + u));
    ComparableAppend(px, tx, [Word(",")] + (py + q), [At(",")] + (ty + u));
    BothNothing(Expect(py + q, ty + u));
    BothAssociates(Expect(px, tx), Expect(py, ty), Expect(q, u));
  }

  lemma Comma()
    ensures AllComparable([Word(",")], [At(",")]) && Expect([Word(",")], [At(",")]) == Some([])
  {
    OneToken(Word(","), At(","));
  }

  lemma HeadNeat(x: Numeral, xPercent: real, y: Numeral, yPercent: real, u: seq<Token>)
    requires Neat(u) && (u != [] ==> Separates(u[0]))
    ensures Neat(HeadTokens(x, xPercent, y, yPercent, u))
  {
    CoordinateNeat(At("X"), x, xPercent);
    CoordinateNeat(Sp("Y"), y, yPercent);
    NeatAppend(Coordinate(Sp("Y"), y, yPercent), u);
    NeatAppend([At(",")], Coordinate(Sp("Y"), y, yPercent) + u);
    NeatAppend(Coordinate(At("X"), x, xPercent), [At(",")] + (Coordinate(Sp("Y"), y, yPercent) + u));
  }

  /** Words and names alone are sound. */
  lemma NoNumbersSound(p: seq<Item>)
    requires forall i | 0 <= i < |p| :: p[i] != Word("") && !IsNumber(p[i])
    ensures Sound(p)
  {
  }

  lemma CoordinateSound(axis: string)
    requires axis != ""
    ensures Sound(CoordinateItems(axis))
  {
  }

  lemma SizeSound(word: string)
    requires word != ""
    ensures Sound(SizeItems(word))
  {
  }

  lemma CssSound()
    ensures Sound(CSS_ITEMS)
  {
  }

  lemma ShortPiecesSound()
    ensures Sound([Word(",")]) && Sound(ANCHOR_ITEMS) && Sound(ZOOM_ITEMS)
  {
    NoNumbersSound([Word(",")]);
    NoNumbersSound(ANCHOR_ITEMS);
  }

  lemma PiecesAreSound()
    ensures Sound(CoordinateItems("X")) && Sound(CoordinateItems("Y")) && Sound([Word(",")])
    ensures Sound(ANCHOR_ITEMS) && Sound(SizeItems("Viewport")) && Sound(SizeItems("ReferenceViewport"))
    ensures Sound(CSS_ITEMS) && Sound(ZOOM_ITEMS)
  {
    CoordinateSound("X");
    CoordinateSound("Y");
    SizeSound("Viewport");
    SizeSound("ReferenceViewport");
    CssSound();
    ShortPiecesSound();
  }

  lemma SoundAppend(p: seq<Item>, q: seq<Item>)
    requires Sound(p) && Sound(q)
    ensures Sound(p + q)
  {
  }

  lemma HeadIsSound(tail: seq<Item>)
    requires Sound(tail)
    ensures Sound(HeadItems(tail))
  {
    PiecesAreSound();
    SoundAppend(CoordinateItems("Y"), tail);
    SoundAppend([Word(",")], CoordinateItems("Y") + tail);
    SoundAppend(CoordinateItems("X"), [Word(",")] + (CoordinateItems("Y") + tail));
  }

  /** Matching a pattern against a printed text, from their tails. */
  lemma TextReads(x: Numeral, xPercent: real, y: Numeral, yPercent: real, q: seq<Item>, u: seq<Token>)
    requires AllComparable(q, u) && Sound(q) && Neat(u) && (u != [] ==> Separates(u[0]))
    ensures Match(HeadItems(q), Render(HeadTokens(x, xPercent, y, yPercent, u)))
      == Both(HeadCaptures(x, xPercent, y, yPercent), Expect(q, u))
  {
    HeadReads(x, xPercent, y, yPercent, q, u);
    HeadNeat(x, xPercent, y, yPercent, u);
    HeadIsSound(q);
    NeatIsPrintable(HeadTokens(x, xPercent, y, yPercent, u));
    PrintedMatches(HeadItems(q), HeadTokens(x, xPercent, y, yPercent, u));
  }

  // ---- The plain form's tails --------------------------------------------------------------

  datatype Size = Size(width: Numeral, height: Numeral)

  function TailItems(anchor: bool, viewport: bool): seq<Item> {
    (if anchor then ANCHOR_ITEMS else []) + (if viewport then SizeItems("Viewport") else [])
  }

  function SizeTailTokens(v: Option<Size>): seq<Token> {
    if v.Some? then SizeTokens("Viewport", v.value.width, v.value.height) else []
  }

  function SizeTailCaptures(v: Option<Size>): Option<seq<Value>> {
    if v.Some? then SizeCaptures(v.value.width, v.value.height) else Some([])
  }

  function TailTokens(a: Option<Anchor>, v: Option<Size>): seq<Token> {
    (if a.Some? then AnchorTokens(a.value) else []) + SizeTailTokens(v)
  }

  function TailCaptures(a: Option<Anchor>, v: Option<Size>): Option<seq<Value>> {
    Both(Some(if a.Some? then [Named(AnchorName(a.value))] else []), SizeTailCaptures(v))
  }

  lemma SizeTailReads(viewport: bool, v: Option<Size>)
    ensures var p, t := if viewport then SizeItems("Viewport") else [], SizeTailTokens(v);
      AllComparable(p, t) && Expect(p, t) == if viewport == v.Some? then SizeTailCaptures(v) else None
  {
    if v.Some? {
      SizeReads("Viewport", v.value.width, v.value.height);
    }
  }

  /** Of the four ways to take the optional groups, exactly the one the text was printed with fits. */
  lemma TailReads(anchor: bool, viewport: bool, a: Option<Anchor>, v: Option<Size>)
    ensures AllComparable(TailItems(anchor, viewport), TailTokens(a, v))
    ensures Expect(TailItems(anchor, viewport), TailTokens(a, v)) ==
      if anchor == a.Some? && viewport == v.Some? then TailCaptures(a, v) else None
  {
    var p, t := if viewport then SizeItems("Viewport") else [], SizeTailTokens(v);
    SizeTailReads(viewport, v);
    if anchor && a.Some? {
      AnchorReads(a.value);
      ExpectAppend(ANCHOR_ITEMS, AnchorTokens(a.value), p, t);
      ComparableAppend(ANCHOR_ITEMS, AnchorTokens(a.value), p, t);
    } else if !anchor && a == None {
      assert [] + p == p && [] + t == t;
      BothNothing(Expect(p, t));
    } else if anchor {
      MissingAnchor(p, v);
    } else {
      UnaskedAnchor(viewport, a.value, t);
    }
  }

  lemma MissingAnchor(rest: seq<Item>, v: Option<Size>)
    ensures AllComparable(ANCHOR_ITEMS + rest, TailTokens(None, v)) &&
      Expect(ANCHOR_ITEMS + rest, TailTokens(None, v)) == None
  {
    if v.Some? {
      PartsAtSecond(ANCHOR_ITEMS + rest, TailTokens(None, v), ",", "Anchor", "Viewport");
    }
  }

  lemma UnaskedAnchor(viewport: bool, a: Anchor, rest: seq<Token>)
    ensures AllComparable(TailItems(false, viewport), AnchorTokens(a) + rest) &&
      Expect(TailItems(false, viewport), AnchorTokens(a) + rest) == None
  {
    if viewport {
      PartsAtSecond(TailItems(false, true), AnchorTokens(a) + rest, ",", "Viewport", "Anchor");
    }
  }

  lemma TailNeat(a: Option<Anchor>, v: Option<Size>)
    ensures var u := TailTokens(a, v); Neat(u) && (u != [] ==> Separates(u[0]))
  {
    if a.Some? { AnchorNeat(a.value); }
    if v.Some? { SizeNeat("Viewport", v.value.width, v.value.height); }
    NeatAppend(if a.Some? then AnchorTokens(a.value) else [], SizeTailTokens(v));
  }

  lemma TailIsSound(anchor: bool, viewport: bool)
    ensures Sound(TailItems(anchor, viewport))
  {
    PiecesAreSound();
    SoundAppend(if anchor then ANCHOR_ITEMS else [], if viewport then SizeItems("Viewport") else []);
  }

  // ---- The reference form's tail -----------------------------------------------------------

  function ReferenceTailItems(): seq<Item> {
    ANCHOR_ITEMS + (SizeItems("ReferenceViewport") + (CSS_ITEMS + (SizeItems("Viewport") + ZOOM_ITEMS)))
  }

  function ReferenceTailTokens(a: Anchor, r: Size, x: int, y: int, v: Size, zoom: real): seq<Token> {
    AnchorTokens(a) + (SizeTokens("ReferenceViewport", r.width, r.height) + (CssTokens(x, y) +
    (SizeTokens("Viewport", v.width, v.height) + ZoomTokens(zoom))))
  }

  function ReferenceTailCaptures(a: Anchor, r: Size, x: int, y: int, v: Size, zoom: real): Option<seq<Value>> {
    Both(Some([Named(AnchorName(a))]), Both(SizeCaptures(r.width, r.height),
      Both(Both(Fit(Decimal, Whole(x)), Fit(Decimal, Whole(y))),
      Both(SizeCaptures(v.width, v.height), Fit(Decimal, Hundredths(Round(zoom * 100.0 * 100.0)))))))
  }

  lemma ReferenceTailReads(a: Anchor, r: Size, x: int, y: int, v: Size, zoom: real)
    ensures AllComparable(ReferenceTailItems(), ReferenceTailTokens(a, r, x, y, v, zoom))
    ensures Expect(ReferenceTailItems(), ReferenceTailTokens(a, r, x, y, v, zoom))
      == ReferenceTailCaptures(a, r, x, y, v, zoom)
  {
    var p4, t4 := ZOOM_ITEMS, ZoomTokens(zoom);
    var pv, tv := SizeItems("Viewport"), SizeTokens("Viewport", v.width, v.height);
    var pr, tr := SizeItems("ReferenceViewport"), SizeTokens("ReferenceViewport", r.width, r.height);
    var tc := CssTokens(x, y);
    ZoomReads(zoom);
    SizeReads("Viewport", v.width, v.height);
    CssReads(x, y);
    SizeReads("ReferenceViewport", r.width, r.height);
    AnchorReads(a);
    Append(pv, tv, p4, t4);
    Append(CSS_ITEMS, tc, pv + p4, tv + t4);
    Append(pr, tr, CSS_ITEMS + (pv + p4), tc + (tv + t4));
    Append(ANCHOR_ITEMS, AnchorTokens(a), pr + (CSS_ITEMS + (pv + p4)), tr + (tc + (tv + t4)));
  }

  lemma Append(p: seq<Item>, t: seq<Token>, q: seq<Item>, u: seq<Token>)
    requires |p| == |t| && AllComparable(p, t) && AllComparable(q, u)
    ensures AllComparable(p + q, t + u) && Expect(p + q, t + u) == Both(Expect(p, t), Expect(q, u))
  {
    ExpectAppend(p, t, q, u);
    ComparableAppend(p, t, q, u);
  }

  lemma ReferenceTailNeat(a: Anchor, r: Size, x: int, y: int, v: Size, zoom: real)
    ensures var u := ReferenceTailTokens(a, r, x, y, v, zoom); Neat(u) && Separates(u[0])
  {
    var t4, tv, tc := ZoomTokens(zoom), SizeTokens("Viewport", v.width, v.height), CssTokens(x, y);
    var tr := SizeTokens("ReferenceViewport", r.width, r.height);
    ZoomNeat(zoom);
    SizeNeat("Viewport", v.width, v.height);
    CssNeat(x, y);
    SizeNeat("ReferenceViewport", r.width, r.height);
    AnchorNeat(a);
    NeatAppend(tv, t4);
    NeatAppend(tc, tv + t4);
    NeatAppend(tr, tc + (tv + t4));
    NeatAppend(AnchorTokens(a), tr + (tc + (tv + t4)));
  }

  lemma ReferenceTailIsSound()
    ensures Sound(ReferenceTailItems())
  {
    PiecesAreSound();
    SoundAppend(SizeItems("Viewport"), ZOOM_ITEMS);
    SoundAppend(CSS_ITEMS, SizeItems("Viewport") + ZOOM_ITEMS);
    SoundAppend(SizeItems("ReferenceViewport"), CSS_ITEMS + (SizeItems("Viewport") + ZOOM_ITEMS));
    SoundAppend(ANCHOR_ITEMS, SizeItems("ReferenceViewport") + (CSS_ITEMS + (SizeItems("Viewport") + ZOOM_ITEMS)));
  }

  /** A plain text is not read as a reference one. */
  lemma PlainIsNotReference(a: Option<Anchor>, v: Option<Size>)
    ensures AllComparable(ReferenceTailItems(), TailTokens(a, v)) &&
      Expect(ReferenceTailItems(), TailTokens(a, v)) == None
  {
    var rest := SizeItems("ReferenceViewport") + (CSS_ITEMS + (SizeItems("Viewport") + ZOOM_ITEMS));
    if a.Some? {
      var t := SizeTailTokens(v);
      if v.Some? {
        PartsAtSecond(rest, t, ",", "ReferenceViewport", "Viewport");
      }
      AnchorReads(a.value);
      Append(ANCHOR_ITEMS, AnchorTokens(a.value), rest, t);
    } else {
      MissingAnchor(rest, v);
    }
  }

  /** A reference text is not read as a plain one. */
  lemma {:induction false} ReferenceIsNotPlain(anchor: bool, viewport: bool, a: Anchor, rest: seq<Token>)
    requires |rest| >= 2 && rest[0] == At(",") && rest[1] == Sp("ReferenceViewport")
    ensures AllComparable(TailItems(anchor, viewport), AnchorTokens(a) + rest) &&
      Expect(TailItems(anchor, viewport), AnchorTokens(a) + rest) == None
  {
    if anchor {
      var p := if viewport then SizeItems("Viewport") else [];
      if viewport {
        PartsAtSecond(p, rest, ",", "Viewport", "ReferenceViewport");
      }
      AnchorReads(a);
      Append(ANCHOR_ITEMS, AnchorTokens(a), p, rest);
    } else {
      UnaskedAnchor(viewport, a, rest);
    }
  }

  // ---- Numbers -----------------------------------------------------------------------------

  lemma RoundOfWhole(n: int)
    ensures Round(n as real) == n
  {
  }

  lemma RoundOfHundredths(h: int)
    ensures RoundPercent(h as real / 100.0) == h as real / 100.0
  {
    assert h as real / 100.0 * 100.0 == h as real;
    RoundOfWhole(h);
  }

  /** A percentage as it is printed: in whole hundredths. */
  function InHundredths(percent: real): int {
    Round(percent * 100.0)
  }

  // ---- The plain form ----------------------------------------------------------------------

  function SizeOf(m: Measurement): Option<Size> {
    if m.viewportWidth == None || m.viewportHeight == None then None
    else Some(Size(m.viewportWidth.value, m.viewportHeight.value))
  }

  /** What the parser does with a printed plain text: one pattern is left, the one it was printed with. */
  lemma PlainTextReads(m: Measurement)
    requires !HasReference(m)
    ensures var a, v := FilledAnchor(m), SizeOf(m);
      ParseMacroCoordinateClipboard(FormatMacroCoordinateClipboard(m)) ==
        match Both(HeadCaptures(m.xPx, m.xPercent, m.yPx, m.yPercent), TailCaptures(a, v))
        case None => None
        case Some(values) => ReadPlain(values, a.Some?, v.Some?)
  {
    var a, v := FilledAnchor(m), SizeOf(m);
    var text := FormatMacroCoordinateClipboard(m);
    TailNeat(a, v);
    assert text == Render(HeadTokens(m.xPx, m.xPercent, m.yPx, m.yPercent, TailTokens(a, v)));
    PlainIsNotReference(a, v);
    ReferenceTailIsSound();
    TextReads(m.xPx, m.xPercent, m.yPx, m.yPercent, ReferenceTailItems(), TailTokens(a, v));
    assert Match(ReferencePattern(), text) == None;
    forall anchor: bool, viewport: bool
      ensures Match(PlainPattern(anchor, viewport), text) ==
        if anchor == a.Some? && viewport == v.Some? then
          Both(HeadCaptures(m.xPx, m.xPercent, m.yPx, m.yPercent), TailCaptures(a, v))
        else None
    {
      PlainPatternReads(m, anchor, viewport);
    }
  }

  lemma PlainPatternReads(m: Measurement, anchor: bool, viewport: bool)
    ensures var a, v := FilledAnchor(m), SizeOf(m);
      Match(PlainPattern(anchor, viewport),
        Render(HeadTokens(m.xPx, m.xPercent, m.yPx, m.yPercent, TailTokens(a, v)))) ==
        if anchor == a.Some? && viewport == v.Some? then
          Both(HeadCaptures(m.xPx, m.xPercent, m.yPx, m.yPercent), TailCaptures(a, v))
        else None
  {
    var a, v := FilledAnchor(m), SizeOf(m);
    TailReads(anchor, viewport, a, v);
    TailNeat(a, v);
    TailIsSound(anchor, viewport);
    TextReads(m.xPx, m.xPercent, m.yPx, m.yPercent, TailItems(anchor, viewport), TailTokens(a, v));
  }

  /** The rounded coordinate lies within a size that can be read back. */
  predicate FitsIn(px: Numeral, size: Numeral) {
    Countable(size) && Rounded(px) < Rounded(size)
  }

  /** What a caller can check of a measurement before printing it: how pixels are printed, and ranges after rounding. */
  predicate PlainAccepted(m: Measurement) {
    && ValueOf(m.xPx) >= 0.0 && Positional(m.xPx) && ValueOf(m.yPx) >= 0.0 && Positional(m.yPx)
    && 0 <= InHundredths(m.xPercent) <= 10000 && 0 <= InHundredths(m.yPercent) <= 10000
    && (SizeOf(m).Some? ==> FitsIn(m.xPx, m.viewportWidth.value) && FitsIn(m.yPx, m.viewportHeight.value))
  }

  /** A number as it is read: in whole pixels. */
  function InPixels(n: Numeral): Numeral {
    Exactly(Rounded(n))
  }

  /**
   * The measurement with its anchor filled in and its pixels and percentages rounded; what plain
   * text cannot hold is gone.
   */
  function PlainForm(m: Measurement): Measurement {
    var v := SizeOf(m);
    Measurement(FilledAnchor(m), None, None, None, RoundPercent(m.xPercent), InPixels(m.xPx), None,
      if v.Some? then Some(InPixels(v.value.height)) else None,
      if v.Some? then Some(InPixels(v.value.width)) else None,
      RoundPercent(m.yPercent), InPixels(m.yPx), None)
  }

  /** The captures of a printed plain text. */
  function PlainCaptures(x: Numeral, hx: int, y: Numeral, hy: int, a: Option<Anchor>, v: Option<Size>): seq<Value> {
    [Number(ValueOf(x)), Number(hx as real / 100.0), Number(ValueOf(y)), Number(hy as real / 100.0)]
    + ((if a.Some? then [Named(AnchorName(a.value))] else [])
    + (if v.Some? then [Number(ValueOf(v.value.width)), Number(ValueOf(v.value.height))] else []))
  }

  lemma PlainValuesRead(x: Numeral, hx: int, y: Numeral, hy: int, a: Option<Anchor>, v: Option<Size>)
    requires ValueOf(x) >= 0.0 && hx >= 0 && ValueOf(y) >= 0.0 && hy >= 0
    requires v.Some? ==> Integral(v.value.width) && Integral(v.value.height)
    ensures ReadPlain(PlainCaptures(x, hx, y, hy, a, v), a.Some?, v.Some?) ==
      if hx <= 10000 && hy <= 10000 && (v.Some? ==> FitsIn(x, v.value.width) && FitsIn(y, v.value.height))
      then Some(Measurement(a, None, None, None, hx as real / 100.0, InPixels(x), None,
        if v.Some? then Some(InPixels(v.value.height)) else None,
        if v.Some? then Some(InPixels(v.value.width)) else None,
        hy as real / 100.0, InPixels(y), None))
      else None
  {
    RoundOfHundredths(hx);
    RoundOfHundredths(hy);
    if a.Some? { AnchorNameIsKnown(a.value); }
  }

  /** Main result: for every measurement the plain text is read as its plain form, exactly when it is in range. */
  lemma PlainRoundTrip(m: Measurement)
    requires !HasReference(m)
    ensures ParseMacroCoordinateClipboard(FormatMacroCoordinateClipboard(m)) ==
      if PlainAccepted(m) then Some(PlainForm(m)) else None
  {
    PlainTextReads(m);
    var captured := Both(HeadCaptures(m.xPx, m.xPercent, m.yPx, m.yPercent), TailCaptures(FilledAnchor(m), SizeOf(m)));
    if captured.Some? {
      PlainSucceeds(m, captured.value);
    } else {
      PlainFails(m);
    }
  }

  lemma PlainSucceeds(m: Measurement, values: seq<Value>)
    requires Both(HeadCaptures(m.xPx, m.xPercent, m.yPx, m.yPercent), TailCaptures(FilledAnchor(m), SizeOf(m)))
      == Some(values)
    ensures ReadPlain(values, FilledAnchor(m).Some?, SizeOf(m).Some?) ==
      if PlainAccepted(m) then Some(PlainForm(m)) else None
  {
    PlainValues(m, values);
    NumeralSign(m.xPx);
    NumeralSign(m.yPx);
    PlainValuesRead(m.xPx, InHundredths(m.xPercent), m.yPx, InHundredths(m.yPercent), FilledAnchor(m), SizeOf(m));
  }

  lemma NumeralSign(n: Numeral)
    ensures ValueOf(n) >= 0.0 <==> n.units >= 0
    ensures Rounded(n) > 0 ==> n.units >= 0
  {
    TenthsSign(n.units as real, n.places);
  }

  lemma PlainFails(m: Measurement)
    requires Both(HeadCaptures(m.xPx, m.xPercent, m.yPx, m.yPercent), TailCaptures(FilledAnchor(m), SizeOf(m))) == None
    ensures !PlainAccepted(m)
  {
    NumeralSign(m.xPx);
    NumeralSign(m.yPx);
    HundredthsFit(InHundredths(m.xPercent));
    HundredthsFit(InHundredths(m.yPercent));
    if SizeOf(m).Some? {
      CountableFits(m.viewportWidth.value);
      CountableFits(m.viewportHeight.value);
    }
  }

  lemma HundredthsFit(h: int)
    ensures Fit(Decimal, Hundredths(h)).Some? ==>
      h >= 0 && Fit(Decimal, Hundredths(h)) == Some([Number(h as real / 100.0)])
    ensures 0 <= h < BEYOND_PRINTED ==> Fit(Decimal, Hundredths(h)).Some?
  {
    assert Tenths(h as real, 2) == Tenths(h as real / 10.0, 1) == h as real / 10.0 / 10.0;
  }

  lemma WholeFits(n: int)
    requires 0 <= n < 1_000_000_000_000_000_000_000
    ensures Fit(Decimal, Whole(n)).Some? && Positional(Exactly(n))
  {
    assert ValueOf(Exactly(n)) == n as real;
  }

  /** What counts as a size is printed and read as one. */
  lemma CountableFits(n: Numeral)
    ensures Countable(n) ==> Fit(Integer, Shows(n)).Some?
  {
    NumeralSign(n);
  }

  lemma PlainValues(m: Measurement, values: seq<Value>)
    requires Both(HeadCaptures(m.xPx, m.xPercent, m.yPx, m.yPercent), TailCaptures(FilledAnchor(m), SizeOf(m)))
      == Some(values)
    ensures values == PlainCaptures(
      m.xPx, InHundredths(m.xPercent), m.yPx, InHundredths(m.yPercent), FilledAnchor(m), SizeOf(m))
    ensures m.xPx.units >= 0 && m.yPx.units >= 0 && InHundredths(m.xPercent) >= 0 && InHundredths(m.yPercent) >= 0
    ensures SizeOf(m).Some? ==> Integral(m.viewportWidth.value) && Integral(m.viewportHeight.value)
  {
    HundredthsFit(InHundredths(m.xPercent));
    HundredthsFit(InHundredths(m.yPercent));
  }

  // ---- The reference form ------------------------------------------------------------------

  function ZoomRead(zoom: real): real {
    InHundredths(zoom * 100.0) as real / 100.0 / 100.0
  }

  /** The parser's checks on the numbers of a reference text. */
  predicate ReferenceChecks(
    zoom: real, x: int, hx: int, y: int, hy: int, r: Size, cssX: int, cssY: int, v: Size)
  {
    && 0 <= hx <= 10000 && 0 <= hy <= 10000 && zoom > 0.0
    && PositiveSafe(Rounded(r.width)) && PositiveSafe(Rounded(r.height))
    && PositiveSafe(Rounded(v.width)) && PositiveSafe(Rounded(v.height))
    && InRange(x, Rounded(r.width)) && InRange(y, Rounded(r.height))
    && InRange(cssX, Rounded(v.width)) && InRange(cssY, Rounded(v.height))
    && Consistent(zoom, x, y, cssX, cssY, Rounded(r.width), Rounded(r.height), Rounded(v.width), Rounded(v.height))
  }

  predicate ReferenceAccepted(m: Measurement)
    requires HasReference(m)
  {
    ReferenceChecks(ZoomRead(m.zoom.value),
      Round(m.xReference.value), InHundredths(m.xPercent), Round(m.yReference.value), InHundredths(m.yPercent),
      ReferenceSize(m), Rounded(m.xPx), Rounded(m.yPx), ViewportSize(m))
  }

  /** The measurement with its anchor filled in and its other numbers rounded as they are printed. */
  function ReferenceForm(m: Measurement): Measurement
    requires HasReference(m)
  {
    Measurement(FilledAnchor(m), Some(ZoomRead(m.zoom.value)),
      Some(InPixels(m.referenceHeight.value)), Some(InPixels(m.referenceWidth.value)),
      RoundPercent(m.xPercent), InPixels(m.xPx), Some(Round(m.xReference.value) as real),
      Some(InPixels(m.viewportHeight.value)), Some(InPixels(m.viewportWidth.value)),
      RoundPercent(m.yPercent), InPixels(m.yPx), Some(Round(m.yReference.value) as real))
  }

  function ReferenceSize(m: Measurement): Size
    requires HasReference(m)
  {
    Size(m.referenceWidth.value, m.referenceHeight.value)
  }

  function ViewportSize(m: Measurement): Size
    requires HasReference(m)
  {
    Size(m.viewportWidth.value, m.viewportHeight.value)
  }

  function ReferenceCaptures(m: Measurement): Option<seq<Value>>
    requires HasReference(m)
  {
    var x, y := Exactly(Round(m.xReference.value)), Exactly(Round(m.yReference.value));
    Both(HeadCaptures(x, m.xPercent, y, m.yPercent),
      ReferenceTailCaptures(FilledReference(m), ReferenceSize(m), Rounded(m.xPx), Rounded(m.yPx), ViewportSize(m),
        m.zoom.value))
  }

  /** With a viewport there is always an anchor. */
  function FilledReference(m: Measurement): Anchor
    requires HasReference(m)
  {
    FilledAnchor(m).value
  }

  lemma ReferenceTextReads(m: Measurement)
    requires HasReference(m)
    ensures ParseMacroCoordinateClipboard(FormatMacroCoordinateClipboard(m)) ==
      match ReferenceCaptures(m) case None => None case Some(values) => ReadReference(values)
  {
    var a, x, y := FilledReference(m), Exactly(Round(m.xReference.value)), Exactly(Round(m.yReference.value));
    var r, v, cssX, cssY := ReferenceSize(m), ViewportSize(m), Rounded(m.xPx), Rounded(m.yPx);
    var tail := ReferenceTailTokens(a, r, cssX, cssY, v, m.zoom.value);
    var text := FormatMacroCoordinateClipboard(m);
    assert text == Render(HeadTokens(x, m.xPercent, y, m.yPercent, tail));
    ReferenceTailNeat(a, r, cssX, cssY, v, m.zoom.value);
    ReferenceTailIsSound();
    ReferenceTailReads(a, r, cssX, cssY, v, m.zoom.value);
    TextReads(x, m.xPercent, y, m.yPercent, ReferenceTailItems(), tail);
    assert Match(ReferencePattern(), text) == ReferenceCaptures(m);
    forall anchor: bool, viewport: bool ensures Match(PlainPattern(anchor, viewport), text) == None {
      PlainMissesReference(x, m.xPercent, y, m.yPercent, anchor, viewport, a, r, cssX, cssY, v, m.zoom.value);
    }
  }

  lemma PlainMissesReference(
    x: Numeral, xPercent: real, y: Numeral, yPercent: real, anchor: bool, viewport: bool,
    a: Anchor, r: Size, cssX: int, cssY: int, v: Size, zoom: real)
    ensures Match(PlainPattern(anchor, viewport),
      Render(HeadTokens(x, xPercent, y, yPercent, ReferenceTailTokens(a, r, cssX, cssY, v, zoom)))) == None
  {
    var tail := ReferenceTailTokens(a, r, cssX, cssY, v, zoom);
    var rest := SizeTokens("ReferenceViewport", r.width, r.height) +
      (CssTokens(cssX, cssY) + (SizeTokens("Viewport", v.width, v.height) + ZoomTokens(zoom)));
    ReferenceTailNeat(a, r, cssX, cssY, v, zoom);
    ReferenceIsNotPlain(anchor, viewport, a, rest);
    TailIsSound(anchor, viewport);
    TextReads(x, xPercent, y, yPercent, TailItems(anchor, viewport), tail);
  }

  /** The twelve captures of a printed reference text. */
  function ReferenceValueList(
    x: int, hx: int, y: int, hy: int, a: Anchor, r: Size, cssX: int, cssY: int, v: Size, hz: int): seq<Value>
  {
    [Number(x as real), Number(hx as real / 100.0), Number(y as real), Number(hy as real / 100.0), Named(AnchorName(a)),
     Number(ValueOf(r.width)), Number(ValueOf(r.height)), Number(cssX as real), Number(cssY as real),
     Number(ValueOf(v.width)), Number(ValueOf(v.height)), Number(hz as real / 100.0)]
  }

  lemma ReferenceValues(m: Measurement, values: seq<Value>)
    requires HasReference(m) && ReferenceCaptures(m) == Some(values)
    ensures values == ReferenceValueList(
      Round(m.xReference.value), InHundredths(m.xPercent), Round(m.yReference.value), InHundredths(m.yPercent),
      FilledReference(m), ReferenceSize(m), Rounded(m.xPx), Rounded(m.yPx), ViewportSize(m),
      InHundredths(m.zoom.value * 100.0))
  {
    HundredthsFit(InHundredths(m.xPercent));
    HundredthsFit(InHundredths(m.yPercent));
    HundredthsFit(InHundredths(m.zoom.value * 100.0));
  }

  lemma ReferenceListRead(
    x: int, hx: int, y: int, hy: int, a: Anchor, r: Size, cssX: int, cssY: int, v: Size, hz: int)
    ensures ReadReference(ReferenceValueList(x, hx, y, hy, a, r, cssX, cssY, v, hz)) ==
      if ReferenceChecks(hz as real / 100.0 / 100.0, x, hx, y, hy, r, cssX, cssY, v)
      then Some(Measurement(Some(a), Some(hz as real / 100.0 / 100.0),
        Some(InPixels(r.height)), Some(InPixels(r.width)),
        hx as real / 100.0, Exactly(cssX), Some(x as real), Some(InPixels(v.height)), Some(InPixels(v.width)),
        hy as real / 100.0, Exactly(cssY), Some(y as real)))
      else None
  {
    assert ReferenceShape(ReferenceValueList(x, hx, y, hy, a, r, cssX, cssY, v, hz));
    AnchorNameIsKnown(a);
    RoundOfWhole(x);
    RoundOfWhole(y);
    RoundOfWhole(cssX);
    RoundOfWhole(cssY);
    RoundOfHundredths(hx);
    RoundOfHundredths(hy);
  }

  lemma ReferenceValuesRead(m: Measurement, values: seq<Value>)
    requires HasReference(m) && ReferenceCaptures(m) == Some(values)
    ensures ReadReference(values) == if ReferenceAccepted(m) then Some(ReferenceForm(m)) else None
  {
    ReferenceValues(m, values);
    assert ZoomRead(m.zoom.value) == InHundredths(m.zoom.value * 100.0) as real / 100.0 / 100.0;
    assert RoundPercent(m.xPercent) == InHundredths(m.xPercent) as real / 100.0;
    assert RoundPercent(m.yPercent) == InHundredths(m.yPercent) as real / 100.0;
    ReferenceListRead(
      Round(m.xReference.value), InHundredths(m.xPercent), Round(m.yReference.value), InHundredths(m.yPercent),
      FilledReference(m), ReferenceSize(m), Rounded(m.xPx), Rounded(m.yPx), ViewportSize(m),
      InHundredths(m.zoom.value * 100.0));
  }

  /** Main result: the same of the reference text. */
  lemma ReferenceRoundTrip(m: Measurement)
    requires HasReference(m)
    ensures ParseMacroCoordinateClipboard(FormatMacroCoordinateClipboard(m)) ==
      if ReferenceAccepted(m) then Some(ReferenceForm(m)) else None
  {
    ReferenceTextReads(m);
    if ReferenceCaptures(m).Some? {
      ReferenceValuesRead(m, ReferenceCaptures(m).value);
    } else {
      ReferenceFails(m);
    }
  }

  const BEYOND_PRINTED: int := 100_000_000_000_000_000_000_000

  lemma ReferenceFails(m: Measurement)
    requires HasReference(m) && ReferenceCaptures(m) == None
    ensures !ReferenceAccepted(m)
  {
    if ReferenceAccepted(m) {
      AcceptedZoom(m);
      ReferenceFits(m);
    }
  }

  /** The coordinates and percentages lie in the parser's ranges. */
  predicate ReferenceInRange(m: Measurement)
    requires HasReference(m)
  {
    && 0 <= InHundredths(m.xPercent) <= 10000 && 0 <= InHundredths(m.yPercent) <= 10000
    && InRange(Round(m.xReference.value), Rounded(m.referenceWidth.value))
    && InRange(Round(m.yReference.value), Rounded(m.referenceHeight.value))
    && InRange(Rounded(m.xPx), Rounded(m.viewportWidth.value))
    && InRange(Rounded(m.yPx), Rounded(m.viewportHeight.value))
  }

  /** What is accepted in the end is printed without exponents. */
  lemma ReferenceFits(m: Measurement)
    requires HasReference(m) && ReferenceInRange(m) && 0 <= InHundredths(m.zoom.value * 100.0) < BEYOND_PRINTED
    ensures ReferenceCaptures(m).Some?
  {
    WholeFits(Round(m.xReference.value));
    WholeFits(Round(m.yReference.value));
    HundredthsFit(InHundredths(m.xPercent));
    HundredthsFit(InHundredths(m.yPercent));
    HundredthsFit(InHundredths(m.zoom.value * 100.0));
    WholeFits(Rounded(m.xPx));
    WholeFits(Rounded(m.yPx));
    ReferenceTailFits(m);
  }

  lemma ReferenceTailFits(m: Measurement)
    requires HasReference(m)
    requires Fit(Decimal, Whole(Rounded(m.xPx))).Some? && Fit(Decimal, Whole(Rounded(m.yPx))).Some?
    requires Fit(Decimal, Hundredths(InHundredths(m.zoom.value * 100.0))).Some?
    ensures ReferenceTailCaptures(FilledReference(m), ReferenceSize(m), Rounded(m.xPx), Rounded(m.yPx), ViewportSize(m),
      m.zoom.value).Some?
  {
    SizeFits(ReferenceSize(m));
    SizeFits(ViewportSize(m));
    TailFits(FilledReference(m), ReferenceSize(m), Rounded(m.xPx), Rounded(m.yPx), ViewportSize(m), m.zoom.value);
  }

  lemma TailFits(a: Anchor, r: Size, x: int, y: int, v: Size, zoom: real)
    requires SizeCaptures(r.width, r.height).Some? && SizeCaptures(v.width, v.height).Some?
    requires Fit(Decimal, Whole(x)).Some? && Fit(Decimal, Whole(y)).Some?
    requires Fit(Decimal, Hundredths(InHundredths(zoom * 100.0))).Some?
    ensures ReferenceTailCaptures(a, r, x, y, v, zoom).Some?
  {
  }

  lemma SizeFits(size: Size)
    requires Countable(size.width) && Countable(size.height)
    ensures SizeCaptures(size.width, size.height).Some?
  {
    CountableFits(size.width);
    CountableFits(size.height);
  }

  lemma AcceptedZoom(m: Measurement)
    requires HasReference(m) && ReferenceAccepted(m)
    ensures 0 <= InHundredths(m.zoom.value * 100.0) < BEYOND_PRINTED
  {
    ZoomBound(InHundredths(m.zoom.value * 100.0), ZoomRead(m.zoom.value),
      Round(m.xReference.value), Round(m.yReference.value), Rounded(m.xPx), Rounded(m.yPx),
      Rounded(m.referenceWidth.value), Rounded(m.referenceHeight.value),
      Rounded(m.viewportWidth.value), Rounded(m.viewportHeight.value));
  }

  lemma ZoomBound(
    hundredths: int, zoom: real,
    x: int, y: int, cssX: int, cssY: int, refWidth: int, refHeight: int, width: int, height: int)
    requires PositiveSafe(width) && PositiveSafe(refWidth) && zoom == hundredths as real / 100.0 / 100.0 > 0.0
    requires Consistent(zoom, x, y, cssX, cssY, refWidth, refHeight, width, height)
    ensures 0 <= hundredths < BEYOND_PRINTED
  {
    ZoomBelow(width, zoom, refWidth);
  }

  /** A zoom under which the two widths agree is no larger than the reference width. */
  lemma ZoomBelow(width: int, zoom: real, refWidth: int)
    requires width >= 1 && zoom > 0.0 && Abs(refWidth - Round(width as real * zoom)) <= 1
    ensures zoom < refWidth as real + 2.0
  {
    assert (width as real - 1.0) * zoom >= 0.0;
  }

  // ---- Measurements the text holds exactly -------------------------------------------------

  predicate TwoDecimals(percent: real) {
    InHundredths(percent) as real / 100.0 == percent
  }

  predicate InWholePixels(size: Option<Numeral>) {
    size.Some? ==> size.value.places == 0
  }

  /** Whole pixels, percentages with two decimals, and nothing the form printed would drop or round. */
  predicate Printable(m: Measurement) {
    && TwoDecimals(m.xPercent) && TwoDecimals(m.yPercent) && m.xPx.places == m.yPx.places == 0
    && InWholePixels(m.viewportWidth) && InWholePixels(m.viewportHeight)
    && InWholePixels(m.referenceWidth) && InWholePixels(m.referenceHeight)
    && if HasReference(m) then
         && TwoDecimals(m.zoom.value * 100.0)
         && Round(m.xReference.value) as real == m.xReference.value
         && Round(m.yReference.value) as real == m.yReference.value
       else
         && m.zoom == None && m.referenceWidth == None && m.referenceHeight == None
         && m.xReference == None && m.yReference == None
         && (m.viewportWidth.Some? <==> m.viewportHeight.Some?)
  }

  predicate Accepted(m: Measurement) {
    if HasReference(m) then ReferenceAccepted(m) else PlainAccepted(m)
  }

  /** A printable measurement in range comes back with its anchor filled in and nothing else changed. */
  lemma RoundTripIsExact(m: Measurement)
    requires Printable(m)
    ensures ParseMacroCoordinateClipboard(FormatMacroCoordinateClipboard(m)) ==
      if Accepted(m) then Some(m.(anchor := FilledAnchor(m))) else None
  {
    if HasReference(m) {
      ReferenceRoundTrip(m);
      ReferenceFormIsSame(m);
    } else {
      PlainRoundTrip(m);
      PlainFormIsSame(m);
    }
  }

  lemma PlainFormIsSame(m: Measurement)
    requires Printable(m) && !HasReference(m)
    ensures PlainForm(m) == m.(anchor := FilledAnchor(m))
  {
    WholeStays(m.xPx);
    WholeStays(m.yPx);
    SizeStays(m.viewportWidth);
    SizeStays(m.viewportHeight);
  }

  lemma WholeStays(n: Numeral)
    requires n.places == 0
    ensures InPixels(n) == n
  {
    RoundOfWhole(n.units);
  }

  lemma SizeStays(size: Option<Numeral>)
    requires InWholePixels(size)
    ensures size.Some? ==> InPixels(size.value) == size.value
  {
    if size.Some? { WholeStays(size.value); }
  }

  lemma ReferenceFormIsSame(m: Measurement)
    requires Printable(m) && HasReference(m)
    ensures ReferenceForm(m) == m.(anchor := FilledAnchor(m))
  {
    WholeStays(m.xPx);
    WholeStays(m.yPx);
    SizeStays(m.viewportWidth);
    SizeStays(m.viewportHeight);
    SizeStays(m.referenceWidth);
    SizeStays(m.referenceHeight);
    assert ZoomRead(m.zoom.value) == m.zoom.value;
  }

  function FormOf(m: Measurement): Measurement {
    if HasReference(m) then ReferenceForm(m) else PlainForm(m)
  }

  lemma RoundTrip(m: Measurement)
    ensures ParseMacroCoordinateClipboard(FormatMacroCoordinateClipboard(m)) ==
      if Accepted(m) then Some(FormOf(m)) else None
  {
    if HasReference(m) { ReferenceRoundTrip(m); } else { PlainRoundTrip(m); }
  }

  lemma RoundedOnce(n: Numeral)
    ensures Rounded(InPixels(n)) == Rounded(n) && (Countable(n) ==> Countable(InPixels(n)))
  {
    RoundOfWhole(Rounded(n));
  }

  /** A number a double can hold: from 2^53 up they are all whole. */
  predicate InDouble(n: Numeral) {
    Integral(n) || ValueOf(n) < 9_007_199_254_740_992.0
  }

  /** Rounding does not turn a positional number into one with an exponent. */
  lemma RoundedPositional(n: Numeral)
    requires ValueOf(n) >= 0.0 && Positional(n) && InDouble(n)
    ensures Positional(InPixels(n))
  {
    NumeralSign(n);
    assert ValueOf(InPixels(n)) == Rounded(n) as real;
    if Integral(n) {
      IntegralIffWhole(n.units, n.places);
      RoundOfWhole(ValueOf(n).Floor);
    }
  }

  lemma PlainFormIsStable(m: Measurement)
    requires !HasReference(m) && PlainAccepted(m) && InDouble(m.xPx) && InDouble(m.yPx)
    ensures var f := PlainForm(m);
      !HasReference(f) && Printable(f) && PlainAccepted(f) && FilledAnchor(f) == f.anchor
  {
    RoundedOnce(m.xPx);
    RoundedOnce(m.yPx);
    RoundedPositional(m.xPx);
    RoundedPositional(m.yPx);
    RoundOfHundredths(InHundredths(m.xPercent));
    RoundOfHundredths(InHundredths(m.yPercent));
    if SizeOf(m).Some? {
      RoundedOnce(m.viewportWidth.value);
      RoundedOnce(m.viewportHeight.value);
      AcceptedHasAnchor(m);
    }
  }

  /** A measurement with a viewport that can be read back is always given an anchor. */
  lemma AcceptedHasAnchor(m: Measurement)
    requires SizeOf(m).Some? && Countable(m.viewportWidth.value) && Countable(m.viewportHeight.value)
    ensures FilledAnchor(m).Some?
  {
  }

  lemma ReferenceFormIsStable(m: Measurement)
    requires HasReference(m) && ReferenceAccepted(m)
    ensures var f := ReferenceForm(m);
      HasReference(f) && Printable(f) && ReferenceAccepted(f) && FilledAnchor(f) == f.anchor
  {
    RoundedOnce(m.xPx);
    RoundedOnce(m.yPx);
    RoundedOnce(m.viewportWidth.value);
    RoundedOnce(m.viewportHeight.value);
    RoundedOnce(m.referenceWidth.value);
    RoundedOnce(m.referenceHeight.value);
    RoundOfHundredths(InHundredths(m.xPercent));
    RoundOfHundredths(InHundredths(m.yPercent));
    RoundOfWhole(Round(m.xReference.value));
    RoundOfWhole(Round(m.yReference.value));
    ZoomReadOnce(m.zoom.value);
    AcceptedHasAnchor(m);
  }

  lemma ZoomReadOnce(zoom: real)
    ensures ZoomRead(ZoomRead(zoom)) == ZoomRead(zoom) && TwoDecimals(ZoomRead(zoom) * 100.0)
  {
    var h := InHundredths(zoom * 100.0);
    assert ZoomRead(zoom) * 100.0 == h as real / 100.0;
    RoundOfHundredths(h);
  }

  /** Main result: whatever was measured, copying again what was read changes nothing more. */
  lemma SecondCopyIsTheSame(m: Measurement)
    requires Accepted(m) && InDouble(m.xPx) && InDouble(m.yPx)
    ensures ParseMacroCoordinateClipboard(FormatMacroCoordinateClipboard(FormOf(m))) == Some(FormOf(m))
  {
    if HasReference(m) { ReferenceFormIsStable(m); } else { PlainFormIsStable(m); }
    RoundTripIsExact(FormOf(m));
  }

  // ---- Points inside the viewport ----------------------------------------------------------

  /** A point measured inside its viewport, which is in whole pixels. */
  predicate InsideViewport(m: Measurement) {
    && SizeOf(m).Some? && Countable(m.viewportWidth.value) && Countable(m.viewportHeight.value)
    && 0.0 <= ValueOf(m.xPx) < Rounded(m.viewportWidth.value) as real
    && 0.0 <= ValueOf(m.yPx) < Rounded(m.viewportHeight.value) as real
    && 0 <= InHundredths(m.xPercent) <= 10000 && 0 <= InHundredths(m.yPercent) <= 10000
  }

  /** Rounding puts the coordinate on the far edge. */
  predicate InLastHalfPixel(px: Numeral, size: Numeral) {
    ValueOf(px) >= Rounded(size) as real - 0.5
  }

  /** Printed with an exponent, which neither expression takes. */
  predicate BelowAMillionth(px: Numeral) {
    0.0 < ValueOf(px) < 0.000001
  }

  lemma CoordinateInside(px: Numeral, size: Numeral)
    requires Countable(size) && 0.0 <= ValueOf(px) < Rounded(size) as real
    ensures FitsIn(px, size) <==> !InLastHalfPixel(px, size)
    ensures Positional(px) <==> !BelowAMillionth(px)
  {
  }

  /**
   * In plain text a point inside its viewport is printed and not read back exactly when one of its
   * coordinates lies in the last half pixel, or above zero and below a millionth of a pixel.
   */
  lemma LostInsideViewportIff(m: Measurement)
    requires !HasReference(m) && InsideViewport(m)
    ensures ParseMacroCoordinateClipboard(FormatMacroCoordinateClipboard(m)) == None <==>
      || InLastHalfPixel(m.xPx, m.viewportWidth.value) || InLastHalfPixel(m.yPx, m.viewportHeight.value)
      || BelowAMillionth(m.xPx) || BelowAMillionth(m.yPx)
  {
    PlainRoundTrip(m);
    CoordinateInside(m.xPx, m.viewportWidth.value);
    CoordinateInside(m.yPx, m.viewportHeight.value);
  }

  /** There are such points: one at 799.5 of 800 pixels, and one at a ten-millionth of a pixel. */
  lemma SomePointsAreLost() returns (edge: Measurement, small: Measurement)
    ensures InsideViewport(edge) && ParseMacroCoordinateClipboard(FormatMacroCoordinateClipboard(edge)) == None
    ensures InsideViewport(small) && ParseMacroCoordinateClipboard(FormatMacroCoordinateClipboard(small)) == None
    ensures edge.xPx == Numeral(7995, 1) && small.xPx == Numeral(1, 7)
    ensures edge.viewportWidth == small.viewportWidth == Some(Exactly(800))
  {
    edge := PointAt(Numeral(7995, 1), 99.94);
    small := PointAt(Numeral(1, 7), 0.0);
    EdgeIsInside(edge);
    SmallIsInside(small);
    LostInsideViewportIff(edge);
    LostInsideViewportIff(small);
  }

  /** A point on the upper edge of an 800 by 600 viewport. */
  function PointAt(x: Numeral, xPercent: real): Measurement {
    Measurement(None, None, None, None,
      xPercent, x, None, Some(Exactly(600)), Some(Exactly(800)), 0.0, Exactly(0), None)
  }

  lemma EdgeIsInside(m: Measurement)
    requires m == PointAt(Numeral(7995, 1), 99.94)
    ensures InsideViewport(m) && InLastHalfPixel(m.xPx, m.viewportWidth.value)
  {
    assert ValueOf(m.xPx) == 799.5;
  }

  lemma SmallIsInside(m: Measurement)
    requires m == PointAt(Numeral(1, 7), 0.0)
    ensures InsideViewport(m) && BelowAMillionth(m.xPx)
  {
    assert Tenths(1.0, 7) == Tenths(0.01, 5) == Tenths(0.0001, 3) == Tenths(0.000001, 1) == 0.0000001;
  }
}
