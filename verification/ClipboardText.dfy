/**
 * Matching a text against a list of expected tokens with blanks allowed between any two, as the
 * clipboard expressions do, and printing a list of tokens so that it can be matched again.
 */
module ClipboardText {
  import opened Outcomes
  import opened Text

  // ---- Characters and digits ---------------------------------------------------------------

  /** The characters `\s` matches. */
  predicate IsSpace(c: char) {
    var n := c as int;
    9 <= n <= 13 || n == 32 || n == 0xA0 || n == 0x1680 || 0x2000 <= n <= 0x200A ||
    n == 0x2028 || n == 0x2029 || n == 0x202F || n == 0x205F || n == 0x3000 || n == 0xFEFF
  }

  predicate IsDigit(c: char) { '0' <= c <= '9' }
  predicate IsLetter(c: char) { 'a' <= c <= 'z' || 'A' <= c <= 'Z' }

  function SkipSpace(s: string): string {
    if s != "" && IsSpace(s[0]) then SkipSpace(s[1..]) else s
  }

  function DigitRun(s: string): (n: nat)
    ensures n <= |s|
  {
    if s != "" && IsDigit(s[0]) then 1 + DigitRun(s[1..]) else 0
  }

  function NatOf(digits: string): nat {
    if digits == "" then 0 else 10 * NatOf(digits[..|digits| - 1]) + Digit(digits[|digits| - 1])
  }

  function Digit(c: char): nat {
    if IsDigit(c) then (c - '0') as nat else 0
  }

  /** Divided by ten `k` times. */
  function Tenths(v: real, k: nat): real
    decreases k
  {
    if k == 0 then v else Tenths(v / 10.0, k - 1)
  }

  lemma {:induction false} TenthsAdd(a: real, b: real, k: nat)
    ensures Tenths(a + b, k) == Tenths(a, k) + Tenths(b, k)
    decreases k
  {
    if k > 0 {
      assert (a + b) / 10.0 == a / 10.0 + b / 10.0;
      TenthsAdd(a / 10.0, b / 10.0, k - 1);
    }
  }

  lemma {:induction false} TenthsSign(v: real, k: nat)
    ensures Tenths(v, k) < 0.0 <==> v < 0.0
    decreases k
  {
    if k > 0 {
      TenthsSign(v / 10.0, k - 1);
    }
  }

  /** The digits after the point, as a part of one. */
  function Fraction(digits: string): real {
    Tenths(NatOf(digits) as real, |digits|)
  }

  /** The run `[A-Za-z]+(?:-[A-Za-z]+)*` takes. */
  function NameRun(s: string): (n: nat)
    ensures n <= |s|
  {
    if s != "" && IsLetter(s[0]) then 1 + NameTail(s[1..]) else 0
  }

  function NameTail(s: string): (n: nat)
    ensures n <= |s|
  {
    if s == "" then 0
    else if IsLetter(s[0]) then 1 + NameTail(s[1..])
    else if s[0] == '-' && |s| > 1 && IsLetter(s[1]) then 1 + NameTail(s[1..])
    else 0
  }

  // ---- Matching ----------------------------------------------------------------------------

  datatype Item = Word(text: string) | Decimal | Integer | Name
  datatype Value = Number(value: real) | Named(name: string)

  /** Whether `s` begins with `word`, in either case. */
  predicate BeginsWith(s: string, word: string) {
    |word| <= |s| && forall i | 0 <= i < |word| :: Lower(s[i]) == Lower(word[i])
  }

  /** What an item captures from the front of `s`, and the rest of it; a word captures nothing. */
  function MatchDecimal(s: string): Option<(seq<Value>, string)> {
    var k := DigitRun(s);
    if k == 0 then None else
    var whole, rest := NatOf(s[..k]) as real, s[k..];
    var f := if rest != "" && rest[0] == '.' then DigitRun(rest[1..]) else 0;
    if f == 0 then Some(([Number(whole)], rest)) else
    Some(([Number(whole + Fraction(rest[1..1 + f]))], rest[1 + f..]))
  }

  function MatchItem(item: Item, s: string): Option<(seq<Value>, string)> {
    match item
    case Word(text) => if BeginsWith(s, text) then Some(([], s[|text|..])) else None
    case Decimal => MatchDecimal(s)
    case Integer =>
      var k := DigitRun(s);
      if k == 0 then None else Some(([Number(NatOf(s[..k]) as real)], s[k..]))
    case Name =>
      var k := NameRun(s);
      if k == 0 then None else Some(([Named(Lowered(s[..k]))], s[k..]))
  }

  /** Every item in turn, blanks before each and at the end, and nothing else. */
  function Match(pattern: seq<Item>, s: string): Option<seq<Value>> {
    var trimmed := SkipSpace(s);
    if pattern == [] then if trimmed == "" then Some([]) else None else
    match MatchItem(pattern[0], trimmed)
    case None => None
    case Some((captured, rest)) =>
      match Match(pattern[1..], rest)
      case None => None
      case Some(values) => Some(captured + values)
  }

  // ---- Printing ----------------------------------------------------------------------------

  function ShowNat(n: nat): (s: string)
    ensures s != "" && forall i | 0 <= i < |s| :: IsDigit(s[i])
  {
    if n < 10 then [DigitChar(n)] else ShowNat(n / 10) + [DigitChar(n % 10)]
  }

  function DigitChar(d: nat): char
    requires d < 10
  {
    '0' + d as char
  }

  /** A finite decimal: `units` divided by ten `places` times. */
  datatype Numeral = Numeral(units: int, places: nat)

  function ValueOf(n: Numeral): real {
    Tenths(n.units as real, n.places)
  }

  /** Dividing by ten `places` times leaves nothing behind. */
  predicate Divides(units: nat, places: nat) {
    places == 0 || (units % 10 == 0 && Divides(units / 10, places - 1))
  }

  predicate Integral(n: Numeral) {
    Divides(if n.units < 0 then -n.units else n.units, n.places)
  }

  /** The whole part. */
  function Front(units: nat, places: nat): nat {
    if places == 0 then units else Front(units / 10, places - 1)
  }

  /** The last digits of a natural, leading zeros included. */
  function LastDigits(units: nat, places: nat): (s: string)
    ensures |s| == places && forall i | 0 <= i < |s| :: IsDigit(s[i])
  {
    if places == 0 then "" else LastDigits(units / 10, places - 1) + [DigitChar(units % 10)]
  }

  /** JavaScript prints a number in positional notation if it is zero, or from 10^-6 up to 10^21. */
  predicate Positional(n: Numeral) {
    var v := if ValueOf(n) < 0.0 then -ValueOf(n) else ValueOf(n);
    v == 0.0 || 0.000001 <= v < 1_000_000_000_000_000_000_000.0
  }

  /** As JavaScript prints a number: `Number::toString` of ECMA-262. */
  function ShowNumeral(n: Numeral): string {
    var units := if n.units < 0 then -n.units else n.units;
    var text := if Positional(n) then ShowScaled(units, n.places) else ShowExponent(units, n.places);
    if n.units < 0 then "-" + text else text
  }

  /** Without trailing zeros. */
  function Significant(units: nat): nat {
    if units > 0 && units % 10 == 0 then Significant(units / 10) else units
  }

  /** One digit, the others after a point, and the power of ten. */
  function ShowExponent(units: nat, places: nat): string {
    ShowMantissa(ShowNat(Significant(units))) + ShowPower(|ShowNat(units)| - places - 1)
  }

  function ShowPower(exponent: int): string {
    if exponent < 0 then "e-" + ShowNat(-exponent) else "e+" + ShowNat(exponent)
  }

  function ShowMantissa(digits: string): string
    requires digits != ""
  {
    if |digits| == 1 then digits else digits[..1] + "." + digits[1..]
  }

  /** Positional, and without trailing zeros after the point. */
  function ShowScaled(units: nat, places: nat): string {
    if places == 0 then ShowNat(units)
    else if units % 10 == 0 then ShowScaled(units / 10, places - 1)
    else ShowNat(Front(units, places)) + "." + LastDigits(units, places)
  }

  datatype Body = Literal(text: string) | Shows(n: Numeral) | Label(text: string)

  function Whole(n: int): Body {
    Shows(Numeral(n, 0))
  }

  function Hundredths(h: int): Body {
    Shows(Numeral(h, 2))
  }

  /** A token and the blanks printed before it. */
  datatype Token = Token(gap: string, body: Body)

  function Shown(b: Body): string {
    match b
    case Literal(text) => text
    case Shows(n) => ShowNumeral(n)
    case Label(text) => text
  }

  function Render(tokens: seq<Token>): string {
    if tokens == [] then "" else tokens[0].gap + Shown(tokens[0].body) + Render(tokens[1..])
  }

  // ---- What the matcher makes of a printed list --------------------------------------------

  /** What an item captures from a printed token, if the token is what it expects. */
  function Fit(item: Item, b: Body): Option<seq<Value>> {
    match (item, b)
    case (Word(w), Literal(t)) => if w == t then Some([]) else None
    case (Decimal, Shows(n)) => if n.units >= 0 && Positional(n) then Some([Number(ValueOf(n))]) else None
    case (Integer, Shows(n)) =>
      if n.units >= 0 && Positional(n) && Integral(n) then Some([Number(ValueOf(n))]) else None
    case (Name, Label(t)) => Some([Named(t)])
    case _ => None
  }

  function Expect(pattern: seq<Item>, tokens: seq<Token>): Option<seq<Value>> {
    if pattern == [] then if tokens == [] then Some([]) else None
    else if tokens == [] then None
    else
      match Fit(pattern[0], tokens[0].body)
      case None => None
      case Some(captured) =>
        match Expect(pattern[1..], tokens[1..])
        case None => None
        case Some(values) => Some(captured + values)
  }

  /** Item and token are of one kind; different words already differ in their first letter. */
  predicate Comparable(item: Item, b: Body) {
    match (item, b)
    case (Word(w), Literal(t)) => w != "" && t != "" && (w == t || Lower(w[0]) != Lower(t[0]))
    case (Decimal, Shows(_)) => true
    case (Integer, Shows(_)) => true
    case (Name, Label(_)) => true
    case _ => false
  }

  ghost predicate AllComparable(pattern: seq<Item>, tokens: seq<Token>) {
    pattern == [] || tokens == [] ||
    (&& Comparable(pattern[0], tokens[0].body)
     && (Fit(pattern[0], tokens[0].body).Some? ==> AllComparable(pattern[1..], tokens[1..])))
  }

  /** A lower-case hyphenated name. */
  ghost predicate IsLabel(t: string) {
    && t != "" && IsLetter(t[0]) && Lowered(t) == t
    && forall i | 0 <= i < |t| :: IsLetter(t[i]) || (t[i] == '-' && i + 1 < |t| && IsLetter(t[i + 1]))
  }

  /** Nothing that could prolong a number or a name. */
  ghost predicate Ends(s: string) {
    s == "" || (!IsDigit(s[0]) && s[0] != '.')
  }

  ghost predicate EndsName(s: string) {
    s == "" || (!IsLetter(s[0]) && s[0] != '-')
  }

  ghost predicate Printable(t: Token, rest: string) {
    && (forall i | 0 <= i < |t.gap| :: IsSpace(t.gap[i]))
    && (t.body.Literal? ==> t.body.text != "" && !IsSpace(t.body.text[0]))
    && (t.body.Shows? ==> Ends(rest))
    && (t.body.Label? ==> IsLabel(t.body.text) && EndsName(rest))
  }

  ghost predicate AllPrintable(tokens: seq<Token>) {
    tokens == [] || (Printable(tokens[0], Render(tokens[1..])) && AllPrintable(tokens[1..]))
  }

  lemma {:induction false} SkipsGap(gap: string, s: string)
    requires (forall i | 0 <= i < |gap| :: IsSpace(gap[i])) && (s == "" || !IsSpace(s[0]))
    ensures SkipSpace(gap + s) == s
  {
    if gap == "" {
      assert gap + s == s;
    } else {
      assert (gap + s)[1..] == gap[1..] + s;
      SkipsGap(gap[1..], s);
    }
  }

  lemma {:induction false} RunOfDigits(digits: string, rest: string)
    requires (forall i | 0 <= i < |digits| :: IsDigit(digits[i])) && (rest == "" || !IsDigit(rest[0]))
    ensures DigitRun(digits + rest) == |digits|
  {
    if digits == "" {
      assert digits + rest == rest;
    } else {
      assert (digits + rest)[1..] == digits[1..] + rest;
      RunOfDigits(digits[1..], rest);
    }
  }

  lemma {:induction false} ShownNatReads(n: nat)
    ensures NatOf(ShowNat(n)) == n
  {
    if n < 10 {
      DigitReads(n);
      assert [DigitChar(n)][..0] == "";
    } else {
      ShownNatReads(n / 10);
      DigitReads(n % 10);
      assert ShowNat(n)[..|ShowNat(n)| - 1] == ShowNat(n / 10);
    }
  }

  lemma DigitReads(d: nat)
    requires d < 10
    ensures IsDigit(DigitChar(d)) && Digit(DigitChar(d)) == d
  {
  }

  /** A printed natural is read whole, and nothing after it. */
  lemma IntegerReads(n: nat, rest: string)
    requires rest == "" || !IsDigit(rest[0])
    ensures MatchItem(Integer, ShowNat(n) + rest) == Some(([Number(n as real)], rest))
  {
    RunOfDigits(ShowNat(n), rest);
    ShownNatReads(n);
    var s := ShowNat(n) + rest;
    assert s[..|ShowNat(n)|] == ShowNat(n) && s[|ShowNat(n)|..] == rest;
  }

  lemma WholeDecimalReads(n: nat, rest: string)
    requires Ends(rest)
    ensures MatchDecimal(ShowNat(n) + rest) == Some(([Number(n as real)], rest))
  {
    IntegerReads(n, rest);
    RunOfDigits(ShowNat(n), rest);
  }

  lemma Cut(a: string, b: string)
    ensures (a + b)[..|a|] == a && (a + b)[|a|..] == b
  {
  }

  lemma FractionReads(n: nat, digits: string, rest: string)
    requires digits != "" && (forall i | 0 <= i < |digits| :: IsDigit(digits[i])) && (rest == "" || !IsDigit(rest[0]))
    ensures MatchDecimal(ShowNat(n) + ("." + (digits + rest))) == Some(([Number(n as real + Fraction(digits))], rest))
  {
    var whole, tail := ShowNat(n), "." + (digits + rest);
    RunOfDigits(whole, tail);
    RunOfDigits(digits, rest);
    ShownNatReads(n);
    Cut(whole, tail);
    Cut(digits, rest);
    assert tail[1..] == digits + rest;
    PointReads(whole + tail, whole, tail, digits, rest);
  }

  lemma PointReads(s: string, whole: string, tail: string, digits: string, rest: string)
    requires DigitRun(s) == |whole| > 0 && s[..|whole|] == whole && s[|whole|..] == tail
    requires tail != "" && tail[0] == '.' && DigitRun(tail[1..]) == |digits| > 0
    requires tail[1..][..|digits|] == digits && tail[1..][|digits|..] == rest
    ensures MatchDecimal(s) == Some(([Number(NatOf(whole) as real + Fraction(digits))], rest))
  {
    assert tail[1..1 + |digits|] == tail[1..][..|digits|];
    assert tail[1 + |digits|..] == tail[1..][|digits|..];
  }

  lemma DivTen(units: nat)
    ensures units as real == 10.0 * (units / 10) as real + (units % 10) as real
  {
  }

  lemma LastDigitReads(units: nat, places: nat)
    requires places > 0
    ensures NatOf(LastDigits(units, places)) == 10 * NatOf(LastDigits(units / 10, places - 1)) + units % 10
  {
    var digits, last := LastDigits(units / 10, places - 1), DigitChar(units % 10);
    DigitReads(units % 10);
    assert (digits + [last])[..|digits|] == digits;
  }

  lemma TenthOfSum(n: nat, d: nat)
    ensures (10 * n + d) as real / 10.0 == n as real + d as real / 10.0
  {
  }

  lemma UnitsInTenths(units: nat, places: nat)
    requires places > 0
    ensures Tenths(units as real, places) ==
      Tenths((units / 10) as real, places - 1) + Tenths((units % 10) as real / 10.0, places - 1)
  {
    TenthOfSum(units / 10, units % 10);
    TenthsAdd((units / 10) as real, (units % 10) as real / 10.0, places - 1);
  }

  lemma LastDigitsInTenths(units: nat, places: nat)
    requires places > 0
    ensures Fraction(LastDigits(units, places)) ==
      Fraction(LastDigits(units / 10, places - 1)) + Tenths((units % 10) as real / 10.0, places - 1)
  {
    LastDigitReads(units, places);
    TenthOfSum(NatOf(LastDigits(units / 10, places - 1)), units % 10);
    TenthsAdd(NatOf(LastDigits(units / 10, places - 1)) as real, (units % 10) as real / 10.0, places - 1);
  }

  /** A decimal is its front and the fraction its last digits make. */
  lemma {:induction false} FrontAndFraction(units: nat, places: nat)
    ensures Tenths(units as real, places) == Front(units, places) as real + Fraction(LastDigits(units, places))
  {
    if places > 0 {
      FrontAndFraction(units / 10, places - 1);
      UnitsInTenths(units, places);
      LastDigitsInTenths(units, places);
    }
  }

  /** The whole part of a decimal, from any number with the same digits before its units' point. */
  lemma {:induction false} FrontWithin(v: real, units: nat, places: nat)
    requires units as real <= v < units as real + 1.0
    ensures Front(units, places) as real <= Tenths(v, places) < Front(units, places) as real + 1.0
    ensures Tenths(v, places) == Front(units, places) as real <==> v == units as real && Divides(units, places)
    decreases places
  {
    if places > 0 {
      DivTen(units);
      FrontWithin(v / 10.0, units / 10, places - 1);
    }
  }

  /** `Integral` means what it says. */
  lemma IntegralIffWhole(units: nat, places: nat)
    ensures Integral(Numeral(units, places)) <==>
      ValueOf(Numeral(units, places)).Floor as real == ValueOf(Numeral(units, places))
  {
    FrontWithin(units as real, units, places);
    FloorIs(Tenths(units as real, places), Front(units, places));
  }

  lemma FloorIs(v: real, n: int)
    requires n as real <= v < n as real + 1.0
    ensures v.Floor == n
  {
  }

  lemma TrailingZero(units: nat, places: nat)
    requires places > 0 && units % 10 == 0
    ensures Tenths(units as real, places) == Tenths((units / 10) as real, places - 1)
  {
    DivTen(units);
  }

  lemma FractionalReads(units: nat, places: nat, rest: string)
    requires Ends(rest) && places > 0
    ensures MatchDecimal(ShowNat(Front(units, places)) + "." + LastDigits(units, places) + rest)
      == Some(([Number(Tenths(units as real, places))], rest))
  {
    var whole, digits := ShowNat(Front(units, places)), LastDigits(units, places);
    FrontAndFraction(units, places);
    FractionReads(Front(units, places), digits, rest);
    Regroup(whole, digits, rest);
  }

  lemma Regroup(whole: string, digits: string, rest: string)
    ensures whole + "." + digits + rest == whole + ("." + (digits + rest))
  {
  }

  /** A printed decimal is read as its value. */
  lemma {:induction false} ScaledReads(units: nat, places: nat, rest: string)
    requires Ends(rest)
    ensures MatchDecimal(ShowScaled(units, places) + rest) == Some(([Number(Tenths(units as real, places))], rest))
  {
    if places == 0 {
      WholeDecimalReads(units, rest);
    } else if units % 10 == 0 {
      TrailingZero(units, places);
      ScaledReads(units / 10, places - 1, rest);
    } else {
      FractionalReads(units, places, rest);
    }
  }

  /** A printed decimal that is whole is read as an integer; any other stops the integer at its point. */
  lemma {:induction false} ScaledReadsAsInteger(units: nat, places: nat, rest: string)
    requires Ends(rest)
    ensures var r := MatchItem(Integer, ShowScaled(units, places) + rest);
      && r.Some?
      && (Divides(units, places) ==> r == Some(([Number(Tenths(units as real, places))], rest)))
      && (!Divides(units, places) ==> r.value.1 != "" && r.value.1[0] == '.')
  {
    if places == 0 {
      IntegerReads(units, rest);
    } else if units % 10 == 0 {
      TrailingZero(units, places);
      ScaledReadsAsInteger(units / 10, places - 1, rest);
    } else {
      var whole, digits := ShowNat(Front(units, places)), LastDigits(units, places);
      IntegerReads(Front(units, places), "." + (digits + rest));
      Regroup(whole, digits, rest);
    }
  }

  lemma {:induction false} ShownStartsWithDigit(units: nat, places: nat)
    ensures ShowScaled(units, places) != "" && IsDigit(ShowScaled(units, places)[0])
  {
    if places > 0 && units % 10 == 0 {
      ShownStartsWithDigit(units / 10, places - 1);
    } else if places > 0 {
      assert ShowScaled(units, places)[0] == ShowNat(Front(units, places))[0];
    }
  }

  lemma {:induction false} TailOfName(t: string, rest: string)
    requires EndsName(rest)
    requires forall i | 0 <= i < |t| :: IsLetter(t[i]) || (t[i] == '-' && i + 1 < |t| && IsLetter(t[i + 1]))
    ensures NameTail(t + rest) == |t|
  {
    if t == "" {
      assert t + rest == rest;
    } else {
      assert (t + rest)[1..] == t[1..] + rest;
      TailOfName(t[1..], rest);
    }
  }

  lemma NameReads(t: string, rest: string)
    requires IsLabel(t) && EndsName(rest)
    ensures MatchItem(Name, t + rest) == Some(([Named(t)], rest))
  {
    assert (t + rest)[1..] == t[1..] + rest;
    TailOfName(t[1..], rest);
    assert (t + rest)[..|t|] == t && (t + rest)[|t|..] == rest;
  }

  lemma MinusBlocks(s: string)
    requires s != "" && s[0] == '-'
    ensures MatchItem(Integer, s) == None && MatchItem(Decimal, s) == None
  {
  }

  lemma WordReads(w: string, rest: string)
    ensures MatchItem(Word(w), w + rest) == Some(([], rest))
  {
    assert (w + rest)[|w|..] == rest;
  }

  /** The token begins as the item expects and then goes on: with a fraction, or with an exponent. */
  predicate StopsShort(item: Item, b: Body) {
    && b.Shows? && b.n.units >= 0
    && ((item.Integer? && !Integral(b.n)) || ((item.Integer? || item.Decimal?) && !Positional(b.n)))
  }

  /** A number is taken from the front of `s`, and what follows is its fraction or its exponent. */
  ghost predicate GoesOn(item: Item, s: string) {
    var r := MatchItem(item, s);
    r.Some? && r.value.1 != "" && r.value.1[0] in {'.', 'e'}
  }

  /** Of a number with an exponent the expressions take the mantissa, or its first digit. */
  lemma MantissaReads(digits: string, tail: string)
    requires digits != "" && (forall i | 0 <= i < |digits| :: IsDigit(digits[i])) && tail != "" && tail[0] == 'e'
    ensures GoesOn(Decimal, ShowMantissa(digits) + tail) && GoesOn(Integer, ShowMantissa(digits) + tail)
  {
    var s := ShowMantissa(digits) + tail;
    if |digits| == 1 {
      RunOfDigits(digits, tail);
      Cut(digits, tail);
    } else {
      var whole, rest := digits[..1], "." + (digits[1..] + tail);
      MantissaParts(digits, tail);
      RunOfDigits(whole, rest);
      RunOfDigits(digits[1..], tail);
      Cut(whole, rest);
      Cut(digits[1..], tail);
      PointReads(s, whole, rest, digits[1..], tail);
    }
  }

  lemma MantissaParts(digits: string, tail: string)
    requires |digits| > 1
    ensures ShowMantissa(digits) + tail == digits[..1] + ("." + (digits[1..] + tail))
    ensures ("." + (digits[1..] + tail))[1..] == digits[1..] + tail
  {
  }

  lemma ExponentReads(units: nat, places: nat, rest: string)
    ensures GoesOn(Decimal, ShowExponent(units, places) + rest) && GoesOn(Integer, ShowExponent(units, places) + rest)
  {
    var power := ShowPower(|ShowNat(units)| - places - 1);
    Associate(ShowMantissa(ShowNat(Significant(units))), power, rest);
    PowerFirst(|ShowNat(units)| - places - 1, rest);
    MantissaReads(ShowNat(Significant(units)), power + rest);
  }

  lemma PowerFirst(exponent: int, rest: string)
    ensures ShowPower(exponent) + rest != "" && (ShowPower(exponent) + rest)[0] == 'e'
  {
  }

  lemma Associate(a: string, b: string, c: string)
    ensures a + b + c == a + (b + c)
  {
  }

  /** What is left of a token that goes on begins with its point or its exponent. */
  lemma ReadsShort(item: Item, b: Body, rest: string)
    requires StopsShort(item, b) && Ends(rest)
    ensures GoesOn(item, Shown(b) + rest)
  {
    if Positional(b.n) {
      ScaledReadsAsInteger(b.n.units, b.n.places, rest);
    } else {
      ExponentReads(b.n.units, b.n.places, rest);
    }
  }

  /** One printed token is matched exactly as it fits. */
  lemma TokenReads(item: Item, b: Body, rest: string)
    requires Comparable(item, b) && Printable(Token("", b), rest) && !StopsShort(item, b)
    ensures MatchItem(item, Shown(b) + rest) ==
      match Fit(item, b) case None => None case Some(captured) => Some((captured, rest))
  {
    match b {
      case Literal(t) =>
        WordReads(t, rest);
        assert (t + rest)[0] == t[0];
      case Shows(n) =>
        if n.units < 0 {
          MinusBlocks(Shown(b) + rest);
        } else {
          ScaledReads(n.units, n.places, rest);
          ScaledReadsAsInteger(n.units, n.places, rest);
        }
      case Label(t) => NameReads(t, rest);
    }
  }

  lemma ShownFirst(b: Body, rest: string)
    requires Printable(Token("", b), rest)
    ensures Shown(b) != "" && !IsSpace(Shown(b)[0])
  {
    if b.Shows? {
      NumeralFirst(b.n);
    }
  }

  lemma NumeralFirst(n: Numeral)
    ensures ShowNumeral(n) != "" && (ShowNumeral(n)[0] == '-' || IsDigit(ShowNumeral(n)[0]))
    ensures n.units >= 0 ==> IsDigit(ShowNumeral(n)[0])
  {
    var units := if n.units < 0 then -n.units else n.units;
    ShownStartsWithDigit(units, n.places);
    assert ShowExponent(units, n.places)[0] == ShowNat(Significant(units))[0];
  }

  /** No word is empty, and a word that begins with neither a point nor an `e` follows each number. */
  ghost predicate Sound(pattern: seq<Item>) {
    && (forall i | 0 <= i < |pattern| :: pattern[i] != Word(""))
    && (forall i | 0 <= i < |pattern| && IsNumber(pattern[i]) :: i + 1 < |pattern| && StopsNumber(pattern[i + 1]))
  }

  predicate IsNumber(item: Item) {
    item.Integer? || item.Decimal?
  }

  predicate StopsNumber(item: Item) {
    item.Word? && item.text != "" && item.text[0] != '.' && Lower(item.text[0]) != 'e'
  }

  lemma SoundTail(pattern: seq<Item>)
    requires Sound(pattern) && pattern != []
    ensures Sound(pattern[1..]) && (IsNumber(pattern[0]) ==> |pattern| > 1 && StopsNumber(pattern[1]))
  {
    var tail := pattern[1..];
    forall i | 0 <= i < |tail| ensures tail[i] != Word("") { assert tail[i] == pattern[i + 1]; }
    forall i | 0 <= i < |tail| && IsNumber(tail[i]) ensures i + 1 < |tail| && StopsNumber(tail[i + 1]) {
      assert IsNumber(pattern[i + 1]);
    }
  }

  /** A fraction or an exponent is not what comes after a number. */
  lemma NothingGoesOn(pattern: seq<Item>, s: string)
    requires pattern != [] && StopsNumber(pattern[0]) && s != "" && s[0] in {'.', 'e'}
    ensures Match(pattern, s) == None
  {
    assert SkipSpace(s) == s;
  }

  /** A number that has stopped short is followed by nothing the pattern expects. */
  lemma ShortBlocks(pattern: seq<Item>, s: string)
    requires pattern != [] && Sound(pattern) && IsNumber(pattern[0]) && GoesOn(pattern[0], s)
    requires s != "" && !IsSpace(s[0])
    ensures Match(pattern, s) == None
  {
    SoundTail(pattern);
    assert pattern[1..][0] == pattern[1];
    NothingGoesOn(pattern[1..], MatchItem(pattern[0], s).value.1);
  }

  /** Matching a printed list is comparing it token by token. */
  lemma {:induction false} PrintedMatches(pattern: seq<Item>, tokens: seq<Token>)
    requires AllPrintable(tokens) && AllComparable(pattern, tokens) && Sound(pattern)
    ensures Match(pattern, Render(tokens)) == Expect(pattern, tokens)
  {
    if tokens == [] {
      if pattern != [] {
        NothingMatches(pattern[0]);
      }
    } else {
      var t, rest := tokens[0], Render(tokens[1..]);
      ShownFirst(t.body, rest);
      assert Render(tokens) == t.gap + (Shown(t.body) + rest);
      assert (Shown(t.body) + rest)[0] == Shown(t.body)[0];
      SkipsGap(t.gap, Shown(t.body) + rest);
      if pattern != [] {
        SoundTail(pattern);
        if StopsShort(pattern[0], t.body) {
          ReadsShort(pattern[0], t.body, rest);
          ShortBlocks(pattern, Shown(t.body) + rest);
          GapChangesNothing(pattern, t.gap, Shown(t.body) + rest);
        } else {
          TokenReads(pattern[0], t.body, rest);
          if Fit(pattern[0], t.body).Some? {
            PrintedMatches(pattern[1..], tokens[1..]);
          }
        }
      }
    }
  }

  lemma GapChangesNothing(pattern: seq<Item>, gap: string, s: string)
    requires SkipSpace(gap + s) == s && s != "" && !IsSpace(s[0])
    ensures Match(pattern, gap + s) == Match(pattern, s)
  {
  }

  lemma NothingMatches(item: Item)
    ensures item != Word("") ==> MatchItem(item, "") == None
  {
  }
}
