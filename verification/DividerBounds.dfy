/**
 * What the host accepts as a divider projection and what the native controller accepts of it. The
 * controller limits every coordinate to ten million, the host only to 32 bits; and the controller
 * refuses identities with format characters, which to the host are no control characters.
 */
module DividerBounds {
  import opened Outcomes
  import opened TabProjection
  import opened Text
  import D = DividerProjection

  const MAX_DIVIDERS: nat := 128
  const MAX_INDICATORS: nat := 128
  const MAX_CAPTION_LENGTH: nat := 40
  const I32_MAX: int := 0x7fff_ffff
  const NATIVE_REACH: int := 10_000_000

  type Index = i: nat | i < 0x1_0000_0000

  datatype Bounds = Bounds(x: int, y: int, width: int, height: int)
  datatype Indicator = Indicator(surfaceId: string, caption: string, bounds: Bounds)
  datatype Divider = Divider(
    tabId: string, attempt: string, index: Index, axis: string, bounds: Bounds, visible: bool,
    indicators: seq<Indicator>)
  datatype Projection = Projection(background: string, content: Bounds, dividers: seq<Divider>)

  type Key = (string, string, Index)

  function KeyOf(d: Divider): Key {
    (d.tabId, d.attempt, d.index)
  }

  // ---- The host's validation ---------------------------------------------------------------

  /** Non-negative, not empty, and ending within `limit`. */
  predicate WithinLimit(b: Bounds, limit: int) {
    b.x >= 0 && b.y >= 0 && b.width >= 1 && b.height >= 1 && b.x + b.width <= limit && b.y + b.height <= limit
  }

  predicate Inside(b: Bounds, content: Bounds) {
    && b.x >= content.x && b.y >= content.y
    && b.x + b.width <= content.x + content.width && b.y + b.height <= content.y + content.height
  }

  predicate ValidIndicator(i: Indicator, content: Bounds) {
    && ValidIdentity(i.surfaceId) && i.caption != "" && ByteLength(i.caption) <= MAX_CAPTION_LENGTH
    && WithinLimit(i.bounds, I32_MAX) && Inside(i.bounds, content)
  }

  predicate ValidDivider(d: Divider, content: Bounds) {
    && ValidIdentity(d.tabId) && ValidIdentity(d.attempt) && d.axis in {"horizontal", "vertical"}
    && WithinLimit(d.bounds, I32_MAX) && Inside(d.bounds, content)
    && |d.indicators| <= MAX_INDICATORS
    && forall i | 0 <= i < |d.indicators| :: ValidIndicator(d.indicators[i], content)
  }

  ghost predicate DistinctKeys(dividers: seq<Divider>) {
    forall i, j | 0 <= i < j < |dividers| :: KeyOf(dividers[i]) != KeyOf(dividers[j])
  }

  ghost predicate HostAccepts(p: Projection) {
    && |p.dividers| <= MAX_DIVIDERS && WithinLimit(p.content, I32_MAX)
    && (forall i | 0 <= i < |p.dividers| :: ValidDivider(p.dividers[i], p.content))
    && DistinctKeys(p.dividers)
    && p.background in {"material", "black"}
  }

  method ValidateWorkspaceDividerProjection(p: Projection) returns (valid: bool)
    ensures valid <==> HostAccepts(p)
  {
    if |p.dividers| > MAX_DIVIDERS || !WithinLimit(p.content, I32_MAX) {
      return false;
    }
    var seen: set<Key> := {};
    for i := 0 to |p.dividers|
      invariant forall k | 0 <= k < i :: ValidDivider(p.dividers[k], p.content)
      invariant DistinctKeys(p.dividers[..i])
      invariant forall key :: key in seen <==> exists k :: 0 <= k < i && KeyOf(p.dividers[k]) == key
    {
      var key := KeyOf(p.dividers[i]);
      if key in seen {
        var k :| 0 <= k < i && KeyOf(p.dividers[k]) == key;
        assert !DistinctKeys(p.dividers);
        return false;
      }
      if !ValidDivider(p.dividers[i], p.content) {
        return false;
      }
      assert p.dividers[..i + 1] == p.dividers[..i] + [p.dividers[i]];
      seen := seen + {key};
    }
    assert p.dividers[..|p.dividers|] == p.dividers;
    return p.background in {"material", "black"};
  }

  predicate PointOf(b: Bounds, x: int, y: int) {
    b.x <= x < b.x + b.width && b.y <= y < b.y + b.height
  }

  /** One rectangle lies inside another exactly when all its points do. */
  lemma InsideIffItsPointsAre(b: Bounds, content: Bounds)
    requires b.width >= 1 && b.height >= 1
    ensures Inside(b, content) <==> forall x, y | PointOf(b, x, y) :: PointOf(content, x, y)
  {
    assert PointOf(b, b.x, b.y) && PointOf(b, b.x + b.width - 1, b.y + b.height - 1);
  }

  /** Within the first quadrant, with no side empty and no point past `reach`. */
  ghost predicate Reachable(b: Bounds, reach: int) {
    b.width > 0 && b.height > 0 && forall x, y | PointOf(b, x, y) :: 0 <= x < reach && 0 <= y < reach
  }

  lemma WithinLimitIffReachable(b: Bounds, reach: int)
    ensures WithinLimit(b, reach) <==> Reachable(b, reach)
  {
    assert b.width > 0 && b.height > 0 ==>
      PointOf(b, b.x, b.y) && PointOf(b, b.x + b.width - 1, b.y + b.height - 1);
  }

  /** An indicator of the accepted form: a short caption, and a rectangle of the content. */
  ghost predicate FitIndicator(i: Indicator, content: Bounds) {
    && ValidIdentity(i.surfaceId) && 0 < ByteLength(i.caption) <= 40
    && Reachable(i.bounds, 0x7fff_ffff) && forall x, y | PointOf(i.bounds, x, y) :: PointOf(content, x, y)
  }

  ghost predicate FitDivider(d: Divider, content: Bounds) {
    && ValidIdentity(d.tabId) && ValidIdentity(d.attempt) && (d.axis == "horizontal" || d.axis == "vertical")
    && Reachable(d.bounds, 0x7fff_ffff) && (forall x, y | PointOf(d.bounds, x, y) :: PointOf(content, x, y))
    && |d.indicators| <= 128 && forall i | i in d.indicators :: FitIndicator(i, content)
  }

  lemma IndicatorFits(i: Indicator, content: Bounds)
    ensures ValidIndicator(i, content) <==> FitIndicator(i, content)
  {
    WithinLimitIffReachable(i.bounds, I32_MAX);
    if i.bounds.width >= 1 && i.bounds.height >= 1 { InsideIffItsPointsAre(i.bounds, content); }
  }

  lemma DividerFits(d: Divider, content: Bounds)
    ensures ValidDivider(d, content) <==> FitDivider(d, content)
  {
    WithinLimitIffReachable(d.bounds, I32_MAX);
    if d.bounds.width >= 1 && d.bounds.height >= 1 { InsideIffItsPointsAre(d.bounds, content); }
    forall i ensures ValidIndicator(i, content) <==> FitIndicator(i, content) { IndicatorFits(i, content); }
  }

  /** What the host accepts, in points of the content. */
  lemma AcceptedDividers(p: Projection)
    ensures HostAccepts(p) <==>
      && (p.background == "material" || p.background == "black") && Reachable(p.content, 0x7fff_ffff)
      && |p.dividers| <= 128 && (forall d | d in p.dividers :: FitDivider(d, p.content))
      && forall i, j | 0 <= i < j < |p.dividers| ::
           var a, b := p.dividers[i], p.dividers[j];
           a.tabId != b.tabId || a.attempt != b.attempt || a.index != b.index
  {
    WithinLimitIffReachable(p.content, I32_MAX);
    forall d ensures ValidDivider(d, p.content) <==> FitDivider(d, p.content) { DividerFits(d, p.content); }
    forall i, j | 0 <= i < j < |p.dividers|
      ensures KeyOf(p.dividers[i]) != KeyOf(p.dividers[j]) <==>
        var a, b := p.dividers[i], p.dividers[j];
        a.tabId != b.tabId || a.attempt != b.attempt || a.index != b.index {}
  }

  // ---- The controller's validation ---------------------------------------------------------

  /** The length `NSString` counts: UTF-16 code units. */
  function Utf16Length(s: string): nat {
    if s == "" then 0 else (if s[0] as int < 0x10000 then 1 else 2) + Utf16Length(s[1..])
  }

  lemma {:induction false} Utf16IsShorter(s: string)
    ensures Utf16Length(s) <= ByteLength(s)
  {
    if s != "" {
      Utf16IsShorter(s[1..]);
    }
  }

  /**
   * Unicode category Cf, as of Unicode 15. `NSCharacterSet.controlCharacterSet` holds it beside Cc;
   * `char::is_control` is Cc alone.
   */
  predicate IsFormat(c: char) {
    var n := c as int;
    n == 0xAD || 0x600 <= n <= 0x605 || n == 0x61C || n == 0x6DD || n == 0x70F || 0x890 <= n <= 0x891 ||
    n == 0x8E2 || n == 0x180E || 0x200B <= n <= 0x200F || 0x202A <= n <= 0x202E || 0x2060 <= n <= 0x2064 ||
    0x2066 <= n <= 0x206F || n == 0xFEFF || 0xFFF9 <= n <= 0xFFFB || n == 0x110BD || n == 0x110CD ||
    0x13430 <= n <= 0x1343F || 0x1BCA0 <= n <= 0x1BCA3 || 0x1D173 <= n <= 0x1D17A || n == 0xE0001 ||
    0xE0020 <= n <= 0xE007F
  }

  predicate HasFormat(s: string) {
    exists i | 0 <= i < |s| :: IsFormat(s[i])
  }

  /** The controller's test of an identity. */
  predicate NativeIdentity(s: string) {
    && s != "" && Utf16Length(s) <= 256
    && !IsWhitespace(s[0]) && !IsWhitespace(s[|s| - 1])
    && '/' !in s && '\\' !in s && !HasControl(s) && !HasFormat(s)
  }

  /** Of the identities the host accepts the controller accepts those without a format character. */
  lemma IdentityCrosses(s: string)
    requires ValidIdentity(s)
    ensures NativeIdentity(s) <==> !HasFormat(s)
  {
    Utf16IsShorter(s);
  }

  predicate NativeTakesIndicator(i: Indicator) {
    && NativeIdentity(i.surfaceId) && i.caption != "" && Utf16Length(i.caption) <= MAX_CAPTION_LENGTH
    && WithinLimit(i.bounds, NATIVE_REACH)
  }

  predicate NativeTakesDivider(d: Divider, content: Bounds) {
    && NativeIdentity(d.tabId) && NativeIdentity(d.attempt) && d.axis in {"horizontal", "vertical"}
    && WithinLimit(d.bounds, NATIVE_REACH) && Inside(d.bounds, content)
    && |d.indicators| <= MAX_INDICATORS
    && forall i | 0 <= i < |d.indicators| :: NativeTakesIndicator(d.indicators[i])
  }

  ghost predicate NativeAccepts(p: Projection) {
    && p.background in {"material", "black"} && WithinLimit(p.content, NATIVE_REACH) && |p.dividers| <= MAX_DIVIDERS
    && (forall i | 0 <= i < |p.dividers| :: NativeTakesDivider(p.dividers[i], p.content))
    && DistinctKeys(p.dividers)
  }

  /** No identity of the divider or its indicators holds a format character. */
  predicate ReadableDivider(d: Divider) {
    && !HasFormat(d.tabId) && !HasFormat(d.attempt)
    && forall i | 0 <= i < |d.indicators| :: !HasFormat(d.indicators[i].surfaceId)
  }

  predicate Readable(p: Projection) {
    forall i | 0 <= i < |p.dividers| :: ReadableDivider(p.dividers[i])
  }

  predicate ContentInReach(p: Projection) {
    p.content.x + p.content.width <= 10_000_000 && p.content.y + p.content.height <= 10_000_000
  }

  lemma DividerCrosses(d: Divider, content: Bounds)
    requires ValidDivider(d, content) && WithinLimit(content, NATIVE_REACH)
    ensures NativeTakesDivider(d, content) <==> ReadableDivider(d)
  {
    IdentityCrosses(d.tabId);
    IdentityCrosses(d.attempt);
    forall i | 0 <= i < |d.indicators|
      ensures NativeTakesIndicator(d.indicators[i]) <==> !HasFormat(d.indicators[i].surfaceId)
    {
      assert ValidIndicator(d.indicators[i], content);
      IdentityCrosses(d.indicators[i].surfaceId);
      Utf16IsShorter(d.indicators[i].caption);
    }
  }

  /**
   * Of what the host accepts the controller accepts exactly what has its content within reach and
   * no format character in an identity.
   */
  lemma NativeAcceptsIffReadableInReach(p: Projection)
    requires HostAccepts(p)
    ensures NativeAccepts(p) <==> ContentInReach(p) && Readable(p)
  {
    if ContentInReach(p) {
      forall i | 0 <= i < |p.dividers|
        ensures NativeTakesDivider(p.dividers[i], p.content) <==> ReadableDivider(p.dividers[i])
      {
        DividerCrosses(p.dividers[i], p.content);
      }
    }
  }

  // ---- A first projection the controller refuses -------------------------------------------

  /** The controller's write: the projection when it accepts it, otherwise nothing. */
  ghost function Written(before: Projection, p: Projection): D.Landing<Projection> {
    if NativeAccepts(p) then D.Landing(p, Some(true)) else D.Landing(before, Some(false))
  }

  /** An apply of a projection the host accepts, with every other condition met: its JSON fits 64 KiB. */
  ghost function Applied(before: Projection, revision: nat, p: Projection): D.Event<Projection> {
    var landing := Written(before, p);
    D.Apply(Access(true, true, true), revision, true, p, landing, D.Compares, landing, D.Compares)
  }

  /**
   * Main result: the first projection a host applies strands it for good exactly when its content
   * reaches past ten million pixels or one of its identities holds a format character.
   */
  lemma FirstApplyStrandsIffRefused(
    initial: Projection, revision: nat, p: Projection, later: seq<D.Event<Projection>>)
    requires HostAccepts(p) && revision > 0
    ensures
      var h := D.Next(D.Fresh(initial), Applied(initial, revision, p)).0;
      && (D.Stranded(h) <==> !ContentInReach(p) || !Readable(p))
      && (D.Stranded(h) ==> D.After(h, later) == h)
      && (!D.Stranded(h) ==> h.revision == revision && h.projection == h.native == p && !h.poisoned)
  {
    NativeAcceptsIffReadableInReach(p);
    var h := D.Next(D.Fresh(initial), Applied(initial, revision, p)).0;
    if D.Stranded(h) {
      D.StrandedForever(h, later);
    }
  }

  const WIDE := Projection("material", Bounds(0, 0, 10_000_001, 1), [])

  /** There is such a projection: an empty one, one pixel too wide. */
  lemma WideProjectionStrands(initial: Projection, later: seq<D.Event<Projection>>)
    ensures HostAccepts(WIDE) && Readable(WIDE)
    ensures
      var h := D.Next(D.Fresh(initial), Applied(initial, 1, WIDE)).0;
      D.Stranded(h) && D.After(h, later) == h
  {
    FirstApplyStrandsIffRefused(initial, 1, WIDE, later);
  }

  const JOINED := Projection("material", Bounds(0, 0, 100, 100), [
    Divider("a\U{200D}b", "g", 0, "vertical", Bounds(50, 0, 4, 100), true, [])])

  lemma JoinedIdentities()
    ensures ValidIdentity(JOINED.dividers[0].tabId) && HasFormat(JOINED.dividers[0].tabId) && ValidIdentity("g")
  {
    var tab := JOINED.dividers[0].tabId;
    assert tab[1..][1..] == "b" && ByteLength("b") == 1;
    assert ByteLength(tab[1..]) == 4;
    assert IsFormat(tab[1]);
  }

  lemma JoinedIsRefused()
    ensures HostAccepts(JOINED) && ContentInReach(JOINED) && !Readable(JOINED)
  {
    JoinedIdentities();
    assert !ReadableDivider(JOINED.dividers[0]);
  }

  /** And another within reach: one divider whose tab is named with a zero-width joiner. */
  lemma JoinedIdentityStrands(initial: Projection, later: seq<D.Event<Projection>>)
    ensures HostAccepts(JOINED) && ContentInReach(JOINED)
    ensures
      var h := D.Next(D.Fresh(initial), Applied(initial, 1, JOINED)).0;
      D.Stranded(h) && D.After(h, later) == h
  {
    JoinedIsRefused();
    FirstApplyStrandsIffRefused(initial, 1, JOINED, later);
  }
}
