/**
 * What a key transition does to the owners of its keys and in which order it presses and releases
 * them, told by the request's text and the owner maps before and after.
 */
module TransitionMeaning {
  import opened Outcomes
  import opened Sequences
  import opened StringOrder
  import opened Text
  import opened EmbeddedInput
  import opened EmbeddedInputRuns

  // ---- Which requests are accepted ---------------------------------------------------------

  /** The eight codes a request may name as modifiers. */
  lemma ModifierCodesAre(c: Code)
    ensures IsModifierCode(c) <==>
      || c == "AltLeft" || c == "AltRight" || c == "ControlLeft" || c == "ControlRight"
      || c == "MetaLeft" || c == "MetaRight" || c == "ShiftLeft" || c == "ShiftRight"
  {
  }

  /** Modifier codes, none of them twice. */
  ghost predicate ModifierList(modifiers: seq<Code>) {
    NoDup(modifiers) && forall m | m in modifiers :: IsModifierCode(m)
  }

  lemma {:induction false} PlainLength(s: string)
    requires forall i | 0 <= i < |s| :: s[i] as int < 0x80
    ensures ByteLength(s) == |s|
  {
    if s != "" { PlainLength(s[1..]); }
  }

  lemma LettersAreIdentifiers(m: Code)
    requires 0 < |m| <= 256 && forall i | 0 <= i < |m| :: 'A' <= m[i] <= 'z'
    ensures ValidIdentifier(m)
  {
    PlainLength(m);
    assert !IsWhitespace(m[0]);
  }

  lemma ModifiersAreIdentifiers(m: Code)
    requires IsModifierCode(m)
    ensures ValidIdentifier(m)
  {
    ModifierCodesAre(m);
    LettersAreIdentifiers(m);
  }

  lemma FirstModifier(m: Code, rest: seq<Code>)
    ensures ModifierList([m] + rest) <==> IsModifierCode(m) && m !in rest && ModifierList(rest)
  {
    var all := [m] + rest;
    if ModifierList(all) {
      forall i, j | 0 <= i < j < |rest| ensures rest[i] != rest[j] { assert all[i + 1] != all[j + 1]; }
      forall i | 0 <= i < |rest| ensures rest[i] != m { assert all[0] != all[i + 1]; }
      assert m in all;
    }
  }

  lemma {:induction false} NoModifierProblem(modifiers: seq<Code>, seen: set<Code>)
    ensures ModifierProblem(modifiers, seen) == None <==>
      ModifierList(modifiers) && forall m | m in modifiers :: m !in seen
  {
    if modifiers != [] {
      var m, rest := modifiers[0], modifiers[1..];
      assert modifiers == [m] + rest;
      FirstModifier(m, rest);
      NoModifierProblem(rest, seen + {m});
      if IsModifierCode(m) { ModifiersAreIdentifiers(m); }
    }
  }

  /** A modifier that fits is passed over. */
  lemma FittingModifier(modifiers: seq<Code>, seen: set<Code>)
    requires modifiers != [] && IsModifierCode(modifiers[0]) && modifiers[0] !in seen
    ensures ModifierProblem(modifiers, seen) == ModifierProblem(modifiers[1..], seen + {modifiers[0]})
  {
    ModifiersAreIdentifiers(modifiers[0]);
  }

  /** The error is that of the first modifier that does not fit. */
  lemma {:induction false} ModifierProblemIs(modifiers: seq<Code>, seen: set<Code>, k: nat)
    requires k < |modifiers| && ModifierList(modifiers[..k]) && (forall m | m in modifiers[..k] :: m !in seen)
    requires !(IsModifierCode(modifiers[k]) && modifiers[k] !in modifiers[..k] && modifiers[k] !in seen)
    ensures ModifierProblem(modifiers, seen) ==
      Some(if ValidIdentifier(modifiers[k]) then ModifierInvalid else InvalidIdentifier)
  {
    if k > 0 {
      var m, rest := modifiers[0], modifiers[1..];
      assert modifiers[..k] == [m] + rest[..k - 1];
      FirstModifier(m, rest[..k - 1]);
      ModifierProblemIs(rest, seen + {m}, k - 1);
      FittingModifier(modifiers, seen);
    }
  }

  /** What a prepare is refused for, in this order; a refused one changes nothing. */
  lemma PrepareRefusals(
    s: State, role: Role, phase: string, code: Code, modifiers: seq<Code>, owner: Owner, id: TransitionId, uuid: string)
    ensures var (s', r) := PrepareStep(s, role, phase, code, modifiers, owner, id, uuid);
      && (r.Err? ==> s' == s)
      && if !ValidIdentifier(role) || !ValidIdentifier(code) || !ValidIdentifier(owner) then r == Err(InvalidIdentifier)
         else if phase !in {"hold", "release", "tap"} then r == Err(PhaseInvalid)
         else if |modifiers| > 8 then r == Err(TooManyModifiers)
         else if !ModifierList(modifiers) then r.Err? && r.error in {InvalidIdentifier, ModifierInvalid}
         else if |s.pending| >= 512 then r == Err(Backpressure)
         else if role in s.pendingRoles then r == Err(Ordering)
         else r.Ok?
  {
    NoModifierProblem(modifiers, {});
    if !ModifierList(modifiers) { ProblemsAreTwo(modifiers, {}); }
  }

  lemma {:induction false} ProblemsAreTwo(modifiers: seq<Code>, seen: set<Code>)
    ensures ModifierProblem(modifiers, seen) in {None, Some(InvalidIdentifier), Some(ModifierInvalid)}
  {
    if modifiers != [] { ProblemsAreTwo(modifiers[1..], seen + {modifiers[0]}); }
  }

  // ---- What every accepted transition leaves -----------------------------------------------

  /** The one role's map may be new; the transition is pending with the map before it. */
  ghost predicate Entered(s: State, role: Role, id: TransitionId, s': State, record: Record) {
    && (forall other | other != role :: HeldBy(s', other) == HeldBy(s, other))
    && NoEmptyCode(HeldBy(s', role))
    && s'.pending == s.pending[id := Pending(HeldBy(s, role), role)] && s'.pendingRoles == s.pendingRoles + {role}
    && record.transition == Some(id) && (record.hasHeldKeys <==> HeldBy(s', role) != map[])
  }

  lemma AcceptedIsEntered(
    s: State, role: Role, phase: string, code: Code, modifiers: seq<Code>, owner: Owner, id: TransitionId, uuid: string)
    requires PrepareStep(s, role, phase, code, modifiers, owner, id, uuid).1.Ok?
    ensures var (s', r) := PrepareStep(s, role, phase, code, modifiers, owner, id, uuid);
      Entered(s, role, id, s', r.value)
  {
  }

  /** The map and the effects of an accepted transition. */
  lemma AcceptedIs(
    s: State, role: Role, phase: string, code: Code, modifiers: seq<Code>, owner: Owner, id: TransitionId, uuid: string)
    requires PrepareStep(s, role, phase, code, modifiers, owner, id, uuid).1.Ok?
    ensures var (s', r) := PrepareStep(s, role, phase, code, modifiers, owner, id, uuid);
      var (h, effects) := ApplyPhase(HeldBy(s, role), phase, code, modifiers, owner, uuid);
      HeldBy(s', role) == RemoveEmptyCodes(h) && r.value.effects == effects
  {
  }

  /** The owners of the key and of every modifier are changed alike, and no others. */
  predicate Touched(c: Code, code: Code, modifiers: seq<Code>) {
    c == code || c in modifiers
  }

  function CodesOf(script: seq<Effect>): (codes: seq<Code>)
    ensures |codes| == |script| && forall i | 0 <= i < |script| :: codes[i] == script[i].code
  {
    seq(|script|, i requires 0 <= i < |script| => script[i].code)
  }

  /** Key-downs that are no repeats; only the key itself suppresses its shortcut. */
  ghost predicate Downs(script: seq<Effect>, code: Code) {
    forall e | e in script :: e.phase == RawKeyDown && !e.autoRepeat && (e.suppressShortcut <==> e.code == code)
  }

  ghost predicate Ups(script: seq<Effect>, code: Code) {
    forall e | e in script :: e.phase == KeyUp && !e.autoRepeat && (e.suppressShortcut <==> e.code == code)
  }

  /** The codes of the list that `free` names, each at its first place. */
  ghost function FirstOf(codes: seq<Code>, free: set<Code>): seq<Code> {
    if codes == [] then [] else
      var front, last := codes[..|codes| - 1], codes[|codes| - 1];
      FirstOf(front, free) + if last in free && last !in front then [last] else []
  }

  // ---- Holds -------------------------------------------------------------------------------

  /** The codes nobody held. */
  ghost function Unheld(held: Held, codes: seq<Code>): set<Code> {
    set c | c in codes && Owners(held, c) == {}
  }

  lemma {:induction false} HoldScript(held: Held, codes: seq<Code>, all: seq<Code>, code: Code, owner: Owner)
    requires forall c | c in codes :: c in all
    ensures var script := HoldAll(held, codes, code, owner).1;
      Downs(script, code) && CodesOf(script) == FirstOf(codes, Unheld(held, all))
  {
    if codes != [] {
      var front, last := codes[..|codes| - 1], codes[|codes| - 1];
      assert codes == front + [last] && last in codes;
      HoldScript(held, front, all, code, owner);
      HoldAddsOwner(held, front, code, owner);
      var (h, effects) := HoldAll(held, front, code, owner);
      assert Owners(h, last) == {} <==> Owners(held, last) == {} && last !in front;
      HoldLast(held, codes, code, owner);
      BothDowns(effects, HoldOne(h, last, code, owner).1, code);
    }
  }

  lemma HoldLast(held: Held, codes: seq<Code>, code: Code, owner: Owner)
    requires codes != []
    ensures var front, last := codes[..|codes| - 1], codes[|codes| - 1];
      var (h, effects) := HoldAll(held, front, code, owner);
      var more := HoldOne(h, last, code, owner).1;
      && HoldAll(held, codes, code, owner).1 == effects + more
      && Downs(more, code) && CodesOf(more) == if Owners(h, last) == {} then [last] else []
  {
  }

  lemma BothDowns(effects: seq<Effect>, more: seq<Effect>, code: Code)
    requires Downs(effects, code) && Downs(more, code)
    ensures Downs(effects + more, code) && CodesOf(effects + more) == CodesOf(effects) + CodesOf(more)
  {
  }

  lemma HeldOwners(held: Held, code: Code, modifiers: seq<Code>, owner: Owner, c: Code)
    ensures Owners(RemoveEmptyCodes(ApplyHold(held, code, modifiers, owner).0), c) ==
      Owners(held, c) + if Touched(c, code, modifiers) then {owner} else {}
  {
    HoldAddsOwner(held, modifiers + [code], code, owner);
  }

  /**
   * A hold adds the owner to the key and to each modifier, and presses, modifiers in order and then
   * the key, exactly those nobody held.
   */
  lemma HoldMeans(s: State, role: Role, code: Code, modifiers: seq<Code>, owner: Owner, id: TransitionId, uuid: string)
    requires PrepareStep(s, role, "hold", code, modifiers, owner, id, uuid).1.Ok?
    ensures var (s', r) := PrepareStep(s, role, "hold", code, modifiers, owner, id, uuid);
      && (forall c :: Owners(HeldBy(s', role), c) ==
            Owners(HeldBy(s, role), c) + if Touched(c, code, modifiers) then {owner} else {})
      && Downs(r.value.effects, code)
      && CodesOf(r.value.effects) == FirstOf(modifiers + [code], Unheld(HeldBy(s, role), modifiers + [code]))
  {
    var held, codes := HeldBy(s, role), modifiers + [code];
    AcceptedIs(s, role, "hold", code, modifiers, owner, id, uuid);
    forall c { HeldOwners(held, code, modifiers, owner, c); }
    HoldScript(held, codes, codes, code, owner);
  }

  // ---- Releases ----------------------------------------------------------------------------

  /** The codes held by this owner alone. */
  ghost function Solely(held: Held, codes: seq<Code>, owner: Owner): set<Code> {
    set c | c in codes && Owners(held, c) == {owner}
  }

  lemma ReleaseOneScript(held: Held, current: Code, code: Code, owner: Owner)
    requires NoEmptyCode(held)
    ensures var script := ReleaseOne(held, current, code, owner).1;
      Ups(script, code) && CodesOf(script) == if Owners(held, current) == {owner} then [current] else []
  {
    if current in held && held[current] - {owner} == {} {
      assert held[current] == {owner};
    }
  }

  /** Taking the first code first. */
  lemma {:induction false} FirstOfCons(c: Code, rest: seq<Code>, free: set<Code>)
    ensures FirstOf([c] + rest, free) == (if c in free then [c] else []) + FirstOf(rest, free - {c})
  {
    var all := [c] + rest;
    if rest == [] {
      assert all[..0] == [];
    } else {
      var front, last := rest[..|rest| - 1], rest[|rest| - 1];
      assert all[..|all| - 1] == [c] + front && all[|all| - 1] == last;
      FirstOfCons(c, front, free);
      assert last in [c] + front <==> last == c || last in front;
    }
  }

  lemma {:induction false} ReleaseScript(held: Held, codes: seq<Code>, all: seq<Code>, code: Code, owner: Owner)
    requires NoEmptyCode(held) && forall c | c in codes :: c in all
    ensures var script := ReleaseAll(held, codes, code, owner).1;
      Ups(script, code) && CodesOf(script) == FirstOf(codes, Solely(held, all, owner))
  {
    if codes != [] {
      var first, rest := codes[0], codes[1..];
      assert codes == [first] + rest && first in codes;
      var h := WithoutOwner(held, {first}, owner);
      ReleaseOneScript(held, first, code, owner);
      ReleaseOneDropsOwner(held, first, code, owner);
      ReleaseScript(h, rest, all, code, owner);
      FirstOfCons(first, rest, Solely(held, all, owner));
      SolelyAfter(held, first, all, owner);
      ReleaseFirst(held, codes, code, owner);
      BothUps(ReleaseOne(held, first, code, owner).1, ReleaseAll(h, rest, code, owner).1, code);
    }
  }

  lemma ReleaseFirst(held: Held, codes: seq<Code>, code: Code, owner: Owner)
    requires codes != []
    ensures var (h, effects) := ReleaseOne(held, codes[0], code, owner);
      ReleaseAll(held, codes, code, owner).1 == effects + ReleaseAll(h, codes[1..], code, owner).1
  {
  }

  lemma BothUps(effects: seq<Effect>, more: seq<Effect>, code: Code)
    requires Ups(effects, code) && Ups(more, code)
    ensures Ups(effects + more, code) && CodesOf(effects + more) == CodesOf(effects) + CodesOf(more)
  {
  }

  lemma SolelyAfter(held: Held, first: Code, all: seq<Code>, owner: Owner)
    requires NoEmptyCode(held)
    ensures Solely(WithoutOwner(held, {first}, owner), all, owner) == Solely(held, all, owner) - {first}
  {
  }

  lemma ReleasedOwners(held: Held, code: Code, modifiers: seq<Code>, owner: Owner, c: Code)
    requires NoEmptyCode(held)
    ensures Owners(RemoveEmptyCodes(ApplyRelease(held, code, modifiers, owner).0), c) ==
      Owners(held, c) - if Touched(c, code, modifiers) then {owner} else {}
  {
    ReleaseDropsOwner(held, [code] + Reverse(modifiers), code, owner);
  }

  lemma ReleasedScript(held: Held, code: Code, modifiers: seq<Code>, owner: Owner)
    requires NoEmptyCode(held)
    ensures var script, codes := ApplyRelease(held, code, modifiers, owner).1, [code] + Reverse(modifiers);
      Ups(script, code) && CodesOf(script) == FirstOf(codes, Solely(held, codes, owner))
  {
    var codes := [code] + Reverse(modifiers);
    ReleaseScript(held, codes, codes, code, owner);
  }

  /**
   * A release takes the owner from the key and from each modifier, and releases, the key first and
   * then the modifiers backwards, exactly those it alone held.
   */
  lemma ReleaseMeans(
    s: State, role: Role, code: Code, modifiers: seq<Code>, owner: Owner, id: TransitionId, uuid: string)
    requires HeldOk(HeldBy(s, role)) && PrepareStep(s, role, "release", code, modifiers, owner, id, uuid).1.Ok?
    ensures var (s', r) := PrepareStep(s, role, "release", code, modifiers, owner, id, uuid);
      && (forall c :: Owners(HeldBy(s', role), c) ==
            Owners(HeldBy(s, role), c) - if Touched(c, code, modifiers) then {owner} else {})
      && Ups(r.value.effects, code)
      && var codes := [code] + Reverse(modifiers);
         CodesOf(r.value.effects) == FirstOf(codes, Solely(HeldBy(s, role), codes, owner))
  {
    AcceptedIs(s, role, "release", code, modifiers, owner, id, uuid);
    forall c { ReleasedOwners(HeldBy(s, role), code, modifiers, owner, c); }
    ReleasedScript(HeldBy(s, role), code, modifiers, owner);
  }

  // ---- Taps --------------------------------------------------------------------------------

  /**
   * A tap leaves every owner as it was. It presses what a hold would, repeats the key if that was
   * held, and then releases what it pressed, the key first and the modifiers backwards.
   */
  lemma TapMeans(s: State, role: Role, code: Code, modifiers: seq<Code>, owner: Owner, id: TransitionId, uuid: string)
    requires HeldOk(HeldBy(s, role)) && PrepareStep(s, role, "tap", code, modifiers, owner, id, uuid).1.Ok?
    ensures var (s', r) := PrepareStep(s, role, "tap", code, modifiers, owner, id, uuid);
      HeldBy(s', role) == HeldBy(s, role) && TapScript(HeldBy(s, role), code, modifiers, r.value.effects)
  {
    var held := HeldBy(s, role);
    TapRestores(held, code, modifiers, owner, uuid);
    TapShows(held, code, modifiers, owner, uuid);
    assert RemoveEmptyCodes(held) == held;
  }

  ghost predicate TapScript(held: Held, code: Code, modifiers: seq<Code>, script: seq<Effect>) {
    var free := Unheld(held, modifiers + [code]);
    exists downs, repeat, ups ::
      && script == downs + repeat + ups
      && Downs(downs, code) && CodesOf(downs) == FirstOf(modifiers + [code], free)
      && Repeats(repeat, code, code in held)
      && Ups(ups, code) && CodesOf(ups) == FirstOf([code] + Reverse(modifiers), free)
  }

  /** One auto-repeat of the key when it was held, otherwise nothing. */
  ghost predicate Repeats(script: seq<Effect>, code: Code, held: bool) {
    if !held then script == [] else
      && |script| == 1
      && script[0].phase == RawKeyDown && script[0].code == code && script[0].autoRepeat && script[0].suppressShortcut
  }

  lemma SolelyTheTap(held: Held, codes: seq<Code>, all: set<Code>, t: Owner)
    requires NoEmptyCode(held) && (forall c :: t !in Owners(held, c)) && all == SetOf(codes)
    ensures Solely(WithOwner(held, all, t), codes, t) == Unheld(held, codes)
  {
    forall c | c in codes ensures Owners(WithOwner(held, all, t), c) == Owners(held, c) + {t} {}
  }

  lemma TapHolds(held: Held, code: Code, modifiers: seq<Code>, t: Owner)
    requires NoEmptyCode(held) && forall c :: t !in Owners(held, c)
    ensures var h, codes := ApplyHold(held, code, modifiers, t).0, modifiers + [code];
      NoEmptyCode(h) && h == WithOwner(held, SetOf(codes), t) && Owners(h, code) - {t} == Owners(held, code)
  {
    var codes := modifiers + [code];
    HoldAddsOwner(held, codes, code, t);
    HoldReplays(held, codes, code, t);
    assert code in SetOf(codes);
  }

  /** What a tap releases is what nobody held. */
  lemma SolelyAfterHold(held: Held, code: Code, modifiers: seq<Code>, t: Owner)
    requires NoEmptyCode(held) && forall c :: t !in Owners(held, c)
    ensures var codes, back := modifiers + [code], [code] + Reverse(modifiers);
      Solely(WithOwner(held, SetOf(codes), t), back, t) == Unheld(held, codes)
  {
    var codes, back := modifiers + [code], [code] + Reverse(modifiers);
    assert SetOf(back) == SetOf(codes);
    SolelyTheTap(held, back, SetOf(codes), t);
    assert Unheld(held, back) == Unheld(held, codes);
  }

  /** The two halves of a tap, by an owner nobody has seen. */
  lemma TapHalves(held: Held, code: Code, modifiers: seq<Code>, t: Owner)
    requires NoEmptyCode(held) && forall c :: t !in Owners(held, c)
    ensures
      var (h, downs) := ApplyHold(held, code, modifiers, t);
      var ups, free := ApplyRelease(h, code, modifiers, t).1, Unheld(held, modifiers + [code]);
      && Owners(h, code) - {t} == Owners(held, code)
      && Downs(downs, code) && CodesOf(downs) == FirstOf(modifiers + [code], free)
      && Ups(ups, code) && CodesOf(ups) == FirstOf([code] + Reverse(modifiers), free)
  {
    TapHolds(held, code, modifiers, t);
    HoldScript(held, modifiers + [code], modifiers + [code], code, t);
    ReleasedScript(ApplyHold(held, code, modifiers, t).0, code, modifiers, t);
    SolelyAfterHold(held, code, modifiers, t);
  }

  lemma ScriptOfParts(
    held: Held, code: Code, modifiers: seq<Code>, downs: seq<Effect>, repeat: seq<Effect>, ups: seq<Effect>)
    requires var free := Unheld(held, modifiers + [code]);
      && Downs(downs, code) && CodesOf(downs) == FirstOf(modifiers + [code], free)
      && Repeats(repeat, code, code in held)
      && Ups(ups, code) && CodesOf(ups) == FirstOf([code] + Reverse(modifiers), free)
    ensures TapScript(held, code, modifiers, downs + repeat + ups)
  {
  }

  /** The effects of a tap in three parts. */
  lemma TapParts(held: Held, code: Code, modifiers: seq<Code>, owner: Owner, uuid: string, repeat: seq<Effect>)
    requires HeldOk(held)
    requires var h := ApplyHold(held, code, modifiers, TapOwner(uuid, owner)).0;
      && Owners(h, code) - {TapOwner(uuid, owner)} == Owners(held, code)
      && repeat == if code in held then [Effect(RawKeyDown, code, Active(h), Active(h), true, true)] else []
    ensures var (h, downs) := ApplyHold(held, code, modifiers, TapOwner(uuid, owner));
      var ups := ApplyRelease(h, code, modifiers, TapOwner(uuid, owner)).1;
      ApplyTap(held, code, modifiers, owner, uuid).1 == downs + repeat + ups
  {
    var t := TapOwner(uuid, owner);
    var downs := ApplyHold(held, code, modifiers, t).1;
    if code in held {
      HoldPressesNewCodes(held, modifiers + [code], code, t);
      OtherCodesIdentity(downs, code);
    } else {
      assert downs + [] == downs;
    }
  }

  lemma TapShows(held: Held, code: Code, modifiers: seq<Code>, owner: Owner, uuid: string)
    requires HeldOk(held)
    ensures TapScript(held, code, modifiers, ApplyTap(held, code, modifiers, owner, uuid).1)
  {
    var t := TapOwner(uuid, owner);
    forall c ensures t !in Owners(held, c) { TapOwnerIsNew(held, uuid, owner, c); }
    var (h, downs) := ApplyHold(held, code, modifiers, t);
    var ups := ApplyRelease(h, code, modifiers, t).1;
    var repeat := if code in held then [Effect(RawKeyDown, code, Active(h), Active(h), true, true)] else [];
    TapHalves(held, code, modifiers, t);
    TapParts(held, code, modifiers, owner, uuid, repeat);
    ScriptOfParts(held, code, modifiers, downs, repeat, ups);
  }

  // ---- Reasserting, completing and clearing ------------------------------------------------

  /** Modifiers before other keys, each part in order. */
  ghost predicate InPressOrder(codes: seq<Code>) {
    forall j, k | 0 <= j < k < |codes| ::
      if IsModifierCode(codes[j]) <==> IsModifierCode(codes[k]) then Le(codes[j], codes[k])
      else IsModifierCode(codes[j])
  }

  /** What a reassert answers: held keys if there are any, in order, only modifiers letting shortcuts through. */
  lemma ReassertAnswers(w: World, role: Role)
    requires Inv(w)
    ensures var r := ReassertStep(w.rt, role);
      if !ValidIdentifier(role) then r == Err(InvalidIdentifier)
      else if role in w.rt.pendingRoles then r == Err(Ordering)
      else
        && r.Ok? && r.value.transition == None
        && (r.value.hasHeldKeys <==> HeldBy(w.rt, role) != map[])
        && InPressOrder(CodesOf(r.value.effects))
        && (forall e | e in r.value.effects :: e.suppressShortcut <==> !IsModifierCode(e.code))
  {
    assert RoleOk(w, role);
    if role in w.rt.held && ReassertStep(w.rt, role).Ok? {
      var held := w.rt.held[role];
      PressAgainCodes(ModifiersFirst(held), Active(held));
      PressOrder(held);
      assert CodesOf(PressAgain(ModifiersFirst(held), Active(held))) == ModifiersFirst(held);
    }
  }

  lemma PressOrder(held: Held)
    ensures InPressOrder(ModifiersFirst(held))
  {
    var m := Sorted(set c | c in held && IsModifierCode(c));
    var o := Sorted(set c | c in held && !IsModifierCode(c));
    assert forall k | 0 <= k < |m| :: m[k] in m;
    assert forall k | 0 <= k < |o| :: o[k] in o;
  }

  /** A completion is accepted exactly for a pending transition and ends it, whether it succeeded or not. */
  lemma CompletionAnswers(w: World, id: TransitionId, succeeded: bool)
    requires Inv(w)
    ensures var s := w.rt;
      var (s', r) := CompleteStep(s, id, succeeded);
      if id !in s.pending then r == Err(NotFound) && s' == s
      else
        && r == Ok(()) && s'.pending == s.pending - {id} && s'.pendingRoles == s.pendingRoles - {s.pending[id].role}
        && (forall role | role != s.pending[id].role || succeeded :: HeldBy(s', role) == HeldBy(s, role))
  {
  }

  /** Clearing leaves the other roles and their transitions alone. */
  lemma ClearingSparesOthers(w: World, role: Role, other: Role)
    requires Inv(w) && other != role
    ensures var s, s' := w.rt, ClearStep(w.rt, role);
      && HeldBy(s', other) == HeldBy(s, other) && (other in s'.pendingRoles <==> other in s.pendingRoles)
      && forall id | id in s.pending && s.pending[id].role == other ::
           id in s'.pending && s'.pending[id] == s.pending[id]
  {
  }

  /** The state of a reachable runtime meets what the laws ask of it. */
  lemma ReachableMapsAreOk(events: seq<Event>, role: Role)
    requires ValidRun(Start, events)
    ensures Inv(After(Start, events)) && HeldOk(HeldBy(After(Start, events).rt, role))
  {
    RunInv(Start, events);
    assert RoleOk(After(Start, events), role);
  }
}
