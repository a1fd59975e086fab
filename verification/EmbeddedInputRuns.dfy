/** The key-event scripts replayed, and what every run of the embedded-input runtime guarantees. */
module EmbeddedInputRuns {
  import opened Outcomes
  import opened Sequences
  import opened StringOrder
  import opened Text
  import opened EmbeddedInput

  // ---- A keyboard that follows a script ----------------------------------------------------

  /** One effect on the set of pressed keys; None when the effect does not fit that set. */
  ghost function Press(pressed: set<Code>, e: Effect): Option<set<Code>> {
    var after :=
      match e.phase
      case RawKeyDown => if e.autoRepeat then pressed else pressed + {e.code}
      case KeyUp => pressed - {e.code};
    var fits :=
      match e.phase
      case RawKeyDown => e.autoRepeat <==> e.code in pressed
      case KeyUp => e.code in pressed && !e.autoRepeat;
    if fits && e.activeBefore == Sorted(pressed) && e.activeAfter == Sorted(after) then Some(after) else None
  }

  ghost function Replay(pressed: set<Code>, script: seq<Effect>): Option<set<Code>>
    decreases |script|
  {
    if script == [] then Some(pressed)
    else
      var next := Press(pressed, script[0]);
      if next.None? then None else Replay(next.value, script[1..])
  }

  lemma {:induction false} ReplayAppend(pressed: set<Code>, a: seq<Effect>, b: seq<Effect>)
    requires Replay(pressed, a).Some?
    ensures Replay(pressed, a + b) == Replay(Replay(pressed, a).value, b)
    decreases |a|
  {
    if a == [] {
      assert a + b == b;
    } else {
      var ab, next := a + b, Press(pressed, a[0]);
      assert ab[0] == a[0] && ab[1..] == a[1..] + b;
      assert Replay(pressed, a) == Replay(next.value, a[1..]);
      ReplayAppend(next.value, a[1..], b);
    }
  }

  ghost predicate NoEmptyCode(held: Held) {
    forall c | c in held :: held[c] != {}
  }

  ghost predicate OwnersAccepted(held: Held) {
    forall c, o | c in held && o in held[c] :: NoControl(o)
  }

  lemma HoldOneReplays(held: Held, current: Code, code: Code, owner: Owner)
    requires NoEmptyCode(held)
    ensures
      var (h, effects) := HoldOne(held, current, code, owner);
      NoEmptyCode(h) && Replay(held.Keys, effects) == Some(h.Keys)
  {
    var (h, effects) := HoldOne(held, current, code, owner);
    assert ActiveSet(held) == held.Keys && ActiveSet(h) == h.Keys == held.Keys + {current};
    if effects != [] {
      assert effects[1..] == [];
    } else {
      assert h.Keys == held.Keys;
    }
  }

  lemma ReleaseOneReplays(held: Held, current: Code, code: Code, owner: Owner)
    requires NoEmptyCode(held)
    ensures
      var (h, effects) := ReleaseOne(held, current, code, owner);
      NoEmptyCode(h) && Replay(held.Keys, effects) == Some(h.Keys)
  {
    var (h, effects) := ReleaseOne(held, current, code, owner);
    assert ActiveSet(held) == held.Keys && ActiveSet(h) == h.Keys;
    if effects != [] {
      assert effects[1..] == [];
    } else {
      assert h.Keys == held.Keys;
    }
  }

  lemma {:induction false} HoldReplays(held: Held, codes: seq<Code>, code: Code, owner: Owner)
    requires NoEmptyCode(held)
    ensures
      var (h, effects) := HoldAll(held, codes, code, owner);
      NoEmptyCode(h) && Replay(held.Keys, effects) == Some(h.Keys)
  {
    if codes != [] {
      var front := codes[..|codes| - 1];
      HoldReplays(held, front, code, owner);
      var (h, effects) := HoldAll(held, front, code, owner);
      HoldOneReplays(h, codes[|codes| - 1], code, owner);
      ReplayAppend(held.Keys, effects, HoldOne(h, codes[|codes| - 1], code, owner).1);
    }
  }

  lemma {:induction false} ReleaseReplays(held: Held, codes: seq<Code>, code: Code, owner: Owner)
    requires NoEmptyCode(held)
    ensures
      var (h, effects) := ReleaseAll(held, codes, code, owner);
      NoEmptyCode(h) && Replay(held.Keys, effects) == Some(h.Keys)
  {
    if codes != [] {
      var (h, effects) := ReleaseOne(held, codes[0], code, owner);
      ReleaseOneReplays(held, codes[0], code, owner);
      ReleaseReplays(h, codes[1..], code, owner);
      ReplayAppend(held.Keys, effects, ReleaseAll(h, codes[1..], code, owner).1);
    }
  }

  // ---- Owner maps after a hold and after a release -----------------------------------------

  function WithOwner(held: Held, codes: set<Code>, owner: Owner): Held {
    map c | c in held.Keys + codes :: if c in codes then Owners(held, c) + {owner} else held[c]
  }

  function WithoutOwner(held: Held, codes: set<Code>, owner: Owner): Held {
    map c | c in held && (c in codes ==> held[c] - {owner} != {}) ::
      if c in codes then held[c] - {owner} else held[c]
  }

  lemma WithOwnerNext(held: Held, codes: set<Code>, c: Code, owner: Owner)
    ensures
      var h := WithOwner(held, codes, owner);
      WithOwner(held, codes + {c}, owner) == h[c := Owners(h, c) + {owner}]
  {
  }

  lemma WithoutOwnerFirst(held: Held, codes: set<Code>, c: Code, owner: Owner)
    ensures WithoutOwner(WithoutOwner(held, {c}, owner), codes, owner) == WithoutOwner(held, {c} + codes, owner)
  {
    if c in held {
      assert (held[c] - {owner}) - {owner} == held[c] - {owner};
    }
  }

  lemma {:induction false} HoldAddsOwner(held: Held, codes: seq<Code>, code: Code, owner: Owner)
    ensures HoldAll(held, codes, code, owner).0 == WithOwner(held, SetOf(codes), owner)
  {
    if codes == [] {
      assert WithOwner(held, {}, owner) == held;
    } else {
      var front, last := codes[..|codes| - 1], codes[|codes| - 1];
      assert codes == front + [last];
      HoldAddsOwner(held, front, code, owner);
      assert SetOf(codes) == SetOf(front) + {last};
      WithOwnerNext(held, SetOf(front), last, owner);
    }
  }

  lemma ReleaseOneDropsOwner(held: Held, current: Code, code: Code, owner: Owner)
    requires NoEmptyCode(held)
    ensures ReleaseOne(held, current, code, owner).0 == WithoutOwner(held, {current}, owner)
    ensures NoEmptyCode(ReleaseOne(held, current, code, owner).0)
  {
    ReleaseOneReplays(held, current, code, owner);
  }

  lemma {:induction false} ReleaseDropsOwner(held: Held, codes: seq<Code>, code: Code, owner: Owner)
    requires NoEmptyCode(held)
    ensures ReleaseAll(held, codes, code, owner).0 == WithoutOwner(held, SetOf(codes), owner)
  {
    if codes == [] {
      assert WithoutOwner(held, {}, owner) == held;
    } else {
      assert codes == [codes[0]] + codes[1..];
      var h := ReleaseOne(held, codes[0], code, owner).0;
      ReleaseOneDropsOwner(held, codes[0], code, owner);
      ReleaseDropsOwner(h, codes[1..], code, owner);
      assert SetOf(codes) == {codes[0]} + SetOf(codes[1..]);
      WithoutOwnerFirst(held, SetOf(codes[1..]), codes[0], owner);
    }
  }

  lemma OwnerCancels(held: Held, codes: set<Code>, owner: Owner)
    requires NoEmptyCode(held)
    requires forall c | c in codes :: owner !in Owners(held, c)
    ensures WithoutOwner(WithOwner(held, codes, owner), codes, owner) == held
  {
    assert forall c | c in codes :: (Owners(held, c) + {owner}) - {owner} == Owners(held, c);
  }

  /** Holding then releasing the same keys by a new owner restores the owner map. */
  lemma HoldThenReleaseRestores(held: Held, code: Code, modifiers: seq<Code>, owner: Owner)
    requires NoEmptyCode(held)
    requires owner !in Owners(held, code) && forall m | m in modifiers :: owner !in Owners(held, m)
    ensures ApplyRelease(ApplyHold(held, code, modifiers, owner).0, code, modifiers, owner).0 == held
  {
    var down, up := modifiers + [code], [code] + Reverse(modifiers);
    assert SetOf(down) == SetOf(up);
    HoldAddsOwner(held, down, code, owner);
    HoldReplays(held, down, code, owner);
    ReleaseDropsOwner(HoldAll(held, down, code, owner).0, up, code, owner);
    OwnerCancels(held, SetOf(down), owner);
  }

  // ---- Mirror-image scripts ----------------------------------------------------------------

  function Mirror(e: Effect): Effect {
    Effect(KeyUp, e.code, e.activeAfter, e.activeBefore, false, e.suppressShortcut)
  }

  /** The script undone: every effect mirrored, in reverse order. */
  function MirrorScript(script: seq<Effect>): seq<Effect> {
    if script == [] then []
    else [Mirror(script[|script| - 1])] + MirrorScript(script[..|script| - 1])
  }

  lemma MirrorAppend(a: seq<Effect>, b: seq<Effect>)
    requires |b| <= 1
    ensures MirrorScript(a + b) == MirrorScript(b) + MirrorScript(a)
  {
    if b == [] {
      assert a + b == a;
    } else {
      assert (a + b)[..|a|] == a;
      assert MirrorScript(b) == [Mirror(b[0])];
    }
  }

  lemma ReleaseOneUndoesHoldOne(held: Held, current: Code, code: Code, owner: Owner)
    requires NoEmptyCode(held) && owner !in Owners(held, current)
    ensures
      var (h, effects) := HoldOne(held, current, code, owner);
      ReleaseOne(h, current, code, owner) == (held, MirrorScript(effects))
  {
    var (h, effects) := HoldOne(held, current, code, owner);
    assert h[current] - {owner} == Owners(held, current);
    if current in held {
      assert h[current := held[current]] == held;
    } else {
      assert h - {current} == held;
      assert |effects| == 1 && effects[..0] == [];
      assert MirrorScript(effects) == [Mirror(effects[0])];
      assert ReleaseOne(h, current, code, owner) == (held, [Mirror(effects[0])]);
    }
  }

  lemma HoldLeavesOthersAlone(held: Held, codes: seq<Code>, c: Code, code: Code, owner: Owner)
    requires NoEmptyCode(held) && c !in codes && owner !in Owners(held, c)
    ensures
      var h := HoldAll(held, codes, code, owner).0;
      NoEmptyCode(h) && owner !in Owners(h, c)
  {
    HoldReplays(held, codes, code, owner);
    HoldAddsOwner(held, codes, code, owner);
  }

  lemma ReleaseAllFirst(held: Held, c: Code, rest: seq<Code>, code: Code, owner: Owner)
    ensures
      var (h, effects) := ReleaseOne(held, c, code, owner);
      var (h', more) := ReleaseAll(h, rest, code, owner);
      ReleaseAll(held, [c] + rest, code, owner) == (h', effects + more)
  {
    assert ([c] + rest)[1..] == rest;
  }

  lemma {:induction false} HoldThenReleaseMirrors(held: Held, codes: seq<Code>, code: Code, owner: Owner)
    requires NoEmptyCode(held) && NoDup(codes)
    requires forall c | c in codes :: owner !in Owners(held, c)
    ensures
      var (h, effects) := HoldAll(held, codes, code, owner);
      ReleaseAll(h, Reverse(codes), code, owner) == (held, MirrorScript(effects))
  {
    if codes != [] {
      var front, last := codes[..|codes| - 1], codes[|codes| - 1];
      var (h, effects) := HoldAll(held, front, code, owner);
      var (h', more) := HoldOne(h, last, code, owner);
      HoldThenReleaseMirrors(held, front, code, owner);
      HoldLeavesOthersAlone(held, front, last, code, owner);
      ReleaseOneUndoesHoldOne(h, last, code, owner);
      MirrorAppend(effects, more);
      ReleaseAllFirst(h', last, Reverse(front), code, owner);
    }
  }

  lemma ReverseAppend<T(!new)>(s: seq<T>, x: T)
    ensures Reverse(s + [x]) == [x] + Reverse(s)
  {
    assert (s + [x])[..|s|] == s;
  }

  /**
   * Main result: with the main key not among the modifiers, releasing what a new owner holds
   * restores the owner map and emits the mirror image of the hold's script.
   */
  lemma HoldReleaseRoundTrip(held: Held, code: Code, modifiers: seq<Code>, owner: Owner)
    requires NoEmptyCode(held) && NoDup(modifiers) && code !in modifiers
    requires owner !in Owners(held, code) && forall m | m in modifiers :: owner !in Owners(held, m)
    ensures
      var (h, down) := ApplyHold(held, code, modifiers, owner);
      ApplyRelease(h, code, modifiers, owner) == (held, MirrorScript(down))
  {
    ReverseAppend(modifiers, code);
    HoldThenReleaseMirrors(held, modifiers + [code], code, owner);
  }

  // ---- Taps --------------------------------------------------------------------------------

  lemma TapOwnerIsNew(held: Held, uuid: string, owner: Owner, c: Code)
    requires OwnersAccepted(held)
    ensures TapOwner(uuid, owner) !in Owners(held, c)
  {
    var t := TapOwner(uuid, owner);
    assert t[0] == '\0' && IsControl(t[0]);
    assert !NoControl(t);
  }

  /** Main result: a tap leaves the owner map as it found it. */
  lemma TapRestores(held: Held, code: Code, modifiers: seq<Code>, owner: Owner, uuid: string)
    requires NoEmptyCode(held) && OwnersAccepted(held)
    ensures ApplyTap(held, code, modifiers, owner, uuid).0 == held
  {
    var t := TapOwner(uuid, owner);
    forall c ensures t !in Owners(held, c) { TapOwnerIsNew(held, uuid, owner, c); }
    HoldThenReleaseRestores(held, code, modifiers, t);
  }

  /** A hold presses only keys that were not held. */
  lemma {:induction false} HoldPressesNewCodes(held: Held, codes: seq<Code>, code: Code, owner: Owner)
    requires NoEmptyCode(held)
    ensures forall e | e in HoldAll(held, codes, code, owner).1 :: e.code !in held
  {
    if codes != [] {
      var front := codes[..|codes| - 1];
      HoldPressesNewCodes(held, front, code, owner);
      HoldAddsOwner(held, front, code, owner);
    }
  }

  lemma {:induction false} OtherCodesIdentity(effects: seq<Effect>, code: Code)
    requires forall e | e in effects :: e.code != code
    ensures OtherCodes(effects, code) == effects
  {
    if effects != [] {
      assert effects[0] in effects;
      OtherCodesIdentity(effects[1..], code);
    }
  }

  lemma TapReplays(held: Held, code: Code, modifiers: seq<Code>, owner: Owner, uuid: string)
    requires NoEmptyCode(held) && OwnersAccepted(held)
    ensures Replay(held.Keys, ApplyTap(held, code, modifiers, owner, uuid).1) == Some(held.Keys)
  {
    var t := TapOwner(uuid, owner);
    var codes := modifiers + [code];
    var (h, down) := ApplyHold(held, code, modifiers, t);
    var (h', up) := ApplyRelease(h, code, modifiers, t);
    TapRestores(held, code, modifiers, owner, uuid);
    TapOwnerIsNew(held, uuid, owner, code);
    HoldReplays(held, codes, code, t);
    HoldAddsOwner(held, codes, code, t);
    assert code in SetOf(codes);
    assert Owners(h, code) - {t} == Owners(held, code);
    ReleaseReplays(h, [code] + Reverse(modifiers), code, t);
    if Owners(held, code) != {} {
      HoldPressesNewCodes(held, codes, code, t);
      OtherCodesIdentity(down, code);
      var repeat := Effect(RawKeyDown, code, Active(h), Active(h), true, true);
      assert ActiveSet(h) == h.Keys;
      assert [repeat][1..] == [];
      ReplayAppend(held.Keys, down, [repeat]);
      ReplayAppend(held.Keys, down + [repeat], up);
    } else {
      ReplayAppend(held.Keys, down, up);
    }
  }

  // ---- Any phase ---------------------------------------------------------------------------

  lemma PhaseReplays(held: Held, phase: string, code: Code, modifiers: seq<Code>, owner: Owner, uuid: string)
    requires NoEmptyCode(held) && OwnersAccepted(held) && ValidPhase(phase)
    ensures
      var (h, effects) := ApplyPhase(held, phase, code, modifiers, owner, uuid);
      NoEmptyCode(h) && Replay(held.Keys, effects) == Some(h.Keys)
  {
    if phase == "hold" {
      HoldReplays(held, modifiers + [code], code, owner);
    } else if phase == "release" {
      ReleaseReplays(held, [code] + Reverse(modifiers), code, owner);
    } else {
      TapReplays(held, code, modifiers, owner, uuid);
      TapRestores(held, code, modifiers, owner, uuid);
    }
  }

  lemma PhaseKeepsOwners(held: Held, phase: string, code: Code, modifiers: seq<Code>, owner: Owner, uuid: string)
    requires NoEmptyCode(held) && OwnersAccepted(held) && NoControl(owner) && ValidPhase(phase)
    ensures OwnersAccepted(ApplyPhase(held, phase, code, modifiers, owner, uuid).0)
  {
    if phase == "hold" {
      HoldAddsOwner(held, modifiers + [code], code, owner);
    } else if phase == "release" {
      ReleaseDropsOwner(held, [code] + Reverse(modifiers), code, owner);
    } else {
      TapRestores(held, code, modifiers, owner, uuid);
    }
  }

  // ---- Runs --------------------------------------------------------------------------------

  datatype World = World(
    rt: State,
    committed: map<Role, Held>,              // owner map after the last committed transition
    script: map<Role, seq<Effect>>,          // effects of committed transitions since the last clear
    flight: map<TransitionId, seq<Effect>>,  // effects of transitions not yet completed
    used: set<TransitionId>)

  datatype Event =
    | Prepare(role: Role, phase: string, code: Code, modifiers: seq<Code>, owner: Owner,
              id: TransitionId, uuid: string)
    | Complete(id: TransitionId, succeeded: bool)
    | ClearRole(role: Role)
    | Shutdown

  const Start := World(Initial, map[], map[], map[], {})

  predicate Allowed(w: World, e: Event) {
    e.Prepare? ==> e.id !in w.used
  }

  function Committed(w: World, role: Role): Held {
    if role in w.committed then w.committed[role] else map[]
  }

  function Script(w: World, role: Role): seq<Effect> {
    if role in w.script then w.script[role] else []
  }

  ghost function Prepared(w: World, e: Event): World
    requires e.Prepare?
  {
    var (rt, r) := PrepareStep(w.rt, e.role, e.phase, e.code, e.modifiers, e.owner, e.id, e.uuid);
    if r.Err? then w.(rt := rt)
    else w.(rt := rt, flight := w.flight[e.id := r.value.effects], used := w.used + {e.id})
  }

  function Completed(w: World, id: TransitionId, succeeded: bool): World {
    var rt := CompleteStep(w.rt, id, succeeded).0;
    if id !in w.rt.pending || id !in w.flight then w.(rt := rt)
    else
      var role := w.rt.pending[id].role;
      World(rt,
            if succeeded then w.committed[role := HeldBy(rt, role)] else w.committed,
            if succeeded then w.script[role := Script(w, role) + w.flight[id]] else w.script,
            w.flight - {id}, w.used)
  }

  function Cleared(w: World, role: Role): World {
    var rt := ClearStep(w.rt, role);
    World(rt, w.committed - {role}, w.script - {role},
          map id | id in w.flight && id in rt.pending :: w.flight[id], w.used)
  }

  ghost function Next(w: World, e: Event): World
    requires Allowed(w, e)
  {
    match e
    case Prepare(_, _, _, _, _, _, _) => Prepared(w, e)
    case Complete(id, succeeded) => Completed(w, id, succeeded)
    case ClearRole(role) => Cleared(w, role)
    case Shutdown => World(Initial, map[], map[], map[], w.used)
  }

  ghost predicate HeldOk(held: Held) {
    NoEmptyCode(held) && OwnersAccepted(held)
  }

  ghost predicate Bounded(w: World) {
    w.flight.Keys == w.rt.pending.Keys <= w.used && |w.rt.pending| <= MAX_PENDING_TRANSITIONS
  }

  /** The pending roles are the roles of the pending transitions, one transition each. */
  ghost predicate OnePerRole(rt: State) {
    && (forall r :: r in rt.pendingRoles <==> exists id :: id in rt.pending && rt.pending[id].role == r)
    && (forall a, b | a in rt.pending && b in rt.pending && rt.pending[a].role == rt.pending[b].role :: a == b)
  }

  ghost predicate TransitionOk(w: World, id: TransitionId) {
    id in w.rt.pending && id in w.flight ==>
      var p := w.rt.pending[id];
      && p.before == Committed(w, p.role)
      && Replay(p.before.Keys, w.flight[id]) == Some(HeldBy(w.rt, p.role).Keys)
  }

  ghost predicate FlightOk(w: World) {
    forall id :: TransitionOk(w, id)
  }

  ghost predicate RoleOk(w: World, r: Role) {
    && (r in w.rt.held ==> w.rt.held[r] != map[])
    && HeldOk(HeldBy(w.rt, r))
    && HeldOk(Committed(w, r))
    && Replay({}, Script(w, r)) == Some(Committed(w, r).Keys)
    && (r !in w.rt.pendingRoles ==> HeldBy(w.rt, r) == Committed(w, r))
  }

  ghost predicate RolesOk(w: World) {
    forall r :: RoleOk(w, r)
  }

  ghost predicate Inv(w: World) {
    Bounded(w) && OnePerRole(w.rt) && FlightOk(w) && RolesOk(w)
  }

  function WithPending(w: World, role: Role, id: TransitionId, held: Held, effects: seq<Effect>): World {
    w.(rt := State(StoreHeld(w.rt.held, role, held), w.rt.pending[id := Pending(HeldBy(w.rt, role), role)],
                   w.rt.pendingRoles + {role}),
       flight := w.flight[id := effects], used := w.used + {id})
  }

  lemma PreparedShape(w: World, e: Event)
    requires e.Prepare? && HeldOk(HeldBy(w.rt, e.role))
    requires PrepareStep(w.rt, e.role, e.phase, e.code, e.modifiers, e.owner, e.id, e.uuid).1.Ok?
    ensures
      var before := HeldBy(w.rt, e.role);
      var (held, effects) := ApplyPhase(before, e.phase, e.code, e.modifiers, e.owner, e.uuid);
      && HeldOk(held) && Replay(before.Keys, effects) == Some(held.Keys)
      && Prepared(w, e) == WithPending(w, e.role, e.id, held, effects)
  {
    var before := HeldBy(w.rt, e.role);
    PhaseReplays(before, e.phase, e.code, e.modifiers, e.owner, e.uuid);
    PhaseKeepsOwners(before, e.phase, e.code, e.modifiers, e.owner, e.uuid);
    var held := ApplyPhase(before, e.phase, e.code, e.modifiers, e.owner, e.uuid).0;
    assert RemoveEmptyCodes(held) == held;
  }

  lemma PrepareInv(w: World, e: Event)
    requires Inv(w) && e.Prepare? && Allowed(w, e)
    ensures Inv(Prepared(w, e))
  {
    if PrepareStep(w.rt, e.role, e.phase, e.code, e.modifiers, e.owner, e.id, e.uuid).1.Ok? {
      assert RoleOk(w, e.role);
      PreparedShape(w, e);
      var (held, effects) := ApplyPhase(HeldBy(w.rt, e.role), e.phase, e.code, e.modifiers, e.owner, e.uuid);
      PreparedInv(w, e.role, e.id, held, effects);
    }
  }

  lemma PendingRolesGrow(rt: State, rt': State, role: Role, id: TransitionId)
    requires OnePerRole(rt) && id !in rt.pending && role !in rt.pendingRoles
    requires exists before :: rt'.pending == rt.pending[id := Pending(before, role)]
    requires rt'.pendingRoles == rt.pendingRoles + {role}
    ensures OnePerRole(rt')
  {
    forall r ensures r in rt'.pendingRoles <==> exists i :: i in rt'.pending && rt'.pending[i].role == r {
      if i :| i in rt.pending && rt.pending[i].role == r { assert rt'.pending[i].role == r; }
      if r == role { assert rt'.pending[id].role == r; }
    }
    forall a, b | a in rt'.pending && b in rt'.pending && rt'.pending[a].role == rt'.pending[b].role ensures a == b {
      if a in rt.pending { assert rt.pending[a].role in rt.pendingRoles; }
      if b in rt.pending { assert rt.pending[b].role in rt.pendingRoles; }
    }
  }

  lemma PreparedRole(w: World, role: Role, id: TransitionId, held: Held, effects: seq<Effect>, r: Role)
    requires RoleOk(w, r) && HeldOk(held)
    ensures RoleOk(WithPending(w, role, id, held, effects), r)
  {
  }

  lemma PreparedTransition(w: World, role: Role, id: TransitionId, held: Held, effects: seq<Effect>, i: TransitionId)
    requires TransitionOk(w, i) && OnePerRole(w.rt) && RoleOk(w, role) && role !in w.rt.pendingRoles
    requires Replay(HeldBy(w.rt, role).Keys, effects) == Some(held.Keys)
    ensures TransitionOk(WithPending(w, role, id, held, effects), i)
  {
    if i != id && i in w.rt.pending { assert w.rt.pending[i].role in w.rt.pendingRoles; }
  }

  lemma PreparedInv(w: World, role: Role, id: TransitionId, held: Held, effects: seq<Effect>)
    requires Inv(w) && id !in w.used && role !in w.rt.pendingRoles && |w.rt.pending| < MAX_PENDING_TRANSITIONS
    requires HeldOk(held) && Replay(HeldBy(w.rt, role).Keys, effects) == Some(held.Keys)
    ensures Inv(WithPending(w, role, id, held, effects))
  {
    var w' := WithPending(w, role, id, held, effects);
    PendingRolesGrow(w.rt, w'.rt, role, id);
    forall r ensures RoleOk(w', r) {
      assert RoleOk(w, r);
      PreparedRole(w, role, id, held, effects, r);
    }
    forall i ensures TransitionOk(w', i) {
      assert TransitionOk(w, i) && RoleOk(w, role);
      PreparedTransition(w, role, id, held, effects, i);
    }
  }

  // ---- Completion, clearing, shutdown ------------------------------------------------------

  lemma PendingRolesShrink(rt: State, rt': State, gone: Role)
    requires OnePerRole(rt)
    requires rt'.pending == map id | id in rt.pending && rt.pending[id].role != gone :: rt.pending[id]
    requires rt'.pendingRoles == rt.pendingRoles - {gone}
    ensures OnePerRole(rt')
  {
    forall r ensures r in rt'.pendingRoles <==> exists i :: i in rt'.pending && rt'.pending[i].role == r {
      if r in rt'.pendingRoles {
        var i :| i in rt.pending && rt.pending[i].role == r;
        assert rt'.pending[i].role == r;
      }
      if i :| i in rt'.pending && rt'.pending[i].role == r { assert rt.pending[i].role == r; }
    }
  }

  /** The runtime part of completing or clearing a role leaves only the other roles' transitions. */
  lemma OnlyTransitionOfItsRole(rt: State, id: TransitionId)
    requires OnePerRole(rt) && id in rt.pending
    ensures rt.pending - {id} == map i | i in rt.pending && rt.pending[i].role != rt.pending[id].role :: rt.pending[i]
  {
  }

  /** `w'` differs from `w` only at `role`, whose transition is gone and whose map is committed. */
  lemma SettledInv(w: World, w': World, role: Role)
    requires Inv(w) && w'.used == w.used
    requires w'.rt.pending == map id | id in w.rt.pending && w.rt.pending[id].role != role :: w.rt.pending[id]
    requires w'.rt.pendingRoles == w.rt.pendingRoles - {role}
    requires w'.flight == map id | id in w.flight && id in w'.rt.pending :: w.flight[id]
    requires w'.rt.held - {role} == w.rt.held - {role}
    requires w'.committed - {role} == w.committed - {role} && w'.script - {role} == w.script - {role}
    requires RoleOk(w', role)
    ensures Inv(w')
  {
    PendingRolesShrink(w.rt, w'.rt, role);
    assert w'.rt.pending.Keys <= w.rt.pending.Keys;
    SubsetSize(w'.rt.pending.Keys, w.rt.pending.Keys);
    assert |w'.rt.pending.Keys| == |w'.rt.pending| && |w.rt.pending.Keys| == |w.rt.pending|;
    forall r ensures RoleOk(w', r) {
      if r != role { SameRole(w, w', role, r); }
    }
    forall id ensures TransitionOk(w', id) {
      assert TransitionOk(w, id);
      if id in w'.rt.pending { SameMaps(w, w', role, w.rt.pending[id].role); }
    }
  }

  lemma SameMaps(w: World, w': World, role: Role, r: Role)
    requires w'.rt.held - {role} == w.rt.held - {role} && r != role
    requires w'.committed - {role} == w.committed - {role} && w'.script - {role} == w.script - {role}
    ensures HeldBy(w'.rt, r) == HeldBy(w.rt, r) && Committed(w', r) == Committed(w, r) && Script(w', r) == Script(w, r)
    ensures r in w'.rt.held <==> r in w.rt.held
  {
    assert r in w'.rt.held <==> r in w'.rt.held - {role};
    assert r in w.rt.held <==> r in w.rt.held - {role};
    assert r in w'.rt.held ==> (w'.rt.held - {role})[r] == w'.rt.held[r];
    assert r in w'.committed <==> r in w'.committed - {role};
    assert r in w.committed <==> r in w.committed - {role};
    assert r in w'.committed ==> (w'.committed - {role})[r] == w'.committed[r];
    assert r in w'.script <==> r in w'.script - {role};
    assert r in w.script <==> r in w.script - {role};
    assert r in w'.script ==> (w'.script - {role})[r] == w'.script[r];
  }

  lemma SameRole(w: World, w': World, role: Role, r: Role)
    requires RolesOk(w) && r != role && w'.rt.pendingRoles == w.rt.pendingRoles - {role}
    requires w'.rt.held - {role} == w.rt.held - {role}
    requires w'.committed - {role} == w.committed - {role} && w'.script - {role} == w.script - {role}
    ensures RoleOk(w', r)
  {
    assert RoleOk(w, r);
    SameMaps(w, w', role, r);
  }

  lemma CompletedRole(w: World, id: TransitionId, succeeded: bool)
    requires id in w.rt.pending && id in w.flight && TransitionOk(w, id) && RoleOk(w, w.rt.pending[id].role)
    ensures RoleOk(Completed(w, id, succeeded), w.rt.pending[id].role)
  {
    ReplayAppend({}, Script(w, w.rt.pending[id].role), w.flight[id]);
  }

  lemma CompletedMaps(w: World, id: TransitionId, succeeded: bool)
    requires id in w.rt.pending && id in w.flight
    ensures
      var w', role := Completed(w, id, succeeded), w.rt.pending[id].role;
      && w'.rt.held - {role} == w.rt.held - {role}
      && w'.committed - {role} == w.committed - {role} && w'.script - {role} == w.script - {role}
  {
  }

  lemma CompletedPending(w: World, id: TransitionId, succeeded: bool)
    requires Bounded(w) && OnePerRole(w.rt) && id in w.rt.pending
    ensures
      var w', role := Completed(w, id, succeeded), w.rt.pending[id].role;
      && w'.used == w.used
      && w'.rt.pending == (map i | i in w.rt.pending && w.rt.pending[i].role != role :: w.rt.pending[i])
      && w'.rt.pendingRoles == w.rt.pendingRoles - {role}
      && w'.flight == (map i | i in w.flight && i in w'.rt.pending :: w.flight[i])
  {
    OnlyTransitionOfItsRole(w.rt, id);
  }

  lemma CompleteInv(w: World, id: TransitionId, succeeded: bool)
    requires Inv(w)
    ensures Inv(Completed(w, id, succeeded))
  {
    if id in w.rt.pending {
      var role := w.rt.pending[id].role;
      assert id in w.flight && TransitionOk(w, id) && RoleOk(w, role);
      CompletedRole(w, id, succeeded);
      CompletedPending(w, id, succeeded);
      CompletedMaps(w, id, succeeded);
      SettledInv(w, Completed(w, id, succeeded), role);
    }
  }

  lemma ClearedRole(w: World, role: Role)
    ensures RoleOk(Cleared(w, role), role)
  {
    var w' := Cleared(w, role);
    assert HeldBy(w'.rt, role) == map[] && Committed(w', role) == map[] && Script(w', role) == [];
    assert Committed(w', role).Keys == {};
  }

  lemma ClearedShape(w: World, role: Role)
    ensures
      var w' := Cleared(w, role);
      && w'.rt.held - {role} == w.rt.held - {role}
      && w'.committed - {role} == w.committed - {role} && w'.script - {role} == w.script - {role}
  {
  }

  lemma ClearInv(w: World, role: Role)
    requires Inv(w)
    ensures Inv(Cleared(w, role))
  {
    ClearedRole(w, role);
    ClearedShape(w, role);
    SettledInv(w, Cleared(w, role), role);
  }

  lemma NextInv(w: World, e: Event)
    requires Inv(w) && Allowed(w, e)
    ensures Inv(Next(w, e))
  {
    match e
    case Prepare(_, _, _, _, _, _, _) => PrepareInv(w, e);
    case Complete(id, succeeded) => CompleteInv(w, id, succeeded);
    case ClearRole(role) => ClearInv(w, role);
    case Shutdown =>
  }

  ghost predicate ValidRun(w: World, events: seq<Event>)
    decreases |events|
  {
    events == [] || (Allowed(w, events[0]) && ValidRun(Next(w, events[0]), events[1..]))
  }

  ghost function After(w: World, events: seq<Event>): World
    requires ValidRun(w, events)
    decreases |events|
  {
    if events == [] then w else After(Next(w, events[0]), events[1..])
  }

  lemma {:induction false} RunInv(w: World, events: seq<Event>)
    requires Inv(w) && ValidRun(w, events)
    ensures Inv(After(w, events))
    decreases |events|
  {
    if events != [] {
      NextInv(w, events[0]);
      RunInv(Next(w, events[0]), events[1..]);
    }
  }

  // ---- Main results ------------------------------------------------------------------------

  /**
   * In every reachable state, replaying a role's committed effects since its last clear, from no
   * keys down, fits at every step and ends at exactly the codes the runtime holds committed; and
   * an uncompleted transition's effects lead from there to the codes held now.
   */
  lemma ScriptsMatchHeldKeys(events: seq<Event>, role: Role)
    requires ValidRun(Start, events)
    ensures
      var w := After(Start, events);
      && Replay({}, Script(w, role)) == Some(Committed(w, role).Keys)
      && (role !in w.rt.pendingRoles ==> Replay({}, Script(w, role)) == Some(HeldBy(w.rt, role).Keys))
      && (role in w.rt.pendingRoles ==>
            exists id :: id in w.flight && id in w.rt.pending && w.rt.pending[id].role == role &&
              Replay({}, Script(w, role) + w.flight[id]) == Some(HeldBy(w.rt, role).Keys))
  {
    RunInv(Start, events);
    var w := After(Start, events);
    assert RoleOk(w, role);
    if role in w.rt.pendingRoles {
      var id :| id in w.rt.pending && w.rt.pending[id].role == role;
      assert id in w.flight && TransitionOk(w, id);
      ReplayAppend({}, Script(w, role), w.flight[id]);
    }
  }

  /** A failed completion puts back exactly that role's committed owner map, and no other role's. */
  lemma FailureRestoresOnlyItsRole(w: World, id: TransitionId, r: Role)
    requires Inv(w) && id in w.rt.pending
    ensures
      var w' := Next(w, Complete(id, false));
      HeldBy(w'.rt, r) == if r == w.rt.pending[id].role then Committed(w, r) else HeldBy(w.rt, r)
  {
    assert TransitionOk(w, id) && id in w.flight;
  }

  ghost predicate Touches(e: Event, role: Role, id: TransitionId) {
    match e
    case Prepare(_, _, _, _, _, _, _) => false
    case Complete(i, _) => i == id
    case ClearRole(r) => r == role
    case Shutdown => true
  }

  /** Whatever other transitions do meanwhile, a failure rolls back to the map before the prepare. */
  lemma {:induction false} RollbackSpansOtherWork(w: World, events: seq<Event>, id: TransitionId)
    requires Inv(w) && id in w.rt.pending && ValidRun(w, events)
    requires forall e | e in events :: !Touches(e, w.rt.pending[id].role, id)
    ensures
      var w' := After(w, events);
      && id in w'.rt.pending
      && HeldBy(Next(w', Complete(id, false)).rt, w.rt.pending[id].role) == Committed(w, w.rt.pending[id].role)
    decreases |events|
  {
    if events == [] {
      FailureRestoresOnlyItsRole(w, id, w.rt.pending[id].role);
    } else {
      var e, next := events[0], Next(w, events[0]);
      NextInv(w, e);
      StepKeepsTransition(w, e, id);
      RollbackSpansOtherWork(next, events[1..], id);
    }
  }

  lemma PreparedFrame(w: World, e: Event, id: TransitionId)
    requires e.Prepare? && e.id != id && id in w.rt.pending
    ensures
      var w' := Prepared(w, e);
      id in w'.rt.pending && w'.rt.pending[id] == w.rt.pending[id] && w'.committed == w.committed
  {
  }

  lemma CompletedFrame(w: World, i: TransitionId, succeeded: bool, id: TransitionId)
    requires i != id && id in w.rt.pending && (i in w.rt.pending ==> w.rt.pending[i].role != w.rt.pending[id].role)
    ensures
      var w' := Completed(w, i, succeeded);
      && id in w'.rt.pending && w'.rt.pending[id] == w.rt.pending[id]
      && Committed(w', w.rt.pending[id].role) == Committed(w, w.rt.pending[id].role)
  {
  }

  lemma StepKeepsTransition(w: World, e: Event, id: TransitionId)
    requires w.rt.pending.Keys <= w.used && OnePerRole(w.rt) && id in w.rt.pending
    requires Allowed(w, e) && !Touches(e, w.rt.pending[id].role, id)
    ensures
      var w' := Next(w, e);
      && id in w'.rt.pending && w'.rt.pending[id] == w.rt.pending[id]
      && Committed(w', w.rt.pending[id].role) == Committed(w, w.rt.pending[id].role)
  {
    match e
    case Prepare(_, _, _, _, _, _, _) => PreparedFrame(w, e, id);
    case Complete(i, succeeded) => CompletedFrame(w, i, succeeded, id);
    case ClearRole(_) =>
  }

  /** Prepare remembers the map it started from. */
  lemma PrepareRemembersCommittedMap(w: World, e: Event)
    requires Inv(w) && Allowed(w, e) && e.Prepare? && e.id in Next(w, e).rt.pending
    ensures Next(w, e).rt.pending[e.id] == Pending(HeldBy(w.rt, e.role), e.role)
    ensures Committed(Next(w, e), e.role) == HeldBy(w.rt, e.role)
  {
    assert e.id !in w.rt.pending && RoleOk(w, e.role);
  }

  /** A completion arriving after its role was cleared is refused and changes nothing, in any run. */
  lemma {:induction false} LateCompletionIsRefused(w: World, events: seq<Event>, id: TransitionId, succeeded: bool)
    requires id in w.used && id !in w.rt.pending && ValidRun(w, events)
    ensures
      var w' := After(w, events);
      CompleteStep(w'.rt, id, succeeded) == (w'.rt, Err(NotFound))
    decreases |events|
  {
    if events != [] {
      LateCompletionIsRefused(Next(w, events[0]), events[1..], id, succeeded);
    }
  }

  lemma ClearForgetsItsTransition(w: World, id: TransitionId)
    requires Inv(w) && id in w.rt.pending
    ensures
      var w' := Next(w, ClearRole(w.rt.pending[id].role));
      id in w'.used && id !in w'.rt.pending && HeldBy(w'.rt, w.rt.pending[id].role) == map[]
  {
  }

  /** At most one transition per role is pending, and at most 512 in all. */
  lemma PendingIsBounded(events: seq<Event>, a: TransitionId, b: TransitionId)
    requires ValidRun(Start, events)
    ensures
      var rt := After(Start, events).rt;
      && |rt.pending| <= MAX_PENDING_TRANSITIONS
      && (a in rt.pending && b in rt.pending && rt.pending[a].role == rt.pending[b].role ==> a == b)
  {
    RunInv(Start, events);
  }

  lemma {:induction false} PressAgainCodes(codes: seq<Code>, active: seq<Code>)
    ensures
      var script := PressAgain(codes, active);
      && |script| == |codes|
      && forall k | 0 <= k < |codes| ::
           script[k] == Effect(RawKeyDown, codes[k], active, active, false, !IsModifierCode(codes[k]))
  {
    if codes != [] {
      PressAgainCodes(codes[1..], active);
    }
  }

  /**
   * Reasserting a settled role presses each code it holds exactly once, every modifier before every
   * other key, and reports the true pressed set throughout.
   */
  lemma ReassertPressesHeldCodesOnce(w: World, role: Role)
    requires Inv(w) && ReassertStep(w.rt, role).Ok?
    ensures
      var script := ReassertStep(w.rt, role).value.effects;
      && (forall c :: c in HeldBy(w.rt, role) <==> exists k :: 0 <= k < |script| && script[k].code == c)
      && PressesOnce(script, Sorted(HeldBy(w.rt, role).Keys))
  {
    assert RoleOk(w, role);
    var held := HeldBy(w.rt, role);
    assert ActiveSet(held) == held.Keys;
    if role in w.rt.held { ReassertScript(held); }
  }

  ghost predicate PressesOnce(script: seq<Effect>, active: seq<Code>) {
    && (forall j, k | 0 <= j < k < |script| ::
          script[j].code != script[k].code && (IsModifierCode(script[k].code) ==> IsModifierCode(script[j].code)))
    && forall k | 0 <= k < |script| ::
         script[k].phase == RawKeyDown && !script[k].autoRepeat &&
         script[k].activeBefore == script[k].activeAfter == active
  }

  lemma PressAgainOnce(codes: seq<Code>, active: seq<Code>)
    requires forall j, k | 0 <= j < k < |codes| ::
      codes[j] != codes[k] && (IsModifierCode(codes[k]) ==> IsModifierCode(codes[j]))
    ensures
      var script := PressAgain(codes, active);
      && (forall c :: c in codes <==> exists k :: 0 <= k < |script| && script[k].code == c)
      && PressesOnce(script, active)
  {
    PressAgainCodes(codes, active);
    var script := PressAgain(codes, active);
    forall c ensures c in codes <==> exists k :: 0 <= k < |script| && script[k].code == c {
      if c in codes {
        var k :| 0 <= k < |codes| && codes[k] == c;
        assert script[k].code == c;
      }
    }
  }

  lemma ReassertScript(held: Held)
    requires ActiveSet(held) == held.Keys
    ensures
      var script := PressAgain(ModifiersFirst(held), Active(held));
      && (forall c :: c in held <==> exists k :: 0 <= k < |script| && script[k].code == c)
      && PressesOnce(script, Sorted(held.Keys))
  {
    ReassertOrder(held);
    PressAgainOnce(ModifiersFirst(held), Active(held));
  }

  lemma ReassertOrder(held: Held)
    ensures
      var codes := ModifiersFirst(held);
      && (forall c :: c in codes <==> c in held)
      && forall j, k | 0 <= j < k < |codes| ::
           codes[j] != codes[k] && (IsModifierCode(codes[k]) ==> IsModifierCode(codes[j]))
  {
    var m := Sorted(set c | c in held && IsModifierCode(c));
    var o := Sorted(set c | c in held && !IsModifierCode(c));
    assert forall k | 0 <= k < |m| :: m[k] in m;
    assert forall k | 0 <= k < |o| :: o[k] in o;
  }
}
