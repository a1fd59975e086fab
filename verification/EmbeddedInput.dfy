/**
 * The embedded-input runtime: reference-counted held keys per role, the key-event script each
 * transition emits, and roll-back of transitions the host reports as failed.
 */
module EmbeddedInput {
  import opened Outcomes
  import opened StringOrder
  import opened Text

  type Role = string
  type Code = string
  type Owner = string
  type TransitionId = nat  // a UUID
  type Held = map<Code, set<Owner>>

  const MAX_PENDING_TRANSITIONS := 512
  const MAX_IDENTIFIER_LENGTH := 256

  datatype Phase = RawKeyDown | KeyUp

  datatype Effect = Effect(
    phase: Phase, code: Code, activeBefore: seq<Code>, activeAfter: seq<Code>,
    autoRepeat: bool, suppressShortcut: bool)

  datatype Pending = Pending(before: Held, role: Role)

  datatype State = State(held: map<Role, Held>, pending: map<TransitionId, Pending>, pendingRoles: set<Role>)

  const Initial := State(map[], map[], {})

  datatype Record = Record(transition: Option<TransitionId>, effects: seq<Effect>, hasHeldKeys: bool)

  datatype Error =
    | InvalidIdentifier
    | PhaseInvalid
    | TooManyModifiers
    | ModifierInvalid
    | Backpressure
    | Ordering
    | NotFound

  predicate ValidIdentifier(value: string) {
    !IsBlank(value) && ByteLength(value) <= MAX_IDENTIFIER_LENGTH && NoControl(value)
  }

  predicate NoControl(value: string) {
    forall i | 0 <= i < |value| :: !IsControl(value[i])
  }

  predicate IsModifierCode(code: Code) {
    code in {"AltLeft", "AltRight", "ControlLeft", "ControlRight",
             "MetaLeft", "MetaRight", "ShiftLeft", "ShiftRight"}
  }

  predicate ValidPhase(phase: string) {
    phase == "hold" || phase == "release" || phase == "tap"
  }

  /** The first problem in the modifier list, in list order. */
  function ModifierProblem(modifiers: seq<Code>, seen: set<Code>): Option<Error> {
    if modifiers == [] then None
    else if !ValidIdentifier(modifiers[0]) then Some(InvalidIdentifier)
    else if !IsModifierCode(modifiers[0]) || modifiers[0] in seen then Some(ModifierInvalid)
    else ModifierProblem(modifiers[1..], seen + {modifiers[0]})
  }

  function PrepareProblem(s: State, role: Role, phase: string, code: Code, modifiers: seq<Code>, owner: Owner)
    : Option<Error>
  {
    if !ValidIdentifier(role) || !ValidIdentifier(code) || !ValidIdentifier(owner) then Some(InvalidIdentifier)
    else if !ValidPhase(phase) then Some(PhaseInvalid)
    else if |modifiers| > 8 then Some(TooManyModifiers)
    else if ModifierProblem(modifiers, {}).Some? then ModifierProblem(modifiers, {})
    else if |s.pending| >= MAX_PENDING_TRANSITIONS then Some(Backpressure)
    else if role in s.pendingRoles then Some(Ordering)
    else None
  }

  // ---- Holds, releases and taps on one role's owner map ------------------------------------

  function Owners(held: Held, code: Code): set<Owner> {
    if code in held then held[code] else {}
  }

  function ActiveSet(held: Held): set<Code> {
    set c | c in held && held[c] != {}
  }

  ghost function Active(held: Held): seq<Code> {
    Sorted(ActiveSet(held))
  }

  ghost function HoldOne(held: Held, current: Code, code: Code, owner: Owner): (Held, seq<Effect>) {
    var owners := Owners(held, current);
    var held' := held[current := owners + {owner}];
    (held', if owners != {} then [] else
      [Effect(RawKeyDown, current, Active(held), Active(held'), false, current == code)])
  }

  ghost function HoldAll(held: Held, codes: seq<Code>, code: Code, owner: Owner): (Held, seq<Effect>) {
    if codes == [] then (held, [])
    else
      var (h, effects) := HoldAll(held, codes[..|codes| - 1], code, owner);
      var (h', more) := HoldOne(h, codes[|codes| - 1], code, owner);
      (h', effects + more)
  }

  ghost function ReleaseOne(held: Held, current: Code, code: Code, owner: Owner): (Held, seq<Effect>) {
    if current !in held then (held, [])
    else if held[current] - {owner} != {} then (held[current := held[current] - {owner}], [])
    else
      var held' := held - {current};
      (held', [Effect(KeyUp, current, Active(held), Active(held'), false, current == code)])
  }

  ghost function ReleaseAll(held: Held, codes: seq<Code>, code: Code, owner: Owner): (Held, seq<Effect>) {
    if codes == [] then (held, [])
    else
      var (h, effects) := ReleaseOne(held, codes[0], code, owner);
      var (h', more) := ReleaseAll(h, codes[1..], code, owner);
      (h', effects + more)
  }

  function Reverse<T(!new)>(s: seq<T>): (r: seq<T>)
    ensures |r| == |s|
    ensures forall x :: x in r <==> x in s
  {
    if s == [] then []
    else
      assert s == s[..|s| - 1] + [s[|s| - 1]];
      [s[|s| - 1]] + Reverse(s[..|s| - 1])
  }

  ghost function ApplyHold(held: Held, code: Code, modifiers: seq<Code>, owner: Owner): (Held, seq<Effect>) {
    HoldAll(held, modifiers + [code], code, owner)
  }

  ghost function ApplyRelease(held: Held, code: Code, modifiers: seq<Code>, owner: Owner): (Held, seq<Effect>) {
    ReleaseAll(held, [code] + Reverse(modifiers), code, owner)
  }

  /** `format!("\0tap:{uuid}:{owner}")` */
  function TapOwner(uuid: string, owner: Owner): Owner {
    ['\0'] + "tap:" + uuid + ":" + owner
  }

  function OtherCodes(effects: seq<Effect>, code: Code): seq<Effect> {
    if effects == [] then []
    else (if effects[0].code == code then [] else [effects[0]]) + OtherCodes(effects[1..], code)
  }

  ghost function ApplyTap(held: Held, code: Code, modifiers: seq<Code>, owner: Owner, uuid: string)
    : (Held, seq<Effect>)
  {
    var tapOwner := TapOwner(uuid, owner);
    var (h, down) := ApplyHold(held, code, modifiers, tapOwner);
    var effects :=
      if Owners(h, code) - {tapOwner} != {} then
        OtherCodes(down, code) + [Effect(RawKeyDown, code, Active(h), Active(h), true, true)]
      else down;
    var (h', up) := ApplyRelease(h, code, modifiers, tapOwner);
    (h', effects + up)
  }

  function RemoveEmptyCodes(held: Held): Held {
    map c | c in held && held[c] != {} :: held[c]
  }

  ghost function ApplyPhase(held: Held, phase: string, code: Code, modifiers: seq<Code>, owner: Owner, uuid: string)
    : (Held, seq<Effect>)
  {
    if phase == "hold" then ApplyHold(held, code, modifiers, owner)
    else if phase == "release" then ApplyRelease(held, code, modifiers, owner)
    else ApplyTap(held, code, modifiers, owner, uuid)
  }

  function HeldBy(s: State, role: Role): Held {
    if role in s.held then s.held[role] else map[]
  }

  function StoreHeld(all: map<Role, Held>, role: Role, held: Held): map<Role, Held> {
    if held == map[] then all - {role} else all[role := held]
  }

  // ---- The runtime's operations as functions of its state ----------------------------------

  ghost function PrepareStep(
    s: State, role: Role, phase: string, code: Code, modifiers: seq<Code>, owner: Owner,
    id: TransitionId, uuid: string): (State, Result<Record, Error>)
  {
    var problem := PrepareProblem(s, role, phase, code, modifiers, owner);
    if problem.Some? then (s, Err(problem.value))
    else
      var before := HeldBy(s, role);
      var (h, effects) := ApplyPhase(before, phase, code, modifiers, owner, uuid);
      var held := RemoveEmptyCodes(h);
      (State(StoreHeld(s.held, role, held), s.pending[id := Pending(before, role)], s.pendingRoles + {role}),
       Ok(Record(Some(id), effects, held != map[])))
  }

  function CompleteStep(s: State, id: TransitionId, succeeded: bool): (State, Result<(), Error>) {
    if id !in s.pending then (s, Err(NotFound))
    else
      var p := s.pending[id];
      (State(if succeeded then s.held else StoreHeld(s.held, p.role, p.before),
             s.pending - {id}, s.pendingRoles - {p.role}),
       Ok(()))
  }

  function ClearStep(s: State, role: Role): State {
    State(s.held - {role}, map id | id in s.pending && s.pending[id].role != role :: s.pending[id],
          s.pendingRoles - {role})
  }

  /** `sort_by_key(|code| (!is_modifier_code(code), code))`: modifiers first, each part in order. */
  ghost function ModifiersFirst(held: Held): seq<Code> {
    Sorted(set c | c in held && IsModifierCode(c)) + Sorted(set c | c in held && !IsModifierCode(c))
  }

  function PressAgain(codes: seq<Code>, active: seq<Code>): seq<Effect> {
    if codes == [] then []
    else [Effect(RawKeyDown, codes[0], active, active, false, !IsModifierCode(codes[0]))]
         + PressAgain(codes[1..], active)
  }

  ghost function ReassertStep(s: State, role: Role): Result<Record, Error> {
    if !ValidIdentifier(role) then Err(InvalidIdentifier)
    else if role in s.pendingRoles then Err(Ordering)
    else if role !in s.held then Ok(Record(None, [], false))
    else Ok(Record(None, PressAgain(ModifiersFirst(s.held[role]), Active(s.held[role])), true))
  }

  // ---- The runtime object ------------------------------------------------------------------

  method SortedActiveCodes(held: Held) returns (active: seq<Code>)
    ensures active == Active(held)
  {
    active := SortElements(ActiveSet(held));
  }

  method HoldLoop(held: Held, code: Code, modifiers: seq<Code>, owner: Owner)
    returns (held': Held, effects: seq<Effect>)
    ensures (held', effects) == ApplyHold(held, code, modifiers, owner)
  {
    held', effects := held, [];
    var codes := modifiers + [code];
    for i := 0 to |codes|
      invariant (held', effects) == HoldAll(held, codes[..i], code, owner)
    {
      var current := codes[i];
      assert codes[..i + 1][..i] == codes[..i];
      assert effects + [] == effects;
      var before := SortedActiveCodes(held');
      var owners := Owners(held', current);
      held' := held'[current := owners + {owner}];
      if owners == {} {
        var after := SortedActiveCodes(held');
        effects := effects + [Effect(RawKeyDown, current, before, after, false, current == code)];
      }
    }
    assert codes[..|codes|] == codes;
  }

  method ReleaseLoop(held: Held, code: Code, modifiers: seq<Code>, owner: Owner)
    returns (held': Held, effects: seq<Effect>)
    ensures (held', effects) == ApplyRelease(held, code, modifiers, owner)
  {
    held', effects := held, [];
    var codes := [code] + Reverse(modifiers);
    ghost var whole := ReleaseAll(held, codes, code, owner);
    assert codes[0..] == codes && effects + whole.1 == whole.1;
    for i := 0 to |codes|
      invariant
        var (h, more) := ReleaseAll(held', codes[i..], code, owner);
        whole == (h, effects + more)
    {
      var current := codes[i];
      assert codes[i..][1..] == codes[i + 1..];
      ghost var was, so := held', effects;
      var before := SortedActiveCodes(held');
      if current in held' {
        var left := held'[current] - {owner};
        if left != {} {
          held' := held'[current := left];
        } else {
          held' := held' - {current};
          var after := SortedActiveCodes(held');
          effects := effects + [Effect(KeyUp, current, before, after, false, current == code)];
        }
      }
      ghost var one := ReleaseOne(was, current, code, owner);
      assert held' == one.0 && effects == so + one.1;
      assert so + (one.1 + ReleaseAll(held', codes[i + 1..], code, owner).1)
             == effects + ReleaseAll(held', codes[i + 1..], code, owner).1;
    }
    assert effects + [] == effects;
  }

  method TapSequence(held: Held, code: Code, modifiers: seq<Code>, owner: Owner, uuid: string)
    returns (held': Held, effects: seq<Effect>)
    ensures (held', effects) == ApplyTap(held, code, modifiers, owner, uuid)
  {
    var tapOwner := TapOwner(uuid, owner);
    held', effects := HoldLoop(held, code, modifiers, tapOwner);
    if Owners(held', code) - {tapOwner} != {} {
      effects := OtherCodes(effects, code);
      var active := SortedActiveCodes(held');
      effects := effects + [Effect(RawKeyDown, code, active, active, true, true)];
    }
    var up;
    held', up := ReleaseLoop(held', code, modifiers, tapOwner);
    effects := effects + up;
  }

  class EmbeddedInputRuntime {
    var heldByRole: map<Role, Held>
    var pending: map<TransitionId, Pending>
    var pendingRoleIds: set<Role>

    function St(): State
      reads this
    {
      State(heldByRole, pending, pendingRoleIds)
    }

    constructor ()
      ensures St() == Initial
    {
      heldByRole, pending, pendingRoleIds := map[], map[], {};
    }

    /** `id` and `uuid` are the two fresh UUIDs the call may draw. */
    method Prepare(role: Role, phase: string, code: Code, modifiers: seq<Code>, owner: Owner,
                   id: TransitionId, uuid: string) returns (r: Result<Record, Error>)
      modifies this
      ensures (St(), r) == PrepareStep(old(St()), role, phase, code, modifiers, owner, id, uuid)
    {
      if !ValidIdentifier(role) || !ValidIdentifier(code) || !ValidIdentifier(owner) {
        return Err(InvalidIdentifier);
      }
      if !ValidPhase(phase) { return Err(PhaseInvalid); }
      if |modifiers| > 8 { return Err(TooManyModifiers); }
      var problem := CheckModifiers(modifiers);
      if problem.Some? { return Err(problem.value); }
      if |pending| >= MAX_PENDING_TRANSITIONS { return Err(Backpressure); }
      if role in pendingRoleIds { return Err(Ordering); }
      pendingRoleIds := pendingRoleIds + {role};

      var before := if role in heldByRole then heldByRole[role] else map[];
      var held, effects;
      if phase == "hold" {
        held, effects := HoldLoop(before, code, modifiers, owner);
      } else if phase == "release" {
        held, effects := ReleaseLoop(before, code, modifiers, owner);
      } else {
        held, effects := TapSequence(before, code, modifiers, owner, uuid);
      }
      held := RemoveEmptyCodes(held);
      heldByRole := if held != map[] then heldByRole[role := held] else heldByRole - {role};
      pending := pending[id := Pending(before, role)];
      return Ok(Record(Some(id), effects, held != map[]));
    }

    static method CheckModifiers(modifiers: seq<Code>) returns (problem: Option<Error>)
      ensures problem == ModifierProblem(modifiers, {})
    {
      var unique: set<Code> := {};
      for i := 0 to |modifiers|
        invariant ModifierProblem(modifiers, {}) == ModifierProblem(modifiers[i..], unique)
      {
        assert modifiers[i..][0] == modifiers[i] && modifiers[i..][1..] == modifiers[i + 1..];
        if !ValidIdentifier(modifiers[i]) { return Some(InvalidIdentifier); }
        if !IsModifierCode(modifiers[i]) || modifiers[i] in unique { return Some(ModifierInvalid); }
        unique := unique + {modifiers[i]};
      }
      return None;
    }

    method Complete(id: TransitionId, succeeded: bool) returns (r: Result<(), Error>)
      modifies this
      ensures (St(), r) == CompleteStep(old(St()), id, succeeded)
    {
      if id !in pending { return Err(NotFound); }
      var p := pending[id];
      pending := pending - {id};
      pendingRoleIds := pendingRoleIds - {p.role};
      if !succeeded {
        heldByRole := if p.before == map[] then heldByRole - {p.role} else heldByRole[p.role := p.before];
      }
      return Ok(());
    }

    method Reassert(role: Role) returns (r: Result<Record, Error>)
      ensures r == ReassertStep(St(), role)
    {
      if !ValidIdentifier(role) { return Err(InvalidIdentifier); }
      if role in pendingRoleIds { return Err(Ordering); }
      if role !in heldByRole { return Ok(Record(None, [], false)); }
      var held := heldByRole[role];
      var modifiers := SortElements(set c | c in held && IsModifierCode(c));
      var others := SortElements(set c | c in held && !IsModifierCode(c));
      var active := SortedActiveCodes(held);
      return Ok(Record(None, PressAgain(modifiers + others, active), true));
    }

    method ClearRole(role: Role)
      modifies this
      ensures St() == ClearStep(old(St()), role)
    {
      heldByRole := heldByRole - {role};
      pendingRoleIds := pendingRoleIds - {role};
      pending := map id | id in pending && pending[id].role != role :: pending[id];
    }

    method Shutdown()
      modifies this
      ensures St() == Initial
    {
      heldByRole, pending, pendingRoleIds := map[], map[], {};
    }
  }
}
