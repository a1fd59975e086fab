/**
 * The AppKit host's tab projection: a list of tabs is written into a native controller call by
 * call, and any call may fail before, in the middle of or after its effect.
 */
module TabProjection {
  import opened Outcomes
  import opened Sequences
  import opened Text

  const MAX_PROJECTED_TABS: nat := 128

  datatype Tab = Tab(id: string, name: string, phase: string, kind: string, template: Option<string>)

  function Ids(tabs: seq<Tab>): (ids: seq<string>)
    ensures |ids| == |tabs| && forall i | 0 <= i < |tabs| :: ids[i] == tabs[i].id
  {
    seq(|tabs|, i requires 0 <= i < |tabs| => tabs[i].id)
  }

  // ---- Validation --------------------------------------------------------------------------

  const PHASES: set<string> := {"dormant", "activating", "attaching", "loading", "ready", "degraded", "failed"}
  const KINDS: set<string> := {"role", "workspace", "popup"}

  predicate ValidText(s: string, limit: nat) {
    s != "" && ByteLength(s) <= limit && !HasControl(s)
  }

  predicate ValidTab(tab: Tab) {
    && ValidIdentity(tab.id) && ValidText(tab.name, 512)
    && tab.phase in PHASES && tab.kind in KINDS
    && (tab.template.Some? ==> ValidText(tab.template.value, 128))
  }

  /** Every tab is well-formed, no id repeats, and exactly a non-empty list has an active tab, one of its own. */
  ghost predicate WellFormed(tabs: seq<Tab>, active: Option<string>) {
    && |tabs| <= MAX_PROJECTED_TABS
    && (forall i | 0 <= i < |tabs| :: ValidTab(tabs[i]))
    && NoDup(Ids(tabs))
    && (if active.Some? then active.value in Ids(tabs) else tabs == [])
  }

  method ValidateTabProjection(tabs: seq<Tab>, active: Option<string>) returns (valid: bool)
    ensures valid <==> WellFormed(tabs, active)
  {
    if |tabs| > MAX_PROJECTED_TABS {
      return false;
    }
    var seen: set<string> := {};
    for i := 0 to |tabs|
      invariant forall k | 0 <= k < i :: ValidTab(tabs[k])
      invariant forall id :: id in seen <==> id in Ids(tabs)[..i]
      invariant NoDup(Ids(tabs)[..i])
    {
      assert Ids(tabs)[..i + 1] == Ids(tabs)[..i] + [tabs[i].id];
      if tabs[i].id in seen || !ValidTab(tabs[i]) {
        RepeatedOrInvalid(tabs, i);
        return false;
      }
      seen := seen + {tabs[i].id};
    }
    assert Ids(tabs)[..|tabs|] == Ids(tabs);
    return if active.Some? then active.value in seen else tabs == [];
  }

  lemma RepeatedOrInvalid(tabs: seq<Tab>, i: nat)
    requires i < |tabs| && (tabs[i].id in Ids(tabs)[..i] || !ValidTab(tabs[i]))
    ensures forall active :: !WellFormed(tabs, active)
  {
    if tabs[i].id in Ids(tabs)[..i] {
      var k :| 0 <= k < i && Ids(tabs)[k] == tabs[i].id;
      assert Ids(tabs)[k] == Ids(tabs)[i];
    }
  }

  // ---- The native controller ---------------------------------------------------------------

  /** `flagged` holds the ids whose item shows itself as the active one. */
  datatype Native = Native(tabs: seq<Tab>, active: Option<string>, flagged: set<string>)

  datatype Effect = Skipped | Partial | Full

  /**
   * What one native call does: how far its effect gets, where a new item lands, whether an updated
   * item flags itself active, what a half-made item holds, whether the call reports an error and
   * whether a readback says no whatever it saw.
   */
  datatype Call = Call(effect: Effect, at: nat, flag: bool, scrap: Tab, error: bool, refuse: bool)

  /** Updates the item of that id in place, or inserts one. */
  function EnsureTab(n: Native, tab: Tab, c: Call): Native {
    if c.effect == Skipped then n else
    var made := if c.effect == Full then tab else c.scrap.(id := tab.id);
    Native(
      if tab.id in Ids(n.tabs) then Updated(n.tabs, made) else Inserted(n.tabs, made, c.at),
      n.active,
      if c.flag then n.flagged + {tab.id} else n.flagged - {tab.id})
  }

  function Updated(tabs: seq<Tab>, tab: Tab): (r: seq<Tab>)
    ensures |r| == |tabs|
    ensures forall i | 0 <= i < |tabs| :: r[i] == if tabs[i].id == tab.id then tab else tabs[i]
  {
    seq(|tabs|, i requires 0 <= i < |tabs| => if tabs[i].id == tab.id then tab else tabs[i])
  }

  function Inserted(tabs: seq<Tab>, tab: Tab, at: nat): seq<Tab> {
    if at < |tabs| then tabs[..at] + [tab] + tabs[at..] else tabs + [tab]
  }

  function SetActive(n: Native, active: Option<string>): Native {
    if active.Some? && active.value in Ids(n.tabs) then n.(active := active, flagged := {active.value})
    else n.(active := None, flagged := {})
  }

  function WithoutId(tabs: seq<Tab>, id: string): seq<Tab> {
    if tabs == [] then [] else
      WithoutId(tabs[..|tabs| - 1], id) + (if tabs[|tabs| - 1].id == id then [] else [tabs[|tabs| - 1]])
  }

  /** Drops the item, then names the active tab; a half-done call stops between the two. */
  function RemoveTab(n: Native, id: string, active: Option<string>, c: Call): Native {
    if c.effect == Skipped then n else
    var dropped := Native(WithoutId(n.tabs, id), if n.active == Some(id) then None else n.active, n.flagged);
    if c.effect == Partial then dropped else SetActive(dropped, active)
  }

  function WithId(tabs: seq<Tab>, id: string): (tab: Tab)
    requires id in Ids(tabs)
    ensures tab in tabs && tab.id == id
  {
    if tabs[|tabs| - 1].id == id then tabs[|tabs| - 1] else
      assert tabs == tabs[..|tabs| - 1] + [tabs[|tabs| - 1]];
      WithId(tabs[..|tabs| - 1], id)
  }

  /** The listed items that exist, each once, in the listed order. */
  function Picked(tabs: seq<Tab>, order: seq<string>): seq<Tab> {
    if order == [] then [] else
      var front, id := order[..|order| - 1], order[|order| - 1];
      Picked(tabs, front) + (if id in Ids(tabs) && id !in front then [WithId(tabs, id)] else [])
  }

  /** The items not listed, in their present order. */
  function Unlisted(tabs: seq<Tab>, order: seq<string>): seq<Tab> {
    if tabs == [] then [] else
      Unlisted(tabs[..|tabs| - 1], order) + (if tabs[|tabs| - 1].id in order then [] else [tabs[|tabs| - 1]])
  }

  function Reordered(tabs: seq<Tab>, order: seq<string>): seq<Tab> {
    if |tabs| < 2 || order == [] then tabs else Picked(tabs, order) + Unlisted(tabs, order)
  }

  /** Reorders, then names the active tab; a half-done call stops between the two. */
  function CommitTabs(n: Native, order: seq<string>, active: Option<string>, c: Call): Native {
    if c.effect == Skipped then n else
    var reordered := n.(tabs := Reordered(n.tabs, order));
    if c.effect == Partial then reordered else SetActive(reordered, active)
  }

  /** Exactly these ids in this order, and exactly the active one shows itself active. */
  predicate Matches(n: Native, order: seq<string>, active: Option<string>) {
    && Ids(n.tabs) == order && n.active == active
    && forall i | 0 <= i < |n.tabs| :: n.tabs[i].id in n.flagged <==> active == Some(n.tabs[i].id)
  }

  predicate PhasesMatch(n: Native, tabs: seq<Tab>) {
    |n.tabs| == |tabs| && forall t | t in tabs :: t.id in Ids(n.tabs) && WithId(n.tabs, t.id).phase == t.phase
  }

  // ---- Writing a projection ----------------------------------------------------------------

  datatype Outcome = Done | Failed | Mismatch

  function EnsureTabs(n: Native, tabs: seq<Tab>, calls: nat -> Call): (Native, bool) {
    if tabs == [] then (n, true) else
      var k := |tabs| - 1;
      var (m, ok) := EnsureTabs(n, tabs[..k], calls);
      if !ok then (m, false) else (EnsureTab(m, tabs[k], calls(k)), calls(k).effect == Full && !calls(k).error)
  }

  function RemoveTabs(n: Native, stale: seq<string>, active: Option<string>, calls: nat -> Call, base: nat):
    (Native, bool)
  {
    if stale == [] then (n, true) else
      var k := |stale| - 1;
      var (m, ok) := RemoveTabs(n, stale[..k], active, calls, base);
      if !ok then (m, false) else (RemoveTab(m, stale[k], active, calls(base + k)), !calls(base + k).error)
  }

  /** The two readbacks, in order: ids, order and active tab; then every phase. */
  function Readback(n: Native, tabs: seq<Tab>, active: Option<string>, c: Call, p: Call): Outcome {
    if c.error then Failed
    else if c.refuse || !Matches(n, Ids(tabs), active) then Mismatch
    else if p.error then Failed
    else if p.refuse || !PhasesMatch(n, tabs) then Mismatch
    else Done
  }

  function Commit(n: Native, tabs: seq<Tab>, active: Option<string>, c: Call, p: Call): (Native, Outcome) {
    var m := CommitTabs(n, Ids(tabs), active, c);
    (m, Readback(m, tabs, active, c, p))
  }

  /** The ids of `prior` that `ids` does not name. */
  function StaleIds(prior: seq<string>, ids: seq<string>): (stale: seq<string>)
    ensures forall id :: id in stale <==> id in prior && id !in ids
  {
    if prior == [] then [] else
      assert prior == prior[..|prior| - 1] + [prior[|prior| - 1]];
      StaleIds(prior[..|prior| - 1], ids) + (if prior[|prior| - 1] in ids then [] else [prior[|prior| - 1]])
  }

  /** Ensure every tab, remove what is stale, commit and read back; stops at the first failing call. */
  function Write(n: Native, tabs: seq<Tab>, active: Option<string>, stale: seq<string>, calls: nat -> Call):
    (Native, Outcome)
  {
    var (ensured, ok1) := EnsureTabs(n, tabs, calls);
    if !ok1 then (ensured, Failed) else
    var (removed, ok2) := RemoveTabs(ensured, stale, active, calls, |tabs|);
    if !ok2 then (removed, Failed) else
    Commit(removed, tabs, active, calls(|tabs| + |stale|), calls(|tabs| + |stale| + 1))
  }

  // ---- The host ----------------------------------------------------------------------------

  /** `tabs` and `active` are the last verified projection, `revision` its revision. */
  datatype Host = Host(
    revision: nat, tabs: seq<Tab>, active: Option<string>, poisoned: bool, failed: seq<string>, native: Native)

  /** Whether the caller names the live host, its callbacks are healthy and its window is the exact one. */
  datatype Access = Access(identity: bool, healthy: bool, window: bool)

  datatype ProjectionError =
    | Unavailable | InvalidProjection | Poisoned | StaleRevision | NativeFailure | ReadbackMismatch
  datatype Receipt = Receipt(revision: nat, tabCount: nat, active: Option<string>)

  function ErrorOf(o: Outcome): ProjectionError {
    if o == Failed then NativeFailure else ReadbackMismatch
  }

  /** Comparing an unpoisoned host with its controller: only a mismatch poisons it. */
  function RecheckStep(h: Host, calls: nat -> Call): (Host, Result<Receipt, ProjectionError>) {
    var o := Readback(h.native, h.tabs, h.active, calls(0), calls(1));
    if o == Done then (h, Ok(Receipt(h.revision, |h.tabs|, h.active)))
    else (if o == Mismatch then h.(poisoned := true) else h, Err(ErrorOf(o)))
  }

  ghost function ApplyStep(
    h: Host, access: Access, revision: nat, tabs: seq<Tab>, active: Option<string>, calls: nat -> Call):
    (Host, Result<Receipt, ProjectionError>)
  {
    if !access.identity then (h, Err(Unavailable))
    else if revision == 0 || !WellFormed(tabs, active) then (h, Err(InvalidProjection))
    else if !access.healthy then (h, Err(Unavailable))
    else if h.poisoned then (h, Err(Poisoned))
    else if !access.window then (h, Err(Unavailable))
    else if revision < h.revision || (revision == h.revision && (tabs != h.tabs || active != h.active)) then
      (h, Err(StaleRevision))
    else if revision == h.revision then RecheckStep(h, calls)
    else
      var (n, o) := Write(h.native, tabs, active, StaleIds(Ids(h.tabs), Ids(tabs)), calls);
      if o == Done then (Host(revision, tabs, active, false, [], n), Ok(Receipt(revision, |tabs|, active)))
      else (h.(poisoned := true, failed := Ids(tabs), native := n), Err(ErrorOf(o)))
  }

  ghost function RestoreStep(h: Host, access: Access, calls: nat -> Call): (Host, Result<Receipt, ProjectionError>) {
    if !access.identity || !access.healthy || !access.window then (h, Err(Unavailable))
    else if !WellFormed(h.tabs, h.active) then (h, Err(InvalidProjection))
    else if !h.poisoned then RecheckStep(h, calls)
    else
      var (n, o) := Write(h.native, h.tabs, h.active, StaleIds(h.failed, Ids(h.tabs)), calls);
      if o == Done then (h.(poisoned := false, failed := [], native := n), Ok(Receipt(h.revision, |h.tabs|, h.active)))
      else (h.(native := n), Err(ErrorOf(o)))
  }

  class AppKitRuntimeHost {
    var revision: nat
    var tabs: seq<Tab>
    var active: Option<string>
    var poisoned: bool
    var failed: seq<string>
    var native: Native

    constructor ()
      ensures State() == Host(0, [], None, false, [], Native([], None, {}))
    {
      revision, tabs, active, poisoned, failed := 0, [], None, false, [];
      native := Native([], None, {});
    }

    ghost function State(): Host
      reads this
    {
      Host(revision, tabs, active, poisoned, failed, native)
    }

    method EnsureProjectedTabs(wanted: seq<Tab>, calls: nat -> Call) returns (ok: bool)
      modifies this`native
      ensures (native, ok) == EnsureTabs(old(native), wanted, calls)
    {
      for i := 0 to |wanted|
        invariant (native, true) == EnsureTabs(old(native), wanted[..i], calls)
      {
        EnsureNext(old(native), wanted, calls, i);
        native := EnsureTab(native, wanted[i], calls(i));
        if calls(i).effect != Full || calls(i).error {
          EnsureStops(old(native), wanted, calls, i + 1);
          return false;
        }
      }
      assert wanted[..|wanted|] == wanted;
      return true;
    }

    method RemoveProjectedTabs(stale: seq<string>, wantedActive: Option<string>, calls: nat -> Call, base: nat)
      returns (ok: bool)
      modifies this`native
      ensures (native, ok) == RemoveTabs(old(native), stale, wantedActive, calls, base)
    {
      for i := 0 to |stale|
        invariant (native, true) == RemoveTabs(old(native), stale[..i], wantedActive, calls, base)
      {
        RemoveNext(old(native), stale, wantedActive, calls, base, i);
        native := RemoveTab(native, stale[i], wantedActive, calls(base + i));
        if calls(base + i).error {
          RemoveStops(old(native), stale, wantedActive, calls, base, i + 1);
          return false;
        }
      }
      assert stale[..|stale|] == stale;
      return true;
    }

    /** The native calls of one attempt. */
    method WriteProjection(wanted: seq<Tab>, wantedActive: Option<string>, stale: seq<string>, calls: nat -> Call)
      returns (outcome: Outcome)
      modifies this`native
      ensures (native, outcome) == Write(old(native), wanted, wantedActive, stale, calls)
    {
      var ok := EnsureProjectedTabs(wanted, calls);
      if !ok {
        return Failed;
      }
      ok := RemoveProjectedTabs(stale, wantedActive, calls, |wanted|);
      if !ok {
        return Failed;
      }
      var c, p := calls(|wanted| + |stale|), calls(|wanted| + |stale| + 1);
      native := CommitTabs(native, Ids(wanted), wantedActive, c);
      outcome := Readback(native, wanted, wantedActive, c, p);
    }

    method Recheck(calls: nat -> Call) returns (r: Result<Receipt, ProjectionError>)
      modifies this`poisoned
      ensures (State(), r) == RecheckStep(old(State()), calls)
    {
      var outcome := Readback(native, tabs, active, calls(0), calls(1));
      if outcome != Done {
        poisoned := poisoned || outcome == Mismatch;
        return Err(ErrorOf(outcome));
      }
      return Ok(Receipt(revision, |tabs|, active));
    }

    method ApplyTabProjection(
      access: Access, wantedRevision: nat, wanted: seq<Tab>, wantedActive: Option<string>, calls: nat -> Call)
      returns (r: Result<Receipt, ProjectionError>)
      modifies this
      ensures (State(), r) == ApplyStep(old(State()), access, wantedRevision, wanted, wantedActive, calls)
    {
      if !access.identity {
        return Err(Unavailable);
      }
      var valid := ValidateTabProjection(wanted, wantedActive);
      if wantedRevision == 0 || !valid {
        return Err(InvalidProjection);
      }
      if !access.healthy {
        return Err(Unavailable);
      }
      if poisoned {
        return Err(Poisoned);
      }
      if !access.window {
        return Err(Unavailable);
      }
      if wantedRevision < revision || (wantedRevision == revision && (wanted != tabs || wantedActive != active)) {
        return Err(StaleRevision);
      }
      if wantedRevision == revision {
        r := Recheck(calls);
        return;
      }
      poisoned := true;
      failed := Ids(wanted);
      var outcome := WriteProjection(wanted, wantedActive, StaleIds(Ids(tabs), Ids(wanted)), calls);
      if outcome != Done {
        return Err(ErrorOf(outcome));
      }
      revision, tabs, active := wantedRevision, wanted, wantedActive;
      poisoned := false;
      failed := [];
      return Ok(Receipt(wantedRevision, |wanted|, wantedActive));
    }

    method RestoreLastVerifiedTabProjection(access: Access, calls: nat -> Call)
      returns (r: Result<Receipt, ProjectionError>)
      modifies this
      ensures (State(), r) == RestoreStep(old(State()), access, calls)
    {
      if !access.identity || !access.healthy || !access.window {
        return Err(Unavailable);
      }
      var valid := ValidateTabProjection(tabs, active);
      if !valid {
        return Err(InvalidProjection);
      }
      if !poisoned {
        r := Recheck(calls);
        return;
      }
      var outcome := WriteProjection(tabs, active, StaleIds(failed, Ids(tabs)), calls);
      if outcome != Done {
        return Err(ErrorOf(outcome));
      }
      poisoned := false;
      failed := [];
      return Ok(Receipt(revision, |tabs|, active));
    }
  }

  lemma EnsureNext(n: Native, tabs: seq<Tab>, calls: nat -> Call, i: nat)
    requires i < |tabs| && EnsureTabs(n, tabs[..i], calls).1
    ensures EnsureTabs(n, tabs[..i + 1], calls)
      == (EnsureTab(EnsureTabs(n, tabs[..i], calls).0, tabs[i], calls(i)), calls(i).effect == Full && !calls(i).error)
  {
    assert tabs[..i + 1][..i] == tabs[..i];
  }

  lemma RemoveNext(n: Native, stale: seq<string>, active: Option<string>, calls: nat -> Call, base: nat, i: nat)
    requires i < |stale| && RemoveTabs(n, stale[..i], active, calls, base).1
    ensures RemoveTabs(n, stale[..i + 1], active, calls, base)
      == (RemoveTab(RemoveTabs(n, stale[..i], active, calls, base).0, stale[i], active, calls(base + i)),
          !calls(base + i).error)
  {
    assert stale[..i + 1][..i] == stale[..i];
  }

  /** A call that fails ends the loop: the rest of the list is never reached. */
  lemma {:induction false} EnsureStops(n: Native, tabs: seq<Tab>, calls: nat -> Call, i: nat)
    requires i <= |tabs| && !EnsureTabs(n, tabs[..i], calls).1
    ensures EnsureTabs(n, tabs, calls) == EnsureTabs(n, tabs[..i], calls)
  {
    if i == |tabs| {
      assert tabs[..i] == tabs;
    } else {
      assert tabs[..|tabs| - 1][..i] == tabs[..i];
      EnsureStops(n, tabs[..|tabs| - 1], calls, i);
    }
  }

  lemma {:induction false} RemoveStops(
    n: Native, stale: seq<string>, active: Option<string>, calls: nat -> Call, base: nat, i: nat)
    requires i <= |stale| && !RemoveTabs(n, stale[..i], active, calls, base).1
    ensures RemoveTabs(n, stale, active, calls, base) == RemoveTabs(n, stale[..i], active, calls, base)
  {
    if i == |stale| {
      assert stale[..i] == stale;
    } else {
      assert stale[..|stale| - 1][..i] == stale[..i];
      RemoveStops(n, stale[..|stale| - 1], active, calls, base, i);
    }
  }
}
