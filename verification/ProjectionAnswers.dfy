/**
 * What the projection hosts answer: which revisions they take, what a refusal leaves, and that
 * verified revisions never go back.
 */
module ProjectionAnswers {
  import opened Outcomes
  import opened Sequences
  import opened Text
  import opened TabProjection
  import opened TabProjectionRuns

  // ---- Applying tabs -----------------------------------------------------------------------

  predicate FullAccess(access: Access) {
    access.identity && access.healthy && access.window
  }

  /** Something, in at most so many bytes, and nothing in it that controls. */
  predicate Printable(text: string, limit: nat) {
    0 < ByteLength(text) <= limit && forall c | c in text :: !IsControl(c)
  }

  /** An identity is printable, within 256 bytes, trimmed, and no path. */
  predicate Identity(s: string) {
    && Printable(s, 256) && !IsWhitespace(s[0]) && !IsWhitespace(s[|s| - 1])
    && forall c | c in s :: c != '/' && c != '\\'
  }

  lemma PrintableIff(s: string, limit: nat)
    ensures ValidText(s, limit) <==> Printable(s, limit)
    ensures ValidIdentity(s) <==> Identity(s)
  {
    forall i | 0 <= i < |s| ensures s[i] in s {}
  }

  /** The tabs a projection may hold. */
  predicate Projectable(tab: Tab) {
    && Identity(tab.id) && Printable(tab.name, 512)
    && (tab.template == None || Printable(tab.template.value, 128))
    && (tab.kind == "role" || tab.kind == "workspace" || tab.kind == "popup")
    && (tab.phase == "dormant" || tab.phase == "activating" || tab.phase == "attaching" || tab.phase == "loading"
        || tab.phase == "ready" || tab.phase == "degraded" || tab.phase == "failed")
  }

  lemma TabAcceptedIff(tab: Tab)
    ensures ValidTab(tab) <==> Projectable(tab)
  {
    PrintableIff(tab.id, 256);
    PrintableIff(tab.name, 512);
    if tab.template.Some? { PrintableIff(tab.template.value, 128); }
  }

  /** The projections an apply accepts: up to 128 tabs of different ids, one of them active unless there is none. */
  lemma ProjectionAcceptedIff(tabs: seq<Tab>, active: Option<string>)
    ensures WellFormed(tabs, active) <==>
      && |tabs| <= 128 && (forall i | 0 <= i < |tabs| :: Projectable(tabs[i]))
      && (forall i, j | 0 <= i < j < |tabs| :: tabs[i].id != tabs[j].id)
      && (match active case None => tabs == [] case Some(id) => exists i :: 0 <= i < |tabs| && tabs[i].id == id)
  {
    forall i | 0 <= i < |tabs| ensures ValidTab(tabs[i]) <==> Projectable(tabs[i]) { TabAcceptedIff(tabs[i]); }
    forall i, j | 0 <= i < j < |tabs| ensures Ids(tabs)[i] != Ids(tabs)[j] <==> tabs[i].id != tabs[j].id {}
    if active.Some? {
      if i :| 0 <= i < |tabs| && tabs[i].id == active.value { assert Ids(tabs)[i] in Ids(tabs); }
    }
  }

  /** Older than the verified projection, or of the same revision and different. */
  predicate Outdated(h: Host, revision: nat, tabs: seq<Tab>, active: Option<string>) {
    revision < h.revision || (revision == h.revision && (tabs != h.tabs || active != h.active))
  }

  /** Main result: the stale revisions are refused, exactly they, and leave the host as it was. */
  lemma StaleIffOutdated(
    h: Host, access: Access, revision: nat, tabs: seq<Tab>, active: Option<string>, calls: nat -> Call)
    requires FullAccess(access) && WellFormed(tabs, active) && revision > 0 && !h.poisoned
    ensures var (h', r) := ApplyStep(h, access, revision, tabs, active, calls);
      (r == Err(StaleRevision) <==> Outdated(h, revision, tabs, active)) && (r == Err(StaleRevision) ==> h' == h)
  {
  }

  /** Every other refusal before the controller is touched, and its reason. */
  lemma RefusedUntouched(
    h: Host, access: Access, revision: nat, tabs: seq<Tab>, active: Option<string>, calls: nat -> Call)
    ensures var (h', r) := ApplyStep(h, access, revision, tabs, active, calls);
      var known := revision > 0 && WellFormed(tabs, active);
      && (r == Err(InvalidProjection) <==> access.identity && !known)
      && (r == Err(Poisoned) <==> access.identity && known && access.healthy && h.poisoned)
      && (r == Err(Unavailable) <==>
            !access.identity || (known && (!access.healthy || (!h.poisoned && !access.window))))
      && (r.Err? && r.error !in {NativeFailure, ReadbackMismatch} ==> h' == h)
  {
  }

  /** A repeated apply touches nothing: it compares, and poisons the host only on a mismatch. */
  lemma RepeatCompares(h: Host, access: Access, calls: nat -> Call)
    requires FullAccess(access) && WellFormed(h.tabs, h.active) && h.revision > 0 && !h.poisoned
    ensures var (h', r) := ApplyStep(h, access, h.revision, h.tabs, h.active, calls);
      && h' == h.(poisoned := r == Err(ReadbackMismatch))
      && r in {Ok(Receipt(h.revision, |h.tabs|, h.active)), Err(NativeFailure), Err(ReadbackMismatch)}
      && (r == Err(NativeFailure) ==> calls(0).error || calls(1).error)
  {
  }

  /** A newer projection is taken whole, or leaves the host poisoned with the failed ids remembered. */
  lemma NewerIsTakenOrPoisons(
    h: Host, access: Access, revision: nat, tabs: seq<Tab>, active: Option<string>, calls: nat -> Call)
    requires FullAccess(access) && WellFormed(tabs, active) && !h.poisoned && revision > h.revision
    ensures var (h', r) := ApplyStep(h, access, revision, tabs, active, calls);
      if r.Ok? then
        h' == Host(revision, tabs, active, false, [], h'.native) && r.value == Receipt(revision, |tabs|, active)
      else
        && r.error in {NativeFailure, ReadbackMismatch}
        && h' == Host(h.revision, h.tabs, h.active, true, Ids(tabs), h'.native)
  {
  }

  /** A restore of a poisoned host takes the verified projection or stays poisoned; of another it compares. */
  lemma RestoreAnswers(h: Host, access: Access, calls: nat -> Call)
    requires WellFormed(h.tabs, h.active)
    ensures var (h', r) := RestoreStep(h, access, calls);
      && (r == Err(Unavailable) <==> !FullAccess(access))
      && (r == Err(Unavailable) ==> h' == h)
      && (FullAccess(access) && !h.poisoned ==> h' == h.(poisoned := r == Err(ReadbackMismatch)))
      && (FullAccess(access) && h.poisoned ==>
            h' == h.(poisoned := r.Err?, failed := if r.Ok? then [] else h.failed, native := h'.native))
      && (r.Ok? ==> r.value == Receipt(h.revision, |h.tabs|, h.active))
  {
  }

  /** The revision does not fall, and while it stays the projection stays. */
  predicate Follows(h: Host, h': Host) {
    h'.revision >= h.revision && (h'.revision == h.revision ==> h'.tabs == h.tabs && h'.active == h.active)
  }

  lemma ApplyFollows(h: Host, access: Access, revision: nat, tabs: seq<Tab>, active: Option<string>, calls: nat -> Call)
    ensures var (h', r) := ApplyStep(h, access, revision, tabs, active, calls);
      Follows(h, h') && (r.Ok? ==> h'.revision == revision && h'.tabs == tabs && h'.active == active)
  {
  }

  lemma StepFollows(w: World, e: Event)
    ensures Follows(w.host, Next(w, e).host)
    ensures e.Apply? && Answer(w, e).Ok? ==>
      var h := Next(w, e).host;
      h.revision == e.revision && h.tabs == e.tabs && h.active == e.active
  {
    match e
    case Apply(access, revision, tabs, active, calls) => ApplyFollows(w.host, access, revision, tabs, active, calls);
    case Restore(access, calls) =>
    case Disturb(native) =>
  }

  /** Through every run the verified revision never goes back, and while it stays so does the projection. */
  lemma {:induction false} RevisionNeverFalls(w: World, run: seq<Event>)
    ensures Follows(w.host, After(w, run).host)
    decreases |run|
  {
    if run != [] {
      StepFollows(w, run[0]);
      RevisionNeverFalls(Next(w, run[0]), run[1..]);
    }
  }

  /**
   * Main result: of two successful applies the later one has no smaller revision, and the same
   * revision only with the same tabs and active tab.
   */
  lemma AppliesInOrder(w: World, first: Event, run: seq<Event>, mid: World, second: Event)
    requires first.Apply? && Answer(w, first).Ok? && mid == After(Next(w, first), run)
    requires second.Apply? && Answer(mid, second).Ok?
    ensures first.revision <= second.revision
    ensures first.revision == second.revision ==> first.tabs == second.tabs && first.active == second.active
  {
    StepFollows(w, first);
    RevisionNeverFalls(Next(w, first), run);
    StepFollows(mid, second);
    ThreeFollow(Next(w, first).host, mid.host, Next(mid, second).host);
  }

  lemma ThreeFollow(a: Host, b: Host, c: Host)
    requires Follows(a, b) && Follows(b, c)
    ensures Follows(a, c)
  {
  }

  // ---- Readbacks ---------------------------------------------------------------------------

  /** Item by item the controller shows these tabs in these phases, and the active one as the only active one. */
  predicate Shows(n: Native, tabs: seq<Tab>, active: Option<string>) {
    && |n.tabs| == |tabs| && n.active == active
    && forall i | 0 <= i < |tabs| ::
         && n.tabs[i].id == tabs[i].id && n.tabs[i].phase == tabs[i].phase
         && (tabs[i].id in n.flagged <==> active == Some(tabs[i].id))
  }

  /** Two readbacks that neither error nor refuse succeed exactly when the controller shows the projection. */
  lemma ReadbackSees(n: Native, tabs: seq<Tab>, active: Option<string>, c: Call, p: Call)
    requires NoDup(Ids(tabs)) && !c.error && !c.refuse && !p.error && !p.refuse
    ensures Readback(n, tabs, active, c, p) == if Shows(n, tabs, active) then Done else Mismatch
  {
    if Matches(n, Ids(tabs), active) {
      forall i | 0 <= i < |tabs| ensures n.tabs[i].id == tabs[i].id && WithId(n.tabs, tabs[i].id) == n.tabs[i] {
        assert Ids(n.tabs)[i] == Ids(tabs)[i] && n.tabs[i] in n.tabs;
        SameTab(n.tabs, WithId(n.tabs, tabs[i].id), n.tabs[i]);
      }
    }
    if Shows(n, tabs, active) { assert Ids(n.tabs) == Ids(tabs); }
  }

  /** The controller's active tab is one it shows. */
  predicate ActiveShown(n: Native) {
    n.active.Some? ==> n.active.value in Ids(n.tabs)
  }

  /** No call, however far it gets, leaves the controller with an active tab it does not show. */
  lemma CallsKeepActiveShown(n: Native, tab: Tab, id: string, order: seq<string>, active: Option<string>, c: Call)
    requires ActiveShown(n) && NoDup(Ids(n.tabs))
    ensures ActiveShown(EnsureTab(n, tab, c))
    ensures ActiveShown(RemoveTab(n, id, active, c))
    ensures ActiveShown(CommitTabs(n, order, active, c))
  {
    EnsureKeepsIds(n, tab, c);
    WithoutIdKeeps(n.tabs, id);
    ReorderedKeeps(n.tabs, order);
    if n.active.Some? {
      var t := TabOf(n.tabs, n.active.value);
      IdOf(Reordered(n.tabs, order), t);
      if t.id != id { IdOf(WithoutId(n.tabs, id), t); }
    }
  }

  // ---- The order of the native calls -------------------------------------------------------

  predicate FailsAt(tabs: seq<Tab>, calls: nat -> Call, k: nat) {
    k < |tabs| && (calls(k).effect != Full || calls(k).error)
  }

  lemma {:induction false} EnsuringLosesNothing(n: Native, tabs: seq<Tab>, calls: nat -> Call)
    ensures forall id | id in Ids(n.tabs) :: id in Ids(EnsureTabs(n, tabs, calls).0.tabs)
    ensures EnsureTabs(n, tabs, calls).1 <==> forall k | 0 <= k < |tabs| :: !FailsAt(tabs, calls, k)
  {
    if tabs != [] {
      var k := |tabs| - 1;
      EnsuringLosesNothing(n, tabs[..k], calls);
      var (m, ok) := EnsureTabs(n, tabs[..k], calls);
      EnsureKeepsIds(m, tabs[k], calls(k));
      forall j: nat | j < k ensures FailsAt(tabs[..k], calls, j) <==> FailsAt(tabs, calls, j) {}
      if !ok {
        var j: nat :| j < k && FailsAt(tabs[..k], calls, j);
        assert FailsAt(tabs, calls, j);
      } else if calls(k).effect != Full || calls(k).error {
        assert FailsAt(tabs, calls, k);
      }
    }
  }

  lemma EnsureKeepsIds(n: Native, tab: Tab, c: Call)
    ensures forall id | id in Ids(n.tabs) :: id in Ids(EnsureTab(n, tab, c).tabs)
  {
    var m := EnsureTab(n, tab, c);
    forall id | id in Ids(n.tabs) ensures id in Ids(m.tabs) {
      var i :| 0 <= i < |n.tabs| && Ids(n.tabs)[i] == id;
      if m.tabs == n.tabs {
      } else if tab.id in Ids(n.tabs) {
        assert Ids(m.tabs)[i] == id;
      } else if c.at < |n.tabs| && i >= c.at {
        assert Ids(m.tabs)[i + 1] == id;
      } else {
        assert Ids(m.tabs)[i] == id;
      }
    }
  }

  /** Nothing is removed before every wanted tab is there: an attempt that fails among them loses no tab. */
  lemma EnsuresBeforeRemoving(
    n: Native, tabs: seq<Tab>, active: Option<string>, stale: seq<string>, calls: nat -> Call, k: nat)
    requires FailsAt(tabs, calls, k)
    ensures Write(n, tabs, active, stale, calls).1 == Failed
    ensures forall id | id in Ids(n.tabs) :: id in Ids(Write(n, tabs, active, stale, calls).0.tabs)
  {
    EnsuringLosesNothing(n, tabs, calls);
  }
}
