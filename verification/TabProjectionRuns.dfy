/** Every run of the tab projection: crashes at any call, disturbances by the user, and recovery. */
module TabProjectionRuns {
  import opened Outcomes
  import opened Sequences
  import opened TabProjection

  // ---- What single native calls keep -------------------------------------------------------

  lemma IdOf(tabs: seq<Tab>, t: Tab)
    requires t in tabs
    ensures t.id in Ids(tabs)
  {
    var i :| 0 <= i < |tabs| && tabs[i] == t;
    assert Ids(tabs)[i] == t.id;
  }

  lemma TabOf(tabs: seq<Tab>, id: string) returns (t: Tab)
    requires id in Ids(tabs)
    ensures t in tabs && t.id == id
  {
    var i :| 0 <= i < |tabs| && Ids(tabs)[i] == id;
    t := tabs[i];
  }

  lemma SameTab(tabs: seq<Tab>, a: Tab, b: Tab)
    requires NoDup(Ids(tabs)) && a in tabs && b in tabs && a.id == b.id
    ensures a == b
  {
    var i :| 0 <= i < |tabs| && tabs[i] == a;
    var j :| 0 <= j < |tabs| && tabs[j] == b;
    assert Ids(tabs)[i] == Ids(tabs)[j];
  }

  lemma InsertedIds(tabs: seq<Tab>, tab: Tab, at: nat)
    requires NoDup(Ids(tabs)) && tab.id !in Ids(tabs)
    ensures NoDup(Ids(Inserted(tabs, tab, at)))
    ensures forall t :: t in Inserted(tabs, tab, at) <==> t in tabs || t == tab
  {
    var r := Inserted(tabs, tab, at);
    var p := if at < |tabs| then at else |tabs|;
    assert r == tabs[..p] + [tab] + tabs[p..];
    InsertedElements(tabs, tab, p);
    forall i, j | 0 <= i < j < |r| ensures Ids(r)[i] != Ids(r)[j] {
      var i', j' := if i < p then i else i - 1, if j < p then j else j - 1;
      assert i != p ==> r[i] == tabs[i'] && Ids(tabs)[i'] == r[i].id;
      assert j != p ==> r[j] == tabs[j'] && Ids(tabs)[j'] == r[j].id;
    }
  }

  lemma InsertedElements(tabs: seq<Tab>, tab: Tab, p: nat)
    requires p <= |tabs|
    ensures forall t :: t in tabs[..p] + [tab] + tabs[p..] <==> t in tabs || t == tab
  {
    assert tabs == tabs[..p] + tabs[p..];
  }

  lemma UpdatedIds(tabs: seq<Tab>, tab: Tab)
    requires NoDup(Ids(tabs)) && tab.id in Ids(tabs)
    ensures Ids(Updated(tabs, tab)) == Ids(tabs)
    ensures forall t :: t in Updated(tabs, tab) <==> t == tab || (t in tabs && t.id != tab.id)
  {
    var r := Updated(tabs, tab);
    var k :| 0 <= k < |tabs| && Ids(tabs)[k] == tab.id;
    assert r[k] == tab;
    forall t | t in tabs && t.id != tab.id ensures t in r {
      var i :| 0 <= i < |tabs| && tabs[i] == t;
      assert r[i] == t;
    }
  }

  /** The ids present stay present, one more may appear, and a finished call leaves the tab as given. */
  lemma EnsureTabKeeps(n: Native, tab: Tab, c: Call)
    requires NoDup(Ids(n.tabs))
    ensures var r := EnsureTab(n, tab, c).tabs;
      && NoDup(Ids(r))
      && (forall t | t in r :: t.id in Ids(n.tabs) || t.id == tab.id)
      && (forall t | t in n.tabs && t.id != tab.id :: t in r)
      && (c.effect == Full ==> tab in r)
  {
    if c.effect == Skipped {
      forall t | t in n.tabs ensures t.id in Ids(n.tabs) { IdOf(n.tabs, t); }
    } else {
      var made := if c.effect == Full then tab else c.scrap.(id := tab.id);
      forall t | t in n.tabs ensures t.id in Ids(n.tabs) { IdOf(n.tabs, t); }
      if tab.id in Ids(n.tabs) {
        UpdatedIds(n.tabs, made);
      } else {
        InsertedIds(n.tabs, made, c.at);
      }
    }
  }

  lemma {:induction false} EnsureTabsKeeps(n: Native, tabs: seq<Tab>, calls: nat -> Call)
    requires NoDup(Ids(n.tabs)) && NoDup(Ids(tabs))
    ensures var (r, ok) := EnsureTabs(n, tabs, calls);
      && NoDup(Ids(r.tabs))
      && (forall t | t in r.tabs :: t.id in Ids(n.tabs) || t.id in Ids(tabs))
      && (ok ==> forall t | t in tabs :: t in r.tabs)
  {
    if tabs == [] {
      forall t | t in n.tabs ensures t.id in Ids(n.tabs) { IdOf(n.tabs, t); }
    } else {
      var k := |tabs| - 1;
      var front, tab := tabs[..k], tabs[k];
      assert Ids(front) == Ids(tabs)[..k] && Ids(tabs)[k] == tab.id;
      EnsureTabsKeeps(n, front, calls);
      var (m, ok) := EnsureTabs(n, front, calls);
      forall id | id in Ids(front) ensures id in Ids(tabs) {}
      if ok {
        EnsureTabKeeps(m, tab, calls(k));
        var r := EnsureTab(m, tab, calls(k)).tabs;
        forall t | t in r ensures t.id in Ids(n.tabs) || t.id in Ids(tabs) {
          if t.id != tab.id {
            var u := TabOf(m.tabs, t.id);
          }
        }
        if calls(k).effect == Full {
          forall t | t in tabs ensures t in r {
            if t != tab {
              LastIdIsNew(tabs, t);
            }
          }
        }
      }
    }
  }

  lemma LastIdIsNew(tabs: seq<Tab>, t: Tab)
    requires NoDup(Ids(tabs)) && t in tabs && t != tabs[|tabs| - 1]
    ensures t in tabs[..|tabs| - 1] && t.id != tabs[|tabs| - 1].id
  {
    var i :| 0 <= i < |tabs| && tabs[i] == t;
    assert Ids(tabs)[i] != Ids(tabs)[|tabs| - 1];
    assert tabs[..|tabs| - 1][i] == t;
  }

  lemma {:induction false} WithoutIdKeeps(tabs: seq<Tab>, id: string)
    ensures forall t :: t in WithoutId(tabs, id) <==> t in tabs && t.id != id
    ensures NoDup(Ids(tabs)) ==> NoDup(Ids(WithoutId(tabs, id)))
  {
    if tabs != [] {
      var front, last := tabs[..|tabs| - 1], tabs[|tabs| - 1];
      assert tabs == front + [last] && Ids(front) == Ids(tabs)[..|front|];
      WithoutIdKeeps(front, id);
      if NoDup(Ids(tabs)) {
        var w := WithoutId(front, id);
        forall i | 0 <= i < |w| ensures w[i].id != last.id {
          assert w[i] in front;
          IdOf(front, w[i]);
          assert Ids(tabs)[|front|] == last.id;
        }
      }
    }
  }

  lemma {:induction false} RemoveTabsKeeps(
    n: Native, stale: seq<string>, active: Option<string>, calls: nat -> Call, base: nat)
    requires NoDup(Ids(n.tabs))
    ensures var (r, ok) := RemoveTabs(n, stale, active, calls, base);
      && NoDup(Ids(r.tabs))
      && (forall t | t in r.tabs :: t in n.tabs)
      && (forall t | t in n.tabs && t.id !in stale :: t in r.tabs)
  {
    if stale != [] {
      var k := |stale| - 1;
      assert stale == stale[..k] + [stale[k]];
      RemoveTabsKeeps(n, stale[..k], active, calls, base);
      var (m, ok) := RemoveTabs(n, stale[..k], active, calls, base);
      if ok {
        WithoutIdKeeps(m.tabs, stale[k]);
      }
    }
  }

  lemma {:induction false} PickedKeeps(tabs: seq<Tab>, order: seq<string>)
    requires NoDup(Ids(tabs))
    ensures forall t :: t in Picked(tabs, order) <==> t in tabs && t.id in order
    ensures NoDup(Ids(Picked(tabs, order)))
  {
    if order != [] {
      var front, id := order[..|order| - 1], order[|order| - 1];
      assert order == front + [id];
      PickedKeeps(tabs, front);
      var picked := Picked(tabs, front);
      forall t | t in tabs && t.id == id ensures id in Ids(tabs) && t == WithId(tabs, id) {
        IdOf(tabs, t);
        SameTab(tabs, t, WithId(tabs, id));
      }
      if id in Ids(tabs) && id !in front {
        forall i | 0 <= i < |picked| ensures picked[i].id != id { assert picked[i] in picked; }
      }
    }
  }

  lemma {:induction false} UnlistedKeeps(tabs: seq<Tab>, order: seq<string>)
    requires NoDup(Ids(tabs))
    ensures forall t :: t in Unlisted(tabs, order) <==> t in tabs && t.id !in order
    ensures NoDup(Ids(Unlisted(tabs, order)))
  {
    if tabs != [] {
      var front, last := tabs[..|tabs| - 1], tabs[|tabs| - 1];
      assert tabs == front + [last] && Ids(front) == Ids(tabs)[..|front|];
      UnlistedKeeps(front, order);
      var u := Unlisted(front, order);
      forall i | 0 <= i < |u| ensures u[i].id != last.id {
        assert u[i] in front;
        IdOf(front, u[i]);
        assert Ids(tabs)[|front|] == last.id;
      }
    }
  }

  /** Reordering neither loses, invents nor repeats a tab. */
  lemma ReorderedKeeps(tabs: seq<Tab>, order: seq<string>)
    requires NoDup(Ids(tabs))
    ensures forall t :: t in Reordered(tabs, order) <==> t in tabs
    ensures NoDup(Ids(Reordered(tabs, order)))
  {
    PickedKeeps(tabs, order);
    UnlistedKeeps(tabs, order);
    var p, u := Picked(tabs, order), Unlisted(tabs, order);
    forall i, j | 0 <= i < |p| && 0 <= j < |u| ensures p[i].id != u[j].id {
      assert p[i] in p && u[j] in u;
    }
  }

  lemma CommitKeeps(n: Native, order: seq<string>, active: Option<string>, c: Call)
    requires NoDup(Ids(n.tabs))
    ensures var r := CommitTabs(n, order, active, c).tabs;
      NoDup(Ids(r)) && forall t :: t in r <==> t in n.tabs
  {
    ReorderedKeeps(n.tabs, order);
  }

  // ---- What one attempt leaves -------------------------------------------------------------

  /** The controller shows exactly these tabs, in this order, with the active one flagged. */
  ghost predicate Exact(n: Native, tabs: seq<Tab>, active: Option<string>) {
    && n.tabs == tabs && n.active == active
    && forall i | 0 <= i < |tabs| :: tabs[i].id in n.flagged <==> active == Some(tabs[i].id)
  }

  lemma SameIdsSameTabs(a: seq<Tab>, b: seq<Tab>)
    requires Ids(a) == Ids(b) && NoDup(Ids(b)) && forall t | t in b :: t in a
    ensures a == b
  {
    assert |a| == |Ids(a)| == |b|;
    forall i | 0 <= i < |a| ensures a[i] == b[i] {
      assert Ids(a)[i] == a[i].id && Ids(b)[i] == b[i].id && b[i] in b;
      SameTab(a, a[i], b[i]);
    }
  }

  /** Wherever an attempt stops, only ids that were there or are wanted are there. */
  lemma WriteKeepsIds(n: Native, tabs: seq<Tab>, active: Option<string>, stale: seq<string>, calls: nat -> Call)
    requires NoDup(Ids(n.tabs)) && NoDup(Ids(tabs))
    ensures var r := Write(n, tabs, active, stale, calls).0.tabs;
      NoDup(Ids(r)) && forall t | t in r :: t.id in Ids(n.tabs) || t.id in Ids(tabs)
  {
    EnsureTabsKeeps(n, tabs, calls);
    var (ensured, ok1) := EnsureTabs(n, tabs, calls);
    if ok1 {
      RemoveTabsKeeps(ensured, stale, active, calls, |tabs|);
      var (removed, ok2) := RemoveTabs(ensured, stale, active, calls, |tabs|);
      CommitKeeps(removed, Ids(tabs), active, calls(|tabs| + |stale|));
    }
  }

  /** An attempt that reports success has written the projection exactly, names and types included. */
  lemma DoneIsExact(n: Native, tabs: seq<Tab>, active: Option<string>, stale: seq<string>, calls: nat -> Call)
    requires NoDup(Ids(n.tabs)) && NoDup(Ids(tabs)) && forall id | id in stale :: id !in Ids(tabs)
    requires Write(n, tabs, active, stale, calls).1 == Done
    ensures Exact(Write(n, tabs, active, stale, calls).0, tabs, active)
  {
    EnsureTabsKeeps(n, tabs, calls);
    var (ensured, ok1) := EnsureTabs(n, tabs, calls);
    RemoveTabsKeeps(ensured, stale, active, calls, |tabs|);
    var (removed, ok2) := RemoveTabs(ensured, stale, active, calls, |tabs|);
    CommitKeeps(removed, Ids(tabs), active, calls(|tabs| + |stale|));
    var r := CommitTabs(removed, Ids(tabs), active, calls(|tabs| + |stale|));
    forall t | t in tabs ensures t in r.tabs { IdOf(tabs, t); }
    SameIdsSameTabs(r.tabs, tabs);
  }

  // ---- Attempts without a fault ------------------------------------------------------------

  ghost predicate Faultless(calls: nat -> Call) {
    forall i: nat :: calls(i).effect == Full && !calls(i).error && !calls(i).refuse
  }

  lemma {:induction false} FaultlessEnsure(n: Native, tabs: seq<Tab>, calls: nat -> Call)
    requires Faultless(calls)
    ensures EnsureTabs(n, tabs, calls).1
  {
    if tabs != [] {
      FaultlessEnsure(n, tabs[..|tabs| - 1], calls);
    }
  }

  lemma {:induction false} FaultlessRemove(
    n: Native, stale: seq<string>, active: Option<string>, calls: nat -> Call, base: nat)
    requires Faultless(calls) && NoDup(Ids(n.tabs))
    ensures var (r, ok) := RemoveTabs(n, stale, active, calls, base);
      ok && forall t | t in r.tabs :: t in n.tabs && t.id !in stale
  {
    if stale != [] {
      var k := |stale| - 1;
      assert stale == stale[..k] + [stale[k]];
      FaultlessRemove(n, stale[..k], active, calls, base);
      WithoutIdKeeps(RemoveTabs(n, stale[..k], active, calls, base).0.tabs, stale[k]);
    }
  }

  lemma {:induction false} PickedIsOrder(tabs: seq<Tab>, order: seq<string>)
    requires NoDup(order) && forall id | id in order :: id in Ids(tabs)
    ensures Ids(Picked(tabs, order)) == order
  {
    if order != [] {
      var front := order[..|order| - 1];
      assert order == front + [order[|order| - 1]];
      PickedIsOrder(tabs, front);
    }
  }

  lemma {:induction false} AllListed(tabs: seq<Tab>, order: seq<string>)
    requires forall t | t in tabs :: t.id in order
    ensures Unlisted(tabs, order) == []
  {
    if tabs != [] {
      AllListed(tabs[..|tabs| - 1], order);
    }
  }

  lemma SomeId(tabs: seq<Tab>)
    ensures tabs == [] || exists id :: id in Ids(tabs)
  {
    if tabs != [] {
      assert Ids(tabs)[0] in Ids(tabs);
    }
  }

  lemma ReorderedIsOrder(tabs: seq<Tab>, order: seq<string>)
    requires NoDup(Ids(tabs)) && NoDup(order) && forall id :: id in order <==> id in Ids(tabs)
    ensures Ids(Reordered(tabs, order)) == order
  {
    SomeId(tabs);
    if |tabs| == 0 {
      NoDupSize(order, {});
    } else if |tabs| == 1 {
      assert Ids(tabs)[0] in Ids(tabs) && forall id :: id in Ids(tabs) <==> id in {Ids(tabs)[0]};
      NoDupSize(order, {Ids(tabs)[0]});
      assert order[0] in order;
    } else if |tabs| > 1 {
      forall t | t in tabs ensures t.id in order { IdOf(tabs, t); }
      PickedIsOrder(tabs, order);
      AllListed(tabs, order);
    }
  }

  lemma ExactPhasesMatch(n: Native, tabs: seq<Tab>)
    requires n.tabs == tabs && NoDup(Ids(tabs))
    ensures PhasesMatch(n, tabs)
  {
    forall t | t in tabs ensures t.id in Ids(tabs) && WithId(tabs, t.id).phase == t.phase {
      IdOf(tabs, t);
      SameTab(tabs, WithId(tabs, t.id), t);
    }
  }

  /** When nothing fails and everything foreign is listed as stale, the attempt succeeds. */
  lemma FaultlessWriteIsDone(n: Native, tabs: seq<Tab>, active: Option<string>, stale: seq<string>, calls: nat -> Call)
    requires Faultless(calls) && NoDup(Ids(n.tabs)) && NoDup(Ids(tabs)) && forall id | id in stale :: id !in Ids(tabs)
    requires forall t | t in n.tabs :: t.id in Ids(tabs) || t.id in stale
    requires active.Some? ==> active.value in Ids(tabs)
    ensures Write(n, tabs, active, stale, calls).1 == Done
  {
    EnsureTabsKeeps(n, tabs, calls);
    FaultlessEnsure(n, tabs, calls);
    var ensured := EnsureTabs(n, tabs, calls).0;
    forall t | t in ensured.tabs ensures t.id in Ids(tabs) || t.id in stale {
      if t.id in Ids(n.tabs) { var u := TabOf(n.tabs, t.id); }
    }
    RemoveTabsKeeps(ensured, stale, active, calls, |tabs|);
    FaultlessRemove(ensured, stale, active, calls, |tabs|);
    var removed := RemoveTabs(ensured, stale, active, calls, |tabs|).0;
    forall t | t in tabs ensures t in removed.tabs { IdOf(tabs, t); }
    FaultlessCommit(removed, tabs, active, calls(|tabs| + |stale|), calls(|tabs| + |stale| + 1));
  }

  lemma FaultlessCommit(n: Native, tabs: seq<Tab>, active: Option<string>, c: Call, p: Call)
    requires c.effect == Full && !c.error && !c.refuse && !p.error && !p.refuse
    requires NoDup(Ids(n.tabs)) && NoDup(Ids(tabs))
    requires (forall t | t in n.tabs :: t.id in Ids(tabs)) && (forall t | t in tabs :: t in n.tabs)
    requires active.Some? ==> active.value in Ids(tabs)
    ensures Commit(n, tabs, active, c, p).1 == Done
  {
    forall id ensures id in Ids(tabs) <==> id in Ids(n.tabs) {
      if id in Ids(tabs) { var t := TabOf(tabs, id); IdOf(n.tabs, t); }
      if id in Ids(n.tabs) { var t := TabOf(n.tabs, id); }
    }
    ReorderedIsOrder(n.tabs, Ids(tabs));
    ReorderedKeeps(n.tabs, Ids(tabs));
    var r := CommitTabs(n, Ids(tabs), active, c);
    SameIdsSameTabs(r.tabs, tabs);
    ExactPhasesMatch(r, tabs);
  }

  // ---- Runs --------------------------------------------------------------------------------

  /**
   * `disturbed` records that the user has reordered or selected tabs in the controller since the
   * host last reported success.
   */
  datatype World = World(host: Host, disturbed: bool)

  datatype Event =
    | Apply(access: Access, revision: nat, tabs: seq<Tab>, active: Option<string>, calls: nat -> Call)
    | Restore(access: Access, calls: nat -> Call)
    | Disturb(native: Native)

  ghost predicate Enabled(w: World, e: Event) {
    e.Disturb? ==> NoDup(Ids(e.native.tabs)) && forall t :: t in e.native.tabs <==> t in w.host.native.tabs
  }

  ghost function Answer(w: World, e: Event): Result<Receipt, ProjectionError>
    requires !e.Disturb?
  {
    match e
    case Apply(access, revision, tabs, active, calls) => ApplyStep(w.host, access, revision, tabs, active, calls).1
    case Restore(access, calls) => RestoreStep(w.host, access, calls).1
  }

  ghost function Next(w: World, e: Event): World {
    match e
    case Apply(access, revision, tabs, active, calls) =>
      World(ApplyStep(w.host, access, revision, tabs, active, calls).0, w.disturbed && Answer(w, e).Err?)
    case Restore(access, calls) =>
      World(RestoreStep(w.host, access, calls).0, w.disturbed && Answer(w, e).Err?)
    case Disturb(native) => World(w.host.(native := native), true)
  }

  ghost function Initial(): World {
    World(Host(0, [], None, false, [], Native([], None, {})), false)
  }

  /** No tab outside the last verified projection and the last failed attempt is ever shown. */
  ghost predicate IdsAccounted(h: Host) {
    forall t | t in h.native.tabs :: t.id in Ids(h.tabs) || t.id in h.failed
  }

  ghost predicate Inv(w: World) {
    var h := w.host;
    && WellFormed(h.tabs, h.active) && NoDup(Ids(h.native.tabs)) && IdsAccounted(h)
    && (!h.poisoned ==> h.failed == [] && forall t :: t in h.native.tabs <==> t in h.tabs)
    && (!h.poisoned && !w.disturbed ==> Exact(h.native, h.tabs, h.active))
  }

  lemma RecheckKeeps(w: World, calls: nat -> Call)
    requires Inv(w) && !w.host.poisoned
    ensures var (h, r) := RecheckStep(w.host, calls);
      Inv(World(h, w.disturbed && r.Err?)) && (r.Ok? ==> h == w.host && Exact(h.native, h.tabs, h.active))
  {
    var h := w.host;
    forall t | t in h.native.tabs ensures t.id in Ids(h.tabs) { IdOf(h.tabs, t); }
    if Readback(h.native, h.tabs, h.active, calls(0), calls(1)) == Done {
      SameIdsSameTabs(h.native.tabs, h.tabs);
    }
  }

  lemma ExactTabs(h: Host)
    requires Exact(h.native, h.tabs, h.active)
    ensures IdsAccounted(h)
  {
    forall t | t in h.native.tabs ensures t.id in Ids(h.tabs) { IdOf(h.tabs, t); }
  }

  lemma ApplyKeeps(w: World, access: Access, revision: nat, tabs: seq<Tab>, active: Option<string>, calls: nat -> Call)
    requires Inv(w)
    ensures var (h, r) := ApplyStep(w.host, access, revision, tabs, active, calls);
      && Inv(World(h, w.disturbed && r.Err?))
      && (r.Ok? ==> Exact(h.native, h.tabs, h.active) && r.value == Receipt(revision, |tabs|, active))
      && (r.Ok? ==> h.tabs == tabs && h.active == active && h.revision == revision)
      && (r.Err? ==> h.tabs == w.host.tabs && h.active == w.host.active && h.revision == w.host.revision)
  {
    var h := w.host;
    if access.identity && access.healthy && access.window && revision > 0 && WellFormed(tabs, active) && !h.poisoned {
      if revision == h.revision && tabs == h.tabs && active == h.active {
        RecheckKeeps(w, calls);
      } else if revision > h.revision {
        var stale := StaleIds(Ids(h.tabs), Ids(tabs));
        var (n, o) := Write(h.native, tabs, active, stale, calls);
        WriteKeepsIds(h.native, tabs, active, stale, calls);
        if o == Done {
          DoneIsExact(h.native, tabs, active, stale, calls);
          ExactTabs(Host(revision, tabs, active, false, [], n));
        } else {
          forall t | t in n.tabs ensures t.id in Ids(h.tabs) || t.id in Ids(tabs) {
            if t.id in Ids(h.native.tabs) { var u := TabOf(h.native.tabs, t.id); }
          }
        }
      }
    }
  }

  lemma RestoreKeeps(w: World, access: Access, calls: nat -> Call)
    requires Inv(w)
    ensures var (h, r) := RestoreStep(w.host, access, calls);
      && Inv(World(h, w.disturbed && r.Err?))
      && h.tabs == w.host.tabs && h.active == w.host.active && h.revision == w.host.revision
      && (r.Ok? ==>
            Exact(h.native, h.tabs, h.active) && !h.poisoned &&
            r.value == Receipt(h.revision, |h.tabs|, h.active))
  {
    var h := w.host;
    if access.identity && access.healthy && access.window {
      if !h.poisoned {
        RecheckKeeps(w, calls);
      } else {
        var stale := StaleIds(h.failed, Ids(h.tabs));
        var (n, o) := Write(h.native, h.tabs, h.active, stale, calls);
        WriteKeepsIds(h.native, h.tabs, h.active, stale, calls);
        if o == Done {
          DoneIsExact(h.native, h.tabs, h.active, stale, calls);
          ExactTabs(h.(native := n));
        } else {
          forall t | t in n.tabs ensures t.id in Ids(h.tabs) || t.id in h.failed {
            if t.id in Ids(h.native.tabs) { var u := TabOf(h.native.tabs, t.id); }
          }
        }
      }
    }
  }

  lemma NextInv(w: World, e: Event)
    requires Inv(w) && Enabled(w, e)
    ensures Inv(Next(w, e))
  {
    match e
    case Apply(access, revision, tabs, active, calls) => ApplyKeeps(w, access, revision, tabs, active, calls);
    case Restore(access, calls) => RestoreKeeps(w, access, calls);
    case Disturb(native) =>
  }

  ghost predicate ValidRun(w: World, run: seq<Event>)
    decreases |run|
  {
    run == [] || (Enabled(w, run[0]) && ValidRun(Next(w, run[0]), run[1..]))
  }

  ghost function After(w: World, run: seq<Event>): World
    decreases |run|
  {
    if run == [] then w else After(Next(w, run[0]), run[1..])
  }

  lemma {:induction false} RunInv(w: World, run: seq<Event>)
    requires Inv(w) && ValidRun(w, run)
    ensures Inv(After(w, run))
    decreases |run|
  {
    if run != [] {
      NextInv(w, run[0]);
      RunInv(Next(w, run[0]), run[1..]);
    }
  }

  lemma InitialInv()
    ensures Inv(Initial())
  {
  }

  /**
   * Main result, first half: in every run from a fresh host the shown ids lie in the last verified
   * projection or the last failed attempt, and an unpoisoned undisturbed host's controller shows
   * exactly the former.
   */
  lemma ReachableInv(run: seq<Event>)
    requires ValidRun(Initial(), run)
    ensures Inv(After(Initial(), run))
  {
    InitialInv();
    RunInv(Initial(), run);
  }

  /** No apply in the run succeeds. */
  ghost predicate NothingApplied(w: World, run: seq<Event>)
    decreases |run|
  {
    run == [] || ((run[0].Apply? ==> Answer(w, run[0]).Err?) && NothingApplied(Next(w, run[0]), run[1..]))
  }

  lemma {:induction false} VerifiedSurvives(w: World, run: seq<Event>)
    requires Inv(w) && ValidRun(w, run) && NothingApplied(w, run)
    ensures var h := After(w, run).host;
      h.tabs == w.host.tabs && h.active == w.host.active && h.revision == w.host.revision
    decreases |run|
  {
    if run != [] {
      NextInv(w, run[0]);
      match run[0] {
        case Apply(access, revision, tabs, active, calls) => ApplyKeeps(w, access, revision, tabs, active, calls);
        case Restore(access, calls) => RestoreKeeps(w, access, calls);
        case Disturb(native) =>
      }
      VerifiedSurvives(Next(w, run[0]), run[1..]);
    }
  }

  /**
   * Main result, second half: after a successful apply, however many applies and restores fail at
   * whatever call and whatever the user moves, one restore that reports success has brought back
   * exactly the applied tabs, order, active tab and revision.
   */
  lemma RestoreBringsBackTheApplied(w: World, apply: Event, run: seq<Event>, access: Access, calls: nat -> Call)
    requires Inv(w) && apply.Apply? && Answer(w, apply).Ok?
    requires ValidRun(Next(w, apply), run) && NothingApplied(Next(w, apply), run)
    requires Answer(After(Next(w, apply), run), Restore(access, calls)).Ok?
    ensures var end := Next(After(Next(w, apply), run), Restore(access, calls));
      && Exact(end.host.native, apply.tabs, apply.active) && !end.host.poisoned
      && Answer(After(Next(w, apply), run), Restore(access, calls)).value
        == Receipt(apply.revision, |apply.tabs|, apply.active)
  {
    ApplyKeeps(w, apply.access, apply.revision, apply.tabs, apply.active, apply.calls);
    var applied := Next(w, apply);
    RunInv(applied, run);
    VerifiedSurvives(applied, run);
    RestoreKeeps(After(applied, run), access, calls);
  }

  /** Recovery needs no luck: a restore of a poisoned host whose calls do not fail succeeds. */
  lemma FaultlessRestoreSucceeds(w: World, access: Access, calls: nat -> Call)
    requires Inv(w) && (w.host.poisoned || !w.disturbed) && Faultless(calls)
    requires access.identity && access.healthy && access.window
    ensures Answer(w, Restore(access, calls)).Ok?
  {
    var h := w.host;
    if h.poisoned {
      FaultlessWriteIsDone(h.native, h.tabs, h.active, StaleIds(h.failed, Ids(h.tabs)), calls);
    } else {
      ExactPhasesMatch(h.native, h.tabs);
    }
  }

  /** Whatever the state, the second of two restores without a fault succeeds. */
  lemma TwoFaultlessRestoresSucceed(w: World, access: Access, calls: nat -> Call, calls': nat -> Call)
    requires Inv(w) && Faultless(calls) && Faultless(calls')
    requires access.identity && access.healthy && access.window
    ensures Answer(Next(w, Restore(access, calls)), Restore(access, calls')).Ok?
  {
    RestoreKeeps(w, access, calls);
    var w' := Next(w, Restore(access, calls));
    if w.host.poisoned {
      FaultlessRestoreSucceeds(w, access, calls);
    }
    FaultlessRestoreSucceeds(w', access, calls');
  }

  /** A newer well-formed projection is written unless a call fails. */
  lemma FaultlessApplySucceeds(w: World, e: Event)
    requires Inv(w) && e.Apply? && !w.host.poisoned && e.revision > w.host.revision && WellFormed(e.tabs, e.active)
    requires Faultless(e.calls) && e.access.identity && e.access.healthy && e.access.window
    ensures Answer(w, e).Ok?
  {
    var h := w.host;
    forall t | t in h.native.tabs ensures t.id in Ids(e.tabs) || t.id in StaleIds(Ids(h.tabs), Ids(e.tabs)) {
      IdOf(h.tabs, t);
    }
    FaultlessWriteIsDone(h.native, e.tabs, e.active, StaleIds(Ids(h.tabs), Ids(e.tabs)), e.calls);
  }

  /** A poisoned host accepts no apply until a restore has reported success. */
  lemma PoisonedRefusesApply(w: World, e: Event)
    requires w.host.poisoned && e.Apply?
    ensures Answer(w, e).Err? && Next(w, e) == w
  {
  }

  ghost predicate NoRestoreSucceeds(w: World, run: seq<Event>)
    decreases |run|
  {
    run == [] || ((run[0].Restore? ==> Answer(w, run[0]).Err?) && NoRestoreSucceeds(Next(w, run[0]), run[1..]))
  }

  /** Through any run of a poisoned host nothing is applied before a restore has reported success. */
  lemma {:induction false} PoisonHoldsUntilRestored(w: World, run: seq<Event>)
    requires w.host.poisoned && NoRestoreSucceeds(w, run)
    ensures After(w, run).host.poisoned && NothingApplied(w, run)
    decreases |run|
  {
    if run != [] {
      PoisonHoldsUntilRestored(Next(w, run[0]), run[1..]);
    }
  }
}
