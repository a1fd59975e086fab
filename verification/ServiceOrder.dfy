/** The coordinator serves overlapping requests in arrival order. */
module ServiceOrder {
  import opened BrowserOperationRuns
  import opened BrowserOperations
  import opened Sequences
  import opened StringOrder

  predicate Share(a: seq<Role>, b: seq<Role>) {
    exists r | r in a :: r in b
  }

  /** Later grants that share a role with an earlier one went to later arrivals. */
  ghost predicate GrantsInOrder(grants: seq<Grant>, arrived: seq<Id>) {
    forall k, l | 0 <= k < l < |grants| && Share(grants[k].roles, grants[l].roles) ::
      Before(arrived, grants[k].id, grants[l].id)
  }

  /** Whoever still waits arrived after every grant it shares a role with. */
  ghost predicate WaitersBehind(w: World, arrived: seq<Id>) {
    forall k, id | 0 <= k < |w.grants| && id in w.waiting && Share(w.grants[k].roles, w.waiting[id].roles) ::
      Before(arrived, w.grants[k].id, id)
  }

  /** The live tickets stand in the order they arrived in. */
  ghost predicate LiveInOrder(w: World, arrived: seq<Id>) {
    && (forall id | id in w.live :: id in arrived)
    && (forall a, b | Before(w.live, a, b) :: Before(arrived, a, b))
  }

  ghost predicate Served(w: World, arrived: seq<Id>) {
    && NoDup(arrived)
    && (forall id | id in arrived :: id in w.used)
    && (forall k | 0 <= k < |w.grants| :: w.grants[k].id in arrived)
    && LiveInOrder(w, arrived)
    && GrantsInOrder(w.grants, arrived)
    && WaitersBehind(w, arrived)
  }

  lemma BeforeLonger(s: seq<Id>, x: Id, a: Id, b: Id)
    requires Before(s, a, b)
    ensures Before(s + [x], a, b)
  {
    var i, j :| 0 <= i < j < |s| && s[i] == a && s[j] == b;
    assert (s + [x])[i] == a && (s + [x])[j] == b;
  }

  lemma BeforeLast(s: seq<Id>, x: Id, a: Id)
    requires a in s
    ensures Before(s + [x], a, x)
  {
    var i :| 0 <= i < |s| && s[i] == a;
    assert (s + [x])[i] == a && (s + [x])[|s|] == x;
  }

  lemma RegisteredLive(w: World, arrived: seq<Id>, id: Id, kind: Kind, roles: seq<Role>)
    requires LiveInOrder(w, arrived) && id !in w.live
    ensures LiveInOrder(Registered(w, id, kind, roles), arrived + [id])
  {
    forall a, b | Before(w.live + [id], a, b) ensures Before(arrived + [id], a, b) {
      if b == id {
        var i, j :| 0 <= i < j < |w.live + [id]| && (w.live + [id])[i] == a && (w.live + [id])[j] == b;
        assert a == w.live[i];
        BeforeLast(arrived, id, a);
      } else {
        BeforeAppend(w.live, id, a, b);
        BeforeLonger(arrived, id, a, b);
      }
    }
  }

  lemma RegisteredServed(w: World, arrived: seq<Id>, id: Id, kind: Kind, roles: seq<Role>)
    requires Inv(w) && Served(w, arrived) && id !in w.used
    ensures Served(Registered(w, id, kind, roles), arrived + [id])
  {
    var w' := Registered(w, id, kind, roles);
    RegisteredLive(w, arrived, id, kind, roles);
    forall k, l | 0 <= k < l < |w.grants| && Share(w.grants[k].roles, w.grants[l].roles)
      ensures Before(arrived + [id], w.grants[k].id, w.grants[l].id)
    {
      BeforeLonger(arrived, id, w.grants[k].id, w.grants[l].id);
    }
    forall k, x | 0 <= k < |w.grants| && x in w'.waiting && Share(w.grants[k].roles, w'.waiting[x].roles)
      ensures Before(arrived + [id], w.grants[k].id, x)
    {
      if x == id {
        BeforeLast(arrived, id, w.grants[k].id);
      } else {
        BeforeLonger(arrived, id, w.grants[k].id, x);
      }
    }
  }

  /** Tickets and waiters that leave disturb no order. */
  lemma ShrunkServed(w: World, w': World, arrived: seq<Id>)
    requires Served(w, arrived) && w'.grants == w.grants && w'.used == w.used
    requires forall id | id in w'.waiting :: id in w.waiting && w'.waiting[id] == w.waiting[id]
    requires forall id | id in w'.live :: id in w.live
    requires forall a, b | Before(w'.live, a, b) :: Before(w.live, a, b)
    ensures Served(w', arrived)
  {
  }

  lemma LeftServed(w: World, w': World, arrived: seq<Id>, id: Id)
    requires Served(w, arrived) && w'.grants == w.grants && w'.used == w.used
    requires w'.live == Without(w.live, id) && w'.waiting == w.waiting - {id}
    ensures Served(w', arrived)
  {
    WithoutElements(w.live, id);
    forall a, b | Before(w'.live, a, b) ensures Before(w.live, a, b) { WithoutKeepsOrder(w.live, id, a, b); }
    ShrunkServed(w, w', arrived);
  }

  /** Of two live tickets one came first. */
  lemma LiveComparable(live: seq<Id>, a: Id, b: Id)
    requires a in live && b in live && a != b
    ensures Before(live, a, b) || Before(live, b, a)
  {
    var i :| 0 <= i < |live| && live[i] == a;
    var j :| 0 <= j < |live| && live[j] == b;
  }

  /** A ticket at the front came before every other waiter it shares a role with. */
  lemma FrontLeadsWaiters(w: World, arrived: seq<Id>, id: Id, other: Id)
    requires Inv(w) && LiveInOrder(w, arrived)
    requires id in w.waiting && other in w.waiting && id != other
    requires AtFront(w.st, id, w.waiting[id].roles) && Share(w.waiting[id].roles, w.waiting[other].roles)
    ensures Before(arrived, id, other)
  {
    ReadyIffNoOlderOverlap(w, id);
    LiveComparable(w.live, id, other);
    var r :| r in w.waiting[id].roles && r in w.waiting[other].roles;
    assert Names(w.st.tickets, other, r) && Names(w.st.tickets, id, r);
    assert Overlap(w.st.tickets, other, id);
  }

  lemma GrantedServed(w: World, arrived: seq<Id>, id: Id)
    requires Inv(w) && Served(w, arrived) && id in w.waiting && DecisionOf(w, id).Granted?
    ensures Served(Polled(w, id), arrived)
  {
    var w' := Polled(w, id);
    var roles := w.waiting[id].roles;
    assert w'.grants == w.grants + [Grant(id, w.waiting[id].kind, roles)];
    assert id in w.live;
    forall other | other in w'.waiting && Share(roles, w'.waiting[other].roles) ensures Before(arrived, id, other) {
      FrontLeadsWaiters(w, arrived, id, other);
    }
    GrantServed(w, w', arrived, Grant(id, w.waiting[id].kind, roles));
  }

  lemma GrantServed(w: World, w': World, arrived: seq<Id>, g: Grant)
    requires Served(w, arrived) && g.id in w.waiting && g.roles == w.waiting[g.id].roles && g.id in w.live
    requires w'.grants == w.grants + [g] && w'.live == w.live && w'.used == w.used
    requires w'.waiting == w.waiting - {g.id}
    requires forall other | other in w'.waiting && Share(g.roles, w'.waiting[other].roles) ::
      Before(arrived, g.id, other)
    ensures Served(w', arrived)
  {
    forall k, l | 0 <= k < l < |w'.grants| && Share(w'.grants[k].roles, w'.grants[l].roles)
      ensures Before(arrived, w'.grants[k].id, w'.grants[l].id)
    {
      assert w'.grants[k] == w.grants[k];
      if l < |w.grants| { assert w'.grants[l] == w.grants[l]; }
    }
    forall k, x | 0 <= k < |w'.grants| && x in w'.waiting && Share(w'.grants[k].roles, w'.waiting[x].roles)
      ensures Before(arrived, w'.grants[k].id, x)
    {
      if k < |w.grants| { assert w'.grants[k] == w.grants[k]; }
    }
  }

  lemma PolledServed(w: World, arrived: seq<Id>, id: Id)
    requires Inv(w) && Served(w, arrived) && id in w.waiting
    ensures Served(Polled(w, id), arrived)
  {
    TicketNeverMissing(w, id);
    if DecisionOf(w, id).Granted? {
      GrantedServed(w, arrived, id);
    } else if DecisionOf(w, id).Refused? {
      LeftServed(w, Polled(w, id), arrived, id);
    } else {
      ShrunkServed(w, Polled(w, id), arrived);
    }
  }

  lemma ArrivedServed(w: World, arrived: seq<Id>, id: Id, kind: Kind, roles: seq<Role>)
    requires Inv(w) && Served(w, arrived) && id !in w.used && StrictlySorted(roles) && roles != []
    ensures id in Registered(w, id, kind, roles).waiting
    ensures Served(Polled(Registered(w, id, kind, roles), id), arrived + [id])
  {
    RegisteredInv(w, id, kind, roles);
    RegisteredServed(w, arrived, id, kind, roles);
    PolledServed(Registered(w, id, kind, roles), arrived + [id], id);
  }

  lemma FinishedServed(w: World, w': World, arrived: seq<Id>, id: Id)
    requires Inv(w) && Served(w, arrived) && id !in w.waiting
    requires w'.grants == w.grants && w'.used == w.used && w'.waiting == w.waiting
    requires w'.live == w.live || w'.live == Without(w.live, id)
    ensures Served(w', arrived)
  {
    if w'.live == w.live {
      ShrunkServed(w, w', arrived);
    } else {
      assert w.waiting - {id} == w.waiting;
      LeftServed(w, w', arrived, id);
    }
  }

  // ---- The coordinator ---------------------------------------------------------------------

  /** Whether an arrival gets as far as a ticket. */
  predicate Registers(w: World, e: Event) {
    e.Arrive? && ParseKind(e.kindText).Some? && NormalizeRoles(e.requested) != [] && !w.st.shuttingDown
  }

  /** The tickets of a run in the order in which they were registered. */
  function Arrivals(w: World, events: seq<Event>): seq<Id>
    requires ValidRun(w, events)
    decreases |events|
  {
    if events == [] then []
    else (if Registers(w, events[0]) then [events[0].id] else []) + Arrivals(Next(w, events[0]), events[1..])
  }

  lemma NextServed(w: World, arrived: seq<Id>, e: Event)
    requires Inv(w) && Served(w, arrived) && Allowed(w, e)
    ensures Served(Next(w, e), if Registers(w, e) then arrived + [e.id] else arrived)
  {
    match e
    case Arrive(id, kindText, requested) =>
      if Registers(w, e) {
        var kind, roles := ParseKind(kindText).value, NormalizeRoles(requested);
        ArrivedServed(w, arrived, id, kind, roles);
      }
    case Wake(id) => PolledServed(w, arrived, id);
    case BeginShutdown => ShrunkServed(w, Next(w, e), arrived);
    case Complete(id) => FinishedServed(w, Next(w, e), arrived, id);
    case CompleteRetaining(id, _) => FinishedServed(w, Next(w, e), arrived, id);
    case Abort(id) => FinishedServed(w, Next(w, e), arrived, id);
  }

  lemma {:induction false} RunServed(w: World, arrived: seq<Id>, events: seq<Event>)
    requires Inv(w) && Served(w, arrived) && ValidRun(w, events)
    ensures Served(After(w, events), arrived + Arrivals(w, events))
    decreases |events|
  {
    if events == [] {
      assert arrived + [] == arrived;
    } else {
      var e := events[0];
      NextServed(w, arrived, e);
      NextInv(w, e);
      var later := Arrivals(Next(w, e), events[1..]);
      if Registers(w, e) {
        RunServed(Next(w, e), arrived + [e.id], events[1..]);
        Regroup(arrived, [e.id], later);
      } else {
        RunServed(Next(w, e), arrived, events[1..]);
        assert [] + later == later;
      }
    }
  }

  lemma Regroup(a: seq<Id>, b: seq<Id>, c: seq<Id>)
    ensures a + (b + c) == a + b + c
  {
  }

  /** Main result: in every run, of two grants sharing a role the earlier one went to the earlier arrival. */
  lemma ServedInArrivalOrder(events: seq<Event>)
    requires ValidRun(Start, events)
    ensures
      var grants, arrived := After(Start, events).grants, Arrivals(Start, events);
      && NoDup(arrived)
      && (forall k | 0 <= k < |grants| :: grants[k].id in arrived)
      && GrantsInOrder(grants, arrived)
  {
    StartInv();
    RunServed(Start, [], events);
    assert [] + Arrivals(Start, events) == Arrivals(Start, events);
  }
}
