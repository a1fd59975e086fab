/**
 * Runs of the coordinator: interleavings of atomic steps by any number of threads, with the
 * history each claim is about (arrival order, open leases, kept roles, grants so far).
 */
module BrowserOperationRuns {
  import opened Outcomes
  import opened Sequences
  import opened StringOrder
  import opened BrowserOperations

  /** The locals of a thread blocked in `acquire`, and how many grants preceded its arrival. */
  datatype Waiter = Waiter(kind: Kind, roles: seq<Role>, since: nat)

  datatype Grant = Grant(id: Id, kind: Kind, roles: seq<Role>)

  datatype World = World(
    st: State,
    live: seq<Id>,              // registered tickets in arrival order
    waiting: map<Id, Waiter>,   // threads inside the loop
    open: set<Id>,              // leases handed out and not finished
    kept: set<Role>,            // roles finished destructive leases left blocked
    grants: seq<Grant>,
    used: set<Id>)

  datatype Event =
    | Arrive(id: Id, kindText: string, requested: seq<Role>)
    | Wake(id: Id)
    | Complete(id: Id)
    | CompleteRetaining(id: Id, retained: seq<Role>)
    | Abort(id: Id)
    | BeginShutdown

  const Start := World(Initial, [], map[], {}, {}, [], {})

  /** Ids are fresh, only waiting threads wake, and only a returned lease id can be finished. */
  predicate Allowed(w: World, e: Event) {
    match e
    case Arrive(id, _, _) => id !in w.used
    case Wake(id) => id in w.waiting
    case Complete(id) => id !in w.waiting
    case CompleteRetaining(id, _) => id !in w.waiting
    case Abort(id) => id !in w.waiting
    case BeginShutdown => true
  }

  function Registered(w: World, id: Id, kind: Kind, roles: seq<Role>): World {
    w.(st := Enqueue(w.st, id, kind, roles),
       live := w.live + [id],
       waiting := w.waiting[id := Waiter(kind, roles, |w.grants|)],
       used := w.used + {id})
  }

  function DecisionOf(w: World, id: Id): Decision
    requires id in w.waiting
  {
    Poll(w.st, id, w.waiting[id].kind, w.waiting[id].roles).1
  }

  function Polled(w: World, id: Id): World
    requires id in w.waiting
  {
    var t := w.waiting[id];
    var (st, d) := Poll(w.st, id, t.kind, t.roles);
    match d
    case Waiting => w.(st := st)
    case Refused(_) => w.(st := st, waiting := w.waiting - {id}, live := Without(w.live, id))
    case Granted(_) =>
      w.(st := st, waiting := w.waiting - {id}, open := w.open + {id},
         grants := w.grants + [Grant(id, t.kind, t.roles)])
    case TicketMissing => w.(st := st, waiting := w.waiting - {id})
  }

  function Finished(w: World, id: Id, outcome: (State, Result<(), Refusal>), kept: set<Role>): World {
    if outcome.1.Err? then w.(st := outcome.0)
    else w.(st := outcome.0, open := w.open - {id}, live := Without(w.live, id), kept := w.kept + kept)
  }

  /** The roles a finishing lease leaves blocked for good. */
  function RolesLeftBlocked(s: State, e: Event): set<Role> {
    match e
    case Complete(id) =>
      if id in s.tickets && s.tickets[id].kind == DestructiveMutation then SetOf(s.tickets[id].roles)
      else {}
    case CompleteRetaining(id, retained) =>
      if id in s.tickets then set r | r in s.tickets[id].roles && r in retained else {}
    case _ => {}
  }

  function Next(w: World, e: Event): World
    requires Allowed(w, e)
  {
    match e
    case Arrive(id, kindText, requested) =>
      var kind := ParseKind(kindText);
      var roles := NormalizeRoles(requested);
      if kind.None? || roles == [] || w.st.shuttingDown then w
      else Polled(Registered(w, id, kind.value, roles), id)
    case Wake(id) => Polled(w, id)
    case Complete(id) => Finished(w, id, CompleteStep(w.st, id), RolesLeftBlocked(w.st, e))
    case CompleteRetaining(id, retained) =>
      Finished(w, id, RetainStep(w.st, id, retained), RolesLeftBlocked(w.st, e))
    case Abort(id) => Finished(w, id, AbortStep(w.st, id), RolesLeftBlocked(w.st, e))
    case BeginShutdown => w.(st := ShutdownStep(w.st).0)
  }

  /** The world steps move the coordinator's state exactly as its methods do. */
  lemma NextRefinesCoordinator(w: World, e: Event)
    requires Allowed(w, e)
    ensures Next(w, e).st ==
      match e
      case Arrive(id, kindText, requested) => AcquireStep(w.st, id, kindText, requested).0
      case Wake(id) => Poll(w.st, id, w.waiting[id].kind, w.waiting[id].roles).0
      case Complete(id) => CompleteStep(w.st, id).0
      case CompleteRetaining(id, retained) => RetainStep(w.st, id, retained).0
      case Abort(id) => AbortStep(w.st, id).0
      case BeginShutdown => ShutdownStep(w.st).0
  {
    if e.Arrive? {
      ArriveRefinesAcquire(w, e.id, e.kindText, e.requested);
    }
  }

  lemma ArriveRefinesAcquire(w: World, id: Id, kindText: string, requested: seq<Role>)
    requires id !in w.used
    ensures Next(w, Arrive(id, kindText, requested)).st == AcquireStep(w.st, id, kindText, requested).0
  {
    var kind, roles := ParseKind(kindText), NormalizeRoles(requested);
    if kind.Some? && roles != [] && !w.st.shuttingDown {
      RegisteredPolls(w, id, kind.value, roles);
    }
  }

  lemma PolledIsPoll(w: World, id: Id)
    requires id in w.waiting
    ensures Polled(w, id).st == Poll(w.st, id, w.waiting[id].kind, w.waiting[id].roles).0
  {
  }

  lemma RegisteredPolls(w: World, id: Id, kind: Kind, roles: seq<Role>)
    ensures Polled(Registered(w, id, kind, roles), id).st == Poll(Enqueue(w.st, id, kind, roles), id, kind, roles).0
    ensures DecisionOf(Registered(w, id, kind, roles), id) == Poll(Enqueue(w.st, id, kind, roles), id, kind, roles).1
  {
    var registered := Registered(w, id, kind, roles);
    assert registered.waiting[id] == Waiter(kind, roles, |w.grants|);
    PolledIsPoll(registered, id);
  }

  ghost predicate ValidRun(w: World, events: seq<Event>)
    decreases |events|
  {
    events == [] || (Allowed(w, events[0]) && ValidRun(Next(w, events[0]), events[1..]))
  }

  function After(w: World, events: seq<Event>): World
    requires ValidRun(w, events)
    decreases |events|
  {
    if events == [] then w else After(Next(w, events[0]), events[1..])
  }

  // ---- The invariant -----------------------------------------------------------------------

  predicate Names(tickets: map<Id, Ticket>, id: Id, r: Role) {
    id in tickets && r in tickets[id].roles
  }

  ghost predicate Overlap(tickets: map<Id, Ticket>, a: Id, b: Id) {
    exists r :: Names(tickets, a, r) && Names(tickets, b, r)
  }

  /** The live tickets naming role `r`, in arrival order. */
  function Naming(tickets: map<Id, Ticket>, live: seq<Id>, r: Role): seq<Id> {
    if live == [] then []
    else
      var last := live[|live| - 1];
      Naming(tickets, live[..|live| - 1], r) + (if Names(tickets, last, r) then [last] else [])
  }

  function Queue(queues: map<Role, seq<Id>>, r: Role): seq<Id> {
    if r in queues then queues[r] else []
  }

  /** How many recoverable mutations naming `r` were granted. */
  function Mutations(grants: seq<Grant>, r: Role): nat {
    if grants == [] then 0
    else
      var g := grants[|grants| - 1];
      Mutations(grants[..|grants| - 1], r) + (if g.kind == RecoverableMutation && r in g.roles then 1 else 0)
  }

  ghost predicate OrderOk(w: World) {
    && NoDup(w.live)
    && (forall id :: id in w.live <==> id in w.st.tickets)
    && w.st.tickets.Keys <= w.used
    && (forall id | id in w.st.tickets :: StrictlySorted(w.st.tickets[id].roles) && w.st.tickets[id].roles != [])
  }

  ghost predicate QueuesOk(w: World) {
    && (forall r :: Queue(w.st.queues, r) == Naming(w.st.tickets, w.live, r))
    && (forall r | r in w.st.queues :: w.st.queues[r] != [])
  }

  ghost predicate ThreadsOk(w: World) {
    && (forall id | id in w.waiting ::
          id in w.st.tickets && id !in w.open && w.waiting[id].since <= |w.grants| &&
          w.st.tickets[id].kind == w.waiting[id].kind && w.st.tickets[id].roles == w.waiting[id].roles)
    && w.open <= w.st.tickets.Keys
    && (forall id | id in w.st.tickets :: id in w.waiting || id in w.open)
  }

  /** No open lease has an older live ticket sharing a role. */
  ghost predicate LeasesLead(w: World) {
    forall a, b | Before(w.live, a, b) && b in w.open :: !Overlap(w.st.tickets, a, b)
  }

  ghost predicate OpenDestructive(w: World, r: Role) {
    exists id :: id in w.open && Names(w.st.tickets, id, r) && w.st.tickets[id].kind == DestructiveMutation
  }

  ghost predicate BlockedOk(w: World) {
    && (forall r :: r in w.st.blocked <==> r in w.kept || OpenDestructive(w, r))
    && (forall id, r | id in w.open && Names(w.st.tickets, id, r) :: r !in w.kept)
  }

  ghost predicate VersionsOk(w: World) {
    && (forall r :: Version(w.st, r) == Mutations(w.grants, r))
    && (forall id, r | id in w.waiting && w.waiting[id].since <= |w.grants| && Names(w.st.tickets, id, r) ::
          r in w.st.tickets[id].queuedVersions &&
          w.st.tickets[id].queuedVersions[r] == Mutations(w.grants[..w.waiting[id].since], r))
  }

  ghost predicate Inv(w: World) {
    OrderOk(w) && QueuesOk(w) && ThreadsOk(w) && LeasesLead(w) && BlockedOk(w) && VersionsOk(w)
  }

  // ---- Queues and arrival order ------------------------------------------------------------

  lemma {:induction false} NamingElements(tickets: map<Id, Ticket>, live: seq<Id>, r: Role)
    ensures forall x :: x in Naming(tickets, live, r) <==> x in live && Names(tickets, x, r)
  {
    if live != [] {
      NamingElements(tickets, live[..|live| - 1], r);
      assert live == live[..|live| - 1] + [live[|live| - 1]];
    }
  }

  /** Only the tickets in `live` matter. */
  lemma {:induction false} NamingFrame(t: map<Id, Ticket>, t': map<Id, Ticket>, live: seq<Id>, r: Role)
    requires forall x | x in live :: Names(t, x, r) == Names(t', x, r)
    ensures Naming(t, live, r) == Naming(t', live, r)
  {
    if live != [] {
      NamingFrame(t, t', live[..|live| - 1], r);
    }
  }

  lemma NamingAppend(tickets: map<Id, Ticket>, live: seq<Id>, id: Id, r: Role)
    ensures Naming(tickets, live + [id], r) ==
            Naming(tickets, live, r) + (if Names(tickets, id, r) then [id] else [])
  {
    assert (live + [id])[..|live|] == live;
  }

  lemma {:induction false} NamingWithout(tickets: map<Id, Ticket>, live: seq<Id>, id: Id, r: Role)
    ensures Naming(tickets - {id}, Without(live, id), r) == Without(Naming(tickets, live, r), id)
  {
    if live != [] {
      var front, last := live[..|live| - 1], live[|live| - 1];
      NamingWithout(tickets, front, id, r);
      var q := Naming(tickets, front, r);
      assert q + [] == q;
      WithoutAppend(q, last, id);
      if last == id {
        assert Without(live, id) == Without(front, id);
      } else {
        assert Without(live, id) == Without(front, id) + [last];
        NamingAppend(tickets - {id}, Without(front, id), last, r);
      }
    }
  }

  /** A ticket heads the queue of a role exactly when no older live ticket names that role. */
  lemma {:induction false} FrontIffOldest(tickets: map<Id, Ticket>, live: seq<Id>, id: Id, r: Role)
    requires NoDup(live) && id in live && Names(tickets, id, r)
    ensures
      var q := Naming(tickets, live, r);
      q != [] && (q[0] == id <==> forall a | Before(live, a, id) :: !Names(tickets, a, r))
  {
    var front, last := live[..|live| - 1], live[|live| - 1];
    assert live == front + [last];
    var q := Naming(tickets, front, r);
    NamingElements(tickets, front, r);
    if last == id {
      forall a ensures Before(live, a, id) <==> a in front { BeforeTheLast(front, id, a); }
      if q != [] {
        assert q[0] in q;
      }
    } else {
      assert id in front;
      FrontIffOldest(tickets, front, id, r);
      forall a ensures Before(live, a, id) <==> Before(front, a, id) { BeforeInFront(front, last, a, id); }
    }
  }

  lemma BeforeTheLast(front: seq<Id>, last: Id, a: Id)
    requires NoDup(front + [last])
    ensures Before(front + [last], a, last) <==> a in front
  {
    var live := front + [last];
    if a in front {
      var i :| 0 <= i < |front| && front[i] == a;
      assert live[i] == a && live[|front|] == last;
    }
    if Before(live, a, last) {
      var i, j :| 0 <= i < j < |live| && live[i] == a && live[j] == last;
      assert live[i] == front[i];
    }
  }

  lemma BeforeInFront(front: seq<Id>, last: Id, a: Id, b: Id)
    requires b != last
    ensures Before(front + [last], a, b) <==> Before(front, a, b)
  {
    if Before(front + [last], a, b) {
      BeforeAppend(front, last, a, b);
    }
    if Before(front, a, b) {
      var i, j :| 0 <= i < j < |front| && front[i] == a && front[j] == b;
      assert (front + [last])[i] == a && (front + [last])[j] == b;
    }
  }

  /** The acquire loop's readiness test, restated over arrival order. */
  lemma ReadyIffNoOlderOverlap(w: World, id: Id)
    requires OrderOk(w) && QueuesOk(w) && id in w.st.tickets
    ensures AtFront(w.st, id, w.st.tickets[id].roles) <==>
            forall a | Before(w.live, a, id) :: !Overlap(w.st.tickets, a, id)
  {
    forall r | r in w.st.tickets[id].roles
      ensures r in w.st.queues && w.st.queues[r] != []
      ensures w.st.queues[r][0] == id <==> forall a | Before(w.live, a, id) :: !Names(w.st.tickets, a, r)
    {
      FrontIffOldest(w.st.tickets, w.live, id, r);
      assert Queue(w.st.queues, r) == Naming(w.st.tickets, w.live, r);
    }
    if AtFront(w.st, id, w.st.tickets[id].roles) {
      forall a | Before(w.live, a, id) ensures !Overlap(w.st.tickets, a, id) {
        forall r | Names(w.st.tickets, id, r) ensures !Names(w.st.tickets, a, r) {
          assert w.st.queues[r][0] == id;
        }
      }
    }
    if forall a | Before(w.live, a, id) :: !Overlap(w.st.tickets, a, id) {
      forall r | r in w.st.tickets[id].roles ensures w.st.queues[r][0] == id {
        assert Names(w.st.tickets, id, r);
      }
    }
  }

  // ---- Every step keeps the invariant ------------------------------------------------------

  lemma RegisteredKeepsQueues(w: World, id: Id, kind: Kind, roles: seq<Role>)
    requires OrderOk(w) && QueuesOk(w) && id !in w.used
    ensures QueuesOk(Registered(w, id, kind, roles))
  {
    var w' := Registered(w, id, kind, roles);
    forall r ensures Queue(w'.st.queues, r) == Naming(w'.st.tickets, w'.live, r) {
      assert Queue(w.st.queues, r) == Naming(w.st.tickets, w.live, r);
      NamingAppend(w'.st.tickets, w.live, id, r);
      NamingFrame(w.st.tickets, w'.st.tickets, w.live, r);
      assert Queue(w.st.queues, r) + [] == Queue(w.st.queues, r);
    }
  }

  lemma BeforeAppend(live: seq<Id>, id: Id, a: Id, b: Id)
    requires Before(live + [id], a, b) && b != id
    ensures Before(live, a, b)
  {
    var l := live + [id];
    var i, j :| 0 <= i < j < |l| && l[i] == a && l[j] == b;
    assert live[i] == a && live[j] == b;
  }

  lemma BeforeMembers(live: seq<Id>, a: Id, b: Id)
    requires Before(live, a, b)
    ensures a in live && b in live
  {
  }

  lemma RegisteredKeepsLeases(w: World, id: Id, kind: Kind, roles: seq<Role>)
    requires OrderOk(w) && ThreadsOk(w) && LeasesLead(w) && id !in w.used
    ensures LeasesLead(Registered(w, id, kind, roles))
  {
    var w' := Registered(w, id, kind, roles);
    forall a, b | Before(w'.live, a, b) && b in w'.open ensures !Overlap(w'.st.tickets, a, b) {
      BeforeAppend(w.live, id, a, b);
      BeforeMembers(w.live, a, b);
      assert !Overlap(w.st.tickets, a, b);
      forall r ensures !(Names(w'.st.tickets, a, r) && Names(w'.st.tickets, b, r)) {
        assert Names(w'.st.tickets, a, r) == Names(w.st.tickets, a, r);
        assert Names(w'.st.tickets, b, r) == Names(w.st.tickets, b, r);
      }
    }
  }

  lemma RegisteredKeepsVersions(w: World, id: Id, kind: Kind, roles: seq<Role>)
    requires Inv(w) && id !in w.used
    ensures VersionsOk(Registered(w, id, kind, roles)) && BlockedOk(Registered(w, id, kind, roles))
  {
    var w' := Registered(w, id, kind, roles);
    assert w.grants[..|w.grants|] == w.grants;
    forall r ensures Version(w'.st, r) == Mutations(w'.grants, r) {
      assert Version(w'.st, r) == Version(w.st, r);
    }
    forall r ensures OpenDestructive(w', r) <==> OpenDestructive(w, r) {
      assert forall i | i in w.open :: Names(w'.st.tickets, i, r) == Names(w.st.tickets, i, r);
    }
    forall i, r | i in w'.open && Names(w'.st.tickets, i, r) ensures r !in w'.kept {
      assert Names(w.st.tickets, i, r);
    }
    forall i, r | i in w'.waiting && w'.waiting[i].since <= |w'.grants| && Names(w'.st.tickets, i, r)
      ensures r in w'.st.tickets[i].queuedVersions
      ensures w'.st.tickets[i].queuedVersions[r] == Mutations(w'.grants[..w'.waiting[i].since], r)
    {
      if i != id {
        assert Names(w.st.tickets, i, r);
      } else {
        assert Version(w.st, r) == Mutations(w.grants, r);
      }
    }
  }

  lemma RegisteredInv(w: World, id: Id, kind: Kind, roles: seq<Role>)
    requires Inv(w) && id !in w.used && StrictlySorted(roles) && roles != []
    ensures Inv(Registered(w, id, kind, roles))
  {
    RegisteredKeepsQueues(w, id, kind, roles);
    RegisteredKeepsLeases(w, id, kind, roles);
    RegisteredKeepsVersions(w, id, kind, roles);
    assert id !in w.live;
  }

  /** `w'` is `w` after ticket `id` left, whoever held it. */
  ghost predicate Left(w: World, w': World, id: Id) {
    && id in w.st.tickets
    && w'.st.tickets == w.st.tickets - {id}
    && w'.st.queues == QueuesWithout(w.st.queues, w.st.tickets[id].roles, id)
    && w'.st.versions == w.st.versions
    && w'.live == Without(w.live, id)
    && w'.waiting == w.waiting - {id}
    && w'.open == w.open - {id}
    && w'.grants == w.grants
    && w'.used == w.used
  }

  lemma LeftKeepsQueues(w: World, w': World, id: Id)
    requires OrderOk(w) && QueuesOk(w) && Left(w, w', id)
    ensures QueuesOk(w')
  {
    forall r ensures Queue(w'.st.queues, r) == Naming(w'.st.tickets, w'.live, r) {
      var q := Naming(w.st.tickets, w.live, r);
      assert Queue(w.st.queues, r) == q;
      NamingWithout(w.st.tickets, w.live, id, r);
      if r !in w.st.tickets[id].roles {
        NamingElements(w.st.tickets, w.live, r);
        WithoutAbsent(q, id);
      }
    }
  }

  lemma LeftKeepsOrder(w: World, w': World, id: Id)
    requires OrderOk(w) && ThreadsOk(w) && LeasesLead(w) && Left(w, w', id)
    ensures OrderOk(w') && ThreadsOk(w') && LeasesLead(w')
  {
    WithoutNoDup(w.live, id);
    WithoutElements(w.live, id);
    forall a, b | Before(w'.live, a, b) && b in w'.open ensures !Overlap(w'.st.tickets, a, b) {
      WithoutKeepsOrder(w.live, id, a, b);
      assert !Overlap(w.st.tickets, a, b);
      forall r ensures !(Names(w'.st.tickets, a, r) && Names(w'.st.tickets, b, r)) {
        assert !(Names(w.st.tickets, a, r) && Names(w.st.tickets, b, r));
      }
    }
  }

  lemma LeftKeepsVersions(w: World, w': World, id: Id)
    requires VersionsOk(w) && Left(w, w', id)
    ensures VersionsOk(w')
  {
    forall r ensures Version(w'.st, r) == Mutations(w'.grants, r) {
      assert Version(w.st, r) == Mutations(w.grants, r);
    }
    forall i, r | i in w'.waiting && w'.waiting[i].since <= |w'.grants| && Names(w'.st.tickets, i, r)
      ensures r in w'.st.tickets[i].queuedVersions
      ensures w'.st.tickets[i].queuedVersions[r] == Mutations(w'.grants[..w'.waiting[i].since], r)
    {
      assert Names(w.st.tickets, i, r);
    }
  }

  lemma LeftInv(w: World, w': World, id: Id)
    requires Inv(w) && Left(w, w', id) && BlockedOk(w')
    ensures Inv(w')
  {
    LeftKeepsQueues(w, w', id);
    LeftKeepsOrder(w, w', id);
    LeftKeepsVersions(w, w', id);
  }

  /** A refused waiter never held a role, so the block set and the kept roles are as before. */
  lemma RefusedInv(w: World, w': World, id: Id)
    requires Inv(w) && id in w.waiting && Left(w, w', id)
    requires w'.st.blocked == w.st.blocked && w'.kept == w.kept
    ensures Inv(w')
  {
    forall r ensures OpenDestructive(w', r) <==> OpenDestructive(w, r) {
      assert forall i | i in w.open :: Names(w'.st.tickets, i, r) == Names(w.st.tickets, i, r);
    }
    forall i, r | i in w'.open && Names(w'.st.tickets, i, r) ensures r !in w'.kept {
      assert Names(w.st.tickets, i, r);
    }
    LeftInv(w, w', id);
  }

  /** Two open leases never share a role. */
  lemma OpenLeasesDisjoint(w: World, a: Id, b: Id, r: Role)
    requires OrderOk(w) && ThreadsOk(w) && LeasesLead(w)
    requires a in w.open && b in w.open && Names(w.st.tickets, a, r) && Names(w.st.tickets, b, r)
    ensures a == b
  {
    var i :| 0 <= i < |w.live| && w.live[i] == a;
    var j :| 0 <= j < |w.live| && w.live[j] == b;
    if i < j {
      assert Before(w.live, a, b) && Overlap(w.st.tickets, a, b);
    } else if j < i {
      assert Before(w.live, b, a) && Overlap(w.st.tickets, b, a);
    }
  }

  /** A lease finishes: the roles it leaves behind are exactly the ones added to `kept`. */
  lemma FinishedInv(w: World, w': World, id: Id, freed: set<Role>)
    requires Inv(w) && id in w.open && Left(w, w', id)
    requires freed <= SetOf(w.st.tickets[id].roles)
    requires w.st.tickets[id].kind == DestructiveMutation || freed == {}
    requires w'.st.blocked == w.st.blocked - freed
    requires w'.kept == w.kept + (if w.st.tickets[id].kind == DestructiveMutation
                                  then SetOf(w.st.tickets[id].roles) - freed else {})
    ensures Inv(w')
  {
    var destructive := w.st.tickets[id].kind == DestructiveMutation;
    forall i, r | i in w'.open && Names(w'.st.tickets, i, r)
      ensures r !in w'.kept && r !in w.st.tickets[id].roles
    {
      assert Names(w.st.tickets, i, r);
      if r in w.st.tickets[id].roles { OpenLeasesDisjoint(w, i, id, r); }
    }
    forall r ensures r in w'.st.blocked <==> r in w'.kept || OpenDestructive(w', r) {
      assert r in w.st.blocked <==> r in w.kept || OpenDestructive(w, r);
      if OpenDestructive(w', r) {
        var i :| i in w'.open && Names(w'.st.tickets, i, r) && w'.st.tickets[i].kind == DestructiveMutation;
        assert Names(w.st.tickets, i, r) && OpenDestructive(w, r) && r !in freed;
      }
      if OpenDestructive(w, r) {
        var i :| i in w.open && Names(w.st.tickets, i, r) && w.st.tickets[i].kind == DestructiveMutation;
        if i != id { assert Names(w'.st.tickets, i, r); }
      }
      if r in w.kept { assert Names(w.st.tickets, id, r) ==> r !in w.kept; }
      if destructive && r in w.st.tickets[id].roles {
        assert Names(w.st.tickets, id, r) && OpenDestructive(w, r);
      }
    }
    LeftInv(w, w', id);
  }

  lemma MutationsAppend(grants: seq<Grant>, g: Grant, r: Role)
    ensures Mutations(grants + [g], r) ==
            Mutations(grants, r) + (if g.kind == RecoverableMutation && r in g.roles then 1 else 0)
  {
    assert (grants + [g])[..|grants|] == grants;
  }

  lemma GrantedKeepsVersions(w: World, w': World, id: Id)
    requires Inv(w) && id in w.waiting && w' == Polled(w, id) && DecisionOf(w, id).Granted?
    ensures VersionsOk(w')
  {
    var g := Grant(id, w.waiting[id].kind, w.waiting[id].roles);
    forall r ensures Version(w'.st, r) == Mutations(w'.grants, r) {
      assert Version(w.st, r) == Mutations(w.grants, r);
      MutationsAppend(w.grants, g, r);
    }
    WaitersKeepVersions(w, w');
  }

  /** Further grants change nothing about the versions a waiter was queued with. */
  lemma WaitersKeepVersions(w: World, w': World)
    requires ThreadsOk(w) && VersionsOk(w) && w'.st.tickets == w.st.tickets && w.grants <= w'.grants
    requires forall i | i in w'.waiting :: i in w.waiting && w'.waiting[i] == w.waiting[i]
    ensures forall i, r | i in w'.waiting && w'.waiting[i].since <= |w'.grants| && Names(w'.st.tickets, i, r) ::
      r in w'.st.tickets[i].queuedVersions &&
      w'.st.tickets[i].queuedVersions[r] == Mutations(w'.grants[..w'.waiting[i].since], r)
  {
    forall i, r | i in w'.waiting && w'.waiting[i].since <= |w'.grants| && Names(w'.st.tickets, i, r)
      ensures r in w'.st.tickets[i].queuedVersions
      ensures w'.st.tickets[i].queuedVersions[r] == Mutations(w'.grants[..w'.waiting[i].since], r)
    {
      assert Names(w.st.tickets, i, r);
      assert w'.grants[..w'.waiting[i].since] == w.grants[..w.waiting[i].since];
    }
  }

  lemma GrantedKeepsBlocked(w: World, w': World, id: Id)
    requires Inv(w) && id in w.waiting && w' == Polled(w, id) && DecisionOf(w, id).Granted?
    ensures BlockedOk(w')
  {
    var t := w.waiting[id];
    assert forall r | r in t.roles :: r !in w.st.blocked;
    forall r ensures r in w'.st.blocked <==> r in w'.kept || OpenDestructive(w', r) {
      assert r in w.st.blocked <==> r in w.kept || OpenDestructive(w, r);
      assert OpenDestructive(w', r) <==>
             OpenDestructive(w, r) || (t.kind == DestructiveMutation && Names(w.st.tickets, id, r)) by {
        if t.kind == DestructiveMutation && Names(w.st.tickets, id, r) {
          assert id in w'.open && Names(w'.st.tickets, id, r);
        }
      }
    }
    forall i, r | i in w'.open && Names(w'.st.tickets, i, r) ensures r !in w'.kept {
      assert Names(w.st.tickets, i, r);
    }
  }

  lemma GrantedInv(w: World, id: Id)
    requires Inv(w) && id in w.waiting && DecisionOf(w, id).Granted?
    ensures Inv(Polled(w, id))
  {
    var w' := Polled(w, id);
    GrantedKeepsVersions(w, w', id);
    GrantedKeepsBlocked(w, w', id);
    ReadyIffNoOlderOverlap(w, id);
    assert w'.st.tickets == w.st.tickets && w'.st.queues == w.st.queues;
    assert QueuesOk(w') by {
      forall r ensures Queue(w'.st.queues, r) == Naming(w'.st.tickets, w'.live, r) {
        assert Queue(w.st.queues, r) == Naming(w.st.tickets, w.live, r);
      }
    }
    assert OrderOk(w');
    assert ThreadsOk(w');
  }

  /** The `expect("queued ticket exists")` in the loop never fires. */
  lemma TicketNeverMissing(w: World, id: Id)
    requires Inv(w) && id in w.waiting
    ensures !DecisionOf(w, id).TicketMissing?
  {
  }

  lemma PolledInv(w: World, id: Id)
    requires Inv(w) && id in w.waiting
    ensures Inv(Polled(w, id))
  {
    TicketNeverMissing(w, id);
    match DecisionOf(w, id)
    case Waiting =>
    case Granted(_) => GrantedInv(w, id);
    case Refused(_) => RefusedInv(w, Polled(w, id), id);
  }

  lemma CompleteInv(w: World, id: Id)
    requires Inv(w) && id in w.open
    ensures Inv(Next(w, Complete(id)))
  {
    FinishedInv(w, Next(w, Complete(id)), id, {});
  }

  lemma CompleteRetainingInv(w: World, id: Id, retained: seq<Role>)
    requires Inv(w) && id in w.open
    ensures Inv(Next(w, CompleteRetaining(id, retained)))
  {
    if w.st.tickets[id].kind == DestructiveMutation {
      FinishedInv(w, Next(w, CompleteRetaining(id, retained)), id,
                  set r | r in w.st.tickets[id].roles && r !in retained);
    }
  }

  lemma AbortInv(w: World, id: Id)
    requires Inv(w) && id in w.open
    ensures Inv(Next(w, Abort(id)))
  {
    FinishedInv(w, Next(w, Abort(id)), id,
                if w.st.tickets[id].kind == DestructiveMutation then SetOf(w.st.tickets[id].roles) else {});
  }

  /** Finishing an id that is no lease is refused and changes nothing. */
  lemma StaleFinish(w: World, e: Event)
    requires Inv(w) && Allowed(w, e) && (e.Complete? || e.CompleteRetaining? || e.Abort?) && e.id !in w.open
    ensures Next(w, e) == w
  {
    assert e.id !in w.st.tickets;
  }

  lemma NextInv(w: World, e: Event)
    requires Inv(w) && Allowed(w, e)
    ensures Inv(Next(w, e))
  {
    match e
    case Arrive(id, kindText, requested) =>
      var kind, roles := ParseKind(kindText), NormalizeRoles(requested);
      if kind.Some? && roles != [] && !w.st.shuttingDown {
        RegisteredInv(w, id, kind.value, roles);
        PolledInv(Registered(w, id, kind.value, roles), id);
      }
    case Wake(id) => PolledInv(w, id);
    case BeginShutdown => ClosedInv(w);
    case Complete(id) => if id in w.open { CompleteInv(w, id); } else { StaleFinish(w, e); }
    case CompleteRetaining(id, retained) =>
      if id in w.open { CompleteRetainingInv(w, id, retained); } else { StaleFinish(w, e); }
    case Abort(id) => if id in w.open { AbortInv(w, id); } else { StaleFinish(w, e); }
  }

  lemma ClosedInv(w: World)
    requires Inv(w)
    ensures Inv(Next(w, BeginShutdown))
  {
    var w' := Next(w, BeginShutdown);
    assert forall r :: OpenDestructive(w', r) == OpenDestructive(w, r);
    assert forall r :: Version(w'.st, r) == Version(w.st, r);
    assert QueuesOk(w') by {
      forall r ensures Queue(w'.st.queues, r) == Naming(w'.st.tickets, w'.live, r) {
        assert Queue(w.st.queues, r) == Naming(w.st.tickets, w.live, r);
      }
    }
  }

  lemma {:induction false} RunInv(w: World, events: seq<Event>)
    requires Inv(w) && ValidRun(w, events)
    ensures Inv(After(w, events))
    decreases |events|
  {
    if events != [] {
      NextInv(w, events[0]);
      RunInv(Next(w, events[0]), events[1..]);
    }
  }

  lemma StartInv()
    ensures Inv(Start)
  {
    assert forall r :: Version(Initial, r) == 0;
  }

  /** Main result: the invariant holds in every reachable state. */
  lemma ReachableInv(events: seq<Event>)
    requires ValidRun(Start, events)
    ensures Inv(After(Start, events))
  {
    StartInv();
    RunInv(Start, events);
  }
}
