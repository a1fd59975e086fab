/**
 * The coordinator and the scoped sequence take the same decisions: run side by side on the same
 * normal requests, they stay related step for step, and every request is granted in one exactly
 * when it is granted in the other.
 */
module LockSimulation {
  import opened Outcomes
  import opened Sequences
  import opened StringOrder
  import Text
  import B = BrowserOperations
  import R = BrowserOperationRuns
  import Q = ScopedSequence

  datatype Joint = Joint(c: R.World, s: Q.World)

  const Start := Joint(R.Start, Q.Start)

  datatype Event = Request(scopes: seq<string>) | Wake(ticket: nat) | Release(ticket: nat)

  /** The coordinator ignores blank roles, so the shared requests name none. */
  ghost predicate Allowed(j: Joint, e: Event) {
    match e
    case Request(scopes) => j.s.st.next !in j.c.used && forall x | x in scopes :: !Text.IsBlank(x)
    case Wake(ticket) => ticket in j.c.waiting
    case Release(ticket) => ticket in j.c.open && ticket in j.s.open
  }

  /** Coordinator ids are fresh names; here they are the sequence's ticket numbers. */
  function Next(j: Joint, e: Event): Joint
    requires Allowed(j, e)
  {
    match e
    case Request(scopes) =>
      Joint(R.Next(j.c, R.Arrive(j.s.st.next, "normal", scopes)), Q.Requested(j.s, scopes))
    case Wake(ticket) =>
      Joint(R.Next(j.c, R.Wake(ticket)), Q.Settled(j.s, ticket, Q.PendingAt(j.s.st.pending, ticket)))
    case Release(ticket) =>
      Joint(R.Finished(j.c, ticket, B.CompleteStep(j.c.st, ticket), {}), Q.Dropped(j.s, ticket))
  }

  /** The waiting tickets in arrival order, as the sequence keeps them. */
  function PendingOf(live: seq<nat>, waiting: map<nat, R.Waiter>): seq<Q.Pending> {
    if live == [] then []
    else
      var last := live[|live| - 1];
      PendingOf(live[..|live| - 1], waiting) +
      (if last in waiting then [Q.Pending(last, SetOf(waiting[last].roles))] else [])
  }

  function ScopesOf(c: R.World, id: nat): set<string> {
    if id in c.st.tickets then SetOf(c.st.tickets[id].roles) else {}
  }

  ghost predicate OnlyNormal(c: R.World) {
    && (forall id | id in c.st.tickets :: c.st.tickets[id].kind == B.Normal)
    && (forall k | 0 <= k < |c.grants| :: c.grants[k].kind == B.Normal)
    && c.kept == {}
    && !c.st.shuttingDown
  }

  ghost predicate LeasesLinked(j: Joint) {
    && j.s.open.Keys == j.c.open
    && (forall id | id in j.c.open :: j.s.open[id] == ScopesOf(j.c, id))
    && (forall x :: x in j.s.st.active <==> exists id :: id in j.c.open && R.Names(j.c.st.tickets, id, x))
  }

  ghost predicate GrantsLinked(j: Joint) {
    && |j.s.grants| == |j.c.grants|
    && (forall k | 0 <= k < |j.c.grants| ::
          j.s.grants[k] == Q.Permit(j.c.grants[k].id, SetOf(j.c.grants[k].roles)))
  }

  ghost predicate Linked(j: Joint) {
    && OnlyNormal(j.c)
    && (forall id | id in j.c.used :: id < j.s.st.next)
    && j.s.st.pending == PendingOf(j.c.live, j.c.waiting)
    && LeasesLinked(j)
    && GrantsLinked(j)
  }

  ghost predicate Related(j: Joint) {
    R.Inv(j.c) && Linked(j)
  }

  // ---- The pending list against arrival order ----------------------------------------------

  lemma PendingOfStep(live: seq<nat>, waiting: map<nat, R.Waiter>)
    requires live != []
    ensures
      var front, last := live[..|live| - 1], live[|live| - 1];
      live == front + [last] &&
      PendingOf(live, waiting) == PendingOf(front, waiting) +
        (if last in waiting then [Q.Pending(last, SetOf(waiting[last].roles))] else [])
  {
  }

  lemma {:induction false} PendingOfEntries(live: seq<nat>, waiting: map<nat, R.Waiter>)
    ensures forall p | p in PendingOf(live, waiting) ::
              p.ticket in live && p.ticket in waiting && p.scopes == SetOf(waiting[p.ticket].roles)
    ensures forall id | id in live && id in waiting ::
              Q.Pending(id, SetOf(waiting[id].roles)) in PendingOf(live, waiting)
  {
    if live != [] {
      PendingOfStep(live, waiting);
      PendingOfEntries(live[..|live| - 1], waiting);
    }
  }

  lemma {:induction false} PendingOfOrder(live: seq<nat>, waiting: map<nat, R.Waiter>, i: nat, k: nat)
    requires NoDup(live) && i < k < |PendingOf(live, waiting)|
    ensures
      var p := PendingOf(live, waiting);
      p[i].ticket != p[k].ticket && Before(live, p[i].ticket, p[k].ticket)
  {
    PendingOfStep(live, waiting);
    var front, last := live[..|live| - 1], live[|live| - 1];
    var p, p' := PendingOf(front, waiting), PendingOf(live, waiting);
    assert p'[i] == p[i];
    if k < |p| {
      assert p'[k] == p[k];
      PendingOfOrder(front, waiting, i, k);
      BeforeExtend(front, last, p[i].ticket, p[k].ticket);
    } else {
      PendingOfEntries(front, waiting);
      assert p[i] in p;
      var m :| 0 <= m < |front| && front[m] == p[i].ticket;
      assert live[m] == front[m] && live[|live| - 1] == last;
    }
  }

  lemma BeforeExtend(front: seq<nat>, last: nat, a: nat, b: nat)
    requires Before(front, a, b)
    ensures Before(front + [last], a, b)
  {
    var i, j :| 0 <= i < j < |front| && front[i] == a && front[j] == b;
    var l := front + [last];
    assert l[i] == a && l[j] == b;
  }

  lemma BeforeAsymmetric(live: seq<nat>, a: nat, b: nat)
    requires NoDup(live) && Before(live, a, b)
    ensures !Before(live, b, a) && a != b
  {
  }

  lemma OverlapScopes(c: R.World, a: nat, id: nat)
    ensures R.Overlap(c.st.tickets, a, id) <==> ScopesOf(c, a) * ScopesOf(c, id) != {}
  {
    if R.Overlap(c.st.tickets, a, id) {
      var x :| R.Names(c.st.tickets, a, x) && R.Names(c.st.tickets, id, x);
      assert x in ScopesOf(c, a) * ScopesOf(c, id);
    }
    if x :| x in ScopesOf(c, a) * ScopesOf(c, id) {
      assert R.Names(c.st.tickets, a, x) && R.Names(c.st.tickets, id, x);
    }
  }

  lemma PriorOverlapComesFromOlderWaiter(c: R.World, id: nat)
    requires R.Inv(c) && id in c.waiting
    requires Q.PriorOverlap(PendingOf(c.live, c.waiting), id, ScopesOf(c, id))
    ensures exists a :: Before(c.live, a, id) && R.Overlap(c.st.tickets, a, id)
  {
    var p := PendingOf(c.live, c.waiting);
    PendingOfEntries(c.live, c.waiting);
    var n :| 0 <= n < |p| && p[n] == Q.Pending(id, SetOf(c.waiting[id].roles));
    var i :| 0 <= i < |p| && (forall j | 0 <= j <= i :: p[j].ticket != id) && p[i].scopes * ScopesOf(c, id) != {};
    assert i < n && p[i] in p;
    PendingOfOrder(c.live, c.waiting, i, n);
    OverlapScopes(c, p[i].ticket, id);
  }

  lemma OlderWaiterIsPriorOverlap(c: R.World, a: nat, id: nat)
    requires R.Inv(c) && id in c.waiting && a in c.waiting
    requires Before(c.live, a, id) && R.Overlap(c.st.tickets, a, id)
    ensures Q.PriorOverlap(PendingOf(c.live, c.waiting), id, ScopesOf(c, id))
  {
    var p := PendingOf(c.live, c.waiting);
    R.BeforeMembers(c.live, a, id);
    PendingOfEntries(c.live, c.waiting);
    var i :| 0 <= i < |p| && p[i] == Q.Pending(a, SetOf(c.waiting[a].roles));
    OverlapScopes(c, a, id);
    BeforeAsymmetric(c.live, a, id);
    forall j | 0 <= j <= i ensures p[j].ticket != id {
      if p[j].ticket == id && j < i { PendingOfOrder(c.live, c.waiting, j, i); }
    }
  }

  /** An open lease sharing a role with a waiter is older than it. */
  lemma OpenOverlapIsOlder(c: R.World, a: nat, id: nat)
    requires R.Inv(c) && id in c.waiting && a in c.open && R.Overlap(c.st.tickets, a, id)
    ensures Before(c.live, a, id)
  {
    assert R.Overlap(c.st.tickets, id, a) by {
      OverlapScopes(c, a, id);
      OverlapScopes(c, id, a);
      assert ScopesOf(c, a) * ScopesOf(c, id) == ScopesOf(c, id) * ScopesOf(c, a);
    }
    assert !Before(c.live, id, a);
    var i :| 0 <= i < |c.live| && c.live[i] == a;
    var k :| 0 <= k < |c.live| && c.live[k] == id;
    assert i < k;
  }

  /**
   * Main result: "front of every role queue" and "disjoint from the active scopes and from every
   * earlier pending request" are the same condition in every related pair of states.
   */
  lemma FrontIffUnblocked(j: Joint, id: nat)
    requires Related(j) && id in j.c.waiting
    ensures B.AtFront(j.c.st, id, j.c.waiting[id].roles) <==> !Q.Blocked(j.s.st, id, ScopesOf(j.c, id))
  {
    var c := j.c;
    R.ReadyIffNoOlderOverlap(c, id);
    if Q.Blocked(j.s.st, id, ScopesOf(c, id)) {
      if j.s.st.active * ScopesOf(c, id) != {} {
        var x :| x in j.s.st.active && x in ScopesOf(c, id);
        var a :| a in c.open && R.Names(c.st.tickets, a, x);
        assert x in ScopesOf(c, a) * ScopesOf(c, id);
        OverlapScopes(c, a, id);
        OpenOverlapIsOlder(c, a, id);
      } else {
        PriorOverlapComesFromOlderWaiter(c, id);
      }
    }
    if a :| Before(c.live, a, id) && R.Overlap(c.st.tickets, a, id) {
      R.BeforeMembers(c.live, a, id);
      if a in c.open {
        OverlapScopes(c, a, id);
        var x :| x in ScopesOf(c, a) * ScopesOf(c, id);
        assert R.Names(c.st.tickets, a, x);
        assert x in j.s.st.active * ScopesOf(c, id);
      } else {
        OlderWaiterIsPriorOverlap(c, a, id);
      }
    }
  }

  // ---- Lockstep ----------------------------------------------------------------------------

  lemma {:induction false} NoMutations(grants: seq<R.Grant>, r: string)
    requires forall k | 0 <= k < |grants| :: grants[k].kind == B.Normal
    ensures R.Mutations(grants, r) == 0
  {
    if grants != [] {
      NoMutations(grants[..|grants| - 1], r);
    }
  }

  /** With normal operations only, a waiter is granted as soon as it is at the front. */
  lemma NormalDecision(c: R.World, id: nat)
    requires R.Inv(c) && OnlyNormal(c) && id in c.waiting
    ensures R.DecisionOf(c, id) ==
            if B.AtFront(c.st, id, c.waiting[id].roles) then B.Granted(c.waiting[id].roles) else B.Waiting
  {
    forall x ensures x !in c.st.blocked {
      assert x in c.st.blocked <==> x in c.kept || R.OpenDestructive(c, x);
    }
    forall r | r in c.waiting[id].roles
      ensures B.Version(c.st, r) == 0 && r in c.st.tickets[id].queuedVersions && c.st.tickets[id].queuedVersions[r] == 0
    {
      assert R.Names(c.st.tickets, id, r);
      assert B.Version(c.st, r) == R.Mutations(c.grants, r);
      NoMutations(c.grants, r);
      NoMutations(c.grants[..c.waiting[id].since], r);
    }
  }

  lemma {:induction false} RetainIsLeaving(live: seq<nat>, waiting: map<nat, R.Waiter>, id: nat)
    ensures Q.Retain(PendingOf(live, waiting), id) == PendingOf(live, waiting - {id})
  {
    if live != [] {
      var front, last := live[..|live| - 1], live[|live| - 1];
      RetainIsLeaving(front, waiting, id);
      PendingOfStep(live, waiting);
      PendingOfStep(live, waiting - {id});
      var p := PendingOf(front, waiting);
      if last in waiting {
        var e := Q.Pending(last, SetOf(waiting[last].roles));
        assert (p + [e])[..|p|] == p;
        assert Q.Retain(p, id) + [] == Q.Retain(p, id);
      } else {
        assert p + [] == p;
      }
    }
  }

  lemma {:induction false} PendingOfFrame(live: seq<nat>, waiting: map<nat, R.Waiter>, waiting': map<nat, R.Waiter>)
    requires forall id | id in live ::
      (id in waiting <==> id in waiting') && (id in waiting ==> waiting[id] == waiting'[id])
    ensures PendingOf(live, waiting) == PendingOf(live, waiting')
  {
    if live != [] {
      PendingOfFrame(live[..|live| - 1], waiting, waiting');
    }
  }

  lemma {:induction false} PendingOfWithout(live: seq<nat>, waiting: map<nat, R.Waiter>, id: nat)
    requires id !in waiting
    ensures PendingOf(Without(live, id), waiting) == PendingOf(live, waiting)
  {
    if live != [] {
      var front, last := live[..|live| - 1], live[|live| - 1];
      PendingOfWithout(front, waiting, id);
      var w := Without(front, id);
      PendingOfStep(live, waiting);
      if last != id {
        assert (w + [last])[..|w|] == w;
        assert Without(live, id) == w + [last];
        PendingOfStep(w + [last], waiting);
      } else {
        assert Without(live, id) == w + [] == w;
        assert PendingOf(front, waiting) + [] == PendingOf(front, waiting);
      }
    }
  }

  /** Granting a waiter moves it from the pending list to the active scopes on both sides. */
  lemma GrantLinked(j: Joint, id: nat, roles: seq<string>, since: nat)
    requires Linked(j) && id in j.c.waiting && j.c.waiting[id] == R.Waiter(B.Normal, roles, since)
    requires id in j.c.st.tickets && j.c.st.tickets[id].roles == roles
    ensures
      Linked(Joint(j.c.(waiting := j.c.waiting - {id}, open := j.c.open + {id},
                        grants := j.c.grants + [R.Grant(id, B.Normal, roles)]),
                   Q.World(j.s.st.(pending := Q.Retain(j.s.st.pending, id), active := j.s.st.active + SetOf(roles)),
                           j.s.open[id := SetOf(roles)],
                           j.s.grants + [Q.Permit(id, SetOf(roles))])))
  {
    RetainIsLeaving(j.c.live, j.c.waiting, id);
    forall x
      ensures x in j.s.st.active + SetOf(roles) <==>
              exists i :: i in j.c.open + {id} && R.Names(j.c.st.tickets, i, x)
    {
      if x in roles { assert R.Names(j.c.st.tickets, id, x); }
      if x in j.s.st.active {
        var i :| i in j.c.open && R.Names(j.c.st.tickets, i, x);
        assert i in j.c.open + {id};
      }
    }
  }

  /** A waiter at the front is granted in both designs, and both move on alike. */
  lemma GrantRelated(j: Joint, id: nat)
    requires Related(j) && id in j.c.waiting && R.DecisionOf(j.c, id) == B.Granted(j.c.waiting[id].roles)
    requires !Q.Blocked(j.s.st, id, SetOf(j.c.waiting[id].roles))
    ensures Linked(Joint(R.Polled(j.c, id), Q.Settled(j.s, id, SetOf(j.c.waiting[id].roles))))
  {
    var t := j.c.waiting[id];
    assert t.kind == B.Normal;
    assert R.Polled(j.c, id) ==
      j.c.(
        waiting := j.c.waiting - {id}, open := j.c.open + {id},
        grants := j.c.grants + [R.Grant(id, B.Normal, t.roles)]);
    GrantLinked(j, id, t.roles, t.since);
  }

  lemma PassRelated(j: Joint, id: nat)
    requires Related(j) && id in j.c.waiting
    ensures
      var scopes := SetOf(j.c.waiting[id].roles);
      && (R.DecisionOf(j.c, id).Granted? <==> Q.Recheck(j.s.st, id, scopes).1.Granted?)
      && Related(Joint(R.Polled(j.c, id), Q.Settled(j.s, id, scopes)))
  {
    assert SetOf(j.c.waiting[id].roles) == ScopesOf(j.c, id);
    NormalDecision(j.c, id);
    FrontIffUnblocked(j, id);
    R.PolledInv(j.c, id);
    if R.DecisionOf(j.c, id).Granted? {
      GrantRelated(j, id);
    } else {
      assert R.Polled(j.c, id) == j.c;
    }
  }

  lemma RegisteredPending(j: Joint, roles: seq<string>)
    requires Linked(j) && R.OrderOk(j.c) && j.s.st.next !in j.c.used
    ensures
      var c := R.Registered(j.c, j.s.st.next, B.Normal, roles);
      Q.Queued(j.s.st, SetOf(roles)).pending == PendingOf(c.live, c.waiting)
  {
    var id := j.s.st.next;
    var c := R.Registered(j.c, id, B.Normal, roles);
    assert c.live[..|c.live| - 1] == j.c.live;
    PendingOfFrame(j.c.live, j.c.waiting, c.waiting);
  }

  lemma RegisteredLeases(j: Joint, roles: seq<string>)
    requires LeasesLinked(j) && j.c.open <= j.c.st.tickets.Keys && j.s.st.next !in j.c.st.tickets
    ensures
      LeasesLinked(Joint(R.Registered(j.c, j.s.st.next, B.Normal, roles), j.s.(st := Q.Queued(j.s.st, SetOf(roles)))))
  {
    var c := R.Registered(j.c, j.s.st.next, B.Normal, roles);
    forall i, x | i in j.c.open
      ensures R.Names(c.st.tickets, i, x) == R.Names(j.c.st.tickets, i, x)
      ensures ScopesOf(c, i) == ScopesOf(j.c, i)
    {
    }
    forall x ensures x in j.s.st.active <==> exists i :: i in c.open && R.Names(c.st.tickets, i, x) {
      assert x in j.s.st.active <==> exists i :: i in j.c.open && R.Names(j.c.st.tickets, i, x);
    }
  }

  lemma RegisteredLinked(j: Joint, roles: seq<string>)
    requires Linked(j) && R.OrderOk(j.c) && j.c.open <= j.c.st.tickets.Keys && j.s.st.next !in j.c.used
    ensures
      var c := R.Registered(j.c, j.s.st.next, B.Normal, roles);
      Linked(Joint(c, j.s.(st := Q.Queued(j.s.st, SetOf(roles)))))
  {
    RegisteredPending(j, roles);
    RegisteredLeases(j, roles);
  }

  lemma RegisteredRelated(j: Joint, roles: seq<string>)
    requires Related(j) && j.s.st.next !in j.c.used && StrictlySorted(roles) && roles != []
    ensures
      var c := R.Registered(j.c, j.s.st.next, B.Normal, roles);
      Related(Joint(c, j.s.(st := Q.Queued(j.s.st, SetOf(roles)))))
  {
    R.RegisteredInv(j.c, j.s.st.next, B.Normal, roles);
    RegisteredLinked(j, roles);
  }

  lemma ReleaseLinked(j: Joint, id: nat)
    requires Linked(j) && id in j.c.open && id in j.c.st.tickets && id !in j.c.waiting
    requires forall i, x | i in j.c.open && i != id && R.Names(j.c.st.tickets, i, x) :: x !in ScopesOf(j.c, id)
    ensures Linked(Joint(R.Finished(j.c, id, B.CompleteStep(j.c.st, id), {}), Q.Dropped(j.s, id)))
  {
    var j' := Joint(R.Finished(j.c, id, B.CompleteStep(j.c.st, id), {}), Q.Dropped(j.s, id));
    PendingOfWithout(j.c.live, j.c.waiting, id);
    forall x ensures x in j'.s.st.active <==> exists i :: i in j'.c.open && R.Names(j'.c.st.tickets, i, x) {
      if x in j'.s.st.active {
        var i :| i in j.c.open && R.Names(j.c.st.tickets, i, x);
        assert i in j'.c.open && R.Names(j'.c.st.tickets, i, x);
      }
      if i :| i in j'.c.open && R.Names(j'.c.st.tickets, i, x) {
        assert R.Names(j.c.st.tickets, i, x);
      }
    }
  }

  lemma ReleaseRelated(j: Joint, id: nat)
    requires Related(j) && id in j.c.open && id in j.s.open
    ensures Related(Next(j, Release(id)))
  {
    R.CompleteInv(j.c, id);
    forall i, x | i in j.c.open && i != id && R.Names(j.c.st.tickets, i, x) ensures x !in ScopesOf(j.c, id) {
      if x in ScopesOf(j.c, id) { R.OpenLeasesDisjoint(j.c, i, id, x); }
    }
    assert R.RolesLeftBlocked(j.c.st, R.Complete(id)) == {};
    ReleaseLinked(j, id);
  }

  lemma {:induction false} PendingScopes(live: seq<nat>, waiting: map<nat, R.Waiter>, id: nat)
    requires NoDup(live) && id in live && id in waiting
    ensures Q.PendingAt(PendingOf(live, waiting), id) == SetOf(waiting[id].roles)
  {
    PendingOfStep(live, waiting);
    var front, last := live[..|live| - 1], live[|live| - 1];
    if last != id {
      PendingScopes(front, waiting, id);
      var p := PendingOf(front, waiting);
      if last in waiting {
        var e := Q.Pending(last, SetOf(waiting[last].roles));
        assert (p + [e])[..|p|] == p;
      } else {
        assert p + [] == p;
      }
    }
  }

  lemma RequestUnfolds(j: Joint, scopes: seq<string>)
    requires Allowed(j, Request(scopes)) && !j.c.st.shuttingDown
    ensures
      var roles, id := B.NormalizeRoles(scopes), j.s.st.next;
      && SetOf(roles) == SetOf(scopes)
      && (roles == [] <==> SetOf(scopes) == {})
      && Next(j, Request(scopes)) ==
         if roles == [] then j
         else Joint(R.Polled(R.Registered(j.c, id, B.Normal, roles), id),
                    Q.Settled(j.s.(st := Q.Queued(j.s.st, SetOf(roles))), id, SetOf(roles)))
  {
    var roles := B.NormalizeRoles(scopes);
    if roles != [] { assert roles[0] in SetOf(roles); }
    assert SetOf(roles) == SetOf(scopes);
    assert B.ParseKind("normal") == Some(B.Normal);
  }

  lemma RequestRelated(j: Joint, scopes: seq<string>)
    requires Related(j) && Allowed(j, Request(scopes))
    ensures Related(Next(j, Request(scopes)))
  {
    RequestUnfolds(j, scopes);
    var roles, id := B.NormalizeRoles(scopes), j.s.st.next;
    if roles != [] {
      RegisteredRelated(j, roles);
      var registered := Joint(R.Registered(j.c, id, B.Normal, roles), j.s.(st := Q.Queued(j.s.st, SetOf(roles))));
      assert registered.c.waiting[id].roles == roles;
      PassRelated(registered, id);
    }
  }

  lemma NextRelated(j: Joint, e: Event)
    requires Related(j) && Allowed(j, e)
    ensures Related(Next(j, e))
  {
    match e
    case Request(scopes) => RequestRelated(j, scopes);
    case Wake(ticket) =>
      PendingScopes(j.c.live, j.c.waiting, ticket);
      PassRelated(j, ticket);
    case Release(ticket) => ReleaseRelated(j, ticket);
  }

  ghost predicate ValidRun(j: Joint, events: seq<Event>)
    decreases |events|
  {
    events == [] || (Allowed(j, events[0]) && ValidRun(Next(j, events[0]), events[1..]))
  }

  function After(j: Joint, events: seq<Event>): Joint
    requires ValidRun(j, events)
    decreases |events|
  {
    if events == [] then j else After(Next(j, events[0]), events[1..])
  }

  lemma {:induction false} RunRelated(j: Joint, events: seq<Event>)
    requires Related(j) && ValidRun(j, events)
    ensures Related(After(j, events))
    decreases |events|
  {
    if events != [] {
      NextRelated(j, events[0]);
      RunRelated(Next(j, events[0]), events[1..]);
    }
  }

  /**
   * Main result: after any run of the same normal requests, wake-ups and releases, both designs
   * have granted the same requests in the same order, hold the same leases, and keep the same
   * requests waiting; and the sequence's active set is exactly the union of its open permits.
   */
  lemma DesignsGrantTheSameRequests(events: seq<Event>)
    requires ValidRun(Start, events)
    ensures
      var j := After(Start, events);
      && |j.s.grants| == |j.c.grants|
      && (forall k | 0 <= k < |j.c.grants| ::
            j.s.grants[k].ticket == j.c.grants[k].id && j.s.grants[k].scopes == SetOf(j.c.grants[k].roles))
      && j.s.open.Keys == j.c.open
      && (forall id :: id in j.c.waiting <==> exists p :: p in j.s.st.pending && p.ticket == id)
      && (forall x :: x in j.s.st.active <==> exists id :: id in j.s.open && x in j.s.open[id])
  {
    R.StartInv();
    RunRelated(Start, events);
    var j := After(Start, events);
    PendingOfEntries(j.c.live, j.c.waiting);
    forall x ensures x in j.s.st.active <==> exists id :: id in j.s.open && x in j.s.open[id] {
      assert forall id | id in j.c.open :: x in j.s.open[id] <==> R.Names(j.c.st.tickets, id, x);
    }
  }
}
