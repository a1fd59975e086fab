/** What every run of the browser-operation coordinator guarantees. */
module BrowserOperationGuarantees {
  import opened Sequences
  import opened BrowserOperations
  import opened BrowserOperationRuns

  // ---- Queues, exclusion, order of service -------------------------------------------------

  /** Each role's queue is exactly the live tickets naming that role, in arrival order. */
  lemma QueueIsLiveTicketsInOrder(events: seq<Event>, r: Role)
    requires ValidRun(Start, events)
    ensures
      var w := After(Start, events);
      && Queue(w.st.queues, r) == Naming(w.st.tickets, w.live, r)
      && (r in w.st.queues <==> exists id :: id in w.live && Names(w.st.tickets, id, r))
      && NoDup(w.live)
      && forall id :: id in w.live <==> id in w.st.tickets
  {
    ReachableInv(events);
    var w := After(Start, events);
    assert Queue(w.st.queues, r) == Naming(w.st.tickets, w.live, r);
    NamingElements(w.st.tickets, w.live, r);
    if r in w.st.queues {
      var id := w.st.queues[r][0];
      assert id in Naming(w.st.tickets, w.live, r);
    }
  }

  /** Leases granted and not finished have pairwise disjoint roles. */
  lemma GrantedLeasesAreExclusive(events: seq<Event>, a: Id, b: Id)
    requires ValidRun(Start, events)
    requires a in After(Start, events).open && b in After(Start, events).open && a != b
    ensures
      var tickets := After(Start, events).st.tickets;
      a in tickets && b in tickets && SetOf(tickets[a].roles) !! SetOf(tickets[b].roles)
  {
    ReachableInv(events);
    var w := After(Start, events);
    forall r | r in w.st.tickets[a].roles ensures r !in w.st.tickets[b].roles {
      if r in w.st.tickets[b].roles { OpenLeasesDisjoint(w, a, b, r); }
    }
  }

  /** A waiter stays stuck exactly while an older live ticket shares one of its roles. */
  lemma StuckIffBehindOlderOverlap(w: World, id: Id)
    requires Inv(w) && id in w.waiting && !w.st.shuttingDown
    ensures DecisionOf(w, id) == Waiting <==>
            exists a :: Before(w.live, a, id) && Overlap(w.st.tickets, a, id)
  {
    ReadyIffNoOlderOverlap(w, id);
  }

  // ---- Progress ----------------------------------------------------------------------------

  function Fuel(w: World): nat {
    2 * |w.waiting| + |w.open|
  }

  /** A step that lets a thread out of the loop or finishes a lease. */
  ghost predicate Effective(w: World, e: Event) {
    Allowed(w, e) && (Next(w, e).waiting != w.waiting || Next(w, e).open != w.open)
  }

  ghost function EffectiveSteps(w: World, events: seq<Event>): nat
    requires ValidRun(w, events)
    decreases |events|
  {
    if events == [] then 0
    else (if Effective(w, events[0]) then 1 else 0) + EffectiveSteps(Next(w, events[0]), events[1..])
  }

  lemma EffectiveStepBurnsFuel(w: World, e: Event)
    requires Inv(w) && !e.Arrive? && Effective(w, e)
    ensures Fuel(Next(w, e)) < Fuel(w)
  {
    if e.Wake? {
      WakeBurnsFuel(w, e.id);
    } else if !e.BeginShutdown? {
      FinishBurnsFuel(w, e);
    }
  }

  lemma WakeBurnsFuel(w: World, id: Id)
    requires id in w.waiting && (Polled(w, id).waiting != w.waiting || Polled(w, id).open != w.open)
    ensures Fuel(Polled(w, id)) < Fuel(w)
  {
    PolledThreads(w, id);
    ShrunkMap(w.waiting, id);
    SetGrowth(Polled(w, id).open, w.open, id);
  }

  lemma FinishBurnsFuel(w: World, e: Event)
    requires Inv(w) && Effective(w, e) && (e.Complete? || e.CompleteRetaining? || e.Abort?)
    ensures Fuel(Next(w, e)) < Fuel(w)
  {
    FinishThreads(w, e);
  }

  lemma PolledThreads(w: World, id: Id)
    requires id in w.waiting
    ensures Polled(w, id).waiting != w.waiting || Polled(w, id).open != w.open ==>
            Polled(w, id).waiting == w.waiting - {id} && Polled(w, id).open <= w.open + {id}
  {
  }

  lemma FinishThreads(w: World, e: Event)
    requires Inv(w) && Allowed(w, e) && (e.Complete? || e.CompleteRetaining? || e.Abort?)
    ensures Next(w, e).waiting == w.waiting
    ensures Next(w, e).open != w.open ==> e.id in w.open && Next(w, e).open == w.open - {e.id}
  {
  }

  lemma ShrunkMap(m: map<Id, Waiter>, id: Id)
    requires id in m
    ensures |m - {id}| == |m| - 1
  {
    assert (m - {id}).Keys == m.Keys - {id};
    assert |m.Keys| == |m| && |(m - {id}).Keys| == |m - {id}|;
  }

  lemma SetGrowth(a: set<Id>, b: set<Id>, id: Id)
    requires a <= b + {id}
    ensures |a| <= |b| + 1
  {
    assert a - {id} <= b;
    SubsetSize(a - {id}, b);
    assert a <= (a - {id}) + {id};
    SubsetSize(a, (a - {id}) + {id});
  }

  lemma FuelBound(w: World)
    requires Inv(w)
    ensures Fuel(w) <= 2 * |w.live|
  {
    assert w.waiting.Keys !! w.open;
    assert w.st.tickets.Keys == w.waiting.Keys + w.open;
    assert |w.waiting.Keys| == |w.waiting|;
    NoDupSize(w.live, w.st.tickets.Keys);
  }

  /** Without arrivals, at most two effective steps per live ticket, whatever else happens between them. */
  lemma {:induction false} RunsWithoutArrivalsAreShort(w: World, events: seq<Event>)
    requires Inv(w) && ValidRun(w, events) && forall e | e in events :: !e.Arrive?
    ensures EffectiveSteps(w, events) + Fuel(After(w, events)) <= Fuel(w) <= 2 * |w.live|
    decreases |events|
  {
    FuelBound(w);
    if events != [] {
      assert events[0] in events;
      if Effective(w, events[0]) {
        EffectiveStepBurnsFuel(w, events[0]);
      }
      NextInv(w, events[0]);
      RunsWithoutArrivalsAreShort(Next(w, events[0]), events[1..]);
    }
  }

  /** `id` waits, directly or through other waiters, on a lease that is still open. */
  ghost predicate WaitsOnOpenLease(w: World, k: nat)
    requires k < |w.live|
    decreases k
  {
    exists j: nat :: j < k && Overlap(w.st.tickets, w.live[j], w.live[k]) &&
      (w.live[j] in w.open || WaitsOnOpenLease(w, j))
  }

  /** When no wake-up helps, every waiter is behind a chain of overlaps ending in an open lease. */
  lemma {:induction false} QuiescentWaitersWaitOnLeases(w: World, k: nat)
    requires Inv(w) && k < |w.live| && w.live[k] in w.waiting
    requires forall id | id in w.waiting :: !Effective(w, Wake(id))
    ensures WaitsOnOpenLease(w, k)
    decreases k
  {
    var id := w.live[k];
    TicketNeverMissing(w, id);
    assert DecisionOf(w, id) == Waiting by {
      assert !Effective(w, Wake(id));
    }
    ReadyIffNoOlderOverlap(w, id);
    var a :| Before(w.live, a, id) && Overlap(w.st.tickets, a, id);
    var i, j :| 0 <= i < j < |w.live| && w.live[i] == a && w.live[j] == id;
    assert j == k;
    if w.live[i] !in w.open {
      QuiescentWaitersWaitOnLeases(w, i);
    }
  }

  /** No deadlock: with waiters and no open lease, some wake-up makes progress. */
  lemma WaitersWithoutLeasesProgress(w: World)
    requires Inv(w) && w.waiting != map[] && w.open == {}
    ensures exists id :: id in w.waiting && Effective(w, Wake(id))
  {
    if forall id | id in w.waiting :: !Effective(w, Wake(id)) {
      var id :| id in w.waiting;
      var k :| 0 <= k < |w.live| && w.live[k] == id;
      QuiescentWaitersWaitOnLeases(w, k);
      NoLeaseNoChain(w, k);
      assert false;
    }
  }

  lemma {:induction false} NoLeaseNoChain(w: World, k: nat)
    requires w.open == {} && k < |w.live|
    ensures !WaitsOnOpenLease(w, k)
    decreases k
  {
    forall j: nat | j < k ensures !WaitsOnOpenLease(w, j) {
      NoLeaseNoChain(w, j);
    }
  }

  // ---- Data versions -----------------------------------------------------------------------

  /** A recoverable mutation sharing a role with `id` was granted after `id` arrived. */
  ghost predicate MutatedWhileQueued(w: World, id: Id)
    requires id in w.waiting
  {
    exists k, r ::
      w.waiting[id].since <= k < |w.grants| && w.grants[k].kind == RecoverableMutation &&
      r in w.grants[k].roles && r in w.waiting[id].roles
  }

  lemma {:induction false} MutationsSince(grants: seq<Grant>, since: nat, r: Role)
    requires since <= |grants|
    ensures Mutations(grants, r) >= Mutations(grants[..since], r)
    ensures Mutations(grants, r) != Mutations(grants[..since], r) <==>
            exists k :: since <= k < |grants| && grants[k].kind == RecoverableMutation && r in grants[k].roles
    decreases |grants|
  {
    if since == |grants| {
      assert grants[..since] == grants;
    } else {
      var front, last := grants[..|grants| - 1], grants[|grants| - 1];
      MutationsSince(front, since, r);
      assert front[..since] == grants[..since];
      if last.kind == RecoverableMutation && r in last.roles {
        assert grants[|grants| - 1] == last;
      } else {
        assert forall k | since <= k < |front| :: front[k] == grants[k];
      }
    }
  }

  /**
   * A normal operation that reaches the front unblocked is refused with ROLE_DATA_CHANGED exactly
   * when a recoverable mutation of one of its roles was granted while it was queued; otherwise it
   * is granted.
   */
  lemma DataChangedIffMutatedWhileQueued(w: World, id: Id)
    requires Inv(w) && id in w.waiting && w.waiting[id].kind == Normal && !w.st.shuttingDown
    requires AtFront(w.st, id, w.waiting[id].roles)
    requires forall r | r in w.waiting[id].roles :: r !in w.st.blocked
    ensures DecisionOf(w, id) == Refused(DataChanged) <==> MutatedWhileQueued(w, id)
    ensures DecisionOf(w, id) == Granted(w.waiting[id].roles) <==> !MutatedWhileQueued(w, id)
  {
    var t := w.waiting[id];
    forall r | r in t.roles
      ensures (Version(w.st, r) != w.st.tickets[id].queuedVersions[r]) <==>
              exists k :: t.since <= k < |w.grants| && w.grants[k].kind == RecoverableMutation && r in w.grants[k].roles
    {
      assert Names(w.st.tickets, id, r);
      MutationsSince(w.grants, t.since, r);
      assert Version(w.st, r) == Mutations(w.grants, r);
    }
    if MutatedWhileQueued(w, id) {
      var k, r :| t.since <= k < |w.grants| && w.grants[k].kind == RecoverableMutation &&
                  r in w.grants[k].roles && r in t.roles;
      assert Version(w.st, r) != w.st.tickets[id].queuedVersions[r];
    }
  }

  /** Mutations and destructive operations are never refused for changed data. */
  lemma OnlyNormalOperationsSeeChangedData(w: World, id: Id)
    requires Inv(w) && id in w.waiting && DecisionOf(w, id) == Refused(DataChanged)
    ensures w.waiting[id].kind == Normal
  {
  }

  /** A refused ticket changes no version and no block; it only disappears. */
  lemma RefusalLeavesDataAlone(s: State, id: Id, kind: Kind, roles: seq<Role>)
    requires Poll(s, id, kind, roles).1.Refused?
    ensures
      var s' := Poll(s, id, kind, roles).0;
      s'.versions == s.versions && s'.blocked == s.blocked && s'.tickets == s.tickets - {id}
  {
    if id !in s.tickets { assert s.tickets - {id} == s.tickets; }
  }

  // ---- Permanent blocks and shutdown -------------------------------------------------------

  /** In every reachable state the block set is the open destructive leases' roles and the kept ones. */
  lemma BlockedRolesAreAccountedFor(events: seq<Event>, r: Role)
    requires ValidRun(Start, events)
    ensures
      var w := After(Start, events);
      r in w.st.blocked <==>
        r in w.kept || exists id :: id in w.open && Names(w.st.tickets, id, r) &&
                                    w.st.tickets[id].kind == DestructiveMutation
  {
    ReachableInv(events);
    var w := After(Start, events);
    assert r in w.st.blocked <==> r in w.kept || OpenDestructive(w, r);
  }

  lemma KeptStep(w: World, e: Event)
    requires Inv(w) && Allowed(w, e)
    ensures w.kept <= Next(w, e).kept
    ensures w.grants <= Next(w, e).grants
    ensures forall k | |w.grants| <= k < |Next(w, e).grants| ::
              forall r | r in Next(w, e).grants[k].roles :: r !in w.kept
  {
    if e.Arrive? {
      var kind, roles := ParseKind(e.kindText), NormalizeRoles(e.requested);
      if kind.Some? && roles != [] && !w.st.shuttingDown {
        RegisteredInv(w, e.id, kind.value, roles);
        PolledKept(Registered(w, e.id, kind.value, roles), e.id);
      }
    } else if e.Wake? {
      PolledKept(w, e.id);
    }
  }

  lemma PolledKept(w: World, id: Id)
    requires Inv(w) && id in w.waiting
    ensures Polled(w, id).kept == w.kept
    ensures w.grants <= Polled(w, id).grants
    ensures forall k | |w.grants| <= k < |Polled(w, id).grants| ::
              forall r | r in Polled(w, id).grants[k].roles :: r !in w.kept
  {
    assert w.kept <= w.st.blocked;
  }

  /** A kept role stays blocked, and no lease naming it is granted again, in any continuation. */
  lemma {:induction false} KeptRolesAreNeverGrantedAgain(w: World, events: seq<Event>)
    requires Inv(w) && ValidRun(w, events)
    ensures
      var w' := After(w, events);
      && w.kept <= w'.kept <= w'.st.blocked
      && w.grants <= w'.grants
      && forall k | |w.grants| <= k < |w'.grants| :: forall r | r in w'.grants[k].roles :: r !in w.kept
    decreases |events|
  {
    if events != [] {
      var next := Next(w, events[0]);
      NextInv(w, events[0]);
      KeptStep(w, events[0]);
      KeptRolesAreNeverGrantedAgain(next, events[1..]);
      var w' := After(next, events[1..]);
      forall k | |w.grants| <= k < |w'.grants| ensures forall r | r in w'.grants[k].roles :: r !in w.kept {
        if k < |next.grants| { assert w'.grants[k] == next.grants[k]; }
      }
    }
  }

  /** Finishing a destructive lease keeps all its roles, the retained ones, or none. */
  lemma FinishingKeepsRoles(w: World, id: Id, retained: seq<Role>)
    requires Inv(w) && id in w.open && w.st.tickets[id].kind == DestructiveMutation
    ensures Next(w, Complete(id)).kept == w.kept + SetOf(w.st.tickets[id].roles)
    ensures Next(w, CompleteRetaining(id, retained)).kept ==
            w.kept + SetOf(w.st.tickets[id].roles) * SetOf(retained)
    ensures Next(w, Abort(id)).kept == w.kept
    ensures Next(w, Abort(id)).st.blocked == w.st.blocked - SetOf(w.st.tickets[id].roles)
  {
  }

  /** Once `begin_shutdown_and_check_idle` answered true, no ticket ever exists again. */
  lemma {:induction false} IdleShutdownIsFinal(w: World, events: seq<Event>)
    requires w.st.shuttingDown && w.st.tickets == map[] && w.waiting == map[] && ValidRun(w, events)
    ensures After(w, events).st.tickets == map[] && After(w, events).st.shuttingDown
    ensures After(w, events).grants == w.grants
    decreases |events|
  {
    if events != [] {
      IdleShutdownIsFinal(Next(w, events[0]), events[1..]);
    }
  }

  lemma IdleAnswerMeansFinal(w: World, events: seq<Event>)
    requires Inv(w) && ShutdownStep(w.st).1 && ValidRun(Next(w, BeginShutdown), events)
    ensures After(Next(w, BeginShutdown), events).st.tickets == map[]
    ensures After(Next(w, BeginShutdown), events).grants == w.grants
  {
    assert forall id | id in w.waiting :: id in w.st.tickets;
    assert w.waiting == map[];
    IdleShutdownIsFinal(Next(w, BeginShutdown), events);
  }
}
