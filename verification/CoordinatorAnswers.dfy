/**
 * What the coordinator answers and what each answer leaves behind, told by the history of leases
 * and mutations instead of by its queues, versions and blocks.
 */
module CoordinatorAnswers {
  import opened Outcomes
  import opened Sequences
  import opened StringOrder
  import opened Text
  import opened BrowserOperations
  import opened BrowserOperationRuns
  import opened BrowserOperationGuarantees

  /** Some older live ticket shares a role with `id`. */
  ghost predicate BehindOlder(w: World, id: Id) {
    exists a :: Before(w.live, a, id) && Overlap(w.st.tickets, a, id)
  }

  /** The role was kept by a finished destructive lease or belongs to an open one. */
  ghost predicate ClosedRole(w: World, r: Role) {
    || r in w.kept
    || exists lease ::
         lease in w.open && Names(w.st.tickets, lease, r) && w.st.tickets[lease].kind == DestructiveMutation
  }

  lemma BlockedIffClosed(w: World, r: Role)
    requires Inv(w)
    ensures r in w.st.blocked <==> ClosedRole(w, r)
  {
    assert r in w.st.blocked <==> r in w.kept || OpenDestructive(w, r);
  }

  lemma FrontIffNotBehind(w: World, id: Id)
    requires Inv(w) && id in w.waiting
    ensures AtFront(w.st, id, w.waiting[id].roles) <==> !BehindOlder(w, id)
  {
    ReadyIffNoOlderOverlap(w, id);
  }

  // ---- A waiting thread --------------------------------------------------------------------

  /**
   * Main result: what a waiter of any kind is answered. A shutdown refuses it; otherwise an older
   * overlapping ticket makes it wait; otherwise a closed role refuses it; otherwise only a normal
   * operation is refused, for data mutated while it was queued; all others are granted their roles.
   */
  lemma WaiterAnswers(w: World, id: Id)
    requires Inv(w) && id in w.waiting
    ensures DecisionOf(w, id) == Refused(ShuttingDown) <==> w.st.shuttingDown
    ensures DecisionOf(w, id) == Waiting <==> !w.st.shuttingDown && BehindOlder(w, id)
    ensures !w.st.shuttingDown && !BehindOlder(w, id) ==>
      (DecisionOf(w, id) == Refused(MutationBlocked) <==> exists r :: r in w.waiting[id].roles && ClosedRole(w, r))
    ensures !w.st.shuttingDown && !BehindOlder(w, id) && (forall r | r in w.waiting[id].roles :: !ClosedRole(w, r)) ==>
      DecisionOf(w, id) ==
        if w.waiting[id].kind == Normal && MutatedWhileQueued(w, id) then Refused(DataChanged)
        else Granted(w.waiting[id].roles)
  {
    FrontIffNotBehind(w, id);
    forall r ensures r in w.st.blocked <==> ClosedRole(w, r) { BlockedIffClosed(w, r); }
    TicketNeverMissing(w, id);
    if w.waiting[id].kind == Normal && !w.st.shuttingDown && !BehindOlder(w, id)
      && forall r | r in w.waiting[id].roles :: !ClosedRole(w, r) {
      DataChangedIffMutatedWhileQueued(w, id);
    }
  }

  /** What is left when a thread of this kind was granted these roles. */
  ghost predicate Marked(before: State, kind: Kind, roles: set<Role>, s: State) {
    && s.shuttingDown == before.shuttingDown
    && (forall r :: Version(s, r) == Version(before, r) + if kind == RecoverableMutation && r in roles then 1 else 0)
    && s.blocked == before.blocked + if kind == DestructiveMutation then roles else {}
  }

  /** A grant opens a lease; a recoverable one moves its roles' versions and a destructive one closes its roles. */
  lemma GrantLeavesItsMark(w: World, id: Id)
    requires Inv(w) && id in w.waiting && DecisionOf(w, id).Granted?
    ensures var w', t := Polled(w, id), w.waiting[id];
      && w'.open == w.open + {id} && w'.live == w.live && w'.waiting == w.waiting - {id}
      && w'.st.tickets == w.st.tickets && w'.kept == w.kept
      && w'.grants == w.grants + [Grant(id, t.kind, t.roles)]
      && Marked(w.st, t.kind, SetOf(t.roles), w'.st)
  {
  }

  // ---- A new request -----------------------------------------------------------------------

  function KindNames(): set<string> {
    {"normal", "recoverableMutation", "destructiveMutation"}
  }

  function Named(requested: seq<Role>): set<Role> {
    set r | r in requested && !IsBlank(r)
  }

  lemma NormalizedNames(requested: seq<Role>)
    ensures StrictlySorted(NormalizeRoles(requested)) && SetOf(NormalizeRoles(requested)) == Named(requested)
    ensures NormalizeRoles(requested) == [] <==> Named(requested) == {}
  {
    var roles := NormalizeRoles(requested);
    assert SetOf(roles) == Named(requested);
    if roles != [] { assert roles[0] in SetOf(roles); }
    if r :| r in Named(requested) { assert r in roles; }
  }

  lemma KindNamed(kindText: string)
    ensures ParseKind(kindText) == None <==> kindText !in KindNames()
    ensures kindText == "normal" ==> ParseKind(kindText) == Some(Normal)
    ensures kindText == "recoverableMutation" ==> ParseKind(kindText) == Some(RecoverableMutation)
    ensures kindText == "destructiveMutation" ==> ParseKind(kindText) == Some(DestructiveMutation)
  {
  }

  /** A request that gets no ticket: its kind is unknown, it names nothing, or a shutdown has begun. */
  lemma TurnedAway(s: State, id: Id, kindText: string, requested: seq<Role>)
    requires kindText !in KindNames() || Named(requested) == {} || s.shuttingDown
    ensures AcquireStep(s, id, kindText, requested) ==
      (s, Refused(
        if kindText !in KindNames() then KindInvalid
        else if Named(requested) == {} then RolesRequired
        else ShuttingDown))
  {
    KindNamed(kindText);
    NormalizedNames(requested);
  }

  /** Any other request is registered and polled at once. */
  lemma AcquirePolls(w: World, id: Id, kindText: string, requested: seq<Role>)
    requires id !in w.used && !w.st.shuttingDown && kindText in KindNames() && Named(requested) != {}
    ensures ParseKind(kindText).Some? && NormalizeRoles(requested) != []
    ensures var entered := Registered(w, id, ParseKind(kindText).value, NormalizeRoles(requested));
      AcquireStep(w.st, id, kindText, requested) == (Polled(entered, id).st, DecisionOf(entered, id))
  {
    KindNamed(kindText);
    NormalizedNames(requested);
    RegisteredPolls(w, id, ParseKind(kindText).value, NormalizeRoles(requested));
  }

  /** Some live ticket names one of the roles. */
  ghost predicate Taken(w: World, roles: set<Role>) {
    exists a, r :: a in w.live && r in roles && Names(w.st.tickets, a, r)
  }

  lemma BehindIffTaken(w: World, id: Id, kind: Kind, roles: seq<Role>)
    requires Inv(w) && id !in w.used
    ensures BehindOlder(Registered(w, id, kind, roles), id) <==> Taken(w, SetOf(roles))
  {
    var w' := Registered(w, id, kind, roles);
    if BehindOlder(w', id) {
      var a :| Before(w'.live, a, id) && Overlap(w'.st.tickets, a, id);
      var i, j :| 0 <= i < j < |w'.live| && w'.live[i] == a && w'.live[j] == id;
      assert w.live[i] == a;
      var r :| Names(w'.st.tickets, a, r) && Names(w'.st.tickets, id, r);
      assert a in w.live && r in SetOf(roles) && Names(w.st.tickets, a, r);
    }
    if Taken(w, SetOf(roles)) {
      var a, r :| a in w.live && r in SetOf(roles) && Names(w.st.tickets, a, r);
      var i :| 0 <= i < |w.live| && w.live[i] == a;
      assert w'.live[i] == a && w'.live[|w.live|] == id;
      assert Names(w'.st.tickets, a, r) && Names(w'.st.tickets, id, r);
      assert Before(w'.live, a, id) && Overlap(w'.st.tickets, a, id);
    }
  }

  lemma ClosedIsOlder(w: World, id: Id, kind: Kind, roles: seq<Role>, r: Role)
    requires Inv(w) && id !in w.used
    ensures ClosedRole(Registered(w, id, kind, roles), r) <==> ClosedRole(w, r)
  {
    var w' := Registered(w, id, kind, roles);
    assert id !in w.open;
    forall lease | lease in w.open ensures lease in w.st.tickets && w'.st.tickets[lease] == w.st.tickets[lease] {}
    forall lease | lease in w.open ensures Names(w'.st.tickets, lease, r) == Names(w.st.tickets, lease, r) {}
  }

  lemma EnteredAnswer(w: World, id: Id, kind: Kind, roles: seq<Role>)
    requires Inv(w) && id !in w.used && !w.st.shuttingDown && StrictlySorted(roles) && roles != []
    ensures DecisionOf(Registered(w, id, kind, roles), id) ==
      if Taken(w, SetOf(roles)) then Waiting
      else if exists r :: r in SetOf(roles) && ClosedRole(w, r) then Refused(MutationBlocked)
      else Granted(roles)
  {
    var w' := Registered(w, id, kind, roles);
    RegisteredInv(w, id, kind, roles);
    BehindIffTaken(w, id, kind, roles);
    EnteredClosed(w, id, kind, roles);
    assert w'.waiting[id].since == |w'.grants|;
    assert !MutatedWhileQueued(w', id);
    WaiterAnswers(w', id);
  }

  lemma EnteredClosed(w: World, id: Id, kind: Kind, roles: seq<Role>)
    requires Inv(w) && id !in w.used
    ensures var w' := Registered(w, id, kind, roles);
      (exists r :: r in w'.waiting[id].roles && ClosedRole(w', r)) <==>
      exists r :: r in SetOf(roles) && ClosedRole(w, r)
  {
    var w' := Registered(w, id, kind, roles);
    if r :| r in SetOf(roles) && ClosedRole(w, r) {
      ClosedIsOlder(w, id, kind, roles, r);
      assert r in w'.waiting[id].roles && ClosedRole(w', r);
    }
    if r :| r in w'.waiting[id].roles && ClosedRole(w', r) {
      ClosedIsOlder(w, id, kind, roles, r);
      assert r in SetOf(roles) && ClosedRole(w, r);
    }
  }

  /**
   * Main result: what a request that gets a ticket is answered at once. It waits exactly when a live
   * ticket names one of its roles; otherwise it is refused exactly when one of them is closed, and
   * else granted all of them, each once and in order.
   */
  lemma FirstAnswer(w: World, id: Id, kindText: string, requested: seq<Role>)
    requires Inv(w) && id !in w.used && !w.st.shuttingDown && kindText in KindNames() && Named(requested) != {}
    ensures var answer := AcquireStep(w.st, id, kindText, requested).1;
      if Taken(w, Named(requested)) then answer == Waiting
      else if exists r :: r in Named(requested) && ClosedRole(w, r) then answer == Refused(MutationBlocked)
      else answer.Granted? && SetOf(answer.roles) == Named(requested) && StrictlySorted(answer.roles)
  {
    AcquirePolls(w, id, kindText, requested);
    NormalizedNames(requested);
    EnteredAnswer(w, id, ParseKind(kindText).value, NormalizeRoles(requested));
  }

  /** A request granted at once leaves the mark its kind's name says. */
  lemma FirstGrantLeavesItsMark(w: World, id: Id, kindText: string, requested: seq<Role>)
    requires Inv(w) && id !in w.used && !w.st.shuttingDown && kindText in KindNames() && Named(requested) != {}
    requires AcquireStep(w.st, id, kindText, requested).1.Granted?
    ensures var s, s' := w.st, AcquireStep(w.st, id, kindText, requested).0;
      && (kindText == "normal" ==> Marked(s, Normal, Named(requested), s'))
      && (kindText == "recoverableMutation" ==> Marked(s, RecoverableMutation, Named(requested), s'))
      && (kindText == "destructiveMutation" ==> Marked(s, DestructiveMutation, Named(requested), s'))
  {
    var kind, roles := ParseKind(kindText).value, NormalizeRoles(requested);
    AcquirePolls(w, id, kindText, requested);
    NormalizedNames(requested);
    KindNamed(kindText);
    EnteredMark(w, id, kind, roles);
  }

  lemma EnteredMark(w: World, id: Id, kind: Kind, roles: seq<Role>)
    requires Inv(w) && id !in w.used && StrictlySorted(roles) && roles != []
    requires DecisionOf(Registered(w, id, kind, roles), id).Granted?
    ensures Marked(w.st, kind, SetOf(roles), Polled(Registered(w, id, kind, roles), id).st)
  {
    var w' := Registered(w, id, kind, roles);
    RegisteredInv(w, id, kind, roles);
    GrantLeavesItsMark(w', id);
    forall r ensures Version(w'.st, r) == Version(w.st, r) {}
  }

  // ---- The end of a lease ------------------------------------------------------------------

  /** The lease is gone; of a destructive one's roles those `freed` are open again and the others kept. */
  ghost predicate Ended(w: World, id: Id, freed: set<Role>, w': World)
    requires id in w.st.tickets
  {
    var t := w.st.tickets[id];
    && w'.kept == w.kept + (if t.kind == DestructiveMutation then SetOf(t.roles) - freed else {})
    && w'.live == Without(w.live, id) && w'.open == w.open - {id} && w'.waiting == w.waiting
    && w'.st.versions == w.st.versions && w'.st.shuttingDown == w.st.shuttingDown
    && w'.st.blocked == w.st.blocked - freed && w'.grants == w.grants
  }

  /**
   * Which finishes are accepted and what they free: a completion nothing, a completion with retained
   * roles all others of a destructive lease, an abort all of them; what is refused changes nothing.
   */
  lemma FinishAnswers(w: World, id: Id, retained: seq<Role>)
    requires Inv(w) && id !in w.waiting
    ensures CompleteStep(w.st, id).1 == if id in w.open then Ok(()) else Err(NotFound)
    ensures RetainStep(w.st, id, retained).1 ==
      if id !in w.open then Err(NotFound)
      else if w.st.tickets[id].kind != DestructiveMutation then Err(KindInvalid)
      else Ok(())
    ensures AbortStep(w.st, id).1 == if id in w.open then Ok(()) else Err(NotFound)
  {
  }

  lemma FinishFrees(w: World, id: Id, retained: seq<Role>)
    requires Inv(w) && id in w.open
    ensures var roles := SetOf(w.st.tickets[id].roles);
      && Ended(w, id, {}, Next(w, Complete(id)))
      && (if w.st.tickets[id].kind == DestructiveMutation
          then Ended(w, id, roles - SetOf(retained), Next(w, CompleteRetaining(id, retained)))
          else Next(w, CompleteRetaining(id, retained)) == w)
      && Ended(w, id, if w.st.tickets[id].kind == DestructiveMutation then roles else {}, Next(w, Abort(id)))
  {
  }

  // ---- Shutdown ----------------------------------------------------------------------------

  lemma {:induction false} ShutdownSince(w: World, events: seq<Event>)
    requires ValidRun(w, events)
    ensures After(w, events).st.shuttingDown <==> w.st.shuttingDown || BeginShutdown in events
    decreases |events|
  {
    if events != [] {
      ShutdownStepwise(w, events[0]);
      ShutdownSince(Next(w, events[0]), events[1..]);
      assert events == [events[0]] + events[1..];
    }
  }

  lemma PollKeepsShutdown(s: State, id: Id, kind: Kind, roles: seq<Role>)
    ensures Poll(s, id, kind, roles).0.shuttingDown == s.shuttingDown
  {
  }

  lemma ShutdownStepwise(w: World, e: Event)
    requires Allowed(w, e)
    ensures Next(w, e).st.shuttingDown <==> w.st.shuttingDown || e == BeginShutdown
  {
    NextRefinesCoordinator(w, e);
    match e
    case Arrive(id, kindText, requested) =>
      if ParseKind(kindText).Some? {
        PollKeepsShutdown(Enqueue(w.st, id, ParseKind(kindText).value, NormalizeRoles(requested)), id,
          ParseKind(kindText).value, NormalizeRoles(requested));
      }
    case Wake(id) => PollKeepsShutdown(w.st, id, w.waiting[id].kind, w.waiting[id].roles);
    case _ =>
  }

  /** A shutdown is begun by its event and never undone, and it answers whether no ticket was live. */
  lemma ShutdownIsRemembered(events: seq<Event>)
    requires ValidRun(Start, events)
    ensures After(Start, events).st.shuttingDown <==> BeginShutdown in events
    ensures ShutdownStep(After(Start, events).st).1 <==> After(Start, events).live == []
  {
    ShutdownSince(Start, events);
    ReachableInv(events);
    var w := After(Start, events);
    if w.live != [] { assert w.live[0] in w.live; }
    if w.st.tickets != map[] {
      var id :| id in w.st.tickets;
      assert id in w.live;
    }
  }
}
