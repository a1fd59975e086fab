/**
 * "Woken later" is enough: the coordinator signals its condition variable whenever a step could
 * help a waiter, so no wake-up is lost.
 */
module WakeUps {
  import opened BrowserOperations
  import opened BrowserOperationRuns
  import ServiceOrder

  /** The steps after which `notify_all` is called: refusals, finishes and the start of a shutdown. */
  predicate Signals(w: World, e: Event)
    requires Allowed(w, e)
  {
    match e
    case Arrive(id, kindText, requested) =>
      ServiceOrder.Registers(w, e) &&
      var entered := Registered(w, id, ParseKind(kindText).value, NormalizeRoles(requested));
      DecisionOf(entered, id).Refused?
    case Wake(id) => DecisionOf(w, id).Refused?
    case Complete(id) => CompleteStep(w.st, id).1.Ok?
    case CompleteRetaining(id, retained) => RetainStep(w.st, id, retained).1.Ok?
    case Abort(id) => AbortStep(w.st, id).1.Ok?
    case BeginShutdown => true
  }

  /** Who has been signalled since last looking. */
  function SignalledAfter(w: World, signalled: set<Id>, e: Event): set<Id>
    requires Allowed(w, e)
  {
    if Signals(w, e) then Next(w, e).waiting.Keys
    else if e.Wake? then signalled - {e.id}
    else signalled
  }

  function Signalled(w: World, signalled: set<Id>, events: seq<Event>): set<Id>
    requires ValidRun(w, events)
    decreases |events|
  {
    if events == [] then signalled
    else Signalled(Next(w, events[0]), SignalledAfter(w, signalled, events[0]), events[1..])
  }

  /** A wake-up of `id` would be in vain. */
  predicate InVain(w: World, id: Id)
    requires id in w.waiting
  {
    DecisionOf(w, id) == Waiting
  }

  /** Another's pass that refuses nobody changes no queue. */
  lemma PassKeepsVain(w: World, other: Id, id: Id)
    requires other in w.waiting && id in w.waiting && other != id && InVain(w, id)
    requires !DecisionOf(w, other).Refused?
    ensures id in Polled(w, other).waiting && InVain(Polled(w, other), id)
  {
  }

  /** A new ticket goes behind those already queued. */
  lemma RegisteredKeepsVain(w: World, other: Id, kind: Kind, roles: seq<Role>, id: Id)
    requires Inv(w) && other !in w.used && id in w.waiting && InVain(w, id)
    ensures id in Registered(w, other, kind, roles).waiting && InVain(Registered(w, other, kind, roles), id)
  {
    var w' := Registered(w, other, kind, roles);
    var r :| r in w.waiting[id].roles && !(r in w.st.queues && w.st.queues[r] != [] && w.st.queues[r][0] == id);
    assert Names(w.st.tickets, id, r) && id in w.live;
    assert Queue(w.st.queues, r) == Naming(w.st.tickets, w.live, r);
    NamingElements(w.st.tickets, w.live, r);
    assert w.st.queues[r] != [];
    assert w'.st.queues[r][0] == w.st.queues[r][0];
  }

  /** Only a step that signals turns another waiter's wake-up from vain into one with an effect. */
  lemma OnlySignalsHelp(w: World, e: Event, id: Id)
    requires Inv(w) && Allowed(w, e) && !Signals(w, e) && id in w.waiting && InVain(w, id)
    ensures id in Next(w, e).waiting && InVain(Next(w, e), id)
  {
    match e
    case Arrive(other, kindText, requested) =>
      if ServiceOrder.Registers(w, e) {
        var kind, roles := ParseKind(kindText).value, NormalizeRoles(requested);
        RegisteredKeepsVain(w, other, kind, roles, id);
        PassKeepsVain(Registered(w, other, kind, roles), other, id);
      }
    case Wake(other) =>
      if other != id { PassKeepsVain(w, other, id); }
    case _ =>
  }

  /** A thread that still waits after its own pass has looked in vain. */
  lemma LookedInVain(w: World, id: Id)
    requires id in w.waiting && id in Polled(w, id).waiting
    ensures InVain(Polled(w, id), id)
  {
  }

  lemma EnteredInVain(w: World, e: Event)
    requires Inv(w) && Allowed(w, e) && e.Arrive? && e.id in Next(w, e).waiting
    ensures InVain(Next(w, e), e.id)
  {
    if ServiceOrder.Registers(w, e) {
      LookedInVain(Registered(w, e.id, ParseKind(e.kindText).value, NormalizeRoles(e.requested)), e.id);
    }
  }

  ghost predicate NobodyForgotten(w: World, signalled: set<Id>) {
    forall id | id in w.waiting :: id in signalled || InVain(w, id)
  }

  lemma NextForgetsNobody(w: World, signalled: set<Id>, e: Event)
    requires Inv(w) && Allowed(w, e) && NobodyForgotten(w, signalled)
    ensures NobodyForgotten(Next(w, e), SignalledAfter(w, signalled, e))
  {
    var w' := Next(w, e);
    if !Signals(w, e) {
      forall id | id in w'.waiting ensures id in SignalledAfter(w, signalled, e) || InVain(w', id) {
        if e.Arrive? && id == e.id {
          EnteredInVain(w, e);
        } else if e.Wake? && id == e.id {
          LookedInVain(w, id);
        } else {
          StillWaiting(w, e, id);
          if id !in signalled { OnlySignalsHelp(w, e, id); }
        }
      }
    }
  }

  lemma PassAdmitsNobody(w: World, other: Id)
    requires other in w.waiting
    ensures Polled(w, other).waiting.Keys <= w.waiting.Keys
  {
  }

  /** Whoever waits after a step waited before it, or has just arrived. */
  lemma StillWaiting(w: World, e: Event, id: Id)
    requires Allowed(w, e) && id in Next(w, e).waiting && !(e.Arrive? && id == e.id)
    ensures id in w.waiting
  {
    match e
    case Arrive(other, kindText, requested) =>
      if ServiceOrder.Registers(w, e) {
        PassAdmitsNobody(Registered(w, other, ParseKind(kindText).value, NormalizeRoles(requested)), other);
      }
    case Wake(other) => PassAdmitsNobody(w, other);
    case _ =>
  }

  lemma {:induction false} RunForgetsNobody(w: World, signalled: set<Id>, events: seq<Event>)
    requires Inv(w) && ValidRun(w, events) && NobodyForgotten(w, signalled)
    ensures NobodyForgotten(After(w, events), Signalled(w, signalled, events))
    decreases |events|
  {
    if events != [] {
      NextForgetsNobody(w, signalled, events[0]);
      NextInv(w, events[0]);
      RunForgetsNobody(Next(w, events[0]), SignalledAfter(w, signalled, events[0]), events[1..]);
    }
  }

  /**
   * Main result: no lost wake-up. In every run a waiter whose wake-up would have an effect has been
   * signalled since it last looked, though grants and arrivals signal nobody.
   */
  lemma NoLostWakeUps(events: seq<Event>, id: Id)
    requires ValidRun(Start, events) && id in After(Start, events).waiting
    requires DecisionOf(After(Start, events), id) != Waiting
    ensures id in Signalled(Start, {}, events)
  {
    StartInv();
    RunForgetsNobody(Start, {}, events);
  }
}
