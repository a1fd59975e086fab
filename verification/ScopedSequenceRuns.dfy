/** Every run of the scoped sequence, on any scopes: exclusion, order of service, and wake-ups. */
module ScopedSequenceRuns {
  import opened Sequences
  import opened ScopedSequence

  datatype Event = Ask(scopes: seq<Scope>) | Wake(ticket: nat) | Drop(ticket: nat)

  predicate IsPending(w: World, ticket: nat) {
    exists p | p in w.st.pending :: p.ticket == ticket
  }

  /** Anything may be asked for; pending threads wake, with or without a signal; open permits drop. */
  predicate Allowed(w: World, e: Event) {
    match e
    case Ask(_) => true
    case Wake(ticket) => IsPending(w, ticket)
    case Drop(ticket) => ticket in w.open
  }

  function Next(w: World, e: Event): World
    requires Allowed(w, e)
  {
    match e
    case Ask(scopes) => Requested(w, scopes)
    case Wake(ticket) => Settled(w, ticket, PendingAt(w.st.pending, ticket))
    case Drop(ticket) => Dropped(w, ticket)
  }

  ghost predicate ValidRun(w: World, events: seq<Event>)
    decreases |events|
  {
    events == [] || (Allowed(w, events[0]) && ValidRun(Next(w, events[0]), events[1..]))
  }

  function After(w: World, events: seq<Event>): World
    requires ValidRun(w, events)
    decreases |events|
  {
    if events == [] then w else After(Next(w, events[0]), events[1..])
  }

  // ---- The pending list --------------------------------------------------------------------

  ghost predicate Increasing(pending: seq<Pending>) {
    forall i, j | 0 <= i < j < |pending| :: pending[i].ticket < pending[j].ticket
  }

  lemma {:induction false} RetainElements(pending: seq<Pending>, ticket: nat)
    ensures forall p :: p in Retain(pending, ticket) <==> p in pending && p.ticket != ticket
  {
    if pending != [] {
      var front, last := pending[..|pending| - 1], pending[|pending| - 1];
      RetainElements(front, ticket);
      assert pending == front + [last];
    }
  }

  lemma {:induction false} RetainIncreasing(pending: seq<Pending>, ticket: nat)
    requires Increasing(pending)
    ensures Increasing(Retain(pending, ticket))
  {
    if pending != [] {
      var front := pending[..|pending| - 1];
      RetainIncreasing(front, ticket);
      RetainElements(front, ticket);
      var kept := Retain(front, ticket);
      forall i | 0 <= i < |kept| ensures kept[i].ticket < pending[|pending| - 1].ticket {
        assert kept[i] in kept;
      }
    }
  }

  lemma {:induction false} PendingAtIs(pending: seq<Pending>, p: Pending)
    requires Increasing(pending) && p in pending
    ensures PendingAt(pending, p.ticket) == p.scopes
  {
    var front, last := pending[..|pending| - 1], pending[|pending| - 1];
    assert pending == front + [last];
    if p != last {
      var i :| 0 <= i < |front| && front[i] == p;
      assert pending[i].ticket < last.ticket;
      PendingAtIs(front, p);
    }
  }

  /** What an entry is blocked by, without positions: active scopes and older entries. */
  lemma BlockedIff(s: State, p: Pending)
    requires Increasing(s.pending) && p in s.pending
    ensures Blocked(s, p.ticket, p.scopes) <==>
      s.active * p.scopes != {} || exists q | q in s.pending :: q.ticket < p.ticket && q.scopes * p.scopes != {}
  {
    var k :| 0 <= k < |s.pending| && s.pending[k] == p;
    if PriorOverlap(s.pending, p.ticket, p.scopes) {
      var i :| 0 <= i < |s.pending| && (forall j | 0 <= j <= i :: s.pending[j].ticket != p.ticket)
        && s.pending[i].scopes * p.scopes != {};
      assert s.pending[k].ticket == p.ticket;
      assert s.pending[i] in s.pending;
    }
    if q :| q in s.pending && q.ticket < p.ticket && q.scopes * p.scopes != {} {
      var i :| 0 <= i < |s.pending| && s.pending[i] == q;
      assert i < k;
      assert forall j | 0 <= j <= i :: s.pending[j].ticket < s.pending[k].ticket;
    }
  }

  // ---- The invariant -----------------------------------------------------------------------

  ghost predicate TicketsOk(w: World) {
    && Increasing(w.st.pending)
    && (forall p | p in w.st.pending :: p.ticket < w.st.next && p.ticket !in w.open)
    && (forall t | t in w.open :: t < w.st.next)
    && (forall g | g in w.grants :: g.ticket < w.st.next)
  }

  /** Open permits share no scope, and the active scopes are theirs. */
  ghost predicate PermitsOk(w: World) {
    && (forall x :: x in w.st.active <==> exists t :: t in w.open && x in w.open[t])
    && (forall t, u | t in w.open && u in w.open && t != u :: w.open[t] !! w.open[u])
  }

  /** Overlapping requests are granted by ticket, and what waits is younger than the grants it overlaps. */
  ghost predicate GrantsOk(w: World) {
    && (forall k, l | 0 <= k < l < |w.grants| && w.grants[k].scopes * w.grants[l].scopes != {} ::
          w.grants[k].ticket < w.grants[l].ticket)
    && (forall g, p | g in w.grants && p in w.st.pending && g.scopes * p.scopes != {} :: g.ticket < p.ticket)
  }

  ghost predicate Inv(w: World) {
    TicketsOk(w) && PermitsOk(w) && GrantsOk(w)
  }

  /** The permit granted to a pending entry. */
  function Granting(w: World, p: Pending): World {
    World(
      w.st.(pending := Retain(w.st.pending, p.ticket), active := w.st.active + p.scopes),
      w.open[p.ticket := p.scopes], w.grants + [Permit(p.ticket, p.scopes)])
  }

  lemma GrantKeepsTickets(w: World, p: Pending)
    requires TicketsOk(w) && p in w.st.pending
    ensures TicketsOk(Granting(w, p))
  {
    RetainElements(w.st.pending, p.ticket);
    RetainIncreasing(w.st.pending, p.ticket);
  }

  lemma GrantKeepsPermits(w: World, p: Pending)
    requires PermitsOk(w) && p.ticket !in w.open && w.st.active * p.scopes == {}
    ensures PermitsOk(Granting(w, p))
  {
    var w' := Granting(w, p);
    forall x ensures x in w'.st.active <==> exists t :: t in w'.open && x in w'.open[t] {
      if x in p.scopes {
        assert p.ticket in w'.open && x in w'.open[p.ticket];
      } else if x in w.st.active {
        var t :| t in w.open && x in w.open[t];
        assert t in w'.open && x in w'.open[t];
      }
    }
    forall t | t in w.open ensures w.open[t] !! p.scopes {
      forall x | x in w.open[t] ensures x !in p.scopes {
        assert x in w.st.active && x !in w.st.active * p.scopes;
      }
    }
  }

  lemma GrantKeepsOrder(w: World, p: Pending)
    requires TicketsOk(w) && GrantsOk(w) && p in w.st.pending && !Blocked(w.st, p.ticket, p.scopes)
    ensures GrantsOk(Granting(w, p))
  {
    var w' := Granting(w, p);
    RetainElements(w.st.pending, p.ticket);
    BlockedIff(w.st, p);
    forall k, l | 0 <= k < l < |w'.grants| && w'.grants[k].scopes * w'.grants[l].scopes != {}
      ensures w'.grants[k].ticket < w'.grants[l].ticket
    {
      assert w'.grants[k] == w.grants[k] && w.grants[k] in w.grants;
      if l < |w.grants| { assert w'.grants[l] == w.grants[l]; }
    }
  }

  lemma SettledInv(w: World, p: Pending)
    requires Inv(w) && p in w.st.pending
    ensures Inv(Settled(w, p.ticket, p.scopes))
  {
    if !Blocked(w.st, p.ticket, p.scopes) {
      assert Settled(w, p.ticket, p.scopes) == Granting(w, p);
      GrantKeepsTickets(w, p);
      GrantKeepsPermits(w, p);
      GrantKeepsOrder(w, p);
    }
  }

  lemma QueuedInv(w: World, scopes: set<Scope>)
    requires Inv(w)
    ensures Inv(w.(st := Queued(w.st, scopes))) && Pending(w.st.next, scopes) in Queued(w.st, scopes).pending
  {
  }

  lemma DroppedInv(w: World, ticket: nat)
    requires Inv(w) && ticket in w.open
    ensures Inv(Dropped(w, ticket))
  {
    var w' := Dropped(w, ticket);
    forall x ensures x in w'.st.active <==> exists t :: t in w'.open && x in w'.open[t] {
      if x in w'.st.active {
        var t :| t in w.open && x in w.open[t];
        assert t in w'.open && x in w'.open[t];
      }
      if t :| t in w'.open && x in w'.open[t] {
        assert t in w.open && x in w.open[t];
      }
    }
  }

  lemma NextInv(w: World, e: Event)
    requires Inv(w) && Allowed(w, e)
    ensures Inv(Next(w, e))
  {
    match e
    case Ask(scopes) =>
      if SetOf(scopes) != {} {
        QueuedInv(w, SetOf(scopes));
        SettledInv(w.(st := Queued(w.st, SetOf(scopes))), Pending(w.st.next, SetOf(scopes)));
      }
    case Wake(ticket) =>
      var p :| p in w.st.pending && p.ticket == ticket;
      PendingAtIs(w.st.pending, p);
      SettledInv(w, p);
    case Drop(ticket) => DroppedInv(w, ticket);
  }

  lemma {:induction false} RunInv(w: World, events: seq<Event>)
    requires Inv(w) && ValidRun(w, events)
    ensures Inv(After(w, events))
    decreases |events|
  {
    if events != [] {
      NextInv(w, events[0]);
      RunInv(Next(w, events[0]), events[1..]);
    }
  }

  // ---- Main results ------------------------------------------------------------------------

  /** In every run open permits share no scope, and the active scopes are exactly theirs. */
  lemma PermitsAreExclusive(events: seq<Event>)
    requires ValidRun(Start, events)
    ensures PermitsOk(After(Start, events))
  {
    RunInv(Start, events);
  }

  /** Main result: in every run the sequence grants overlapping requests in ticket order. */
  lemma SequenceServesInTicketOrder(events: seq<Event>, k: nat, l: nat)
    requires ValidRun(Start, events)
    requires
      var grants := After(Start, events).grants;
      k < l < |grants| && grants[k].scopes * grants[l].scopes != {}
    ensures
      var grants := After(Start, events).grants;
      grants[k].ticket < grants[l].ticket
  {
    RunInv(Start, events);
  }

  /** Dropping a permit frees its own scopes and no other permit's. */
  lemma DropFreesOnlyItsScopes(w: World, ticket: nat)
    requires Inv(w) && ticket in w.open
    ensures Dropped(w, ticket).st.active == set t, x | t in w.open && t != ticket && x in w.open[t] :: x
    ensures w.open[ticket] !! Dropped(w, ticket).st.active
  {
    forall t, x | t in w.open && t != ticket && x in w.open[t] ensures x in Dropped(w, ticket).st.active {
      assert x in w.st.active;
    }
  }

  /** No deadlock: with requests pending and no permit open, the oldest request is granted. */
  lemma OldestProceeds(w: World)
    requires Inv(w) && w.st.pending != [] && w.open == map[]
    ensures
      var p := w.st.pending[0];
      Settled(w, p.ticket, p.scopes) == Granting(w, p)
  {
    assert forall x :: x !in w.st.active;
  }

  // ---- What a thread is answered -----------------------------------------------------------

  /** An open permit holds one of the scopes. */
  ghost predicate HeldOpen(w: World, scopes: set<Scope>) {
    exists t :: t in w.open && w.open[t] * scopes != {}
  }

  /** An older pending request names one of the scopes. */
  ghost predicate AskedBefore(w: World, ticket: nat, scopes: set<Scope>) {
    exists q :: q in w.st.pending && q.ticket < ticket && q.scopes * scopes != {}
  }

  lemma ActiveIffHeldOpen(w: World, scopes: set<Scope>)
    requires PermitsOk(w)
    ensures w.st.active * scopes != {} <==> HeldOpen(w, scopes)
  {
    if x :| x in w.st.active * scopes {
      var t :| t in w.open && x in w.open[t];
      assert x in w.open[t] * scopes;
    }
    if t :| t in w.open && w.open[t] * scopes != {} {
      var x :| x in w.open[t] * scopes;
      assert x in w.st.active * scopes;
    }
  }

  /**
   * Main result: a pass waits exactly while an open permit or an older request shares a scope, and
   * otherwise opens a permit for all its scopes.
   */
  lemma PassAnswers(w: World, p: Pending)
    requires Inv(w) && p in w.st.pending
    ensures var (s', d) := Recheck(w.st, p.ticket, p.scopes);
      if HeldOpen(w, p.scopes) || AskedBefore(w, p.ticket, p.scopes) then d == Waiting && s' == w.st
      else
        && d == Granted && s'.active == w.st.active + p.scopes && s'.next == w.st.next
        && forall q :: q in s'.pending <==> q in w.st.pending && q.ticket != p.ticket
  {
    BlockedIff(w.st, p);
    ActiveIffHeldOpen(w, p.scopes);
    RetainElements(w.st.pending, p.ticket);
  }

  /**
   * A new request without scopes is refused; another one is granted at once exactly when no open
   * permit and no pending request shares a scope, and is otherwise queued last under a new ticket.
   */
  lemma AskAnswers(w: World, scopes: seq<Scope>)
    requires Inv(w)
    ensures var (s', d) := Acquire(w.st, scopes);
      if scopes == [] then d == ScopeRequired && s' == w.st
      else
        && s'.next == w.st.next + 1
        && if HeldOpen(w, SetOf(scopes)) || AskedBefore(w, w.st.next, SetOf(scopes)) then
             d == Waiting && s'.active == w.st.active
             && s'.pending == w.st.pending + [Pending(w.st.next, SetOf(scopes))]
           else
             d == Granted && s'.active == w.st.active + SetOf(scopes)
             && forall q :: q in s'.pending <==> q in w.st.pending
  {
    if scopes != [] {
      assert scopes[0] in SetOf(scopes);
      var queued := w.(st := Queued(w.st, SetOf(scopes)));
      QueuedInv(w, SetOf(scopes));
      PassAnswers(queued, Pending(w.st.next, SetOf(scopes)));
      QueuedAsksAlike(w, SetOf(scopes));
    }
  }

  lemma QueuedAsksAlike(w: World, scopes: set<Scope>)
    requires Inv(w)
    ensures var queued := w.(st := Queued(w.st, scopes));
      && (HeldOpen(queued, scopes) <==> HeldOpen(w, scopes))
      && (AskedBefore(queued, w.st.next, scopes) <==> AskedBefore(w, w.st.next, scopes))
  {
    var queued := w.(st := Queued(w.st, scopes));
    if q :| q in w.st.pending && q.ticket < w.st.next && q.scopes * scopes != {} { assert q in queued.st.pending; }
    if q :| q in queued.st.pending && q.ticket < w.st.next && q.scopes * scopes != {} { assert q in w.st.pending; }
  }

  // ---- Wake-ups ----------------------------------------------------------------------------

  /** A wake-up of the thread holding `p` would be in vain. */
  predicate InVain(w: World, p: Pending) {
    Blocked(w.st, p.ticket, p.scopes)
  }

  function Tickets(pending: seq<Pending>): set<nat> {
    set p | p in pending :: p.ticket
  }

  /** Who has been signalled since last looking: `notify_all` is called when a permit drops. */
  function SignalledAfter(w: World, signalled: set<nat>, e: Event): set<nat>
    requires Allowed(w, e)
  {
    match e
    case Ask(_) => signalled
    case Wake(ticket) => signalled - {ticket}
    case Drop(_) => Tickets(w.st.pending)
  }

  function Signalled(w: World, signalled: set<nat>, events: seq<Event>): set<nat>
    requires ValidRun(w, events)
    decreases |events|
  {
    if events == [] then signalled
    else Signalled(Next(w, events[0]), SignalledAfter(w, signalled, events[0]), events[1..])
  }

  ghost predicate NobodyForgotten(w: World, signalled: set<nat>) {
    forall p | p in w.st.pending :: p.ticket in signalled || InVain(w, p)
  }

  /** A grant leaves every other vain wake-up vain: what was pending before is active now. */
  lemma GrantKeepsVain(w: World, p: Pending, q: Pending)
    requires TicketsOk(w) && p in w.st.pending && q in w.st.pending && p.ticket != q.ticket && InVain(w, q)
    ensures InVain(Granting(w, p), q)
  {
    RetainElements(w.st.pending, p.ticket);
    RetainIncreasing(w.st.pending, p.ticket);
    BlockedIff(w.st, q);
    BlockedIff(Granting(w, p).st, q);
    if o :| o in w.st.pending && o.ticket < q.ticket && o.scopes * q.scopes != {} {
      if o.ticket == p.ticket {
        SameTicket(w.st.pending, o, p);
        var x :| x in o.scopes * q.scopes;
        assert x in Granting(w, p).st.active * q.scopes;
      } else {
        assert o in Granting(w, p).st.pending;
      }
    }
    if w.st.active * q.scopes != {} {
      var x :| x in w.st.active * q.scopes;
      assert x in Granting(w, p).st.active * q.scopes;
    }
  }

  lemma SameTicket(pending: seq<Pending>, a: Pending, b: Pending)
    requires Increasing(pending) && a in pending && b in pending && a.ticket == b.ticket
    ensures a == b
  {
  }

  /** One pass of one thread: the others are no better off, and it has looked. */
  lemma SettledForgetsNobody(w: World, p: Pending, signalled: set<nat>)
    requires Inv(w) && p in w.st.pending
    requires forall q | q in w.st.pending && q.ticket != p.ticket :: q.ticket in signalled || InVain(w, q)
    ensures NobodyForgotten(Settled(w, p.ticket, p.scopes), signalled - {p.ticket})
  {
    var w' := Settled(w, p.ticket, p.scopes);
    forall q | q in w'.st.pending ensures q.ticket in signalled - {p.ticket} || InVain(w', q) {
      if Blocked(w.st, p.ticket, p.scopes) {
        if q.ticket == p.ticket { SameTicket(w.st.pending, q, p); }
      } else {
        RetainElements(w.st.pending, p.ticket);
        if q.ticket !in signalled { GrantKeepsVain(w, p, q); }
      }
    }
  }

  lemma QueuedKeepsVain(w: World, scopes: set<Scope>, q: Pending)
    requires Inv(w) && q in w.st.pending && InVain(w, q)
    ensures InVain(w.(st := Queued(w.st, scopes)), q)
  {
    QueuedInv(w, scopes);
    BlockedIff(w.st, q);
    BlockedIff(Queued(w.st, scopes), q);
    if o :| o in w.st.pending && o.ticket < q.ticket && o.scopes * q.scopes != {} {
      assert o in Queued(w.st, scopes).pending;
    }
  }

  lemma AskForgetsNobody(w: World, scopes: set<Scope>, signalled: set<nat>)
    requires Inv(w) && NobodyForgotten(w, signalled) && w.st.next !in signalled
    ensures
      NobodyForgotten(Settled(w.(st := Queued(w.st, scopes)), w.st.next, scopes), signalled)
  {
    QueuedInv(w, scopes);
    var queued := w.(st := Queued(w.st, scopes));
    forall q | q in queued.st.pending && q.ticket != w.st.next ensures q.ticket in signalled || InVain(queued, q) {
      assert q in w.st.pending;
      if q.ticket !in signalled { QueuedKeepsVain(w, scopes, q); }
    }
    SettledForgetsNobody(queued, Pending(w.st.next, scopes), signalled);
    assert signalled - {w.st.next} == signalled;
  }

  ghost predicate KnownTickets(w: World, signalled: set<nat>) {
    forall t | t in signalled :: t < w.st.next
  }

  lemma NextForgetsNobody(w: World, signalled: set<nat>, e: Event)
    requires Inv(w) && Allowed(w, e) && NobodyForgotten(w, signalled) && KnownTickets(w, signalled)
    ensures NobodyForgotten(Next(w, e), SignalledAfter(w, signalled, e))
    ensures KnownTickets(Next(w, e), SignalledAfter(w, signalled, e))
  {
    match e
    case Ask(scopes) =>
      if SetOf(scopes) != {} { AskForgetsNobody(w, SetOf(scopes), signalled); }
    case Wake(ticket) =>
      var p :| p in w.st.pending && p.ticket == ticket;
      PendingAtIs(w.st.pending, p);
      SettledForgetsNobody(w, p, signalled);
    case Drop(ticket) =>
      forall p | p in w.st.pending ensures p.ticket in Tickets(w.st.pending) {}
  }

  lemma {:induction false} RunForgetsNobody(w: World, signalled: set<nat>, events: seq<Event>)
    requires Inv(w) && ValidRun(w, events) && NobodyForgotten(w, signalled) && KnownTickets(w, signalled)
    ensures NobodyForgotten(After(w, events), Signalled(w, signalled, events))
    decreases |events|
  {
    if events != [] {
      NextForgetsNobody(w, signalled, events[0]);
      NextInv(w, events[0]);
      RunForgetsNobody(Next(w, events[0]), SignalledAfter(w, signalled, events[0]), events[1..]);
    }
  }

  /**
   * Main result: no lost wake-up. In every run a pending request that would be granted on waking
   * has been signalled since it last looked, though grants and arrivals signal nobody.
   */
  lemma NoLostWakeUps(events: seq<Event>, p: Pending)
    requires ValidRun(Start, events) && p in After(Start, events).st.pending
    requires !Blocked(After(Start, events).st, p.ticket, p.scopes)
    ensures p.ticket in Signalled(Start, {}, events)
  {
    RunForgetsNobody(Start, {}, events);
  }
}
