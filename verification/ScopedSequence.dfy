/**
 * The scoped sequence: the second design for ordering overlapping work, with one pending list
 * and one set of active scopes. A permit is the lease; dropping it is the release.
 */
module ScopedSequence {
  import opened Sequences

  type Scope = string

  datatype Pending = Pending(ticket: nat, scopes: set<Scope>)

  datatype State = State(next: nat, active: set<Scope>, pending: seq<Pending>)

  const Initial := State(0, {}, [])

  datatype Decision = ScopeRequired | Waiting | Granted

  /** `take_while(id != ticket).any(overlap)`: a request queued before `ticket` overlaps it. */
  predicate PriorOverlap(pending: seq<Pending>, ticket: nat, scopes: set<Scope>) {
    exists i | 0 <= i < |pending| ::
      (forall j | 0 <= j <= i :: pending[j].ticket != ticket) && pending[i].scopes * scopes != {}
  }

  predicate Blocked(s: State, ticket: nat, scopes: set<Scope>) {
    s.active * scopes != {} || PriorOverlap(s.pending, ticket, scopes)
  }

  /** `pending.retain(|(id, _)| *id != ticket)` */
  function Retain(pending: seq<Pending>, ticket: nat): seq<Pending> {
    if pending == [] then []
    else
      var last := pending[|pending| - 1];
      Retain(pending[..|pending| - 1], ticket) + (if last.ticket == ticket then [] else [last])
  }

  function Recheck(s: State, ticket: nat, scopes: set<Scope>): (State, Decision) {
    if Blocked(s, ticket, scopes) then (s, Waiting)
    else (s.(pending := Retain(s.pending, ticket), active := s.active + scopes), Granted)
  }

  function Queued(s: State, scopes: set<Scope>): State {
    s.(next := s.next + 1, pending := s.pending + [Pending(s.next, scopes)])
  }

  function Acquire(s: State, scopes: seq<Scope>): (State, Decision) {
    if SetOf(scopes) == {} then (s, ScopeRequired)
    else Recheck(Queued(s, SetOf(scopes)), s.next, SetOf(scopes))
  }

  function Release(s: State, scopes: set<Scope>): State {
    s.(active := s.active - scopes)
  }

  class RuntimeScopedSequence {
    var next: nat
    var active: set<Scope>
    var pending: seq<Pending>

    function St(): State
      reads this
    {
      State(next, active, pending)
    }

    constructor ()
      ensures St() == Initial
    {
      next, active, pending := 0, {}, [];
    }

    /** One pass of the wait loop by the thread holding `ticket`. */
    method Pass(ticket: nat, scopes: set<Scope>) returns (d: Decision)
      modifies this
      ensures (St(), d) == Recheck(old(St()), ticket, scopes)
    {
      var blocked := active * scopes != {};
      var i := 0;
      while !blocked && i < |pending| && pending[i].ticket != ticket
        invariant 0 <= i <= |pending|
        invariant St() == old(St())
        invariant forall j | 0 <= j < i :: pending[j].ticket != ticket
        invariant blocked ==> Blocked(St(), ticket, scopes)
        invariant !blocked ==> active * scopes == {} && forall j | 0 <= j < i :: pending[j].scopes * scopes == {}
        decreases |pending| - i, !blocked
      {
        if pending[i].scopes * scopes != {} {
          blocked := true;
        } else {
          i := i + 1;
        }
      }
      if blocked { return Waiting; }
      pending := Retain(pending, ticket);
      active := active + scopes;
      return Granted;
    }

    /** Ticket issue and the first pass, one critical section. */
    method Request(requested: seq<Scope>) returns (d: Decision)
      modifies this
      ensures (St(), d) == Acquire(old(St()), requested)
    {
      var scopes := SetOf(requested);
      if scopes == {} { return ScopeRequired; }
      var ticket := next;
      next := next + 1;
      pending := pending + [Pending(ticket, scopes)];
      d := Pass(ticket, scopes);
    }

    method DropPermit(scopes: set<Scope>)
      modifies this
      ensures St() == Release(old(St()), scopes)
    {
      active := active - scopes;
    }
  }

  // ---- Runs --------------------------------------------------------------------------------

  datatype Permit = Permit(ticket: nat, scopes: set<Scope>)

  datatype World = World(st: State, open: map<nat, set<Scope>>, grants: seq<Permit>)

  const Start := World(Initial, map[], [])

  function PendingAt(pending: seq<Pending>, ticket: nat): set<Scope> {
    if pending == [] then {}
    else if pending[|pending| - 1].ticket == ticket then pending[|pending| - 1].scopes
    else PendingAt(pending[..|pending| - 1], ticket)
  }

  function Settled(w: World, ticket: nat, scopes: set<Scope>): World {
    var (st, d) := Recheck(w.st, ticket, scopes);
    if d.Granted? then World(st, w.open[ticket := scopes], w.grants + [Permit(ticket, scopes)])
    else w.(st := st)
  }

  function Requested(w: World, scopes: seq<Scope>): World {
    if SetOf(scopes) == {} then w
    else Settled(w.(st := Queued(w.st, SetOf(scopes))), w.st.next, SetOf(scopes))
  }

  function Dropped(w: World, ticket: nat): World
    requires ticket in w.open
  {
    w.(st := Release(w.st, w.open[ticket]), open := w.open - {ticket})
  }
}
