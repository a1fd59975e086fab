/**
 * The monotonic wait scheduler: a heap of deadlines that keeps entries of replaced and cancelled
 * waits until they come up, beside the map of pending waits. Instants are naturals; each reading of
 * the clock is a parameter.
 */
module Scheduler {
  import opened Outcomes
  import opened Sequences
  import opened Text

  const MAX_WAIT_MS: nat := 24 * 60 * 60 * 1000
  const IDLE_TIMEOUT: nat := 60 * 1000

  /** A heap entry; the heap yields the least by deadline, then generation. */
  datatype Entry = Entry(deadline: nat, generation: nat, id: string)
  datatype Pending = Pending(generation: nat, token: nat)

  datatype Reply = Completed | WaitCancelled | ShuttingDown
  /** A reply sent on a wait's channel, and when. */
  datatype Sent = Sent(token: nat, reply: Reply, at: nat)

  predicate Earlier(a: Entry, b: Entry) {
    a.deadline < b.deadline || (a.deadline == b.deadline && a.generation < b.generation)
  }

  /** Generations tell entries apart, so the order on them is strict and total. */
  ghost predicate Distinct(heap: set<Entry>) {
    forall a, b | a in heap && b in heap && a.generation == b.generation :: a == b
  }

  ghost predicate IsLeast(e: Entry, heap: set<Entry>) {
    e in heap && forall f | f in heap && f != e :: Earlier(e, f)
  }

  lemma {:induction false} LeastExists(heap: set<Entry>) returns (e: Entry)
    requires heap != {} && Distinct(heap)
    ensures IsLeast(e, heap)
  {
    var first :| first in heap;
    e := first;
    if heap != {first} {
      var rest := heap - {first};
      var f := LeastExists(rest);
      assert f in heap && f.generation != first.generation;
      e := if Earlier(f, first) then f else first;
      forall g | g in heap && g != e ensures Earlier(e, g) {
        assert g == first || g in rest;
      }
    }
  }

  /** `schedule`'s own checks, made before the request reaches the thread. */
  predicate Accepted(id: string, durationMs: nat) {
    !IsBlank(id) && ByteLength(id) <= 200 && durationMs <= MAX_WAIT_MS
  }

  datatype State = State(
    generation: nat, deadlines: set<Entry>, pending: map<string, Pending>, sent: seq<Sent>, running: bool)

  // ---- The plain form: a map from id to its latest wait ------------------------------------

  datatype Wait = Wait(deadline: nat, generation: nat, token: nat)

  function EntryFor(id: string, w: Wait): Entry {
    Entry(w.deadline, w.generation, id)
  }

  ghost predicate DueFirst(waits: map<string, Wait>, now: nat, id: string) {
    && id in waits && waits[id].deadline <= now
    && forall other | other in waits && waits[other].deadline <= now && other != id ::
         Earlier(EntryFor(id, waits[id]), EntryFor(other, waits[other]))
  }

  /** The due waits in order of deadline, then of arrival. */
  ghost function DueIds(waits: map<string, Wait>, now: nat): (ids: seq<string>)
    ensures forall id | id in ids :: id in waits && waits[id].deadline <= now
    decreases |waits|
  {
    if id :| DueFirst(waits, now, id) then [id] + DueIds(waits - {id}, now) else []
  }

  /** The same reply to each of these waits in turn. */
  function Replies(waits: map<string, Wait>, ids: seq<string>, reply: Reply, now: nat): (replies: seq<Sent>)
    requires forall id | id in ids :: id in waits
    ensures |replies| == |ids|
    ensures forall i | 0 <= i < |ids| :: replies[i] == Sent(waits[ids[i]].token, reply, now)
  {
    seq(|ids|, i requires 0 <= i < |ids| => Sent(waits[ids[i]].token, reply, now))
  }

  ghost function DueReplies(waits: map<string, Wait>, now: nat): seq<Sent> {
    Replies(waits, DueIds(waits, now), Completed, now)
  }

  ghost function NotDue(waits: map<string, Wait>, now: nat): map<string, Wait> {
    map id | id in waits && waits[id].deadline > now :: waits[id]
  }

  /** Two waits cannot both come first. */
  lemma DueFirstUnique(waits: map<string, Wait>, now: nat, a: string, b: string)
    requires DueFirst(waits, now, a) && DueFirst(waits, now, b)
    ensures a == b
  {
  }

  lemma FirstReply(waits: map<string, Wait>, now: nat, id: string)
    requires DueFirst(waits, now, id)
    ensures DueIds(waits, now) == [id] + DueIds(waits - {id}, now)
    ensures DueReplies(waits, now) == [Sent(waits[id].token, Completed, now)] + DueReplies(waits - {id}, now)
  {
    forall other | DueFirst(waits, now, other) ensures other == id { DueFirstUnique(waits, now, other, id); }
  }

  // ---- How the heap stands for the plain form ----------------------------------------------

  ghost predicate Represents(s: State, waits: map<string, Wait>, id: string) {
    && id in waits && id in s.pending && s.pending[id] == Pending(waits[id].generation, waits[id].token)
    && EntryFor(id, waits[id]) in s.deadlines
  }

  /** Every pending wait has its entry in the heap; the other entries are stale. */
  ghost predicate Linked(s: State, waits: map<string, Wait>) {
    && Distinct(s.deadlines)
    && (forall e | e in s.deadlines :: e.generation <= s.generation)
    && waits.Keys == s.pending.Keys
    && forall id | id in s.pending :: Represents(s, waits, id)
  }

  class MonotonicScheduler {
    var generation: nat
    var deadlines: set<Entry>
    var pending: map<string, Pending>
    var sent: seq<Sent>
    var running: bool
    ghost var waits: map<string, Wait>

    constructor ()
      ensures S() == State(0, {}, map[], [], true) && waits == map[]
    {
      generation, deadlines, pending, sent, running := 0, {}, map[], [], true;
      waits := map[];
    }

    ghost function S(): State
      reads this
    {
      State(generation, deadlines, pending, sent, running)
    }

    /** The least entry of the heap. */
    method Peek() returns (least: Option<Entry>)
      requires Distinct(deadlines)
      ensures if least.Some? then IsLeast(least.value, deadlines) else deadlines == {}
    {
      if deadlines == {} {
        return None;
      }
      ghost var some := LeastExists(deadlines);
      var e :| e in deadlines && forall f | f in deadlines && f != e :: Earlier(e, f);
      return Some(e);
    }

    method Pop(e: Entry, now: nat)
      requires e in deadlines
      modifies this`deadlines, this`pending, this`sent, this`waits
      ensures S() == Popped(old(S()), e, now) && deadlines < old(deadlines)
      ensures waits == if Live(old(S()), e) then old(waits) - {e.id} else old(waits)
    {
      deadlines := deadlines - {e};
      if e.id in pending && pending[e.id].generation == e.generation {
        sent := sent + [Sent(pending[e.id].token, Completed, now)];
        pending := pending - {e.id};
        waits := waits - {e.id};
      }
    }

    /** Pops every entry that has come up; a stale one is dropped, a live one answered. */
    method ResolveExpired(now: nat)
      requires Linked(S(), waits)
      modifies this`deadlines, this`pending, this`sent, this`waits
      ensures Linked(S(), waits) && waits == NotDue(old(waits), now)
      ensures S() == Resolved(old(S()), old(waits), now)
    {
      ghost var s0, waits0 := S(), waits;
      var next := Peek();
      while next.Some? && next.value.deadline <= now
        invariant Resolving(s0, waits0, S(), waits, now)
        invariant if next.Some? then IsLeast(next.value, deadlines) else deadlines == {}
        decreases deadlines
      {
        ResolvingNext(s0, waits0, S(), waits, next.value, now);
        Pop(next.value, now);
        next := Peek();
      }
      assert forall e | e in deadlines :: e.deadline > now;
      ResolvingDone(s0, waits0, S(), waits, now);
    }

    /** Replaces an earlier wait of the same id, which is told it was cancelled. */
    method Schedule(now: nat, id: string, durationMs: nat, token: nat)
      modifies this`generation, this`deadlines, this`pending, this`sent, this`waits
      ensures S() == Scheduled(old(S()), now, id, durationMs, token)
      ensures waits == old(waits)[id := Wait(now + durationMs, generation, token)]
    {
      generation := generation + 1;
      if id in pending {
        sent := sent + [Sent(pending[id].token, WaitCancelled, now)];
        pending := pending - {id};
      }
      deadlines := deadlines + {Entry(now + durationMs, generation, id)};
      pending := pending[id := Pending(generation, token)];
      waits := waits[id := Wait(now + durationMs, generation, token)];
    }

    method Cancel(now: nat, id: string)
      modifies this`pending, this`sent, this`waits
      ensures S() == CancelledWait(old(S()), now, id)
      ensures waits == old(waits) - {id}
    {
      if id in pending {
        sent := sent + [Sent(pending[id].token, WaitCancelled, now)];
        pending := pending - {id};
      }
      waits := waits - {id};
    }

    /** Answers every pending wait, in whatever order the map yields them, and stops. */
    method Shutdown(now: nat) returns (ghost order: seq<string>)
      modifies this`pending, this`sent, this`running, this`waits
      ensures Enumerates(order, old(pending).Keys)
      ensures S() == ShutDown(old(S()), now, order) && waits == map[]
    {
      order := [];
      while pending.Keys != {}
        invariant Draining(old(S()), S(), order, now)
        decreases |pending|
      {
        var id :| id in pending;
        DrainingNext(old(S()), S(), order, id, now);
        sent := sent + [Sent(pending[id].token, ShuttingDown, now)];
        pending := pending - {id};
        order := order + [id];
      }
      Drained(old(S()), S(), order, now);
      waits := map[];
      running := false;
    }

    /** How long the thread may sleep: until the least heap entry comes up. */
    method Timeout(now: nat) returns (timeout: nat)
      requires Distinct(deadlines)
      ensures deadlines == {} ==> timeout == IDLE_TIMEOUT
      ensures deadlines != {} ==> exists e :: IsLeast(e, deadlines) && timeout == Remaining(e, now)
    {
      var least := Peek();
      return if least.Some? then Remaining(least.value, now) else IDLE_TIMEOUT;
    }
  }

  /** `saturating_duration_since` */
  function Remaining(e: Entry, now: nat): nat {
    if e.deadline <= now then 0 else e.deadline - now
  }

  function Scheduled(s: State, now: nat, id: string, durationMs: nat, token: nat): State {
    State(
      s.generation + 1,
      s.deadlines + {Entry(now + durationMs, s.generation + 1, id)},
      s.pending[id := Pending(s.generation + 1, token)],
      if id in s.pending then s.sent + [Sent(s.pending[id].token, WaitCancelled, now)] else s.sent,
      s.running)
  }

  function CancelledWait(s: State, now: nat, id: string): State {
    if id !in s.pending then s else
      s.(pending := s.pending - {id}, sent := s.sent + [Sent(s.pending[id].token, WaitCancelled, now)])
  }

  ghost predicate Enumerates(order: seq<string>, ids: set<string>) {
    NoDup(order) && forall id :: id in order <==> id in ids
  }

  function Refusals(pending: map<string, Pending>, order: seq<string>, now: nat): (replies: seq<Sent>)
    requires forall id | id in order :: id in pending
    ensures |replies| == |order|
    ensures forall i | 0 <= i < |order| :: replies[i] == Sent(pending[order[i]].token, ShuttingDown, now)
  {
    seq(|order|, i requires 0 <= i < |order| => Sent(pending[order[i]].token, ShuttingDown, now))
  }

  function ShutDown(s: State, now: nat, order: seq<string>): State
    requires forall id | id in order :: id in s.pending
  {
    s.(pending := map[], sent := s.sent + Refusals(s.pending, order, now), running := false)
  }

  ghost predicate Draining(s0: State, s: State, order: seq<string>, now: nat) {
    && NoDup(order) && (forall id | id in order :: id in s0.pending)
    && s.pending == (map id | id in s0.pending && id !in order :: s0.pending[id])
    && s == s0.(pending := s.pending, sent := s0.sent + Refusals(s0.pending, order, now))
  }

  lemma DrainingNext(s0: State, s: State, order: seq<string>, id: string, now: nat)
    requires Draining(s0, s, order, now) && id in s.pending
    ensures
      var s' := s.(pending := s.pending - {id}, sent := s.sent + [Sent(s.pending[id].token, ShuttingDown, now)]);
      Draining(s0, s', order + [id], now)
  {
    assert Refusals(s0.pending, order + [id], now) ==
      Refusals(s0.pending, order, now) + [Sent(s0.pending[id].token, ShuttingDown, now)];
  }

  lemma Drained(s0: State, s: State, order: seq<string>, now: nat)
    requires Draining(s0, s, order, now) && s.pending.Keys == {}
    ensures Enumerates(order, s0.pending.Keys) && s.(running := false) == ShutDown(s0, now, order)
  {
    assert s.pending == map[];
    forall id | id in s0.pending ensures id in order { assert id !in s.pending; }
  }

  // ---- Popping one entry -------------------------------------------------------------------

  predicate Live(s: State, e: Entry) {
    e.id in s.pending && s.pending[e.id].generation == e.generation
  }

  /** One turn of the resolving loop. */
  function Popped(s: State, e: Entry, now: nat): State {
    if Live(s, e) then
      s.(deadlines := s.deadlines - {e}, pending := s.pending - {e.id},
         sent := s.sent + [Sent(s.pending[e.id].token, Completed, now)])
    else s.(deadlines := s.deadlines - {e})
  }

  /** A stale entry stands for no wait. */
  lemma StaleEntryPopped(s: State, waits: map<string, Wait>, e: Entry, now: nat)
    requires Linked(s, waits) && e in s.deadlines && !Live(s, e)
    ensures Linked(Popped(s, e, now), waits)
  {
    forall id | id in s.pending ensures Represents(Popped(s, e, now), waits, id) { assert Represents(s, waits, id); }
  }

  lemma LiveEntryPopped(s: State, waits: map<string, Wait>, e: Entry, now: nat)
    requires Linked(s, waits) && e in s.deadlines && Live(s, e)
    ensures EntryFor(e.id, waits[e.id]) == e
    ensures Linked(Popped(s, e, now), waits - {e.id})
  {
    assert Represents(s, waits, e.id);
    var s' := Popped(s, e, now);
    forall id | id in s'.pending ensures Represents(s', waits - {e.id}, id) { assert Represents(s, waits, id); }
  }

  /** The least entry, when live and due, is the first due wait of the plain form. */
  lemma LeastIsFirst(s: State, waits: map<string, Wait>, e: Entry, now: nat)
    requires Linked(s, waits) && IsLeast(e, s.deadlines) && Live(s, e) && e.deadline <= now &&
      EntryFor(e.id, waits[e.id]) == e
    ensures DueFirst(waits, now, e.id)
  {
    forall other | other in waits && other != e.id ensures Earlier(e, EntryFor(other, waits[other])) {
      assert Represents(s, waits, other);
    }
  }

  /** What is sent so far, with what is still due, is what was due at the start. */
  ghost predicate Resolving(s0: State, waits0: map<string, Wait>, s: State, waits: map<string, Wait>, now: nat) {
    && Linked(s, waits)
    && s.generation == s0.generation && s.running == s0.running
    && s.sent + DueReplies(waits, now) == s0.sent + DueReplies(waits0, now)
    && NotDue(waits, now) == NotDue(waits0, now)
    && forall e :: e in s0.deadlines && (e.deadline > now || e in s.deadlines) <==> e in s.deadlines
  }

  lemma ResolvingNext(s0: State, waits0: map<string, Wait>, s: State, waits: map<string, Wait>, e: Entry, now: nat)
    requires Resolving(s0, waits0, s, waits, now) && IsLeast(e, s.deadlines) && e.deadline <= now
    ensures Resolving(s0, waits0, Popped(s, e, now), if Live(s, e) then waits - {e.id} else waits, now)
  {
    if Live(s, e) {
      LiveEntryPopped(s, waits, e, now);
      LiveEntryAnswered(s, waits, e, now);
    } else {
      StaleEntryPopped(s, waits, e, now);
    }
  }

  lemma LiveEntryAnswered(s: State, waits: map<string, Wait>, e: Entry, now: nat)
    requires Linked(s, waits) && IsLeast(e, s.deadlines) && Live(s, e) && e.deadline <= now &&
      EntryFor(e.id, waits[e.id]) == e
    ensures Popped(s, e, now).sent + DueReplies(waits - {e.id}, now) == s.sent + DueReplies(waits, now)
    ensures NotDue(waits - {e.id}, now) == NotDue(waits, now)
  {
    LeastIsFirst(s, waits, e, now);
    FirstReply(waits, now, e.id);
    assert Represents(s, waits, e.id);
    var reply, rest := [Sent(waits[e.id].token, Completed, now)], DueReplies(waits - {e.id}, now);
    assert s.sent + (reply + rest) == (s.sent + reply) + rest;
  }

  /** The state once every entry that has come up is gone and every due wait is answered. */
  ghost function Resolved(s: State, waits: map<string, Wait>, now: nat): State {
    s.(
      deadlines := (set e | e in s.deadlines && e.deadline > now),
      pending := (map id | id in NotDue(waits, now) :: Pending(waits[id].generation, waits[id].token)),
      sent := s.sent + DueReplies(waits, now))
  }

  lemma ResolvingDone(s0: State, waits0: map<string, Wait>, s: State, waits: map<string, Wait>, now: nat)
    requires Resolving(s0, waits0, s, waits, now) && forall e | e in s.deadlines :: e.deadline > now
    ensures waits == NotDue(waits0, now) && s == Resolved(s0, waits0, now)
  {
    NothingDue(s, waits, now);
    assert s.deadlines == Resolved(s0, waits0, now).deadlines;
    forall id | id in s.pending ensures s.pending[id] == Resolved(s0, waits0, now).pending[id] {
      assert Represents(s, waits, id);
    }
    assert s.pending == Resolved(s0, waits0, now).pending;
  }

  lemma NothingDue(s: State, waits: map<string, Wait>, now: nat)
    requires Linked(s, waits) && forall e | e in s.deadlines :: e.deadline > now
    ensures DueReplies(waits, now) == [] && NotDue(waits, now) == waits
  {
    forall id | id in waits ensures waits[id].deadline > now { assert Represents(s, waits, id); }
  }
}
