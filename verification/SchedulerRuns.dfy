/** Every run of the scheduler: what it answers, when, and that the heap's leftovers never show. */
module SchedulerRuns {
  import opened Sequences
  import opened Scheduler
  import opened Text

  datatype Event =
    | Ask(now: nat, id: string, durationMs: nat, token: nat)
    | Cancel(now: nat, id: string)
    | Resolve(now: nat)
    | Shutdown(now: nat, order: seq<string>)

  // ---- The plain machine -------------------------------------------------------------------

  /** `due` remembers every wait ever asked for, by its token. */
  datatype Plain = Plain(
    waits: map<string, Wait>, generation: nat, sent: seq<Sent>, running: bool, clock: nat, due: map<nat, nat>)

  ghost predicate Enabled(p: Plain, e: Event) {
    && p.running && e.now >= p.clock
    && (e.Ask? ==> Accepted(e.id, e.durationMs) && e.token !in p.due)
    && (e.Shutdown? ==> Enumerates(e.order, p.waits.Keys))
  }

  function Told(waits: map<string, Wait>, id: string, reply: Reply, now: nat): seq<Sent> {
    if id in waits then [Sent(waits[id].token, reply, now)] else []
  }

  ghost function PlainNext(p: Plain, e: Event): Plain
    requires Enabled(p, e)
  {
    match e
    case Ask(now, id, ms, token) =>
      Plain(p.waits[id := Wait(now + ms, p.generation + 1, token)], p.generation + 1,
        p.sent + Told(p.waits, id, WaitCancelled, now), p.running, now, p.due[token := now + ms])
    case Cancel(now, id) =>
      p.(waits := p.waits - {id}, sent := p.sent + Told(p.waits, id, WaitCancelled, now), clock := now)
    case Resolve(now) => p.(waits := NotDue(p.waits, now), sent := p.sent + DueReplies(p.waits, now), clock := now)
    case Shutdown(now, order) =>
      var sent := p.sent + Replies(p.waits, order, ShuttingDown, now);
      p.(waits := map[], sent := sent, running := false, clock := now)
  }

  // ---- The heap refines it -----------------------------------------------------------------

  ghost function HeapNext(s: State, waits: map<string, Wait>, e: Event): State
    requires e.Shutdown? ==> forall id | id in e.order :: id in s.pending
  {
    match e
    case Ask(now, id, ms, token) => Scheduled(s, now, id, ms, token)
    case Cancel(now, id) => CancelledWait(s, now, id)
    case Resolve(now) => Resolved(s, waits, now)
    case Shutdown(now, order) => ShutDown(s, now, order)
  }

  ghost predicate Refines(s: State, p: Plain) {
    Linked(s, p.waits) && s.generation == p.generation && s.sent == p.sent && s.running == p.running
  }

  lemma AskRefines(s: State, p: Plain, now: nat, id: string, ms: nat, token: nat)
    requires Refines(s, p) && Enabled(p, Ask(now, id, ms, token))
    ensures Refines(Scheduled(s, now, id, ms, token), PlainNext(p, Ask(now, id, ms, token)))
  {
    var s', p' := Scheduled(s, now, id, ms, token), PlainNext(p, Ask(now, id, ms, token));
    if id in s.pending { assert Represents(s, p.waits, id); }
    forall other | other in s'.pending ensures Represents(s', p'.waits, other) {
      if other != id { assert Represents(s, p.waits, other); }
    }
  }

  lemma CancelRefines(s: State, p: Plain, now: nat, id: string)
    requires Refines(s, p) && Enabled(p, Cancel(now, id))
    ensures Refines(CancelledWait(s, now, id), PlainNext(p, Cancel(now, id)))
  {
    var s', p' := CancelledWait(s, now, id), PlainNext(p, Cancel(now, id));
    if id in s.pending { assert Represents(s, p.waits, id); }
    forall other | other in s'.pending ensures Represents(s', p'.waits, other) { assert Represents(s, p.waits, other); }
  }

  lemma ResolveRefines(s: State, p: Plain, now: nat)
    requires Refines(s, p) && Enabled(p, Resolve(now))
    ensures Refines(Resolved(s, p.waits, now), PlainNext(p, Resolve(now)))
  {
    var s', p' := Resolved(s, p.waits, now), PlainNext(p, Resolve(now));
    forall id | id in s'.pending ensures Represents(s', p'.waits, id) { assert Represents(s, p.waits, id); }
  }

  lemma RefusalsAreReplies(s: State, waits: map<string, Wait>, order: seq<string>, now: nat)
    requires Linked(s, waits) && forall id | id in order :: id in s.pending
    ensures Refusals(s.pending, order, now) == Replies(waits, order, ShuttingDown, now)
  {
    forall i | 0 <= i < |order|
      ensures Refusals(s.pending, order, now)[i] == Replies(waits, order, ShuttingDown, now)[i]
    {
      assert order[i] in order && Represents(s, waits, order[i]);
    }
  }

  lemma NextRefines(s: State, p: Plain, e: Event)
    requires Refines(s, p) && Enabled(p, e)
    ensures e.Shutdown? ==> forall id | id in e.order :: id in s.pending
    ensures Refines(HeapNext(s, p.waits, e), PlainNext(p, e))
  {
    match e
    case Ask(now, id, ms, token) => AskRefines(s, p, now, id, ms, token);
    case Cancel(now, id) => CancelRefines(s, p, now, id);
    case Resolve(now) => ResolveRefines(s, p, now);
    case Shutdown(now, order) => RefusalsAreReplies(s, p.waits, order, now);
  }

  ghost predicate ValidRun(p: Plain, run: seq<Event>)
    decreases |run|
  {
    run == [] || (Enabled(p, run[0]) && ValidRun(PlainNext(p, run[0]), run[1..]))
  }

  ghost function PlainAfter(p: Plain, run: seq<Event>): Plain
    requires ValidRun(p, run)
    decreases |run|
  {
    if run == [] then p else PlainAfter(PlainNext(p, run[0]), run[1..])
  }

  ghost function HeapAfter(s: State, p: Plain, run: seq<Event>): State
    requires Refines(s, p) && ValidRun(p, run)
    decreases |run|
  {
    if run == [] then s else
      NextRefines(s, p, run[0]);
      HeapAfter(HeapNext(s, p.waits, run[0]), PlainNext(p, run[0]), run[1..])
  }

  /** Main result: over any run the heap with its stale entries sends exactly what the plain map sends. */
  lemma {:induction false} RunRefines(s: State, p: Plain, run: seq<Event>)
    requires Refines(s, p) && ValidRun(p, run)
    ensures Refines(HeapAfter(s, p, run), PlainAfter(p, run))
    decreases |run|
  {
    if run != [] {
      NextRefines(s, p, run[0]);
      RunRefines(HeapNext(s, p.waits, run[0]), PlainNext(p, run[0]), run[1..]);
    }
  }

  /** The thread never sleeps past a pending deadline; leftovers can only wake it early. */
  lemma WakesInTime(s: State, p: Plain, least: Entry, now: nat, id: string)
    requires Refines(s, p) && id in p.waits && IsLeast(least, s.deadlines)
    ensures now + Remaining(least, now) <= if p.waits[id].deadline < now then now else p.waits[id].deadline
  {
    assert Represents(s, p.waits, id);
  }

  // ---- What due replies are ----------------------------------------------------------------

  ghost predicate Untangled(waits: map<string, Wait>) {
    forall a, b | a in waits && b in waits && a != b ::
      waits[a].generation != waits[b].generation && waits[a].token != waits[b].token
  }

  lemma {:induction false} DueFirstExists(waits: map<string, Wait>, now: nat, ids: set<string>) returns (first: string)
    requires Untangled(waits) && ids != {} && forall id | id in ids :: id in waits
    ensures first in ids
    ensures forall other | other in ids && other != first ::
      Earlier(EntryFor(first, waits[first]), EntryFor(other, waits[other]))
  {
    var id :| id in ids;
    first := id;
    if ids != {id} {
      var f := DueFirstExists(waits, now, ids - {id});
      first := if Earlier(EntryFor(f, waits[f]), EntryFor(id, waits[id])) then f else id;
      forall other | other in ids && other != first
        ensures Earlier(EntryFor(first, waits[first]), EntryFor(other, waits[other]))
      {
        assert other == id || other in ids - {id};
      }
    }
  }

  function DueSet(waits: map<string, Wait>, now: nat): set<string> {
    set id | id in waits && waits[id].deadline <= now
  }

  /** Due first; of waits due together the one asked for first. */
  predicate ComesBefore(a: Wait, b: Wait) {
    a.deadline < b.deadline || (a.deadline == b.deadline && a.generation < b.generation)
  }

  ghost predicate InOrder(waits: map<string, Wait>, ids: seq<string>) {
    && (forall i | 0 <= i < |ids| :: ids[i] in waits)
    && forall i, j | 0 <= i < j < |ids| :: ComesBefore(waits[ids[i]], waits[ids[j]])
  }

  lemma FirstThenRest(waits: map<string, Wait>, now: nat, first: string, rest: seq<string>)
    requires DueFirst(waits, now, first)
    requires Enumerates(rest, DueSet(waits - {first}, now)) && InOrder(waits - {first}, rest)
    ensures Enumerates([first] + rest, DueSet(waits, now)) && InOrder(waits, [first] + rest)
  {
    forall i | 0 <= i < |rest|
      ensures rest[i] in DueSet(waits - {first}, now) && ComesBefore(waits[first], waits[rest[i]])
    {
      assert rest[i] in rest;
    }
    assert DueSet(waits, now) == {first} + DueSet(waits - {first}, now);
  }

  /** Exactly the due waits come up, each once, earlier deadlines first and of equal ones the earlier asked. */
  lemma {:induction false} DueIdsAreDue(waits: map<string, Wait>, now: nat)
    requires Untangled(waits)
    ensures Enumerates(DueIds(waits, now), DueSet(waits, now)) && InOrder(waits, DueIds(waits, now))
    decreases |waits|
  {
    if DueSet(waits, now) == {} {
      forall id ensures !DueFirst(waits, now, id) { assert id !in DueSet(waits, now); }
    } else {
      var first := DueFirstExists(waits, now, DueSet(waits, now));
      assert DueFirst(waits, now, first);
      FirstReply(waits, now, first);
      var rest := DueIds(waits - {first}, now);
      DueIdsAreDue(waits - {first}, now);
      FirstThenRest(waits, now, first, rest);
    }
  }

  // ---- Promises over runs ------------------------------------------------------------------

  ghost predicate WaitOk(p: Plain, id: string)
    requires id in p.waits
  {
    var w := p.waits[id];
    w.token in p.due && p.due[w.token] == w.deadline && w.generation <= p.generation
  }

  ghost predicate SentOk(p: Plain, i: nat)
    requires i < |p.sent|
  {
    var r := p.sent[i];
    r.token in p.due && r.at <= p.clock && (r.reply == Completed ==> p.due[r.token] <= r.at)
  }

  /** The token has an answer, or is the one a present wait is waiting on. */
  ghost predicate Accounted(p: Plain, token: nat) {
    (exists i :: 0 <= i < |p.sent| && p.sent[i].token == token) ||
    (exists id :: id in p.waits && p.waits[id].token == token)
  }

  ghost predicate Inv(p: Plain) {
    && Untangled(p.waits)
    && (forall id | id in p.waits :: WaitOk(p, id))
    && (forall i: nat | i < |p.sent| :: SentOk(p, i))
    && (forall i, j | 0 <= i < j < |p.sent| :: p.sent[i].token != p.sent[j].token)
    && (forall id, i | id in p.waits && 0 <= i < |p.sent| :: p.sent[i].token != p.waits[id].token)
    && (forall token | token in p.due :: Accounted(p, token))
    && (!p.running ==> p.waits == map[])
  }

  /** Answering some of the present waits, each once and none too early, keeps every promise. */
  lemma AnswerInv(p: Plain, ids: seq<string>, reply: Reply, now: nat, running: bool)
    requires Inv(p) && now >= p.clock && NoDup(ids) && (forall id | id in ids :: id in p.waits)
    requires reply == Completed ==> forall id | id in ids :: p.waits[id].deadline <= now
    requires running || forall id | id in p.waits :: id in ids
    ensures
      var sent := p.sent + Replies(p.waits, ids, reply, now);
      Inv(p.(waits := p.waits - SetOf(ids), sent := sent, clock := now, running := running))
  {
    var replies := Replies(p.waits, ids, reply, now);
    var p' := p.(waits := p.waits - SetOf(ids), sent := p.sent + replies, clock := now, running := running);
    forall id | id in p'.waits ensures WaitOk(p', id) { assert WaitOk(p, id); }
    forall i | 0 <= i < |ids| ensures ids[i] in p.waits && WaitOk(p, ids[i]) { assert ids[i] in ids; }
    forall i: nat | i < |p'.sent| ensures SentOk(p', i) {
      if i < |p.sent| {
        assert SentOk(p, i);
      } else {
        assert ids[i - |p.sent|] in ids;
      }
    }
    AnswersDistinct(p, ids, replies);
    forall token | token in p'.due ensures Accounted(p', token) { AccountedStays(p, p', ids, replies, token); }
    assert !running ==> p'.waits == map[];
  }

  lemma AnswersDistinct(p: Plain, ids: seq<string>, replies: seq<Sent>)
    requires Untangled(p.waits) && NoDup(ids) && (forall id | id in ids :: id in p.waits) && |replies| == |ids|
    requires forall i | 0 <= i < |ids| :: replies[i].token == p.waits[ids[i]].token
    requires forall i, j | 0 <= i < j < |p.sent| :: p.sent[i].token != p.sent[j].token
    requires forall id, i | id in p.waits && 0 <= i < |p.sent| :: p.sent[i].token != p.waits[id].token
    ensures var sent := p.sent + replies; forall i, j | 0 <= i < j < |sent| :: sent[i].token != sent[j].token
    ensures var sent := p.sent + replies;
      forall id, i | id in p.waits && id !in ids && 0 <= i < |sent| :: sent[i].token != p.waits[id].token
  {
    forall i | 0 <= i < |ids| ensures ids[i] in p.waits { assert ids[i] in ids; }
    forall i, j | 0 <= i < j < |ids| ensures replies[i].token != replies[j].token {
      assert ids[i] != ids[j];
    }
  }

  lemma AccountedStays(p: Plain, p': Plain, ids: seq<string>, replies: seq<Sent>, token: nat)
    requires Accounted(p, token) && p'.sent == p.sent + replies && p'.waits == p.waits - SetOf(ids)
    requires (forall id | id in ids :: id in p.waits) && |replies| == |ids|
    requires forall i | 0 <= i < |ids| :: replies[i].token == p.waits[ids[i]].token
    ensures Accounted(p', token)
  {
    if i :| 0 <= i < |p.sent| && p.sent[i].token == token {
      assert p'.sent[i].token == token;
    } else {
      var id :| id in p.waits && p.waits[id].token == token;
      if id in ids {
        var k :| 0 <= k < |ids| && ids[k] == id;
        assert p'.sent[|p.sent| + k].token == token;
      } else {
        assert id in p'.waits;
      }
    }
  }

  lemma ResolveInv(p: Plain, now: nat)
    requires Inv(p) && Enabled(p, Resolve(now))
    ensures Inv(PlainNext(p, Resolve(now)))
  {
    DueIdsAreDue(p.waits, now);
    assert p.waits - SetOf(DueIds(p.waits, now)) == NotDue(p.waits, now);
    AnswerInv(p, DueIds(p.waits, now), Completed, now, true);
  }

  lemma ToldInv(p: Plain, id: string, now: nat)
    requires Inv(p) && now >= p.clock && p.running
    ensures Inv(p.(waits := p.waits - {id}, sent := p.sent + Told(p.waits, id, WaitCancelled, now), clock := now))
  {
    var ids := if id in p.waits then [id] else [];
    assert Told(p.waits, id, WaitCancelled, now) == Replies(p.waits, ids, WaitCancelled, now);
    assert p.waits - SetOf(ids) == p.waits - {id};
    AnswerInv(p, ids, WaitCancelled, now, true);
  }

  lemma AskInv(p: Plain, now: nat, id: string, ms: nat, token: nat)
    requires Inv(p) && Enabled(p, Ask(now, id, ms, token))
    ensures Inv(PlainNext(p, Ask(now, id, ms, token)))
  {
    ToldInv(p, id, now);
    var q := p.(waits := p.waits - {id}, sent := p.sent + Told(p.waits, id, WaitCancelled, now), clock := now);
    var w := Wait(now + ms, q.generation + 1, token);
    var p' := PlainNext(p, Ask(now, id, ms, token));
    assert p'.waits == q.waits[id := w];
    NewWaitInv(q, p', id, w);
  }

  lemma NewWaitInv(q: Plain, p': Plain, id: string, w: Wait)
    requires Inv(q) && q.running && id !in q.waits && w.token !in q.due && w.generation == q.generation + 1
    requires p' == q.(waits := q.waits[id := w], generation := q.generation + 1, due := q.due[w.token := w.deadline])
    ensures Inv(p')
  {
    forall other | other in p'.waits
      ensures WaitOk(p', other)
      ensures other != id ==> p'.waits[other].token != w.token && p'.waits[other].generation != w.generation
    {
      if other != id { assert WaitOk(q, other); }
    }
    forall i: nat | i < |p'.sent| ensures SentOk(p', i) && p'.sent[i].token != w.token { assert SentOk(q, i); }
    forall token | token in p'.due ensures Accounted(p', token) {
      if token == w.token {
        assert p'.waits[id].token == token;
      } else {
        assert Accounted(q, token);
        if other :| other in q.waits && q.waits[other].token == token { assert p'.waits[other].token == token; }
      }
    }
  }

  lemma NextInv(p: Plain, e: Event)
    requires Inv(p) && Enabled(p, e)
    ensures Inv(PlainNext(p, e))
  {
    match e
    case Ask(now, id, ms, token) => AskInv(p, now, id, ms, token);
    case Cancel(now, id) => ToldInv(p, id, now);
    case Resolve(now) => ResolveInv(p, now);
    case Shutdown(now, order) =>
      assert p.waits - SetOf(order) == map[];
      AnswerInv(p, order, ShuttingDown, now, false);
  }

  lemma {:induction false} RunInv(p: Plain, run: seq<Event>)
    requires Inv(p) && ValidRun(p, run)
    ensures Inv(PlainAfter(p, run))
    decreases |run|
  {
    if run != [] {
      NextInv(p, run[0]);
      RunInv(PlainNext(p, run[0]), run[1..]);
    }
  }

  ghost function Start(): Plain {
    Plain(map[], 0, [], true, 0, map[])
  }

  /**
   * Main result: in every run each wait asked for is answered at most once, never completed before
   * its deadline, and, once the scheduler has shut down, answered exactly once.
   */
  lemma EveryWaitIsAnsweredOnce(s: State, run: seq<Event>)
    requires s == State(0, {}, map[], [], true) && ValidRun(Start(), run)
    ensures Refines(s, Start())
    ensures var end, p := HeapAfter(s, Start(), run), PlainAfter(Start(), run);
      && (forall i, j | 0 <= i < j < |end.sent| :: end.sent[i].token != end.sent[j].token)
      && (forall i | 0 <= i < |end.sent| :: end.sent[i].token in p.due)
      && (forall i | 0 <= i < |end.sent| && end.sent[i].reply == Completed ::
            p.due[end.sent[i].token] <= end.sent[i].at)
      && (!end.running ==>
            forall token | token in p.due :: exists i :: 0 <= i < |end.sent| && end.sent[i].token == token)
  {
    RunRefines(s, Start(), run);
    RunInv(Start(), run);
    var p := PlainAfter(Start(), run);
    forall i: nat | i < |p.sent|
      ensures p.sent[i].token in p.due && (p.sent[i].reply == Completed ==> p.due[p.sent[i].token] <= p.sent[i].at)
    {
      assert SentOk(p, i);
    }
    if !p.running {
      forall token | token in p.due ensures exists i :: 0 <= i < |p.sent| && p.sent[i].token == token {
        assert Accounted(p, token);
      }
    }
  }

  // ---- What each step settles --------------------------------------------------------------

  /** `sent` grew by this one reply, or not at all when there was nobody to tell. */
  predicate TellsOnly(
    before: seq<Sent>, after: seq<Sent>, waits: map<string, Wait>, id: string, reply: Reply, now: nat)
  {
    after == if id in waits then before + [Sent(waits[id].token, reply, now)] else before
  }

  /** A wait asked for lasts its time from now; an earlier one of the same id is told it was cancelled. */
  lemma AskSettles(p: Plain, now: nat, id: string, ms: nat, token: nat)
    requires Inv(p) && Enabled(p, Ask(now, id, ms, token))
    ensures var p' := PlainNext(p, Ask(now, id, ms, token));
      && TellsOnly(p.sent, p'.sent, p.waits, id, WaitCancelled, now) && p'.running
      && id in p'.waits && p'.waits[id].token == token && p'.waits[id].deadline == now + ms
      && p'.waits - {id} == p.waits - {id}
      && forall other | other in p.waits :: p.waits[other].generation < p'.waits[id].generation
  {
    forall other | other in p.waits ensures p.waits[other].generation <= p.generation { assert WaitOk(p, other); }
  }

  lemma CancelSettles(p: Plain, now: nat, id: string)
    requires Enabled(p, Cancel(now, id))
    ensures var p' := PlainNext(p, Cancel(now, id));
      TellsOnly(p.sent, p'.sent, p.waits, id, WaitCancelled, now) && p'.waits == p.waits - {id} && p'.running
  {
  }

  /** The reply to one of these waits. */
  ghost predicate RepliesTo(r: Sent, waits: map<string, Wait>, ids: set<string>, reply: Reply, now: nat) {
    exists id :: id in ids && id in waits && r == Sent(waits[id].token, reply, now)
  }

  /** `sent` grew by a reply to each of these waits and by nothing else. */
  ghost predicate RepliesToAll(
    before: seq<Sent>, after: seq<Sent>, waits: map<string, Wait>, ids: set<string>, reply: Reply, now: nat)
  {
    && before <= after
    && (forall r | r in after[|before|..] :: RepliesTo(r, waits, ids, reply, now))
    && (forall id | id in ids && id in waits :: Sent(waits[id].token, reply, now) in after[|before|..])
    && |after| == |before| + |ids|
  }

  lemma RepliesReachAll(
    before: seq<Sent>, waits: map<string, Wait>, order: seq<string>, ids: set<string>, reply: Reply, now: nat)
    requires Enumerates(order, ids) && forall id | id in ids :: id in waits
    ensures RepliesToAll(before, before + Replies(waits, order, reply, now), waits, ids, reply, now)
  {
    var replies := Replies(waits, order, reply, now);
    var after := before + replies;
    assert after[|before|..] == replies;
    forall r | r in replies ensures RepliesTo(r, waits, ids, reply, now) {
      var i :| 0 <= i < |replies| && replies[i] == r;
      assert order[i] in ids;
    }
    forall id | id in ids ensures Sent(waits[id].token, reply, now) in replies {
      var i :| 0 <= i < |order| && order[i] == id;
      assert replies[i] == Sent(waits[id].token, reply, now);
    }
    NoDupSize(order, ids);
  }

  lemma OthersStay(waits: map<string, Wait>, now: nat)
    ensures NotDue(waits, now) == waits - set id | id in waits && waits[id].deadline <= now
    ensures DueSet(waits, now) == set id | id in waits && waits[id].deadline <= now
  {
  }

  /** Main result: resolving answers the waits whose deadline has come, each once, and leaves the others. */
  lemma ResolveSettles(p: Plain, now: nat)
    requires Inv(p) && Enabled(p, Resolve(now))
    ensures var p', due := PlainNext(p, Resolve(now)), set id | id in p.waits && p.waits[id].deadline <= now;
      && RepliesToAll(p.sent, p'.sent, p.waits, due, Completed, now)
      && p'.waits == p.waits - due && p'.running
  {
    DueIdsAreDue(p.waits, now);
    OthersStay(p.waits, now);
    RepliesReachAll(p.sent, p.waits, DueIds(p.waits, now), DueSet(p.waits, now), Completed, now);
  }

  lemma ShutdownAnswersInTurn(p: Plain, now: nat, order: seq<string>)
    requires Enabled(p, Shutdown(now, order))
    ensures Enumerates(order, p.waits.Keys)
    ensures var p' := PlainNext(p, Shutdown(now, order));
      p'.sent == p.sent + Replies(p.waits, order, ShuttingDown, now) && p'.waits == map[] && !p'.running
  {
  }

  lemma ShutdownSettles(p: Plain, now: nat, order: seq<string>)
    requires Enabled(p, Shutdown(now, order))
    ensures var p' := PlainNext(p, Shutdown(now, order));
      && RepliesToAll(p.sent, p'.sent, p.waits, p.waits.Keys, ShuttingDown, now)
      && p'.waits == map[] && !p'.running
  {
    ShutdownAnswersInTurn(p, now, order);
    RepliesReachAll(p.sent, p.waits, order, p.waits.Keys, ShuttingDown, now);
  }

  /** The thread sleeps up to the least deadline and not beyond; with no deadlines it sleeps a minute. */
  lemma SleepsUntilLeast(e: Entry, now: nat)
    ensures now + Remaining(e, now) == if e.deadline < now then now else e.deadline
    ensures IDLE_TIMEOUT == 60_000
  {
  }

  /** Waits are accepted for at most a day, under an id that is not blank and has at most 200 bytes. */
  lemma AcceptedIff(id: string, durationMs: nat)
    ensures Accepted(id, durationMs) <==>
      (exists c :: c in id && !IsWhitespace(c)) && ByteLength(id) <= 200 && durationMs <= 86_400_000
  {
    if c :| c in id && !IsWhitespace(c) {
      var i :| 0 <= i < |id| && id[i] == c;
    }
  }
}
