/**
 * The replay ledger of window-visibility operations: one owner works on an operation id at a time,
 * callers with the same fingerprint join it, and the last 512 results are replayed.
 */
module VisibilityReplay {
  import opened Outcomes
  import opened BoundedLedger

  const RETAINED: nat := 512

  datatype Terminal<T> = Terminal(fingerprint: string, result: T)
  datatype Ledger<T> = Ledger(active: map<string, string>, terminal: map<string, Terminal<T>>, order: seq<string>)

  datatype ReplayError = IdReused | ReplayLost
  datatype Admission<T> = Owner | Join | Replayed(result: T)

  /** One turn of a waiter: an answer, an error, or wait for the next change. */
  datatype Turn<T> = Answer(result: T) | Refused(error: ReplayError) | Wait

  function AdmitStep<T>(s: Ledger<T>, id: string, fingerprint: string): (Ledger<T>, Result<Admission<T>, ReplayError>) {
    if id in s.terminal then
      (s, if s.terminal[id].fingerprint != fingerprint then Err(IdReused) else Ok(Replayed(s.terminal[id].result)))
    else if id in s.active then (s, if s.active[id] != fingerprint then Err(IdReused) else Ok(Join))
    else (s.(active := s.active[id := fingerprint]), Ok(Owner))
  }

  function WaitTurn<T>(s: Ledger<T>, id: string, fingerprint: string): Turn<T> {
    if id in s.terminal then
      if s.terminal[id].fingerprint != fingerprint then Refused(IdReused) else Answer(s.terminal[id].result)
    else if id !in s.active then Refused(ReplayLost)
    else if s.active[id] != fingerprint then Refused(IdReused)
    else Wait
  }

  function FinishStep<T>(s: Ledger<T>, id: string, fingerprint: string, result: T):
    (Ledger<T>, Result<(), ReplayError>)
  {
    if id !in s.active then (s, Err(ReplayLost))
    else if s.active[id] != fingerprint then (s, Err(IdReused))
    else
      var order := if id in s.terminal then s.order else s.order + [id];
      (Ledger(
        s.active - {id},
        WithoutKeys(s.terminal[id := Terminal(fingerprint, result)], Retired(order, RETAINED)),
        Kept(order, RETAINED)), Ok(()))
  }

  function DropStep<T>(s: Ledger<T>, id: string, fingerprint: string): Ledger<T> {
    if id in s.active && s.active[id] == fingerprint then s.(active := s.active - {id}) else s
  }

  class RuntimeWindowVisibilityReplay<T> {
    var active: map<string, string>
    var terminal: map<string, Terminal<T>>
    var order: seq<string>

    constructor ()
      ensures S() == Ledger(map[], map[], [])
    {
      active, terminal, order := map[], map[], [];
    }

    ghost function S(): Ledger<T>
      reads this
    {
      Ledger(active, terminal, order)
    }

    method Admit(id: string, fingerprint: string) returns (r: Result<Admission<T>, ReplayError>)
      modifies this`active
      ensures (S(), r) == AdmitStep(old(S()), id, fingerprint)
    {
      if id in terminal {
        return if terminal[id].fingerprint != fingerprint then Err(IdReused) else Ok(Replayed(terminal[id].result));
      }
      if id in active {
        return if active[id] != fingerprint then Err(IdReused) else Ok(Join);
      }
      active := active[id := fingerprint];
      return Ok(Owner);
    }

    method PollTerminal(id: string, fingerprint: string) returns (turn: Turn<T>)
      ensures turn == WaitTurn(S(), id, fingerprint)
    {
      if id in terminal {
        return if terminal[id].fingerprint != fingerprint then Refused(IdReused) else Answer(terminal[id].result);
      }
      if id !in active {
        return Refused(ReplayLost);
      }
      return if active[id] != fingerprint then Refused(IdReused) else Wait;
    }

    method Finish(id: string, fingerprint: string, result: T) returns (r: Result<(), ReplayError>)
      modifies this
      ensures (S(), r) == FinishStep(old(S()), id, fingerprint, result)
    {
      if id !in active {
        return Err(ReplayLost);
      }
      if active[id] != fingerprint {
        return Err(IdReused);
      }
      active := active - {id};
      if id !in terminal {
        order := order + [id];
      }
      terminal := terminal[id := Terminal(fingerprint, result)];
      order, terminal := TrimLedger(order, terminal, RETAINED);
      return Ok(());
    }

    /** An owner that goes away unfinished frees its identity. */
    method DropOwner(id: string, fingerprint: string)
      modifies this`active
      ensures S() == DropStep(old(S()), id, fingerprint)
    {
      if id in active && active[id] == fingerprint {
        active := active - {id};
      }
    }
  }

  // ---- Runs --------------------------------------------------------------------------------

  datatype OwnerRecord = OwnerRecord(id: string, fingerprint: string)
  datatype Finished<T> = Finished(id: string, fingerprint: string, result: T)

  /** Live owners by handle, every finish so far, and every value handed to a caller. */
  datatype World<T> = World(
    ledger: Ledger<T>, owners: map<nat, OwnerRecord>, finished: seq<Finished<T>>, handed: seq<Finished<T>>)

  datatype Event<T> =
    | Admit(id: string, fingerprint: string, handle: nat)
    | Poll(id: string, fingerprint: string)
    | Finish(handle: nat, result: T)
    | Abandon(handle: nat)

  ghost predicate Enabled<T>(w: World<T>, e: Event<T>) {
    match e
    case Admit(_, _, handle) => handle !in w.owners
    case Poll(_, _) => true
    case Finish(handle, _) => handle in w.owners
    case Abandon(handle) => handle in w.owners
  }

  ghost function Next<T>(w: World<T>, e: Event<T>): World<T>
    requires Enabled(w, e)
  {
    match e
    case Admit(id, fingerprint, handle) =>
      var (s, r) := AdmitStep(w.ledger, id, fingerprint);
      World(s,
        if r == Ok(Owner) then w.owners[handle := OwnerRecord(id, fingerprint)] else w.owners,
        w.finished,
        if r.Ok? && r.value.Replayed? then w.handed + [Finished(id, fingerprint, r.value.result)] else w.handed)
    case Poll(id, fingerprint) =>
      var turn := WaitTurn(w.ledger, id, fingerprint);
      if turn.Answer? then w.(handed := w.handed + [Finished(id, fingerprint, turn.result)]) else w
    case Finish(handle, result) =>
      var o := w.owners[handle];
      var (s, r) := FinishStep(w.ledger, o.id, o.fingerprint, result);
      var finished := if r.Ok? then w.finished + [Finished(o.id, o.fingerprint, result)] else w.finished;
      World(s, w.owners - {handle}, finished, w.handed)
    case Abandon(handle) =>
      w.(ledger := DropStep(w.ledger, w.owners[handle].id, w.owners[handle].fingerprint), owners := w.owners - {handle})
  }

  ghost predicate OwnsActive<T>(w: World<T>, handle: nat)
    requires handle in w.owners
  {
    var o := w.owners[handle];
    o.id in w.ledger.active && w.ledger.active[o.id] == o.fingerprint
  }

  ghost predicate TerminalLogged<T>(w: World<T>, id: string)
    requires id in w.ledger.terminal
  {
    Finished(id, w.ledger.terminal[id].fingerprint, w.ledger.terminal[id].result) in w.finished
  }

  ghost predicate Inv<T>(w: World<T>) {
    && (forall h | h in w.owners :: OwnsActive(w, h))
    && (forall id | id in w.ledger.active :: exists h :: h in w.owners && w.owners[h].id == id)
    && (forall h, k | h in w.owners && k in w.owners && w.owners[h].id == w.owners[k].id :: h == k)
    && w.ledger.active.Keys !! w.ledger.terminal.Keys
    && LedgerOk(w.ledger.order, w.ledger.terminal, RETAINED)
    && (forall id | id in w.ledger.terminal :: TerminalLogged(w, id))
    && (forall v | v in w.handed :: v in w.finished)
  }

  lemma AdmitInv<T>(w: World<T>, id: string, fingerprint: string, handle: nat)
    requires Inv(w) && handle !in w.owners
    ensures Inv(Next(w, Admit(id, fingerprint, handle)))
  {
    var w' := Next(w, Admit(id, fingerprint, handle));
    forall x | x in w'.ledger.terminal ensures TerminalLogged(w', x) { assert TerminalLogged(w, x); }
    if id in w.ledger.terminal { assert TerminalLogged(w, id); }
    if AdmitStep(w.ledger, id, fingerprint).1 == Ok(Owner) {
      NewOwner(w, w', id, fingerprint, handle);
    } else {
      forall h | h in w'.owners ensures OwnsActive(w', h) { assert OwnsActive(w, h); }
    }
  }

  lemma NewOwner<T>(w: World<T>, w': World<T>, id: string, fingerprint: string, handle: nat)
    requires Inv(w) && handle !in w.owners && id !in w.ledger.active
    requires w'.owners == w.owners[handle := OwnerRecord(id, fingerprint)] &&
      w'.ledger.active == w.ledger.active[id := fingerprint]
    ensures forall h | h in w'.owners :: OwnsActive(w', h)
    ensures forall x | x in w'.ledger.active :: exists h :: h in w'.owners && w'.owners[h].id == x
    ensures forall h, k | h in w'.owners && k in w'.owners && w'.owners[h].id == w'.owners[k].id :: h == k
  {
    forall h | h in w'.owners ensures OwnsActive(w', h) && (h != handle ==> w'.owners[h].id != id) {
      if h in w.owners { assert OwnsActive(w, h); }
    }
    AllOwned(w.owners, w'.owners, w.ledger.active.Keys, handle, OwnerRecord(id, fingerprint));
  }

  /** With one more owner the identities have theirs, the new one included. */
  lemma AllOwned(
    owners: map<nat, OwnerRecord>, owners': map<nat, OwnerRecord>, active: set<string>, handle: nat, o: OwnerRecord)
    requires handle !in owners && owners' == owners[handle := o]
    requires forall x | x in active :: exists h :: h in owners && owners[h].id == x
    ensures forall x | x in active || x == o.id :: exists h :: h in owners' && owners'[h].id == x
  {
    forall x | x in active || x == o.id ensures exists h :: h in owners' && owners'[h].id == x {
      if x == o.id {
        assert owners'[handle].id == x;
      } else {
        var h :| h in owners && owners[h].id == x;
        assert h in owners' && owners'[h].id == x;
      }
    }
  }

  lemma PollInv<T>(w: World<T>, id: string, fingerprint: string)
    requires Inv(w)
    ensures Inv(Next(w, Poll(id, fingerprint)))
  {
    var w' := Next(w, Poll(id, fingerprint));
    forall h | h in w'.owners ensures OwnsActive(w', h) { assert OwnsActive(w, h); }
    forall x | x in w'.ledger.terminal ensures TerminalLogged(w', x) { assert TerminalLogged(w, x); }
    if id in w.ledger.terminal { assert TerminalLogged(w, id); }
  }

  lemma OwnerGone<T>(w: World<T>, w': World<T>, handle: nat)
    requires Inv(w) && handle in w.owners && w'.owners == w.owners - {handle}
    requires w'.ledger.active == w.ledger.active - {w.owners[handle].id}
    ensures forall h | h in w'.owners :: OwnsActive(w', h)
    ensures forall x | x in w'.ledger.active :: exists h :: h in w'.owners && w'.owners[h].id == x
  {
    forall h | h in w'.owners ensures OwnsActive(w', h) { OthersActive(w, w', handle, h); }
    OthersOwned(w.owners, w'.owners, w.ledger.active.Keys, handle);
  }

  lemma OthersActive<T>(w: World<T>, w': World<T>, handle: nat, h: nat)
    requires handle in w.owners && h in w'.owners && w'.owners == w.owners - {handle}
    requires w'.ledger.active == w.ledger.active - {w.owners[handle].id}
    requires OwnsActive(w, h) && w.owners[h].id != w.owners[handle].id
    ensures OwnsActive(w', h)
  {
  }

  /** Without one owner the other identities still have theirs. */
  lemma OthersOwned(owners: map<nat, OwnerRecord>, owners': map<nat, OwnerRecord>, active: set<string>, handle: nat)
    requires handle in owners && owners' == owners - {handle}
    requires forall x | x in active :: exists h :: h in owners && owners[h].id == x
    ensures forall x | x in active && x != owners[handle].id :: exists h :: h in owners' && owners'[h].id == x
  {
    forall x | x in active && x != owners[handle].id ensures exists h :: h in owners' && owners'[h].id == x {
      var h :| h in owners && owners[h].id == x;
      assert h in owners' && owners'[h].id == x;
    }
  }

  /** A live owner's finish succeeds, and its identity was not terminal before. */
  lemma OwnerCanFinish<T>(w: World<T>, handle: nat, result: T)
    requires Inv(w) && handle in w.owners
    ensures var o := w.owners[handle];
      FinishStep(w.ledger, o.id, o.fingerprint, result).1 == Ok(()) && o.id !in w.ledger.terminal
  {
    assert OwnsActive(w, handle);
  }

  lemma FinishInv<T>(w: World<T>, handle: nat, result: T)
    requires Inv(w) && handle in w.owners
    ensures Inv(Next(w, Finish(handle, result)))
  {
    var o, w' := w.owners[handle], Next(w, Finish(handle, result));
    OwnerCanFinish(w, handle, result);
    OwnerGone(w, w', handle);
    LedgerKeeps(w.ledger.order, w.ledger.terminal, o.id, Terminal(o.fingerprint, result), RETAINED);
    forall x | x in w'.ledger.terminal ensures TerminalLogged(w', x) {
      if x == o.id {
        assert w'.finished[|w.finished|] == Finished(o.id, o.fingerprint, result);
      } else {
        assert TerminalLogged(w, x);
      }
    }
  }

  lemma AbandonInv<T>(w: World<T>, handle: nat)
    requires Inv(w) && handle in w.owners
    ensures Inv(Next(w, Abandon(handle)))
  {
    var w' := Next(w, Abandon(handle));
    assert OwnsActive(w, handle);
    OwnerGone(w, w', handle);
    forall x | x in w'.ledger.terminal ensures TerminalLogged(w', x) { assert TerminalLogged(w, x); }
  }

  lemma NextInv<T>(w: World<T>, e: Event<T>)
    requires Inv(w) && Enabled(w, e)
    ensures Inv(Next(w, e))
  {
    match e
    case Admit(id, fingerprint, handle) => AdmitInv(w, id, fingerprint, handle);
    case Poll(id, fingerprint) => PollInv(w, id, fingerprint);
    case Finish(handle, result) => FinishInv(w, handle, result);
    case Abandon(handle) => AbandonInv(w, handle);
  }

  ghost predicate ValidRun<T>(w: World<T>, run: seq<Event<T>>)
    decreases |run|
  {
    run == [] || (Enabled(w, run[0]) && ValidRun(Next(w, run[0]), run[1..]))
  }

  ghost function After<T>(w: World<T>, run: seq<Event<T>>): World<T>
    requires ValidRun(w, run)
    decreases |run|
  {
    if run == [] then w else After(Next(w, run[0]), run[1..])
  }

  lemma {:induction false} RunInv<T>(w: World<T>, run: seq<Event<T>>)
    requires Inv(w) && ValidRun(w, run)
    ensures Inv(After(w, run))
    decreases |run|
  {
    if run != [] {
      NextInv(w, run[0]);
      RunInv(Next(w, run[0]), run[1..]);
    }
  }

  ghost function Start<T>(): World<T> {
    World(Ledger(map[], map[], []), map[], [], [])
  }

  /**
   * Main result: in every run one live owner stands behind each active identity, no finish of a live
   * owner is ever refused, and every value handed to a caller is one an owner with the same
   * fingerprint finished with.
   */
  lemma EveryRun<T>(run: seq<Event<T>>)
    requires ValidRun(Start(), run)
    ensures var w := After(Start(), run);
      && (forall h, k | h in w.owners && k in w.owners && w.owners[h].id == w.owners[k].id :: h == k)
      && (forall id :: id in w.ledger.active <==> exists h :: h in w.owners && w.owners[h].id == id)
      && (forall h, result | h in w.owners ::
            FinishStep(w.ledger, w.owners[h].id, w.owners[h].fingerprint, result).1 == Ok(()))
      && (forall v | v in w.handed :: v in w.finished)
      && |w.ledger.order| == |w.ledger.terminal| <= 512
  {
    RunInv(Start<T>(), run);
    var w := After(Start(), run);
    forall h, result | h in w.owners
      ensures FinishStep(w.ledger, w.owners[h].id, w.owners[h].fingerprint, result).1 == Ok(())
    {
      OwnerCanFinish(w, h, result);
    }
    forall id ensures id in w.ledger.active <==> exists h :: h in w.owners && w.owners[h].id == id {
      forall h | h in w.owners ensures w.owners[h].id in w.ledger.active { assert OwnsActive(w, h); }
    }
    Sequences.NoDupSize(w.ledger.order, w.ledger.terminal.Keys);
  }

  // ---- Replays -----------------------------------------------------------------------------

  ghost function Finishes<T>(w: World<T>, run: seq<Event<T>>): nat
    requires ValidRun(w, run)
    decreases |run|
  {
    if run == [] then 0 else (if run[0].Finish? then 1 else 0) + Finishes(Next(w, run[0]), run[1..])
  }

  lemma RetainedNext<T>(w: World<T>, e: Event<T>, id: string, newer: nat)
    requires Inv(w) && Enabled(w, e) && Retained(w.ledger.order, id, newer) && (e.Finish? ==> newer + 1 < RETAINED)
    ensures var s, s' := w.ledger, Next(w, e).ledger;
      && Retained(s'.order, id, newer + if e.Finish? then 1 else 0)
      && id in s.terminal && id in s'.terminal && s'.terminal[id] == s.terminal[id]
  {
    assert id in w.ledger.order;
    if e.Finish? {
      var o := w.owners[e.handle];
      OwnerCanFinish(w, e.handle, e.result);
      RetainedValue(w.ledger.order, w.ledger.terminal, id, newer, o.id, Terminal(o.fingerprint, e.result), RETAINED);
    }
  }

  lemma {:induction false} RetainedThroughRun<T>(w: World<T>, run: seq<Event<T>>, id: string, newer: nat)
    requires Inv(w) && ValidRun(w, run) && Retained(w.ledger.order, id, newer) && newer + Finishes(w, run) < RETAINED
    ensures id in w.ledger.terminal && id in After(w, run).ledger.terminal
    ensures After(w, run).ledger.terminal[id] == w.ledger.terminal[id]
    decreases |run|
  {
    assert id in w.ledger.order;
    if run != [] {
      RetainedNext(w, run[0], id, newer);
      NextInv(w, run[0]);
      RetainedThroughRun(Next(w, run[0]), run[1..], id, newer + if run[0].Finish? then 1 else 0);
    }
  }

  /**
   * Main result: until 512 newer finishes, a finished operation answers every joiner and every
   * repeat with its result, and refuses its identity to different work.
   */
  lemma FinishedIsReplayed<T>(w: World<T>, handle: nat, result: T, run: seq<Event<T>>, fingerprint: string)
    requires Inv(w) && handle in w.owners && ValidRun(Next(w, Finish(handle, result)), run)
    requires Finishes(Next(w, Finish(handle, result)), run) < 512
    ensures var o, end := w.owners[handle], After(Next(w, Finish(handle, result)), run).ledger;
      && WaitTurn(end, o.id, fingerprint) ==
           (if fingerprint == o.fingerprint then Answer(result) else Refused(IdReused))
      && AdmitStep(end, o.id, fingerprint) ==
           (end, if fingerprint == o.fingerprint then Ok(Replayed(result)) else Err(IdReused))
  {
    var o, w' := w.owners[handle], Next(w, Finish(handle, result));
    OwnerCanFinish(w, handle, result);
    FinishInv(w, handle, result);
    AddedIsRetained(w.ledger.order, o.id, RETAINED);
    LedgerKeeps(w.ledger.order, w.ledger.terminal, o.id, Terminal(o.fingerprint, result), RETAINED);
    RetainedThroughRun(w', run, o.id, 0);
  }

  // ---- What callers are answered -----------------------------------------------------------

  /** The live owner `handle` works on `id`. */
  predicate WorksOn<T>(w: World<T>, handle: nat, id: string) {
    handle in w.owners && w.owners[handle].id == id
  }

  lemma OwnerIsActive<T>(w: World<T>, handle: nat)
    requires Inv(w) && handle in w.owners
    ensures var o := w.owners[handle];
      && o.id in w.ledger.active && w.ledger.active[o.id] == o.fingerprint && o.id !in w.ledger.terminal
  {
    assert OwnsActive(w, handle);
  }

  /** While an owner works, callers with its fingerprint join and wait, and others are refused. */
  lemma InFlightAnswers<T>(w: World<T>, handle: nat, fingerprint: string)
    requires Inv(w) && handle in w.owners
    ensures var o := w.owners[handle];
      if fingerprint == o.fingerprint then
        AdmitStep(w.ledger, o.id, fingerprint) == (w.ledger, Ok(Join)) && WaitTurn(w.ledger, o.id, fingerprint) == Wait
      else
        && AdmitStep(w.ledger, o.id, fingerprint) == (w.ledger, Err(IdReused))
        && WaitTurn(w.ledger, o.id, fingerprint) == Refused(IdReused)
  {
    OwnerIsActive(w, handle);
  }

  /** An identity nobody works on and no result is kept for makes its caller the owner, and leaves waiters lost. */
  lemma IdleAnswers<T>(w: World<T>, id: string, fingerprint: string, handle: nat)
    requires Inv(w) && (forall h :: !WorksOn(w, h, id)) && id !in w.ledger.terminal && handle !in w.owners
    ensures AdmitStep(w.ledger, id, fingerprint).1 == Ok(Owner)
    ensures WaitTurn(w.ledger, id, fingerprint) == Refused(ReplayLost)
    ensures Next(w, Admit(id, fingerprint, handle)).owners == w.owners[handle := OwnerRecord(id, fingerprint)]
  {
    if id in w.ledger.active {
      var h :| h in w.owners && w.owners[h].id == id;
      assert WorksOn(w, h, id);
    }
  }

  /** Callers with the fingerprint get the result and others are refused. */
  predicate Replays<T(==)>(s: Ledger<T>, v: Finished<T>, fingerprint: string) {
    && AdmitStep(s, v.id, fingerprint) ==
         (s, if fingerprint == v.fingerprint then Ok(Replayed(v.result)) else Err(IdReused))
    && WaitTurn(s, v.id, fingerprint) ==
         if fingerprint == v.fingerprint then Answer(v.result) else Refused(IdReused)
  }

  /** A kept result is the one its last owner finished with; it answers its fingerprint and refuses others. */
  lemma KeptAnswers<T>(w: World<T>, id: string, fingerprint: string)
    requires Inv(w) && id in w.ledger.terminal
    ensures exists v :: v in w.finished && v.id == id && Replays(w.ledger, v, fingerprint)
  {
    assert TerminalLogged(w, id);
    var v := Finished(id, w.ledger.terminal[id].fingerprint, w.ledger.terminal[id].result);
    assert v in w.finished && Replays(w.ledger, v, fingerprint);
  }

  /** Whoever does not hold an identity under its fingerprint can neither finish it nor free it. */
  lemma StrangersChangeNothing<T>(s: Ledger<T>, id: string, fingerprint: string, result: T)
    requires id in s.active ==> s.active[id] != fingerprint
    ensures DropStep(s, id, fingerprint) == s
    ensures FinishStep(s, id, fingerprint, result) == (s, Err(if id in s.active then IdReused else ReplayLost))
  {
  }

  /** An owner that goes away unfinished leaves its identity to whoever comes next. */
  lemma AbandonedIsIdle<T>(w: World<T>, handle: nat)
    requires Inv(w) && handle in w.owners
    ensures var id, w' := w.owners[handle].id, Next(w, Abandon(handle));
      && w'.owners == w.owners - {handle} && (forall h :: !WorksOn(w', h, id)) && id !in w'.ledger.terminal
      && w'.ledger.terminal == w.ledger.terminal && w'.ledger.order == w.ledger.order
  {
    OwnerIsActive(w, handle);
  }
}
