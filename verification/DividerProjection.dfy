/**
 * The workspace-divider projection of the AppKit host: one native write and one readback an
 * attempt, a rollback to the last verified value, and a restore. The value itself is any type.
 */
module DividerProjection {
  import opened Outcomes
  import opened TabProjection

  /** Where a native write leaves the controller, and what it reports: an error, or whether it was accepted. */
  datatype Landing<P> = Landing(value: P, reported: Option<bool>)

  /** A readback errors, says no whatever it saw, or compares. */
  datatype Reading = Broken | Refuses | Compares

  datatype DividerHost<P> = DividerHost(revision: nat, projection: P, poisoned: bool, native: P)
  datatype DividerError = NotAvailable | Invalid | HostPoisoned | Stale | NothingVerified | CallFailed | Unverified

  function Attempt<P(==)>(p: P, landing: Landing<P>, reading: Reading): Outcome {
    if landing.reported == None then Failed
    else if !landing.reported.value then Mismatch
    else if reading == Broken then Failed
    else if reading == Compares && landing.value == p then Done
    else Mismatch
  }

  function ApplyDividers<P(==)>(
    h: DividerHost<P>, access: Access, revision: nat, valid: bool, p: P,
    landing: Landing<P>, reading: Reading, undo: Landing<P>, undoReading: Reading):
    (DividerHost<P>, Result<(nat, P), DividerError>)
  {
    if !access.identity then (h, Err(NotAvailable))
    else if revision == 0 || !valid then (h, Err(Invalid))
    else if !access.healthy || !access.window then (h, Err(NotAvailable))
    else if h.poisoned then (h, Err(HostPoisoned))
    else if revision < h.revision || (revision == h.revision && p != h.projection) then (h, Err(Stale))
    else if revision == h.revision then
      if reading == Broken then (h, Err(CallFailed))
      else if reading == Compares && h.native == p then (h, Ok((revision, p)))
      else (h.(poisoned := true), Err(Unverified))
    else
      match Attempt(p, landing, reading)
      case Done => (DividerHost(revision, p, false, landing.value), Ok((revision, p)))
      case Failed => (h.(poisoned := true, native := landing.value), Err(CallFailed))
      case Mismatch =>
        if h.revision == 0 then (h.(poisoned := true, native := landing.value), Err(Unverified))
        else (h.(poisoned := Attempt(h.projection, undo, undoReading) != Done, native := undo.value), Err(Unverified))
  }

  /** A call that errors returns at once and leaves the poison mark as it was. */
  function RestoreDividers<P(==)>(h: DividerHost<P>, access: Access, landing: Landing<P>, reading: Reading):
    (DividerHost<P>, Result<(nat, P), DividerError>)
  {
    if !access.identity || !access.healthy || !access.window then (h, Err(NotAvailable))
    else if h.revision == 0 then (h, Err(NothingVerified))
    else
      match Attempt(h.projection, landing, reading)
      case Done => (h.(poisoned := false, native := landing.value), Ok((h.revision, h.projection)))
      case Failed => (h.(native := landing.value), Err(CallFailed))
      case Mismatch => (h.(poisoned := true, native := landing.value), Err(Unverified))
  }

  class WorkspaceDividerHost<P(==)> {
    var revision: nat
    var projection: P
    var poisoned: bool
    var native: P

    constructor (initial: P)
      ensures State() == Fresh(initial)
    {
      revision, projection, poisoned, native := 0, initial, false, initial;
    }

    ghost function State(): DividerHost<P>
      reads this
    {
      DividerHost(revision, projection, poisoned, native)
    }

    /** The native write and, when it is accepted, the readback. */
    method Write(p: P, landing: Landing<P>, reading: Reading) returns (outcome: Outcome)
      modifies this`native
      ensures native == landing.value && outcome == Attempt(p, landing, reading)
    {
      native := landing.value;
      if landing.reported == None {
        return Failed;
      }
      if !landing.reported.value {
        return Mismatch;
      }
      if reading == Broken {
        return Failed;
      }
      return if reading == Compares && native == p then Done else Mismatch;
    }

    method Apply(
      access: Access, wanted: nat, valid: bool, p: P,
      landing: Landing<P>, reading: Reading, undo: Landing<P>, undoReading: Reading)
      returns (r: Result<(nat, P), DividerError>)
      modifies this
      ensures (State(), r) == ApplyDividers(old(State()), access, wanted, valid, p, landing, reading, undo, undoReading)
    {
      if !access.identity {
        return Err(NotAvailable);
      }
      if wanted == 0 || !valid {
        return Err(Invalid);
      }
      if !access.healthy || !access.window {
        return Err(NotAvailable);
      }
      if poisoned {
        return Err(HostPoisoned);
      }
      if wanted < revision || (wanted == revision && p != projection) {
        return Err(Stale);
      }
      if wanted == revision {
        if reading == Broken {
          return Err(CallFailed);
        }
        poisoned := reading == Refuses || native != p;
        return if poisoned then Err(Unverified) else Ok((revision, p));
      }
      poisoned := true;
      var outcome := Write(p, landing, reading);
      if outcome == Failed {
        return Err(CallFailed);
      }
      if outcome == Mismatch {
        if revision > 0 {
          var undone := Write(projection, undo, undoReading);
          poisoned := undone != Done;
        }
        return Err(Unverified);
      }
      revision, projection, poisoned := wanted, p, false;
      return Ok((wanted, p));
    }

    method Restore(access: Access, landing: Landing<P>, reading: Reading) returns (r: Result<(nat, P), DividerError>)
      modifies this
      ensures (State(), r) == RestoreDividers(old(State()), access, landing, reading)
    {
      if !access.identity || !access.healthy || !access.window {
        return Err(NotAvailable);
      }
      if revision == 0 {
        return Err(NothingVerified);
      }
      var outcome := Write(projection, landing, reading);
      if outcome == Failed {
        return Err(CallFailed);
      }
      if outcome == Mismatch {
        poisoned := true;
        return Err(Unverified);
      }
      poisoned := false;
      return Ok((revision, projection));
    }
  }

  // ---- Runs --------------------------------------------------------------------------------

  datatype Event<P> =
    | Apply(
        access: Access, revision: nat, valid: bool, p: P,
        landing: Landing<P>, reading: Reading, undo: Landing<P>, undoReading: Reading)
    | Restore(access: Access, landing: Landing<P>, reading: Reading)

  function Next<P(==)>(h: DividerHost<P>, e: Event<P>): (DividerHost<P>, Result<(nat, P), DividerError>) {
    match e
    case Apply(access, revision, valid, p, landing, reading, undo, undoReading) =>
      ApplyDividers(h, access, revision, valid, p, landing, reading, undo, undoReading)
    case Restore(access, landing, reading) => RestoreDividers(h, access, landing, reading)
  }

  function After<P(==)>(h: DividerHost<P>, run: seq<Event<P>>): DividerHost<P>
    decreases |run|
  {
    if run == [] then h else After(Next(h, run[0]).0, run[1..])
  }

  /** An unpoisoned host's controller holds the last verified value. */
  predicate Synced<P(==)>(h: DividerHost<P>) {
    !h.poisoned && h.revision > 0 ==> h.native == h.projection
  }

  /**
   * A native write through the controller's wrapper, with the readback that follows it. The wrapper
   * errors only in its checks before the call, and a readback errs only in the same checks.
   */
  predicate WrapperCall<P(==)>(before: P, landing: Landing<P>, reading: Reading) {
    && (landing.reported == None ==> landing.value == before)
    && (landing.reported == Some(true) ==> reading != Broken)
  }

  predicate WrapperEvent<P(==)>(h: DividerHost<P>, e: Event<P>) {
    match e
    case Apply(_, _, _, _, landing, reading, undo, undoReading) =>
      WrapperCall(h.native, landing, reading) && WrapperCall(landing.value, undo, undoReading)
    case Restore(_, landing, reading) => WrapperCall(h.native, landing, reading)
  }

  /** Whatever the native call does, an unpoisoned host is left on its verified value. */
  lemma StepSynced<P>(h: DividerHost<P>, e: Event<P>)
    requires Synced(h) && WrapperEvent(h, e)
    ensures Synced(Next(h, e).0)
  {
  }

  ghost predicate WrapperRun<P>(h: DividerHost<P>, run: seq<Event<P>>)
    decreases |run|
  {
    run == [] || (WrapperEvent(h, run[0]) && WrapperRun(Next(h, run[0]).0, run[1..]))
  }

  /** Main result: in every run an unpoisoned host's controller holds the last verified value. */
  lemma {:induction false} RunSynced<P>(h: DividerHost<P>, run: seq<Event<P>>)
    requires Synced(h) && WrapperRun(h, run)
    ensures Synced(After(h, run))
    decreases |run|
  {
    if run != [] {
      StepSynced(h, run[0]);
      RunSynced(Next(h, run[0]).0, run[1..]);
    }
  }

  lemma FreshRunSynced<P>(initial: P, run: seq<Event<P>>)
    requires WrapperRun(Fresh(initial), run)
    ensures Synced(After(Fresh(initial), run))
  {
    RunSynced(Fresh(initial), run);
  }

  /** A host as it is constructed, before anything was projected. */
  function Fresh<P>(initial: P): DividerHost<P> {
    DividerHost(0, initial, false, initial)
  }

  ghost predicate NothingApplied<P>(h: DividerHost<P>, run: seq<Event<P>>)
    decreases |run|
  {
    run == [] || ((run[0].Apply? ==> Next(h, run[0]).1.Err?) && NothingApplied(Next(h, run[0]).0, run[1..]))
  }

  lemma {:induction false} VerifiedSurvives<P>(h: DividerHost<P>, run: seq<Event<P>>)
    requires NothingApplied(h, run)
    ensures After(h, run).projection == h.projection && After(h, run).revision == h.revision
    decreases |run|
  {
    if run != [] {
      VerifiedSurvives(Next(h, run[0]).0, run[1..]);
    }
  }

  /** After any failures, one restore that reports success shows the last applied value again. */
  lemma RestoreBringsBackTheApplied<P>(h: DividerHost<P>, apply: Event<P>, run: seq<Event<P>>, restore: Event<P>)
    requires apply.Apply? && Next(h, apply).1.Ok? && restore.Restore?
    requires NothingApplied(Next(h, apply).0, run)
    requires Next(After(Next(h, apply).0, run), restore).1.Ok?
    ensures var (end, answer) := Next(After(Next(h, apply).0, run), restore);
      end.native == end.projection == apply.p && !end.poisoned && answer == Ok((apply.revision, apply.p))
  {
    VerifiedSurvives(Next(h, apply).0, run);
  }

  /** Poisoned before anything was ever verified. */
  predicate Stranded<P>(h: DividerHost<P>) {
    h.poisoned && h.revision == 0
  }

  lemma StrandedRefuses<P>(h: DividerHost<P>, e: Event<P>)
    requires Stranded(h)
    ensures Next(h, e).1.Err? && Next(h, e).0 == h
  {
  }

  /** A stranded host refuses every apply and every restore for the rest of its life. */
  lemma {:induction false} StrandedForever<P>(h: DividerHost<P>, run: seq<Event<P>>)
    requires Stranded(h)
    ensures After(h, run) == h
    decreases |run|
  {
    if run != [] {
      StrandedRefuses(h, run[0]);
      StrandedForever(h, run[1..]);
    }
  }

  /** It is reached exactly by a first apply that gets to its native write and fails there. */
  lemma StrandedIffFirstWriteFails<P>(h: DividerHost<P>, e: Event<P>)
    requires !h.poisoned && h.revision == 0
    ensures Stranded(Next(h, e).0) <==>
      && e.Apply? && e.access == Access(true, true, true) && e.valid && e.revision > 0
      && Attempt(e.p, e.landing, e.reading) != Done
  {
  }

  // ---- What the host answers ---------------------------------------------------------------

  const FULL: Access := Access(true, true, true)

  /** The refusals before the controller is touched, and their reasons; they leave the host as it was. */
  lemma RefusedUntouched<P>(h: DividerHost<P>, e: Event<P>)
    requires e.Apply?
    ensures var (h', r) := Next(h, e);
      var known := e.revision > 0 && e.valid;
      && (r == Err(NotAvailable) <==>
            !e.access.identity || (known && (!e.access.healthy || !e.access.window)))
      && (r == Err(Invalid) <==> e.access.identity && !known)
      && (r == Err(HostPoisoned) <==> e.access == FULL && known && h.poisoned)
      && (r == Err(Stale) <==>
            && e.access == FULL && known && !h.poisoned
            && (e.revision < h.revision || (e.revision == h.revision && e.p != h.projection)))
      && (r.Err? && r.error !in {CallFailed, Unverified} ==> h' == h)
  {
  }

  /** The write was accepted, and the comparison found the value there. */
  predicate Verified<P(==)>(p: P, landing: Landing<P>, reading: Reading) {
    landing.reported == Some(true) && reading == Compares && landing.value == p
  }

  /** A call errored: the write, or the readback of an accepted one. */
  predicate Errored<P(==)>(landing: Landing<P>, reading: Reading) {
    landing.reported == None || (landing.reported == Some(true) && reading == Broken)
  }

  /**
   * A newer value is taken when it is verified. When a call errors the host is poisoned. Otherwise
   * the verified value is written back, and the host is poisoned unless there was one and it verifies.
   */
  lemma NewerIsTakenOrUndone<P>(h: DividerHost<P>, e: Event<P>)
    requires e.Apply? && e.access == FULL && e.valid && !h.poisoned && e.revision > h.revision
    ensures Next(h, e) ==
      if Verified(e.p, e.landing, e.reading) then (DividerHost(e.revision, e.p, false, e.p), Ok((e.revision, e.p)))
      else if Errored(e.landing, e.reading) then (h.(poisoned := true, native := e.landing.value), Err(CallFailed))
      else if h.revision == 0 then (h.(poisoned := true, native := e.landing.value), Err(Unverified))
      else (h.(poisoned := !Verified(h.projection, e.undo, e.undoReading), native := e.undo.value), Err(Unverified))
  {
  }

  /** A repeated apply only compares, and poisons the host exactly when the comparison fails. */
  lemma RepeatCompares<P>(h: DividerHost<P>, e: Event<P>)
    requires e.Apply? && e.access == FULL && e.valid && !h.poisoned && e.revision == h.revision > 0
    requires e.p == h.projection
    ensures Next(h, e) ==
      if e.reading == Broken then (h, Err(CallFailed))
      else if e.reading == Compares && h.native == e.p then (h, Ok((e.revision, e.p)))
      else (h.(poisoned := true), Err(Unverified))
  {
  }

  /** A restore writes the verified value back; only a failed comparison poisons, only success heals. */
  lemma RestoreAnswers<P>(h: DividerHost<P>, e: Event<P>)
    requires e.Restore?
    ensures Next(h, e) ==
      if e.access != FULL then (h, Err(NotAvailable))
      else if h.revision == 0 then (h, Err(NothingVerified))
      else if Verified(h.projection, e.landing, e.reading) then
        (DividerHost(h.revision, h.projection, false, h.projection), Ok((h.revision, h.projection)))
      else if Errored(e.landing, e.reading) then (h.(native := e.landing.value), Err(CallFailed))
      else (h.(poisoned := true, native := e.landing.value), Err(Unverified))
  {
  }

  /** The revision does not fall, and while it stays the verified value stays. */
  predicate Follows<P(==)>(h: DividerHost<P>, h': DividerHost<P>) {
    h'.revision >= h.revision && (h'.revision == h.revision ==> h'.projection == h.projection)
  }

  lemma StepFollows<P>(h: DividerHost<P>, e: Event<P>)
    ensures Follows(h, Next(h, e).0)
    ensures e.Apply? && Next(h, e).1.Ok? ==> Next(h, e).0.revision == e.revision && Next(h, e).0.projection == e.p
  {
  }

  lemma {:induction false} RevisionNeverFalls<P>(h: DividerHost<P>, run: seq<Event<P>>)
    ensures Follows(h, After(h, run))
    decreases |run|
  {
    if run != [] {
      StepFollows(h, run[0]);
      RevisionNeverFalls(Next(h, run[0]).0, run[1..]);
    }
  }

  /** Of two successful applies the later one has no smaller revision, and the same only with the same value. */
  lemma AppliesInOrder<P>(h: DividerHost<P>, first: Event<P>, run: seq<Event<P>>, second: Event<P>)
    requires first.Apply? && Next(h, first).1.Ok? && second.Apply? && Next(After(Next(h, first).0, run), second).1.Ok?
    ensures first.revision <= second.revision && (first.revision == second.revision ==> first.p == second.p)
  {
    StepFollows(h, first);
    RevisionNeverFalls(Next(h, first).0, run);
    StepFollows(After(Next(h, first).0, run), second);
  }
}
