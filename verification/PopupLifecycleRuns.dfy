/** Every run of the popup registry, under any interleaving of requests and events. */
module PopupLifecycleRuns {
  import opened Outcomes
  import opened Sequences
  import opened BoundedLedger
  import opened PopupLifecycle

  /** `drawn` is every identity `Uuid::new_v4` has produced. */
  datatype World = World(registry: Registry, drawn: set<string>)

  datatype Input =
    | Open(request: Request, popupId: string, operation: string)
    | Notify(event: Event, draw: string)

  ghost predicate Enabled(w: World, i: Input) {
    match i
    case Open(_, popupId, operation) => popupId !in w.drawn && operation !in w.drawn && popupId != operation
    case Notify(_, draw) => draw !in w.drawn
  }

  ghost function Next(w: World, i: Input, policy: Policy): World {
    match i
    case Open(request, popupId, operation) =>
      World(AdmitStep(w.registry, request, popupId, operation, policy).0, w.drawn + {popupId, operation})
    case Notify(event, draw) => World(ApplyStep(w.registry, event, draw, policy).0, w.drawn + {draw})
  }

  ghost function Initial(): World {
    World(Registry(map[], [], map[], [], map[]), {})
  }

  // ---- One record --------------------------------------------------------------------------

  /** What each phase says of the rest of the record. */
  ghost predicate RecordOk(r: Record) {
    && r.revision >= 1
    && (r.phase in {Admitted, NativeReady} ==> !r.openTerminal)
    && (r.phase == Ready || Terminal(r.phase) ==> r.openTerminal)
    && (r.phase == Admitted ==> r.nativeHost == None)
    && (r.phase in {NativeReady, Ready, Closing} ==> r.nativeHost.Some?)
    && (r.phase == Closing ==> ClosingOk(r))
  }

  /** A closing popup knows how it will end, and under which operation: the open one until that has settled. */
  ghost predicate ClosingOk(r: Record) {
    && r.closeOutcome.Some? && r.closeOutcome.value.phase in {Closed, Cancelled, Failed}
    && r.closeOutcome.value.status != WasSuperseded
    && (r.closeOutcome.value.status == WasApplied <==> r.closeOutcome.value.code == None)
    && r.closeOperation.Some?
    && (r.closeOperation.value == r.admission.openOperation <==> !r.openTerminal)
  }

  function Rank(p: Phase): nat {
    match p
    case Admitted => 0
    case NativeReady => 1
    case Ready => 2
    case Closing => 3
    case _ => 4
  }

  /** An event leaves a record alone or moves a live one forward by exactly one revision. */
  ghost predicate Advances(r: Record, e: Event, r': Record) {
    && RecordOk(r') && r'.admission == r.admission
    && (r.nativeHost.Some? ==> r'.nativeHost == r.nativeHost)
    && (r' != r ==> r'.revision == r.revision + 1 && !Terminal(r.phase))
    && (r' != r ==> Rank(r.phase) < Rank(r'.phase) || (r.phase == r'.phase == Closing && e.action.Fail?))
  }

  /** The receipt tells the state reached; only an event that changed nothing is answered as superseded. */
  ghost predicate Tells(r: Record, r': Record, receipt: Receipt) {
    && receipt.revision == r'.revision && receipt.phase == r'.phase
    && (receipt.lifecycleTerminal <==> Terminal(r'.phase))
    && (receipt.status == WasSuperseded <==> r' == r)
    && (receipt.closeNative ==> r'.nativeHost.Some?)
    && (receipt.closeNative && !receipt.lifecycleTerminal <==> r' != r && r'.phase == Closing)
    && (receipt.operationId == r'.admission.openOperation || Some(receipt.operationId) == r'.closeOperation)
    && (r' != r ==> (receipt.operationTerminal <==> r'.phase == Ready || Terminal(r'.phase)))
    && (r' != r && r'.phase == Closing ==> Some(receipt.operationId) == r'.closeOperation)
    && (r' != r && r.phase == Closing && CleanlyEnded(r'.phase) ==> Some(receipt.operationId) == r.closeOperation)
    && (receipt.status == WasApplied <==> receipt.code == None)
  }

  predicate CleanlyEnded(p: Phase) {
    p in {Closed, Cancelled, Failed}
  }

  ghost predicate Lawful(r: Record, e: Event, step: Step) {
    step.Ok? ==> Advances(r, e, step.value.0) && Tells(r, step.value.0, step.value.1)
  }

  lemma HostReadyLawful(r: Record, e: Event, host: NativeHost, policy: Policy)
    requires RecordOk(r)
    ensures Lawful(r, e, OnHostReady(r, e, host, policy))
  {
  }

  lemma PageReadyLawful(r: Record, e: Event, url: string, policy: Policy)
    requires RecordOk(r)
    ensures Lawful(r, e, OnPageReady(r, e, url, policy))
  {
  }

  lemma CloseRequestedLawful(r: Record, e: Event, reason: CloseReason, draw: string)
    requires RecordOk(r) && draw != r.admission.openOperation
    ensures Lawful(r, e, OnCloseRequested(r, e, reason, draw))
  {
  }

  /** A closing popup reaches the outcome recorded for it, under the operation recorded for it. */
  lemma NativeClosedLawful(r: Record, e: Event)
    requires RecordOk(r)
    ensures Lawful(r, e, OnNativeClosed(r, e)) && OnNativeClosed(r, e).Ok?
    ensures var (r', receipt) := OnNativeClosed(r, e).value;
      && (r.phase == Closing ==>
            && Some(CloseOutcome(r'.phase, receipt.status, receipt.code)) == r.closeOutcome
            && Some(receipt.operationId) == r.closeOperation && receipt.scope == NativeDestroyed)
      && (!Terminal(r.phase) && r.phase != Closing ==> r'.phase == Indeterminate && receipt.status == WasIndeterminate)
  {
  }

  lemma CancelLawful(r: Record, e: Event, code: string)
    requires RecordOk(r)
    ensures Lawful(r, e, OnCancel(r, e, code))
  {
  }

  lemma FailLawful(r: Record, e: Event, code: string, unknown: bool, draw: string)
    requires RecordOk(r) && draw != r.admission.openOperation && e.action.Fail?
    ensures Lawful(r, e, OnFail(r, e, code, unknown, draw))
    ensures OnFail(r, e, code, unknown, draw).Ok? <==> ValidFailureCode(code)
    ensures ValidFailureCode(code) && !Terminal(r.phase) ==>
      var (r', receipt) := OnFail(r, e, code, unknown, draw).value;
      && receipt.code == Some(code)
      && (unknown ==> r'.phase == Indeterminate && receipt.closeNative == r.nativeHost.Some?)
      && (!unknown && r.nativeHost.Some? ==>
            r'.phase == Closing && r'.closeOutcome == Some(CloseOutcome(Failed, WasFailed, Some(code))))
      && (!unknown && r.nativeHost == None ==> r'.phase == Failed)
  {
  }

  /** Every answered event is lawful, and only one with the present revision has an effect. */
  lemma OutcomeLawful(r: Record, e: Event, draw: string, policy: Policy)
    requires RecordOk(r) && draw != r.admission.openOperation
    ensures Lawful(r, e, Outcome(r, e, draw, policy))
    ensures Outcome(r, e, draw, policy).Ok? && Outcome(r, e, draw, policy).value.0 != r ==>
      e.expectedRevision == r.revision
  {
    match e.action
    case HostReady(host) => HostReadyLawful(r, e, host, policy);
    case PageReady(url) => PageReadyLawful(r, e, url, policy);
    case CloseRequested(reason) => CloseRequestedLawful(r, e, reason, draw);
    case NativeClosed => NativeClosedLawful(r, e);
    case Cancel(code) => CancelLawful(r, e, code);
    case Fail(code, unknown) => FailLawful(r, e, code, unknown, draw);
  }

  // ---- The invariant -----------------------------------------------------------------------

  ghost predicate PopupOk(w: World, id: string)
    requires id in w.registry.popups
  {
    var r := w.registry.popups[id];
    RecordOk(r) && r.admission.popupId == id && id in w.drawn && r.admission.openOperation in w.drawn
  }

  ghost predicate RequestOk(s: Registry, id: string)
    requires id in s.requests
  {
    var entry := s.requests[id];
    && entry.request.id == id
    && entry.admission == AdmissionOf(entry.request, entry.admission.popupId, entry.admission.openOperation,
         entry.admission.target, entry.admission.title)
    && entry.admission.popupId in s.popups && s.popups[entry.admission.popupId].admission == entry.admission
  }

  ghost predicate EventOk(s: Registry, id: string)
    requires id in s.events
  {
    s.events[id].event.id == id && s.events[id].receipt.eventId == id
  }

  ghost predicate Inv(w: World) {
    var s := w.registry;
    && (forall id | id in s.popups :: PopupOk(w, id))
    && |Active(s.popups)| <= MAX_ACTIVE_POPUPS
    && LedgerOk(s.requestOrder, s.requests, MAX_RETAINED_REQUESTS)
    && LedgerOk(s.eventOrder, s.events, MAX_RETAINED_EVENTS)
    && (forall id | id in s.requests :: RequestOk(s, id))
    && (forall id | id in s.events :: EventOk(s, id))
  }

  lemma OpenInv(w: World, request: Request, popupId: string, operation: string, policy: Policy)
    requires Inv(w) && Enabled(w, Open(request, popupId, operation))
    ensures Inv(Next(w, Open(request, popupId, operation), policy))
  {
    var s, w' := w.registry, Next(w, Open(request, popupId, operation), policy);
    if w'.registry == s {
      SameRegistryInv(w, w');
    } else {
      var target := PopupTarget(request.parentTarget, popupId).value;
      var title := TitleOf(policy.parse(request.targetUrl).value);
      EnterInv(w, request, AdmissionOf(request, popupId, operation, target, title));
    }
  }

  lemma SameRegistryInv(w: World, w': World)
    requires Inv(w) && w'.registry == w.registry && w.drawn <= w'.drawn
    ensures Inv(w')
  {
    forall id | id in w'.registry.popups ensures PopupOk(w', id) { assert PopupOk(w, id); }
  }

  lemma EnterInv(w: World, request: Request, a: Admission)
    requires a == AdmissionOf(request, a.popupId, a.openOperation, a.target, a.title)
    requires Inv(w) && a.popupId !in w.drawn && a.openOperation !in w.drawn
    requires request.id !in w.registry.requests && |Active(w.registry.popups)| < MAX_ACTIVE_POPUPS
    ensures Inv(World(Enter(w.registry, request, a), w.drawn + {a.popupId, a.openOperation}))
  {
    var s := w.registry;
    var s' := Enter(s, request, a);
    forall id | id in s.popups ensures id != a.popupId { assert PopupOk(w, id); }
    EnteredPopups(w, World(s', w.drawn + {a.popupId, a.openOperation}), request, a);
    EnteredActive(s, request, a);
    LedgerKeeps(s.requestOrder, s.requests, request.id, RequestEntry(request, a), MAX_RETAINED_REQUESTS);
    EnteredRequests(s, request, a);
    forall id | id in s'.events ensures EventOk(s', id) { assert EventOk(s, id); }
  }

  lemma EnteredPopups(w: World, w': World, request: Request, a: Admission)
    requires forall id | id in w.registry.popups :: PopupOk(w, id)
    requires a.popupId !in w.registry.popups
    requires w' == World(Enter(w.registry, request, a), w.drawn + {a.popupId, a.openOperation})
    ensures forall id | id in w'.registry.popups :: PopupOk(w', id)
  {
    forall id | id in w'.registry.popups ensures PopupOk(w', id) {
      if id != a.popupId { assert PopupOk(w, id); }
    }
  }

  lemma EnteredActive(s: Registry, request: Request, a: Admission)
    requires a.popupId !in s.popups
    ensures |Active(Enter(s, request, a).popups)| == |Active(s.popups)| + 1
  {
    assert Active(Enter(s, request, a).popups) == Active(s.popups) + {a.popupId};
  }

  lemma EnteredRequests(s: Registry, request: Request, a: Admission)
    requires a == AdmissionOf(request, a.popupId, a.openOperation, a.target, a.title)
    requires forall id | id in s.requests :: RequestOk(s, id)
    requires a.popupId !in s.popups
    ensures forall id | id in Enter(s, request, a).requests :: RequestOk(Enter(s, request, a), id)
  {
    var s' := Enter(s, request, a);
    forall id | id in s'.requests ensures RequestOk(s', id) {
      if id != request.id { assert RequestOk(s, id); }
    }
  }

  /** An event leaves the registry alone, or is new and is noted with its record and receipt. */
  lemma NotifyCases(s: Registry, e: Event, draw: string, policy: Policy)
    ensures var s' := ApplyStep(s, e, draw, policy).0;
      || s' == s
      || (&& e.id !in s.events && e.popupId in s.popups && Outcome(s.popups[e.popupId], e, draw, policy).Ok?
          && var (record, receipt) := Outcome(s.popups[e.popupId], e, draw, policy).value;
             s' == Note(s, e, record, receipt))
  {
  }

  lemma ReceiptNamesEvent(r: Record, e: Event, draw: string, policy: Policy)
    requires Outcome(r, e, draw, policy).Ok?
    ensures Outcome(r, e, draw, policy).value.1.eventId == e.id
  {
  }

  lemma NotifyInv(w: World, e: Event, draw: string, policy: Policy)
    requires Inv(w) && Enabled(w, Notify(e, draw))
    ensures Inv(Next(w, Notify(e, draw), policy))
  {
    var s, w' := w.registry, Next(w, Notify(e, draw), policy);
    NotifyCases(s, e, draw, policy);
    if w'.registry == s {
      SameRegistryInv(w, w');
    } else {
      assert PopupOk(w, e.popupId);
      var r := s.popups[e.popupId];
      OutcomeLawful(r, e, draw, policy);
      ReceiptNamesEvent(r, e, draw, policy);
      NoteInv(w, e, Outcome(r, e, draw, policy).value.0, Outcome(r, e, draw, policy).value.1, draw);
    }
  }

  lemma NotedActive(s: Registry, e: Event, record: Record, receipt: Receipt)
    requires e.popupId in s.popups && (Terminal(s.popups[e.popupId].phase) ==> record == s.popups[e.popupId])
    ensures |Active(Note(s, e, record, receipt).popups)| <= |Active(s.popups)|
  {
    SubsetSize(Active(Note(s, e, record, receipt).popups), Active(s.popups));
  }

  lemma NoteInv(w: World, e: Event, record: Record, receipt: Receipt, draw: string)
    requires Inv(w) && e.popupId in w.registry.popups && e.id !in w.registry.events && receipt.eventId == e.id
    requires RecordOk(record) && record.admission == w.registry.popups[e.popupId].admission
    requires Terminal(w.registry.popups[e.popupId].phase) ==> record == w.registry.popups[e.popupId]
    ensures Inv(World(Note(w.registry, e, record, receipt), w.drawn + {draw}))
  {
    var s := w.registry;
    var s' := Note(s, e, record, receipt);
    var w' := World(s', w.drawn + {draw});
    forall id | id in s'.popups ensures PopupOk(w', id) { assert PopupOk(w, id); }
    NotedActive(s, e, record, receipt);
    LedgerKeeps(s.eventOrder, s.events, e.id, EventEntry(e, receipt), MAX_RETAINED_EVENTS);
    forall id | id in s'.requests ensures RequestOk(s', id) { assert RequestOk(s, id); }
    forall id | id in s'.events ensures EventOk(s', id) {
      if id != e.id { assert EventOk(s, id); }
    }
  }

  lemma NextInv(w: World, i: Input, policy: Policy)
    requires Inv(w) && Enabled(w, i)
    ensures Inv(Next(w, i, policy))
  {
    match i
    case Open(request, popupId, operation) => OpenInv(w, request, popupId, operation, policy);
    case Notify(event, draw) => NotifyInv(w, event, draw, policy);
  }

  // ---- Runs --------------------------------------------------------------------------------

  ghost predicate ValidRun(w: World, run: seq<Input>, policy: Policy)
    decreases |run|
  {
    run == [] || (Enabled(w, run[0]) && ValidRun(Next(w, run[0], policy), run[1..], policy))
  }

  ghost function After(w: World, run: seq<Input>, policy: Policy): World
    decreases |run|
  {
    if run == [] then w else After(Next(w, run[0], policy), run[1..], policy)
  }

  /** At most 64 live popups, truthful records and exact bounded ledgers, in every run. */
  lemma {:induction false} RunInv(w: World, run: seq<Input>, policy: Policy)
    requires Inv(w) && ValidRun(w, run, policy)
    ensures Inv(After(w, run, policy))
    decreases |run|
  {
    if run != [] {
      NextInv(w, run[0], policy);
      RunInv(Next(w, run[0], policy), run[1..], policy);
    }
  }

  lemma InitialInv()
    ensures Inv(Initial())
  {
  }

  /** Main result: the empty registry keeps the invariant along every run. */
  lemma ReachableInv(run: seq<Input>, policy: Policy)
    requires ValidRun(Initial(), run, policy)
    ensures Inv(After(Initial(), run, policy))
    ensures var s := After(Initial(), run, policy).registry;
      |Active(s.popups)| <= 64 && |s.requests| <= 128 && |s.events| <= 256
  {
    InitialInv();
    RunInv(Initial(), run, policy);
    var s := After(Initial(), run, policy).registry;
    NoDupSize(s.requestOrder, s.requests.Keys);
    NoDupSize(s.eventOrder, s.events.Keys);
  }

  /** An admission adds at most one popup, under a new identity, and leaves the event ledger alone. */
  lemma OpenFrame(s: Registry, request: Request, popupId: string, operation: string, policy: Policy)
    requires popupId !in s.popups
    ensures var s' := AdmitStep(s, request, popupId, operation, policy).0;
      && (forall id | id in s.popups :: id in s'.popups && s'.popups[id] == s.popups[id])
      && s'.events == s.events && s'.eventOrder == s.eventOrder
  {
  }

  lemma OpenedFrame(w: World, i: Input, policy: Policy)
    requires Inv(w) && Enabled(w, i) && i.Open?
    ensures var s, s' := w.registry, Next(w, i, policy).registry;
      && (forall id | id in s.popups :: id in s'.popups && s'.popups[id] == s.popups[id])
      && s'.events == s.events && s'.eventOrder == s.eventOrder
  {
    forall id | id in w.registry.popups ensures id != i.popupId { assert PopupOk(w, id); }
    OpenFrame(w.registry, i.request, i.popupId, i.operation, policy);
  }

  /** One step keeps every popup and changes at most the one its event names. */
  lemma StepFrame(w: World, i: Input, policy: Policy, id: string)
    requires Inv(w) && Enabled(w, i) && id in w.registry.popups
    ensures id in Next(w, i, policy).registry.popups
    ensures Next(w, i, policy).registry.popups[id] != w.registry.popups[id] ==>
      && i.Notify? && i.event.popupId == id && i.event.expectedRevision == w.registry.popups[id].revision
      && Outcome(w.registry.popups[id], i.event, i.draw, policy).Ok?
      && Next(w, i, policy).registry.popups[id] == Outcome(w.registry.popups[id], i.event, i.draw, policy).value.0
      && Next(w, i, policy).registry.popups[id].revision == w.registry.popups[id].revision + 1
      && !Terminal(w.registry.popups[id].phase)
  {
    match i
    case Open(_, _, _) => OpenedFrame(w, i, policy);
    case Notify(event, draw) =>
      assert PopupOk(w, id);
      NotifyCases(w.registry, event, draw, policy);
      OutcomeLawful(w.registry.popups[id], event, draw, policy);
  }

  /** The step moves the popup `id`. */
  ghost predicate Effective(w: World, i: Input, policy: Policy, id: string) {
    id in w.registry.popups && id in Next(w, i, policy).registry.popups
    && Next(w, i, policy).registry.popups[id] != w.registry.popups[id]
  }

  ghost function Effects(w: World, run: seq<Input>, policy: Policy, id: string): nat
    decreases |run|
  {
    if run == [] then 0 else
      (if Effective(w, run[0], policy, id) then 1 else 0) + Effects(Next(w, run[0], policy), run[1..], policy, id)
  }

  /** A popup's revision counts the events that moved it: none is lost and none counts twice. */
  lemma {:induction false} RevisionCountsEffects(w: World, run: seq<Input>, policy: Policy, id: string)
    requires Inv(w) && ValidRun(w, run, policy) && id in w.registry.popups
    ensures id in After(w, run, policy).registry.popups
    ensures After(w, run, policy).registry.popups[id].revision ==
      w.registry.popups[id].revision + Effects(w, run, policy, id)
    decreases |run|
  {
    if run != [] {
      StepFrame(w, run[0], policy, id);
      NextInv(w, run[0], policy);
      RevisionCountsEffects(Next(w, run[0], policy), run[1..], policy, id);
    }
  }

  /**
   * Main result: an event that has once moved its popup never moves it again, however long the run
   * and even after the ledger has forgotten it.
   */
  lemma EachEventMovesOnce(w: World, e: Event, draw: string, run: seq<Input>, draw': string, policy: Policy)
    requires Inv(w) && Enabled(w, Notify(e, draw)) && Effective(w, Notify(e, draw), policy, e.popupId)
    requires ValidRun(Next(w, Notify(e, draw), policy), run, policy)
    requires Enabled(After(Next(w, Notify(e, draw), policy), run, policy), Notify(e, draw'))
    ensures var end := After(Next(w, Notify(e, draw), policy), run, policy);
      forall id | id in end.registry.popups :: !Effective(end, Notify(e, draw'), policy, id)
  {
    var w1 := Next(w, Notify(e, draw), policy);
    var end := After(w1, run, policy);
    StepFrame(w, Notify(e, draw), policy, e.popupId);
    NextInv(w, Notify(e, draw), policy);
    RunInv(w1, run, policy);
    RevisionCountsEffects(w1, run, policy, e.popupId);
    forall id | id in end.registry.popups ensures !Effective(end, Notify(e, draw'), policy, id) {
      StepFrame(end, Notify(e, draw'), policy, id);
    }
  }

  /** A terminal popup's record never changes again. */
  lemma {:induction false} TerminalIsFinal(w: World, run: seq<Input>, policy: Policy, id: string)
    requires Inv(w) && ValidRun(w, run, policy) && id in w.registry.popups && Terminal(w.registry.popups[id].phase)
    ensures id in After(w, run, policy).registry.popups
    ensures After(w, run, policy).registry.popups[id] == w.registry.popups[id]
    decreases |run|
  {
    if run != [] {
      StepFrame(w, run[0], policy, id);
      NextInv(w, run[0], policy);
      TerminalIsFinal(Next(w, run[0], policy), run[1..], policy, id);
    }
  }

  /** Phases never go back. */
  lemma {:induction false} PhasesMoveForward(w: World, run: seq<Input>, policy: Policy, id: string)
    requires Inv(w) && ValidRun(w, run, policy) && id in w.registry.popups
    ensures id in After(w, run, policy).registry.popups
    ensures Rank(w.registry.popups[id].phase) <= Rank(After(w, run, policy).registry.popups[id].phase)
    decreases |run|
  {
    if run != [] {
      assert PopupOk(w, id);
      StepFrame(w, run[0], policy, id);
      if Next(w, run[0], policy).registry.popups[id] != w.registry.popups[id] {
        OutcomeLawful(w.registry.popups[id], run[0].event, run[0].draw, policy);
      }
      NextInv(w, run[0], policy);
      PhasesMoveForward(Next(w, run[0], policy), run[1..], policy, id);
    }
  }

  // ---- How a hosted popup ends -------------------------------------------------------------

  predicate HostedLive(r: Record) {
    r.nativeHost.Some? && !Terminal(r.phase)
  }

  /** With a native host, only the native close of a closing popup ends it cleanly, as was recorded. */
  lemma HostedEndsByNativeClose(r: Record, e: Event, draw: string, policy: Policy)
    requires RecordOk(r) && HostedLive(r) && Outcome(r, e, draw, policy).Ok?
    ensures var r' := Outcome(r, e, draw, policy).value.0;
      && (HostedLive(r') || r'.phase == Indeterminate || CleanlyEnded(r'.phase))
      && (CleanlyEnded(r'.phase) ==>
            e.action == NativeClosed && r.phase == Closing && r'.phase == r.closeOutcome.value.phase)
  {
  }

  lemma AfterPrefix(w: World, run: seq<Input>, policy: Policy, j: nat)
    requires j < |run|
    ensures After(w, run[..j + 1], policy) == After(Next(w, run[0], policy), run[1..][..j], policy)
  {
    assert run[..j + 1][0] == run[0] && run[..j + 1][1..] == run[1..][..j];
  }

  /** The step is an applied `NativeClosed` of the popup `id`. */
  ghost predicate ClosedBy(w: World, i: Input, policy: Policy, id: string) {
    i.Notify? && i.event.popupId == id && i.event.action == NativeClosed && Effective(w, i, policy, id)
  }

  /** One step leaves a hosted popup live, ends it cleanly by a `NativeClosed`, or leaves its end unknown. */
  lemma HostedStep(w: World, i: Input, policy: Policy, id: string)
    requires Inv(w) && Enabled(w, i) && id in w.registry.popups && HostedLive(w.registry.popups[id])
    ensures id in Next(w, i, policy).registry.popups
    ensures var r' := Next(w, i, policy).registry.popups[id];
      || HostedLive(r') || r'.phase == Indeterminate
      || ClosedBy(w, i, policy, id)
  {
    assert PopupOk(w, id);
    StepFrame(w, i, policy, id);
    if Next(w, i, policy).registry.popups[id] != w.registry.popups[id] {
      HostedEndsByNativeClose(w.registry.popups[id], i.event, i.draw, policy);
    }
  }

  /** A hosted popup that is cleanly ended in the end, and not by this step, is live after it. */
  lemma HostedGoesOn(w: World, run: seq<Input>, policy: Policy, id: string)
    requires Inv(w) && ValidRun(w, run, policy) && run != [] && !ClosedBy(w, run[0], policy, id)
    requires id in w.registry.popups && HostedLive(w.registry.popups[id])
    requires id in After(w, run, policy).registry.popups
    requires CleanlyEnded(After(w, run, policy).registry.popups[id].phase)
    ensures Inv(Next(w, run[0], policy)) && id in Next(w, run[0], policy).registry.popups
    ensures HostedLive(Next(w, run[0], policy).registry.popups[id])
  {
    HostedStep(w, run[0], policy, id);
    NextInv(w, run[0], policy);
    if Terminal(Next(w, run[0], policy).registry.popups[id].phase) {
      TerminalIsFinal(Next(w, run[0], policy), run[1..], policy, id);
    }
  }

  /** Main result: a popup that had a native host is cleanly closed only after an applied `NativeClosed`. */
  lemma {:induction false} CleanEndNeedsNativeClose(w: World, run: seq<Input>, policy: Policy, id: string)
    returns (i: nat)
    requires Inv(w) && ValidRun(w, run, policy) && id in w.registry.popups && HostedLive(w.registry.popups[id])
    requires id in After(w, run, policy).registry.popups &&
      CleanlyEnded(After(w, run, policy).registry.popups[id].phase)
    ensures i < |run| && ClosedBy(After(w, run[..i], policy), run[i], policy, id)
    decreases |run|
  {
    if ClosedBy(w, run[0], policy, id) {
      i := 0;
    } else {
      HostedGoesOn(w, run, policy, id);
      var j := CleanEndNeedsNativeClose(Next(w, run[0], policy), run[1..], policy, id);
      i := j + 1;
      AfterPrefix(w, run, policy, j);
    }
  }

  ghost predicate NoFailure(run: seq<Input>, id: string) {
    forall i | 0 <= i < |run| && run[i].Notify? && run[i].event.popupId == id :: !run[i].event.action.Fail?
  }

  /** A closing popup ignores every event but its native close, which reaches the recorded outcome. */
  lemma ClosingStep(r: Record, e: Event, draw: string, policy: Policy)
    requires RecordOk(r) && r.phase == Closing && !e.action.Fail?
    requires Outcome(r, e, draw, policy).Ok? && Outcome(r, e, draw, policy).value.0 != r
    ensures e.action == NativeClosed && e.expectedRevision == r.revision
    ensures var (r', receipt) := Outcome(r, e, draw, policy).value;
      && r'.closeOutcome == r.closeOutcome && Terminal(r'.phase)
      && Some(CloseOutcome(r'.phase, receipt.status, receipt.code)) == r.closeOutcome
  {
  }

  /**
   * Main result: however a run goes on, a closing popup for which no failure is reported is still
   * closing towards the same outcome or has ended in the phase recorded when its close was asked.
   */
  lemma {:induction false} ClosingEndsAsRecorded(w: World, run: seq<Input>, policy: Policy, id: string)
    requires Inv(w) && ValidRun(w, run, policy) && NoFailure(run, id)
    requires id in w.registry.popups && w.registry.popups[id].phase == Closing
    ensures id in After(w, run, policy).registry.popups
    ensures var r, r' := w.registry.popups[id], After(w, run, policy).registry.popups[id];
      r' == r || (r'.closeOutcome == r.closeOutcome && r.closeOutcome.Some? && r'.phase == r.closeOutcome.value.phase)
    decreases |run|
  {
    if run != [] {
      assert PopupOk(w, id);
      StepFrame(w, run[0], policy, id);
      NextInv(w, run[0], policy);
      if Next(w, run[0], policy).registry.popups[id] == w.registry.popups[id] {
        ClosingEndsAsRecorded(Next(w, run[0], policy), run[1..], policy, id);
      } else {
        assert run[0].Notify? && !run[0].event.action.Fail?;
        ClosingStep(w.registry.popups[id], run[0].event, run[0].draw, policy);
        TerminalIsFinal(Next(w, run[0], policy), run[1..], policy, id);
      }
    }
  }

  // ---- Admission and closing always work ---------------------------------------------------

  /**
   * A new request is admitted exactly when it is well formed, fewer than 64 popups are live and the
   * parent's display holds 640 by 480; its title is then the host of its address.
   */
  lemma AdmittedIff(w: World, request: Request, popupId: string, operation: string, policy: Policy)
    requires Inv(w) && CanonicalUuid(request.id) && request.id !in w.registry.requests
    ensures var answer := AdmitStep(w.registry, request, popupId, operation, policy).1;
      && (answer.Ok? <==>
            && ValidateOpenRequest(request, policy).Ok? && |Active(w.registry.popups)| < 64
            && ReadableTarget(request.parentTarget)
            && request.parentTarget.workArea.width >= 640 && request.parentTarget.workArea.height >= 480)
      && (answer.Ok? ==>
            var host := policy.parse(request.targetUrl).value.host.value;
            answer.value.title == if host == "" then "Popup" else host)
      && (answer == Err(Capacity) <==>
            ValidateOpenRequest(request, policy).Ok? && |Active(w.registry.popups)| == 64)
      && answer != Err(TargetInvalid)
  {
    PopupStaysInWorkArea(request.parentTarget, popupId);
  }

  /** An event with this action at the popup's present revision. */
  function Current(w: World, id: string, eventId: string, action: Action): Event
    requires id in w.registry.popups
  {
    var r := w.registry.popups[id];
    Event(eventId, id, r.admission.parent, r.revision, action)
  }

  lemma NewEventApplies(w: World, id: string, eventId: string, action: Action, draw: string, policy: Policy)
    requires id in w.registry.popups && CanonicalUuid(eventId) && eventId !in w.registry.events
    requires Outcome(w.registry.popups[id], Current(w, id, eventId, action), draw, policy).Ok?
    ensures var e := Current(w, id, eventId, action);
      var (record, receipt) := Outcome(w.registry.popups[id], e, draw, policy).value;
      ApplyStep(w.registry, e, draw, policy).0 == Note(w.registry, e, record, receipt)
  {
  }

  lemma RecordCloses(r: Record, e: Event, reason: CloseReason, draw: string, policy: Policy)
    requires RecordOk(r) && !Terminal(r.phase) && draw != r.admission.openOperation
    requires e.expectedRevision == r.revision && e.action == CloseRequested(reason)
    ensures Outcome(r, e, draw, policy).Ok?
    ensures var r' := Outcome(r, e, draw, policy).value.0;
      if r.nativeHost == None then CleanlyEnded(r'.phase) else r'.phase == Closing && ClosingOk(r')
  {
  }

  lemma CloseAsked(w: World, id: string, reason: CloseReason, first: string, draw: string, policy: Policy)
    requires Inv(w) && id in w.registry.popups && !Terminal(w.registry.popups[id].phase)
    requires CanonicalUuid(first) && first !in w.registry.events && draw !in w.drawn
    ensures var asked := Next(w, Notify(Current(w, id, first, CloseRequested(reason)), draw), policy);
      && id in asked.registry.popups
      && (forall other | other in asked.registry.events :: other == first || other in w.registry.events)
      && (if w.registry.popups[id].nativeHost == None then CleanlyEnded(asked.registry.popups[id].phase)
          else asked.registry.popups[id].phase == Closing && ClosingOk(asked.registry.popups[id]))
  {
    assert PopupOk(w, id);
    RecordCloses(w.registry.popups[id], Current(w, id, first, CloseRequested(reason)), reason, draw, policy);
    NewEventApplies(w, id, first, CloseRequested(reason), draw, policy);
  }

  lemma CloseConfirmed(w: World, id: string, second: string, draw: string, policy: Policy)
    requires id in w.registry.popups && w.registry.popups[id].phase == Closing && ClosingOk(w.registry.popups[id])
    requires CanonicalUuid(second) && second !in w.registry.events
    ensures var closed := Next(w, Notify(Current(w, id, second, NativeClosed), draw), policy);
      id in closed.registry.popups && CleanlyEnded(closed.registry.popups[id].phase)
  {
    NewEventApplies(w, id, second, NativeClosed, draw, policy);
  }

  /** From every live phase a requested close, confirmed by the native side when there is one, ends the popup. */
  lemma EveryLivePopupCanBeClosed(
    w: World, id: string, reason: CloseReason, first: string, second: string, draw: string, draw': string,
    policy: Policy)
    requires Inv(w) && id in w.registry.popups && !Terminal(w.registry.popups[id].phase)
    requires Enabled(w, Notify(Current(w, id, first, CloseRequested(reason)), draw))
    requires CanonicalUuid(first) && CanonicalUuid(second) && first != second
    requires first !in w.registry.events && second !in w.registry.events
    ensures var asked := Next(w, Notify(Current(w, id, first, CloseRequested(reason)), draw), policy);
      && id in asked.registry.popups
      && (w.registry.popups[id].nativeHost == None ==> CleanlyEnded(asked.registry.popups[id].phase))
      && (w.registry.popups[id].nativeHost.Some? ==>
            var closed := Next(asked, Notify(Current(asked, id, second, NativeClosed), draw'), policy);
            id in closed.registry.popups && CleanlyEnded(closed.registry.popups[id].phase))
  {
    CloseAsked(w, id, reason, first, draw, policy);
    if w.registry.popups[id].nativeHost.Some? {
      var asked := Next(w, Notify(Current(w, id, first, CloseRequested(reason)), draw), policy);
      CloseConfirmed(asked, id, second, draw', policy);
    }
  }

  // ---- The event ledger --------------------------------------------------------------------

  /** The step answers an event the ledger did not know. */
  ghost predicate Recorded(w: World, i: Input, policy: Policy) {
    Next(w, i, policy).registry.eventOrder != w.registry.eventOrder
  }

  ghost function Recordings(w: World, run: seq<Input>, policy: Policy): nat
    decreases |run|
  {
    if run == [] then 0 else
      (if Recorded(w, run[0], policy) then 1 else 0) + Recordings(Next(w, run[0], policy), run[1..], policy)
  }

  lemma NoteRetains(s: Registry, e: Event, record: Record, receipt: Receipt, id: string, newer: nat)
    requires LedgerOk(s.eventOrder, s.events, MAX_RETAINED_EVENTS) && e.id !in s.events
    requires Retained(s.eventOrder, id, newer) && newer + 1 < MAX_RETAINED_EVENTS
    ensures var s' := Note(s, e, record, receipt);
      && s'.eventOrder != s.eventOrder && Retained(s'.eventOrder, id, newer + 1)
      && id in s.events && id in s'.events && s'.events[id] == s.events[id]
  {
    AddedIsKept(s.eventOrder, e.id, MAX_RETAINED_EVENTS);
    RetainedValue(s.eventOrder, s.events, id, newer, e.id, EventEntry(e, receipt), MAX_RETAINED_EVENTS);
  }

  lemma RetainedNext(w: World, i: Input, policy: Policy, id: string, newer: nat)
    requires Inv(w) && Enabled(w, i) && Retained(w.registry.eventOrder, id, newer) && newer + 1 < MAX_RETAINED_EVENTS
    ensures var s' := Next(w, i, policy).registry;
      && Retained(s'.eventOrder, id, newer + if Recorded(w, i, policy) then 1 else 0)
      && id in w.registry.events && id in s'.events && s'.events[id] == w.registry.events[id]
  {
    var s := w.registry;
    assert id in s.eventOrder;
    match i
    case Open(_, _, _) => OpenedFrame(w, i, policy);
    case Notify(event, draw) =>
      NotifyCases(s, event, draw, policy);
      if Next(w, i, policy).registry != s {
        var (record, receipt) := Outcome(s.popups[event.popupId], event, draw, policy).value;
        NoteRetains(s, event, record, receipt, id, newer);
      }
  }

  lemma {:induction false} RetainedThroughRun(w: World, run: seq<Input>, policy: Policy, id: string, newer: nat)
    requires Inv(w) && ValidRun(w, run, policy) && Retained(w.registry.eventOrder, id, newer)
    requires newer + Recordings(w, run, policy) < MAX_RETAINED_EVENTS
    ensures id in w.registry.events && id in After(w, run, policy).registry.events
    ensures After(w, run, policy).registry.events[id] == w.registry.events[id]
    decreases |run|
  {
    assert id in w.registry.eventOrder;
    if run != [] {
      if newer + 1 < MAX_RETAINED_EVENTS {
        RetainedNext(w, run[0], policy, id, newer);
      } else {
        UnrecordedStep(w, run[0], policy);
      }
      NextInv(w, run[0], policy);
      var newer' := newer + if Recorded(w, run[0], policy) then 1 else 0;
      RetainedThroughRun(Next(w, run[0], policy), run[1..], policy, id, newer');
    }
  }

  lemma UnrecordedStep(w: World, i: Input, policy: Policy)
    requires Inv(w) && Enabled(w, i) && !Recorded(w, i, policy)
    ensures Next(w, i, policy).registry.events == w.registry.events
    ensures Next(w, i, policy).registry.eventOrder == w.registry.eventOrder
  {
    match i
    case Open(_, _, _) => OpenedFrame(w, i, policy);
    case Notify(event, draw) =>
      NotifyCases(w.registry, event, draw, policy);
      if event.id !in w.registry.events {
        AddedIsKept(w.registry.eventOrder, event.id, MAX_RETAINED_EVENTS);
      }
  }

  /**
   * A replayed event is answered with its first receipt, and changes nothing, while at most 255
   * newer ones are recorded.
   */
  lemma ReplayAnswersAlike(w: World, e: Event, draw: string, run: seq<Input>, draw': string, policy: Policy)
    requires Inv(w) && Enabled(w, Notify(e, draw)) && e.id !in w.registry.events
    requires ApplyStep(w.registry, e, draw, policy).1.Ok?
    requires ValidRun(Next(w, Notify(e, draw), policy), run, policy)
    requires Recordings(Next(w, Notify(e, draw), policy), run, policy) < 256
    ensures var end := After(Next(w, Notify(e, draw), policy), run, policy);
      ApplyStep(end.registry, e, draw', policy) == (end.registry, ApplyStep(w.registry, e, draw, policy).1)
  {
    var w1 := Next(w, Notify(e, draw), policy);
    NextInv(w, Notify(e, draw), policy);
    AddedIsRetained(w.registry.eventOrder, e.id, MAX_RETAINED_EVENTS);
    assert w1.registry.eventOrder == Kept(w.registry.eventOrder + [e.id], MAX_RETAINED_EVENTS);
    RetainedThroughRun(w1, run, policy, e.id, 0);
  }

  // ---- The request ledger ------------------------------------------------------------------

  /** The step admits a request the ledger did not know. */
  ghost predicate Entered(w: World, i: Input, policy: Policy) {
    Next(w, i, policy).registry.requestOrder != w.registry.requestOrder
  }

  ghost function Admissions(w: World, run: seq<Input>, policy: Policy): nat
    decreases |run|
  {
    if run == [] then 0 else
      (if Entered(w, run[0], policy) then 1 else 0) + Admissions(Next(w, run[0], policy), run[1..], policy)
  }

  lemma OpenCases(s: Registry, request: Request, popupId: string, operation: string, policy: Policy)
    ensures var (s', r) := AdmitStep(s, request, popupId, operation, policy);
      || s' == s
      || (request.id !in s.requests && r.Ok? && r.value.requestId == request.id && s' == Enter(s, request, r.value))
  {
  }

  lemma EnterRetains(s: Registry, request: Request, a: Admission, id: string, newer: nat)
    requires LedgerOk(s.requestOrder, s.requests, MAX_RETAINED_REQUESTS) && request.id !in s.requests
    requires a.requestId == request.id && Retained(s.requestOrder, id, newer) && newer + 1 < MAX_RETAINED_REQUESTS
    ensures var s' := Enter(s, request, a);
      && s'.requestOrder != s.requestOrder && Retained(s'.requestOrder, id, newer + 1)
      && id in s.requests && id in s'.requests && s'.requests[id] == s.requests[id]
  {
    AddedIsKept(s.requestOrder, request.id, MAX_RETAINED_REQUESTS);
    RetainedValue(
      s.requestOrder, s.requests, id, newer, request.id, RequestEntry(request, a), MAX_RETAINED_REQUESTS);
  }

  lemma RequestNext(w: World, i: Input, policy: Policy, id: string, newer: nat)
    requires Inv(w) && Enabled(w, i) && Retained(w.registry.requestOrder, id, newer)
    requires newer + 1 < MAX_RETAINED_REQUESTS
    ensures var s' := Next(w, i, policy).registry;
      && Retained(s'.requestOrder, id, newer + if Entered(w, i, policy) then 1 else 0)
      && id in w.registry.requests && id in s'.requests && s'.requests[id] == w.registry.requests[id]
  {
    var s := w.registry;
    assert id in s.requestOrder;
    match i
    case Open(request, popupId, operation) =>
      OpenCases(s, request, popupId, operation, policy);
      if Next(w, i, policy).registry != s {
        EnterRetains(s, request, AdmitStep(s, request, popupId, operation, policy).1.value, id, newer);
      }
    case Notify(event, draw) => NotifyCases(s, event, draw, policy);
  }

  lemma UnenteredStep(w: World, i: Input, policy: Policy)
    requires Inv(w) && !Entered(w, i, policy)
    ensures Next(w, i, policy).registry.requests == w.registry.requests
    ensures Next(w, i, policy).registry.requestOrder == w.registry.requestOrder
  {
    match i
    case Open(request, popupId, operation) =>
      OpenCases(w.registry, request, popupId, operation, policy);
      if request.id !in w.registry.requests {
        AddedIsKept(w.registry.requestOrder, request.id, MAX_RETAINED_REQUESTS);
      }
    case Notify(event, draw) => NotifyCases(w.registry, event, draw, policy);
  }

  lemma {:induction false} RequestThroughRun(w: World, run: seq<Input>, policy: Policy, id: string, newer: nat)
    requires Inv(w) && ValidRun(w, run, policy) && Retained(w.registry.requestOrder, id, newer)
    requires newer + Admissions(w, run, policy) < MAX_RETAINED_REQUESTS
    ensures id in w.registry.requests && id in After(w, run, policy).registry.requests
    ensures After(w, run, policy).registry.requests[id] == w.registry.requests[id]
    decreases |run|
  {
    assert id in w.registry.requestOrder;
    if run != [] {
      if newer + 1 < MAX_RETAINED_REQUESTS {
        RequestNext(w, run[0], policy, id, newer);
      } else {
        UnenteredStep(w, run[0], policy);
      }
      NextInv(w, run[0], policy);
      var newer' := newer + if Entered(w, run[0], policy) then 1 else 0;
      RequestThroughRun(Next(w, run[0], policy), run[1..], policy, id, newer');
    }
  }

  /**
   * A repeated request is answered with its first admission, and changes nothing, while at most 127
   * newer ones are admitted.
   */
  lemma RepeatAnswersAlike(
    w: World, i: Input, run: seq<Input>, popupId: string, operation: string, policy: Policy)
    requires Inv(w) && i.Open? && Enabled(w, i) && i.request.id !in w.registry.requests
    requires AdmitStep(w.registry, i.request, i.popupId, i.operation, policy).1.Ok?
    requires ValidRun(Next(w, i, policy), run, policy)
    requires Admissions(Next(w, i, policy), run, policy) < 128
    ensures var end := After(Next(w, i, policy), run, policy);
      AdmitStep(end.registry, i.request, popupId, operation, policy) ==
        (end.registry, AdmitStep(w.registry, i.request, i.popupId, i.operation, policy).1)
  {
    var s, w1 := w.registry, Next(w, i, policy);
    var a := AdmitStep(s, i.request, i.popupId, i.operation, policy).1.value;
    NextInv(w, i, policy);
    OpenCases(s, i.request, i.popupId, i.operation, policy);
    AddedIsRetained(s.requestOrder, i.request.id, MAX_RETAINED_REQUESTS);
    EnteredEntry(s, i.request, a);
    RequestThroughRun(w1, run, policy, i.request.id, 0);
  }

  lemma EnteredEntry(s: Registry, request: Request, a: Admission)
    requires LedgerOk(s.requestOrder, s.requests, MAX_RETAINED_REQUESTS) && request.id !in s.requests
    requires a.requestId == request.id
    ensures var s' := Enter(s, request, a);
      && s'.requestOrder == Kept(s.requestOrder + [request.id], MAX_RETAINED_REQUESTS)
      && request.id in s'.requests && s'.requests[request.id] == RequestEntry(request, a)
  {
    LedgerKeeps(s.requestOrder, s.requests, request.id, RequestEntry(request, a), MAX_RETAINED_REQUESTS);
    AddedIsKept(s.requestOrder, request.id, MAX_RETAINED_REQUESTS);
  }
}
