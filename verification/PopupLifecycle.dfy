/**
 * The Chromium popup registry: admission, an eight-phase lifecycle driven by revision-fenced
 * events, and two bounded replay ledgers. Identities drawn with `Uuid::new_v4` are parameters.
 */
module PopupLifecycle {
  import opened Outcomes
  import opened Text
  import opened BoundedLedger

  const MAX_ACTIVE_POPUPS: nat := 64
  const MAX_RETAINED_REQUESTS: nat := 128
  const MAX_RETAINED_EVENTS: nat := 256

  datatype Phase = Admitted | NativeReady | Ready | Closing | Closed | Cancelled | Failed | Indeterminate
  datatype Status = WasApplied | WasCancelled | WasFailed | WasIndeterminate | WasSuperseded
  datatype Scope = NativeAcknowledgement | PageFinished | StateCommit | NativeDestroyed | LifecycleTransition
  datatype CloseReason = User | ParentRetired | ApplicationShutdown | NavigationRejected | LoadFailed

  type I32 = i: int | -0x8000_0000 <= i < 0x8000_0000

  datatype Bounds = Bounds(x: I32, y: I32, width: I32, height: I32)
  datatype Target = Target(
    windowId: string, persistedName: Option<string>, displayId: int, scaleFactor: real,
    workArea: Bounds, bounds: Bounds, presentation: string)

  datatype OwnerKind = Role | GlobalWeb
  datatype HostIdentity = HostIdentity(logicalWindowId: string, launchGeneration: string, nativeGeneration: nat)
  datatype Parent = Parent(
    ownerKind: OwnerKind, ownerId: string, slotId: Option<string>, ownerGeneration: nat,
    roleOwnerGeneration: Option<nat>, windowId: string, windowGeneration: nat, topologyRevision: nat,
    tabId: string, attempt: string, nativeHostId: nat, appkit: Option<HostIdentity>)

  /** The disposition is left out: it has one value. */
  datatype OpenerPolicy = ConnectedOpener | IsolatedNoopener
  datatype Request = Request(
    id: string, parent: Parent, parentTarget: Target, targetUrl: string, openerPolicy: OpenerPolicy,
    frameName: Option<string>, referrerUrl: Option<string>, referrerPolicy: Option<string>,
    rawFeatures: string, hasPostBody: bool)
  datatype Admission = Admission(
    requestId: string, popupId: string, openOperation: string, lifecycleRevision: nat, parent: Parent,
    target: Target, title: string, targetUrl: string, openerPolicy: OpenerPolicy,
    referrerUrl: Option<string>, referrerPolicy: Option<string>, hasPostBody: bool)
  datatype NativeHost = NativeHost(
    platform: string, kind: string, nativeHostId: int, logicalWindowId: string, windowGeneration: int,
    topologyRevision: int)

  datatype Action =
    | HostReady(host: NativeHost)
    | PageReady(finalUrl: string)
    | CloseRequested(reason: CloseReason)
    | NativeClosed
    | Cancel(code: string)
    | Fail(code: string, nativeStateUnknown: bool)

  datatype Event = Event(id: string, popupId: string, parent: Parent, expectedRevision: nat, action: Action)

  datatype CloseOutcome = CloseOutcome(phase: Phase, status: Status, code: Option<string>)

  datatype Record = Record(
    admission: Admission, phase: Phase, revision: nat, closeOperation: Option<string>,
    closeOutcome: Option<CloseOutcome>, nativeHost: Option<NativeHost>, openTerminal: bool)

  datatype Receipt = Receipt(
    eventId: string, popupId: string, operationId: string, revision: nat, phase: Phase, status: Status, scope: Scope,
    operationTerminal: bool, lifecycleTerminal: bool, closeNative: bool, code: Option<string>)

  datatype PopupError =
    | InvalidId | RequestReplayMismatch | ParentFenceInvalid | FrameNameInvalid | FeaturesInvalid | UrlInvalid
    | ReferrerPolicyInvalid | Capacity | ParentTargetInvalid | WorkAreaTooSmall | TargetInvalid
    | EventReplayMismatch | NotFound | ParentFenceMismatch | HostFenceMismatch | FailureCodeInvalid

  /** A parsed URL; `text` is the form the parser prints it in. */
  datatype Url = Url(scheme: string, host: Option<string>, username: string, password: Option<string>, text: string)

  /** What this model takes from elsewhere: the URL parser and the platform's name. */
  datatype Policy = Policy(parse: string -> Option<Url>, platform: string)

  // ---- Validation --------------------------------------------------------------------------

  predicate LowerHex(c: char) {
    '0' <= c <= '9' || 'a' <= c <= 'f'
  }

  /** The hyphenated lower-case form a UUID prints as. */
  predicate CanonicalUuid(s: string) {
    |s| == 36 && forall i | 0 <= i < 36 :: if i in {8, 13, 18, 23} then s[i] == '-' else LowerHex(s[i])
  }

  predicate ValidFailureCode(s: string) {
    0 < |s| <= 128 && forall i | 0 <= i < |s| :: 'A' <= s[i] <= 'Z' || '0' <= s[i] <= '9' || s[i] == '_'
  }

  predicate ValidNames(p: Parent) {
    ValidIdentity(p.ownerId) && ValidIdentity(p.windowId) && ValidIdentity(p.tabId) && ValidIdentity(p.attempt)
  }

  predicate ValidFence(p: Parent) {
    p.ownerGeneration >= 1 && p.windowGeneration >= 1 && p.topologyRevision >= 1 && p.nativeHostId >= 1
  }

  /** An underscore starts the reserved frame names; `_blank` is the one allowed. */
  predicate ValidFrameName(name: string) {
    ByteLength(name) <= 256 && !HasControl(name) && (name != "" && name[0] == '_' ==> Lowered(name) == "_blank")
  }

  predicate ValidReferrerPolicy(policy: string) {
    policy in {
      "default", "unsafe-url", "no-referrer-when-downgrade", "no-referrer", "origin",
      "strict-origin-when-cross-origin", "same-origin", "strict-origin", "origin-when-cross-origin"
    }
  }

  /** An HTTP address without credentials, written exactly as the parser prints it. */
  predicate CanonicalRemoteUrl(value: string, policy: Policy) {
    && value != "" && ByteLength(value) <= 8192 && '\\' !in value
    && (forall i | 0 <= i < |value| :: !IsWhitespace(value[i]))
    && match policy.parse(value)
       case None => false
       case Some(url) =>
         && url.scheme in {"http", "https"} && url.host.Some?
         && url.username == "" && url.password == None && url.text == value
  }

  function ValidateOpenRequest(request: Request, policy: Policy): Result<(), PopupError> {
    if !ValidNames(request.parent) then Err(InvalidId)
    else if !ValidFence(request.parent) then Err(ParentFenceInvalid)
    else if request.frameName.Some? && !ValidFrameName(request.frameName.value) then Err(FrameNameInvalid)
    else if ByteLength(request.rawFeatures) > 1024 || HasControl(request.rawFeatures) then Err(FeaturesInvalid)
    else if !CanonicalRemoteUrl(request.targetUrl, policy) then Err(UrlInvalid)
    else if request.referrerUrl.Some? && !CanonicalRemoteUrl(request.referrerUrl.value, policy) then Err(UrlInvalid)
    else if request.referrerPolicy.Some? && !ValidReferrerPolicy(request.referrerPolicy.value) then
      Err(ReferrerPolicyInvalid)
    else Ok(())
  }

  predicate ValidHost(record: Record, host: NativeHost, platform: string) {
    && host.platform == platform && host.kind == "electronBrowserWindow" && host.nativeHostId >= 1
    && host.logicalWindowId == record.admission.target.windowId
    && host.windowGeneration == 1 && host.topologyRevision == 1
  }

  // ---- Placement ---------------------------------------------------------------------------

  const I32_MAX: int := 0x7fff_ffff

  predicate ValidBounds(b: Bounds) {
    b.width >= 1 && b.height >= 1 && b.x + b.width <= I32_MAX && b.y + b.height <= I32_MAX
  }

  /** 32-bit addition, which wraps around. */
  function Wrapped(n: int): I32 {
    (n + 0x8000_0000) % 0x1_0000_0000 - 0x8000_0000
  }

  /** Integer division that truncates toward zero. */
  function Truncated(n: int, d: int): int
    requires d > 0
  {
    if n >= 0 then n / d else -(-n / d)
  }

  function Min(a: int, b: int): int { if a < b then a else b }
  function Max(a: int, b: int): int { if a > b then a else b }

  function Clamp(v: int, low: int, high: int): int {
    if v < low then low else if v > high then high else v
  }

  /** Four fifths of the parent's extent on the display, and no less than the minimum. */
  function PopupExtent(parent: int, area: int, minimum: int): int {
    Max(Min(parent, area) - Min(parent, area) / 5, minimum)
  }

  /** Centred on the parent and kept inside the work area. */
  function PopupStart(from: I32, parent: I32, extent: int, start: int, area: int): int {
    Clamp(Wrapped(from + Truncated(parent - extent, 2)), start, start + area - extent)
  }

  function PopupTarget(parent: Target, popupId: string): Result<Target, PopupError> {
    var area, from := parent.workArea, parent.bounds;
    if !ValidBounds(area) || !ValidBounds(from) then Err(ParentTargetInvalid)
    else if parent.scaleFactor <= 0.0 || parent.scaleFactor > 8.0 then Err(ParentTargetInvalid)
    else
      var width, height := PopupExtent(from.width, area.width, 640), PopupExtent(from.height, area.height, 480);
      if width > area.width || height > area.height then Err(WorkAreaTooSmall)
      else
        var x := PopupStart(from.x, from.width, width, area.x, area.width);
        var y := PopupStart(from.y, from.height, height, area.y, area.height);
        Ok(Target("popup-" + popupId, Some("Popup"), parent.displayId, parent.scaleFactor, area,
          Bounds(x, y, width, height), "normal"))
  }

  predicate Within(inner: Bounds, outer: Bounds) {
    && outer.x <= inner.x && inner.x + inner.width <= outer.x + outer.width
    && outer.y <= inner.y && inner.y + inner.height <= outer.y + outer.height
  }

  /** The parent's target can be read: its bounds and its scale make sense. */
  predicate ReadableTarget(parent: Target) {
    ValidBounds(parent.workArea) && ValidBounds(parent.bounds) && 0.0 < parent.scaleFactor <= 8.0
  }

  /**
   * A placed popup is never smaller than 640 by 480 and never leaves its display's work area, not
   * even when the centring wraps around; it is placed exactly when the work area can hold that size.
   */
  lemma PopupStaysInWorkArea(parent: Target, popupId: string)
    ensures match PopupTarget(parent, popupId)
      case Ok(t) => Within(t.bounds, parent.workArea) && t.bounds.width >= 640 && t.bounds.height >= 480
      case Err(_) => true
    ensures PopupTarget(parent, popupId).Ok? <==>
      ReadableTarget(parent) && parent.workArea.width >= 640 && parent.workArea.height >= 480
    ensures PopupTarget(parent, popupId) == Err(WorkAreaTooSmall) <==>
      ReadableTarget(parent) && (parent.workArea.width < 640 || parent.workArea.height < 480)
  {
  }

  /** The centring wraps around exactly for a small parent at the far low end of the coordinates. */
  lemma CentreWrapsIff(from: I32, parent: I32, area: I32, minimum: nat)
    requires parent >= 1 && area >= minimum && from + parent <= I32_MAX && minimum <= 640
    ensures var extent := PopupExtent(parent, area, minimum);
      var centre := from + Truncated(parent - extent, 2);
      Wrapped(centre) != centre <==> centre < -0x8000_0000
    ensures var extent := PopupExtent(parent, area, minimum);
      from + Truncated(parent - extent, 2) < -0x8000_0000 ==> extent == minimum > parent && from < -0x8000_0000 + 320
  {
  }

  // ---- The lifecycle -----------------------------------------------------------------------

  predicate Terminal(phase: Phase) {
    phase in {Closed, Cancelled, Failed, Indeterminate}
  }

  function OutcomeOf(reason: CloseReason, openTerminal: bool): CloseOutcome {
    match reason
    case User =>
      if openTerminal then CloseOutcome(Closed, WasApplied, None)
      else CloseOutcome(Cancelled, WasCancelled, Some("CHROMIUM_POPUP_CLOSED_BEFORE_READY"))
    case ParentRetired => CloseOutcome(Cancelled, WasCancelled, Some("CHROMIUM_POPUP_OWNER_RETIRED"))
    case ApplicationShutdown => CloseOutcome(Cancelled, WasCancelled, Some("CHROMIUM_POPUP_OWNER_RETIRED"))
    case NavigationRejected => CloseOutcome(Failed, WasFailed, Some("CHROMIUM_POPUP_NAVIGATION_REJECTED"))
    case LoadFailed => CloseOutcome(Failed, WasFailed, Some("CHROMIUM_POPUP_LOAD_FAILED"))
  }

  datatype Disposition = Pending | PendingCloseNative | Final | FinalCloseNative

  function ReceiptOf(
    r: Record, e: Event, operation: string, status: Status, scope: Scope, d: Disposition, code: Option<string>): Receipt
  {
    Receipt(e.id, e.popupId, operation, r.revision, r.phase, status, scope,
      d in {Final, FinalCloseNative}, Terminal(r.phase), d in {PendingCloseNative, FinalCloseNative}, code)
  }

  function Superseded(r: Record, e: Event): Receipt {
    ReceiptOf(r, e, if r.closeOperation.Some? then r.closeOperation.value else r.admission.openOperation,
      WasSuperseded, StateCommit, Final, Some("CHROMIUM_POPUP_EVENT_SUPERSEDED"))
  }

  type Step = Result<(Record, Receipt), PopupError>

  /** The record moved to `phase`, one revision further. */
  function Moved(r: Record, phase: Phase): Record {
    r.(phase := phase, revision := r.revision + 1)
  }

  /** The record moved to `phase` with its open operation settled. */
  function Settled(r: Record, phase: Phase): Record {
    Moved(r, phase).(openTerminal := true)
  }

  function OnHostReady(r: Record, e: Event, host: NativeHost, policy: Policy): Step {
    if r.phase != Admitted then Ok((r, Superseded(r, e)))
    else if !ValidHost(r, host, policy.platform) then Err(HostFenceMismatch)
    else
      var r' := Moved(r, NativeReady).(nativeHost := Some(host));
      Ok((r', ReceiptOf(r', e, r.admission.openOperation, WasApplied, NativeAcknowledgement, Pending, None)))
  }

  function OnPageReady(r: Record, e: Event, url: string, policy: Policy): Step {
    if r.phase != NativeReady then Ok((r, Superseded(r, e)))
    else if !CanonicalRemoteUrl(url, policy) then Err(UrlInvalid)
    else
      var r' := Settled(r, Ready);
      Ok((r', ReceiptOf(r', e, r.admission.openOperation, WasApplied, PageFinished, Final, None)))
  }

  function CloseOperation(r: Record, drawn: string): string {
    if r.openTerminal then drawn else r.admission.openOperation
  }

  function OnCloseRequested(r: Record, e: Event, reason: CloseReason, drawn: string): Step {
    if r.phase !in {Admitted, NativeReady, Ready} then Ok((r, Superseded(r, e)))
    else
      var outcome, operation := OutcomeOf(reason, r.openTerminal), CloseOperation(r, drawn);
      var noted := r.(closeOperation := Some(operation), closeOutcome := Some(outcome));
      if r.nativeHost == None then
        var r' := Settled(noted, outcome.phase);
        Ok((r', ReceiptOf(r', e, operation, outcome.status, StateCommit, Final, outcome.code)))
      else
        var r' := Moved(noted, Closing);
        Ok((r', ReceiptOf(r', e, operation, WasApplied, StateCommit, PendingCloseNative, None)))
  }

  function OnNativeClosed(r: Record, e: Event): Step {
    if r.phase != Closing then
      if Terminal(r.phase) then Ok((r, Superseded(r, e)))
      else
        var r' := Settled(r, Indeterminate);
        Ok((r', ReceiptOf(r', e, r.admission.openOperation, WasIndeterminate, NativeDestroyed, Final,
          Some("CHROMIUM_POPUP_UNREQUESTED_NATIVE_CLOSE"))))
    else
      var outcome := if r.closeOutcome.Some? then r.closeOutcome.value else CloseOutcome(Closed, WasApplied, None);
      var operation := if r.closeOperation.Some? then r.closeOperation.value else r.admission.openOperation;
      var r' := Moved(r, outcome.phase).(openTerminal := r.openTerminal || operation == r.admission.openOperation);
      Ok((r', ReceiptOf(r', e, operation, outcome.status, NativeDestroyed, Final, outcome.code)))
  }

  function OnCancel(r: Record, e: Event, code: string): Step {
    if !ValidFailureCode(code) then Err(FailureCodeInvalid)
    else if r.phase != Admitted then Ok((r, Superseded(r, e)))
    else
      var r' := Settled(r, Cancelled);
      Ok((r', ReceiptOf(r', e, r.admission.openOperation, WasCancelled, StateCommit, Final, Some(code))))
  }

  function OnFail(r: Record, e: Event, code: string, unknown: bool, drawn: string): Step {
    if !ValidFailureCode(code) then Err(FailureCodeInvalid)
    else if Terminal(r.phase) then Ok((r, Superseded(r, e)))
    else if unknown then
      var r' := Settled(r, Indeterminate);
      Ok((r', ReceiptOf(r', e, r.admission.openOperation, WasIndeterminate, LifecycleTransition,
        if r.nativeHost.Some? then FinalCloseNative else Final, Some(code))))
    else if r.nativeHost.Some? then
      var operation := CloseOperation(r, drawn);
      var r' := Moved(r, Closing).(
        closeOperation := Some(operation),
        closeOutcome := Some(CloseOutcome(Failed, WasFailed, Some(code))));
      Ok((r', ReceiptOf(r', e, operation, WasFailed, StateCommit, PendingCloseNative, Some(code))))
    else
      var r' := Settled(r, Failed);
      Ok((r', ReceiptOf(r', e, r.admission.openOperation, WasFailed, StateCommit, Final, Some(code))))
  }

  function Transition(r: Record, e: Event, drawn: string, policy: Policy): Step {
    match e.action
    case HostReady(host) => OnHostReady(r, e, host, policy)
    case PageReady(url) => OnPageReady(r, e, url, policy)
    case CloseRequested(reason) => OnCloseRequested(r, e, reason, drawn)
    case NativeClosed => OnNativeClosed(r, e)
    case Cancel(code) => OnCancel(r, e, code)
    case Fail(code, unknown) => OnFail(r, e, code, unknown, drawn)
  }

  // ---- The registry ------------------------------------------------------------------------

  datatype RequestEntry = RequestEntry(request: Request, admission: Admission)
  datatype EventEntry = EventEntry(event: Event, receipt: Receipt)

  datatype Registry = Registry(
    popups: map<string, Record>,
    requestOrder: seq<string>, requests: map<string, RequestEntry>,
    eventOrder: seq<string>, events: map<string, EventEntry>)

  ghost function Active(popups: map<string, Record>): set<string> {
    set id | id in popups && !Terminal(popups[id].phase)
  }

  function TitleOf(url: Url): string {
    if url.host.Some? && url.host.value != "" then url.host.value else "Popup"
  }

  function AdmissionOf(request: Request, popupId: string, operation: string, target: Target, title: string): Admission {
    Admission(request.id, popupId, operation, 1, request.parent, target, title, request.targetUrl,
      request.openerPolicy, request.referrerUrl, request.referrerPolicy, request.hasPostBody)
  }

  ghost function AdmitStep(s: Registry, request: Request, popupId: string, operation: string, policy: Policy):
    (Registry, Result<Admission, PopupError>)
  {
    if !CanonicalUuid(request.id) then (s, Err(InvalidId))
    else if request.id in s.requests then
      (s, if s.requests[request.id].request != request then Err(RequestReplayMismatch)
          else Ok(s.requests[request.id].admission))
    else if ValidateOpenRequest(request, policy).Err? then (s, Err(ValidateOpenRequest(request, policy).error))
    else if |Active(s.popups)| >= MAX_ACTIVE_POPUPS then (s, Err(Capacity))
    else
      match PopupTarget(request.parentTarget, popupId)
      case Err(error) => (s, Err(error))
      case Ok(target) =>
        match policy.parse(request.targetUrl)
        case None => (s, Err(TargetInvalid))
        case Some(url) =>
          var admission := AdmissionOf(request, popupId, operation, target, TitleOf(url));
          (Enter(s, request, admission), Ok(admission))
  }

  ghost function Enter(s: Registry, request: Request, a: Admission): Registry {
    var order := s.requestOrder + [a.requestId];
    s.(
      popups := s.popups[a.popupId := Record(a, Admitted, 1, None, None, None, false)],
      requestOrder := Kept(order, MAX_RETAINED_REQUESTS),
      requests := WithoutKeys(s.requests[request.id := RequestEntry(request, a)],
        Retired(order, MAX_RETAINED_REQUESTS)))
  }

  function Outcome(r: Record, e: Event, drawn: string, policy: Policy): Step {
    if e.expectedRevision != r.revision then Ok((r, Superseded(r, e))) else Transition(r, e, drawn, policy)
  }

  ghost function ApplyStep(s: Registry, e: Event, drawn: string, policy: Policy):
    (Registry, Result<Receipt, PopupError>)
  {
    if !CanonicalUuid(e.id) then (s, Err(InvalidId))
    else if e.id in s.events then
      (s, if s.events[e.id].event != e then Err(EventReplayMismatch) else Ok(s.events[e.id].receipt))
    else if e.popupId !in s.popups then (s, Err(NotFound))
    else if s.popups[e.popupId].admission.parent != e.parent then (s, Err(ParentFenceMismatch))
    else
      match Outcome(s.popups[e.popupId], e, drawn, policy)
      case Err(error) => (s, Err(error))
      case Ok((record, receipt)) => (Note(s, e, record, receipt), Ok(receipt))
  }

  ghost function Note(s: Registry, e: Event, record: Record, receipt: Receipt): Registry {
    var order := s.eventOrder + [e.id];
    s.(
      popups := s.popups[e.popupId := record],
      eventOrder := Kept(order, MAX_RETAINED_EVENTS),
      events := WithoutKeys(s.events[e.id := EventEntry(e, receipt)], Retired(order, MAX_RETAINED_EVENTS)))
  }

  class ChromiumPopupLifecycleRuntime {
    var popups: map<string, Record>
    var requestOrder: seq<string>
    var requests: map<string, RequestEntry>
    var eventOrder: seq<string>
    var events: map<string, EventEntry>

    constructor ()
      ensures State() == Registry(map[], [], map[], [], map[])
    {
      popups, requestOrder, requests, eventOrder, events := map[], [], map[], [], map[];
    }

    ghost function State(): Registry
      reads this
    {
      Registry(popups, requestOrder, requests, eventOrder, events)
    }

    method CountActive() returns (count: nat)
      ensures count == |Active(popups)|
    {
      count := 0;
      var rest := popups.Keys;
      while rest != {}
        invariant rest <= popups.Keys
        invariant count == |Active(popups) - rest|
        decreases rest
      {
        var id :| id in rest;
        if !Terminal(popups[id].phase) {
          count := count + 1;
          assert Active(popups) - (rest - {id}) == (Active(popups) - rest) + {id};
        } else {
          assert Active(popups) - (rest - {id}) == Active(popups) - rest;
        }
        rest := rest - {id};
      }
      assert Active(popups) - rest == Active(popups);
    }

    method Admit(request: Request, popupId: string, operation: string, policy: Policy)
      returns (r: Result<Admission, PopupError>)
      modifies this
      ensures (State(), r) == AdmitStep(old(State()), request, popupId, operation, policy)
    {
      if !CanonicalUuid(request.id) {
        return Err(InvalidId);
      }
      if request.id in requests {
        return
          if requests[request.id].request != request then Err(RequestReplayMismatch)
          else Ok(requests[request.id].admission);
      }
      var verdict := ValidateOpenRequest(request, policy);
      if verdict.Err? {
        return Err(verdict.error);
      }
      var active := CountActive();
      if active >= MAX_ACTIVE_POPUPS {
        return Err(Capacity);
      }
      var target := PopupTarget(request.parentTarget, popupId);
      if target.Err? {
        return Err(target.error);
      }
      var parsed := policy.parse(request.targetUrl);
      if parsed == None {
        return Err(TargetInvalid);
      }
      var admission := AdmissionOf(request, popupId, operation, target.value, TitleOf(parsed.value));
      popups := popups[popupId := Record(admission, Admitted, 1, None, None, None, false)];
      requests := requests[request.id := RequestEntry(request, admission)];
      requestOrder := requestOrder + [admission.requestId];
      requestOrder, requests := TrimLedger(requestOrder, requests, MAX_RETAINED_REQUESTS);
      return Ok(admission);
    }

    method ApplyEvent(e: Event, drawn: string, policy: Policy) returns (r: Result<Receipt, PopupError>)
      modifies this
      ensures (State(), r) == ApplyStep(old(State()), e, drawn, policy)
    {
      if !CanonicalUuid(e.id) {
        return Err(InvalidId);
      }
      if e.id in events {
        return if events[e.id].event != e then Err(EventReplayMismatch) else Ok(events[e.id].receipt);
      }
      if e.popupId !in popups {
        return Err(NotFound);
      }
      if popups[e.popupId].admission.parent != e.parent {
        return Err(ParentFenceMismatch);
      }
      var outcome := Outcome(popups[e.popupId], e, drawn, policy);
      if outcome.Err? {
        return Err(outcome.error);
      }
      var (record, receipt) := outcome.value;
      popups := popups[e.popupId := record];
      events := events[e.id := EventEntry(e, receipt)];
      eventOrder := eventOrder + [e.id];
      eventOrder, events := TrimLedger(eventOrder, events, MAX_RETAINED_EVENTS);
      return Ok(receipt);
    }
  }
}
