/**
 * What each popup event and request is answered and what it leaves in the record, phase by phase,
 * told by the record's fields and the receipt's.
 */
module PopupAnswers {
  import opened Outcomes
  import opened Text
  import opened PopupLifecycle
  import opened PopupLifecycleRuns

  /** The event comes at the popup's present revision. */
  predicate Present(r: Record, e: Event) {
    e.expectedRevision == r.revision
  }

  predicate Ended(phase: Phase) {
    phase == Closed || phase == Cancelled || phase == Failed || phase == Indeterminate
  }

  /** Nothing changes, and the receipt says the event came too late, under the close operation if there is one. */
  predicate Ignored(r: Record, e: Event, step: Step) {
    step == Ok((r, Receipt(
      e.id, e.popupId, if r.closeOperation == None then r.admission.openOperation else r.closeOperation.value,
      r.revision, r.phase, WasSuperseded, StateCommit, true, Ended(r.phase), false,
      Some("CHROMIUM_POPUP_EVENT_SUPERSEDED"))))
  }

  /** The record becomes `r'`, and the receipt tells its phase and revision and this much more. */
  predicate Answered(
    r': Record, e: Event, step: Step,
    operation: string, status: Status, scope: Scope, settled: bool, closeNative: bool, code: Option<string>)
  {
    step == Ok((r', Receipt(
      e.id, e.popupId, operation, r'.revision, r'.phase, status, scope, settled, Ended(r'.phase), closeNative, code)))
  }

  /** One revision further, in another phase. */
  function Moves(r: Record, phase: Phase, openSettled: bool): Record {
    r.(phase := phase, revision := r.revision + 1, openTerminal := openSettled)
  }

  /** An event that names another revision changes nothing. */
  lemma OtherRevisionIgnored(r: Record, e: Event, draw: string, policy: Policy)
    requires !Present(r, e)
    ensures Ignored(r, e, Outcome(r, e, draw, policy))
  {
  }

  // ---- Opening -----------------------------------------------------------------------------

  /** The platform's own browser window, made for this popup and not used before. */
  predicate RightHost(r: Record, host: NativeHost, platform: string) {
    host == NativeHost(platform, "electronBrowserWindow", host.nativeHostId, r.admission.target.windowId, 1, 1) &&
    host.nativeHostId > 0
  }

  /** A native host is taken by an admitted popup only, and only the right one; the open operation stays pending. */
  lemma HostReadyAnswers(r: Record, e: Event, draw: string, policy: Policy)
    requires Present(r, e) && e.action.HostReady?
    ensures var step := Outcome(r, e, draw, policy);
      if r.phase != Admitted then Ignored(r, e, step)
      else if !RightHost(r, e.action.host, policy.platform) then step == Err(HostFenceMismatch)
      else Answered(Moves(r, NativeReady, r.openTerminal).(nativeHost := Some(e.action.host)), e, step,
        r.admission.openOperation, WasApplied, NativeAcknowledgement, false, false, None)
  {
  }

  /** A page is taken by a hosted popup that waits for one, and settles the open operation. */
  lemma PageReadyAnswers(r: Record, e: Event, draw: string, policy: Policy)
    requires Present(r, e) && e.action.PageReady?
    ensures var step := Outcome(r, e, draw, policy);
      if r.phase != NativeReady then Ignored(r, e, step)
      else if !CanonicalRemoteUrl(e.action.finalUrl, policy) then step == Err(UrlInvalid)
      else Answered(Moves(r, Ready, true), e, step,
        r.admission.openOperation, WasApplied, PageFinished, true, false, None)
  {
  }

  /** A code of one to 128 capitals, digits and underscores. */
  predicate CodeText(code: string) {
    && code != "" && |code| <= 128
    && forall c | c in code :: c == '_' || 'A' <= c <= 'Z' || '0' <= c <= '9'
  }

  lemma CodeIsText(code: string)
    ensures ValidFailureCode(code) <==> CodeText(code)
  {
    forall i | 0 <= i < |code| ensures code[i] in code {}
  }

  /** Only an admitted popup can be cancelled; the code is checked first in every phase. */
  lemma CancelAnswers(r: Record, e: Event, draw: string, policy: Policy)
    requires Present(r, e) && e.action.Cancel?
    ensures var step := Outcome(r, e, draw, policy);
      if !CodeText(e.action.code) then step == Err(FailureCodeInvalid)
      else if r.phase != Admitted then Ignored(r, e, step)
      else Answered(Moves(r, Cancelled, true), e, step,
        r.admission.openOperation, WasCancelled, StateCommit, true, false, Some(e.action.code))
  {
    CodeIsText(e.action.code);
  }

  // ---- Closing -----------------------------------------------------------------------------

  /** A popup can still be asked to close. */
  predicate Open(phase: Phase) {
    phase == Admitted || phase == NativeReady || phase == Ready
  }

  /** How a close for this reason ends, by whether the open operation had settled. */
  predicate EndsFor(reason: CloseReason, openSettled: bool, outcome: CloseOutcome) {
    && (reason == User && openSettled ==> outcome == CloseOutcome(Closed, WasApplied, None))
    && (reason == User && !openSettled ==>
          outcome == CloseOutcome(Cancelled, WasCancelled, Some("CHROMIUM_POPUP_CLOSED_BEFORE_READY")))
    && (reason == ParentRetired || reason == ApplicationShutdown ==>
          outcome == CloseOutcome(Cancelled, WasCancelled, Some("CHROMIUM_POPUP_OWNER_RETIRED")))
    && (reason == NavigationRejected ==>
          outcome == CloseOutcome(Failed, WasFailed, Some("CHROMIUM_POPUP_NAVIGATION_REJECTED")))
    && (reason == LoadFailed ==> outcome == CloseOutcome(Failed, WasFailed, Some("CHROMIUM_POPUP_LOAD_FAILED")))
  }

  /** The operation a close goes by: the open one until it has settled, then a new one. */
  function ClosingBy(r: Record, draw: string): string {
    if r.openTerminal then draw else r.admission.openOperation
  }

  /** With a native host the popup begins to close towards `outcome`; without one it has ended so. */
  predicate ClosesTowards(r: Record, e: Event, operation: string, outcome: CloseOutcome, step: Step) {
    var noted := r.(closeOperation := Some(operation), closeOutcome := Some(outcome));
    if r.nativeHost.Some? then
      Answered(Moves(noted, Closing, r.openTerminal), e, step,
        operation, WasApplied, StateCommit, false, true, None)
    else
      Answered(Moves(noted, outcome.phase, true), e, step,
        operation, outcome.status, StateCommit, true, false, outcome.code)
  }

  /** A close request finds an open popup and leads it to the end its reason says. */
  lemma CloseRequestedAnswers(r: Record, e: Event, draw: string, policy: Policy)
    requires Present(r, e) && e.action.CloseRequested?
    ensures var step, operation := Outcome(r, e, draw, policy), ClosingBy(r, draw);
      if !Open(r.phase) then Ignored(r, e, step)
      else exists outcome ::
        EndsFor(e.action.reason, r.openTerminal, outcome) && ClosesTowards(r, e, operation, outcome, step)
  {
    if Open(r.phase) {
      var outcome := OutcomeOf(e.action.reason, r.openTerminal);
      assert EndsFor(e.action.reason, r.openTerminal, outcome);
      assert ClosesTowards(r, e, ClosingBy(r, draw), outcome, Outcome(r, e, draw, policy));
    }
  }

  /** A native close ends a closing popup as recorded and any other live one with its end unknown. */
  lemma NativeClosedAnswers(r: Record, e: Event, draw: string, policy: Policy)
    requires RecordOk(r) && Present(r, e) && e.action == NativeClosed
    ensures var step := Outcome(r, e, draw, policy);
      if Ended(r.phase) then Ignored(r, e, step)
      else if r.phase == Closing then
        var outcome := r.closeOutcome.value;
        Answered(Moves(r, outcome.phase, true), e, step,
          r.closeOperation.value, outcome.status, NativeDestroyed, true, false, outcome.code)
      else
        Answered(Moves(r, Indeterminate, true), e, step, r.admission.openOperation, WasIndeterminate, NativeDestroyed,
          true, false, Some("CHROMIUM_POPUP_UNREQUESTED_NATIVE_CLOSE"))
  {
  }

  /**
   * A failure ends a live popup: with its end unknown when the native state is, at once when there
   * is no native host, and otherwise by closing towards that failure.
   */
  lemma FailAnswers(r: Record, e: Event, draw: string, policy: Policy)
    requires Present(r, e) && e.action.Fail?
    ensures var step, code, operation := Outcome(r, e, draw, policy), Some(e.action.code), ClosingBy(r, draw);
      if !CodeText(e.action.code) then step == Err(FailureCodeInvalid)
      else if Ended(r.phase) then Ignored(r, e, step)
      else if e.action.nativeStateUnknown then
        Answered(Moves(r, Indeterminate, true), e, step,
          r.admission.openOperation, WasIndeterminate, LifecycleTransition, true, r.nativeHost.Some?, code)
      else if r.nativeHost.Some? then
        Answered(
          Moves(r, Closing, r.openTerminal).(
            closeOperation := Some(operation), closeOutcome := Some(CloseOutcome(Failed, WasFailed, code))),
          e, step, operation, WasFailed, StateCommit, false, true, code)
      else
        Answered(Moves(r, Failed, true), e, step,
          r.admission.openOperation, WasFailed, StateCommit, true, false, code)
  {
    CodeIsText(e.action.code);
  }

  /** Main result: the phases in which each kind of event has an effect, and no others. */
  lemma EffectiveIff(r: Record, e: Event, draw: string, policy: Policy)
    requires RecordOk(r) && Outcome(r, e, draw, policy).Ok?
    ensures Outcome(r, e, draw, policy).value.0 != r <==>
      Present(r, e) &&
      match e.action
      case HostReady(_) => r.phase == Admitted
      case PageReady(_) => r.phase == NativeReady
      case CloseRequested(_) => Open(r.phase)
      case NativeClosed => !Ended(r.phase)
      case Cancel(_) => r.phase == Admitted
      case Fail(_, _) => !Ended(r.phase)
  {
    if !Present(r, e) {
      OtherRevisionIgnored(r, e, draw, policy);
    } else {
      match e.action
      case HostReady(_) => HostReadyAnswers(r, e, draw, policy);
      case PageReady(_) => PageReadyAnswers(r, e, draw, policy);
      case CloseRequested(_) => CloseRequestedAnswers(r, e, draw, policy);
      case NativeClosed => NativeClosedAnswers(r, e, draw, policy);
      case Cancel(_) => CancelAnswers(r, e, draw, policy);
      case Fail(_, _) => FailAnswers(r, e, draw, policy);
    }
  }

  // ---- The registry ------------------------------------------------------------------------

  /** Which events reach their record, and what the others are answered; those change nothing. */
  lemma EventAnswers(s: Registry, e: Event, draw: string, policy: Policy)
    ensures var (s', r) := ApplyStep(s, e, draw, policy);
      && (r == Err(InvalidId) <==> !CanonicalUuid(e.id))
      && (CanonicalUuid(e.id) && e.id in s.events ==>
            s' == s && r == if s.events[e.id].event == e then Ok(s.events[e.id].receipt) else Err(EventReplayMismatch))
      && (CanonicalUuid(e.id) && e.id !in s.events ==>
            && (r == Err(NotFound) <==> e.popupId !in s.popups)
            && (r == Err(ParentFenceMismatch) <==>
                  e.popupId in s.popups && e.parent != s.popups[e.popupId].admission.parent))
      && (r.Err? ==> s' == s)
  {
  }

  /** An event that reaches its record changes that record as its outcome says, and no other. */
  lemma ReachedRecordMoves(s: Registry, e: Event, draw: string, policy: Policy)
    requires CanonicalUuid(e.id) && e.id !in s.events && e.popupId in s.popups
    requires e.parent == s.popups[e.popupId].admission.parent
    ensures var (s', r) := ApplyStep(s, e, draw, policy);
      match Outcome(s.popups[e.popupId], e, draw, policy)
      case Err(error) => r == Err(error)
      case Ok((record, receipt)) =>
        r == Ok(receipt) && s'.popups == s.popups[e.popupId := record] && s'.requests == s.requests
  {
  }

  /** A request of a known identity is answered as before, or refused when it differs. */
  lemma RepeatedRequestAnswers(s: Registry, request: Request, popupId: string, operation: string, policy: Policy)
    requires CanonicalUuid(request.id) && request.id in s.requests
    ensures AdmitStep(s, request, popupId, operation, policy) ==
      (s, if s.requests[request.id].request == request then Ok(s.requests[request.id].admission)
          else Err(RequestReplayMismatch))
  {
  }

  /** A group of lower-case hexadecimal digits. */
  predicate HexGroup(s: string, length: nat) {
    |s| == length && forall c | c in s :: '0' <= c <= '9' || 'a' <= c <= 'f'
  }

  /** Request and event ids are UUIDs as they print: five groups of 8, 4, 4, 4 and 12 digits. */
  lemma UuidIs(s: string)
    ensures CanonicalUuid(s) <==>
      && |s| == 36 && s[8] == s[13] == s[18] == s[23] == '-'
      && HexGroup(s[..8], 8) && HexGroup(s[9..13], 4) && HexGroup(s[14..18], 4) && HexGroup(s[19..23], 4)
      && HexGroup(s[24..], 12)
  {
    if |s| == 36 {
      GroupAt(s, 0, 8);
      GroupAt(s, 9, 13);
      GroupAt(s, 14, 18);
      GroupAt(s, 19, 23);
      GroupAt(s, 24, 36);
      assert s[24..] == s[24..36];
    }
  }

  lemma GroupAt(s: string, from: nat, to: nat)
    requires from <= to <= |s|
    ensures HexGroup(s[from..to], to - from) <==> forall i | from <= i < to :: LowerHex(s[i])
  {
    if HexGroup(s[from..to], to - from) {
      forall i | from <= i < to ensures LowerHex(s[i]) {
        assert s[i] == s[from..to][i - from] && s[from..to][i - from] in s[from..to];
      }
    }
  }

  /** A rectangle with an inside, ending within 32 bits. */
  predicate Drawable(b: Bounds) {
    b.width > 0 && b.height > 0 && b.x + b.width < 0x8000_0000 && b.y + b.height < 0x8000_0000
  }

  /** What a window is refused for: a parent that cannot be placed, then a display that is too small. */
  lemma WindowRefusals(parent: Target, popupId: string)
    ensures var r := PopupTarget(parent, popupId);
      if !Drawable(parent.workArea) || !Drawable(parent.bounds) || parent.scaleFactor <= 0.0 || parent.scaleFactor > 8.0
      then r == Err(ParentTargetInvalid)
      else if parent.workArea.width < 640 || parent.workArea.height < 480 then r == Err(WorkAreaTooSmall)
      else r.Ok?
  {
  }

  /** The window a popup gets is its own, named for it, on the parent's display and at its scale. */
  lemma WindowIsItsOwn(parent: Target, popupId: string)
    requires PopupTarget(parent, popupId).Ok?
    ensures var t := PopupTarget(parent, popupId).value;
      t == Target("popup-" + popupId, Some("Popup"), parent.displayId, parent.scaleFactor, parent.workArea,
        t.bounds, "normal")
  {
  }

  /** An admission repeats the request, under the drawn identities, and its record starts at the beginning. */
  lemma AdmissionRepeatsRequest(s: Registry, request: Request, popupId: string, operation: string, policy: Policy)
    requires request.id !in s.requests && AdmitStep(s, request, popupId, operation, policy).1.Ok?
    ensures var (s', r) := AdmitStep(s, request, popupId, operation, policy);
      var a := r.value;
      && a.requestId == request.id && a.popupId == popupId && a.openOperation == operation && a.lifecycleRevision == 1
      && a.parent == request.parent && a.targetUrl == request.targetUrl && a.openerPolicy == request.openerPolicy
      && a.referrerUrl == request.referrerUrl && a.referrerPolicy == request.referrerPolicy
      && a.hasPostBody == request.hasPostBody && PopupTarget(request.parentTarget, popupId) == Ok(a.target)
      && s'.popups == s.popups[popupId := Record(a, Admitted, 1, None, None, None, false)]
      && s'.events == s.events
  {
  }

  /** The names the frame may not have: too long, unprintable, or reserved other than `_blank` in any case. */
  predicate BadFrameName(name: string) {
    || ByteLength(name) > 256 || (exists c :: c in name && IsControl(c))
    || (name != "" && name[0] == '_' && Lowered(name) != "_blank")
  }

  /** The policies of the Referrer Policy recommendation, and "default". */
  predicate KnownReferrerPolicy(policy: string) {
    || policy == "default" || policy == "no-referrer" || policy == "no-referrer-when-downgrade"
    || policy == "same-origin" || policy == "origin" || policy == "strict-origin"
    || policy == "origin-when-cross-origin" || policy == "strict-origin-when-cross-origin" || policy == "unsafe-url"
  }

  lemma ReferrerPoliciesAre(policy: string)
    ensures ValidReferrerPolicy(policy) <==> KnownReferrerPolicy(policy)
  {
  }

  /** What a new request is refused for, in this order. */
  lemma RequestRefusals(request: Request, policy: Policy)
    ensures var r, p := ValidateOpenRequest(request, policy), request.parent;
      if !(ValidIdentity(p.ownerId) && ValidIdentity(p.windowId) && ValidIdentity(p.tabId) && ValidIdentity(p.attempt))
      then r == Err(InvalidId)
      else if p.ownerGeneration == 0 || p.windowGeneration == 0 || p.topologyRevision == 0 || p.nativeHostId == 0
      then r == Err(ParentFenceInvalid)
      else if request.frameName.Some? && BadFrameName(request.frameName.value) then r == Err(FrameNameInvalid)
      else if ByteLength(request.rawFeatures) > 1024 || (exists c :: c in request.rawFeatures && IsControl(c))
      then r == Err(FeaturesInvalid)
      else if !CanonicalRemoteUrl(request.targetUrl, policy)
        || (request.referrerUrl.Some? && !CanonicalRemoteUrl(request.referrerUrl.value, policy))
      then r == Err(UrlInvalid)
      else if request.referrerPolicy.Some? && !KnownReferrerPolicy(request.referrerPolicy.value)
      then r == Err(ReferrerPolicyInvalid)
      else r == Ok(())
  {
    ControlSomewhere(request.rawFeatures);
    if request.referrerPolicy.Some? { ReferrerPoliciesAre(request.referrerPolicy.value); }
    if request.frameName.Some? { ControlSomewhere(request.frameName.value); }
  }

  lemma ControlSomewhere(s: string)
    ensures HasControl(s) <==> exists c :: c in s && IsControl(c)
  {
    if c :| c in s && IsControl(c) {
      var i :| 0 <= i < |s| && s[i] == c;
    }
  }

  /** What an address must be for the target, the referrer and the page that loads. */
  lemma CanonicalUrlIs(value: string, policy: Policy)
    ensures CanonicalRemoteUrl(value, policy) <==>
      && 0 < ByteLength(value) <= 8192 && (forall c | c in value :: c != '\\' && !IsWhitespace(c))
      && exists scheme, host ::
           && (scheme == "http" || scheme == "https")
           && policy.parse(value) == Some(Url(scheme, Some(host), "", None, value))
  {
    forall i | 0 <= i < |value| ensures value[i] in value {}
    if value != "" && policy.parse(value).Some? {
      var url := policy.parse(value).value;
      if url.host.Some? {
        assert url == Url(url.scheme, Some(url.host.value), url.username, url.password, url.text);
      }
    }
  }

  // ---- Placement ---------------------------------------------------------------------------

  /** Four fifths of what the parent shows of itself, rounded up, unless that is below the minimum. */
  predicate FourFifths(extent: int, parent: int, area: int, minimum: int) {
    var p := if parent < area then parent else area;
    if 4 * p <= 5 * minimum then extent == minimum else 4 * p <= 5 * extent < 4 * p + 5
  }

  /** As near to the parent's centre as the work area allows, to half a pixel. */
  predicate Centred(at: int, extent: int, from: int, parent: int, start: int, area: int) {
    var twice := 2 * from + parent - extent;
    if twice < 2 * start then at == start
    else if twice > 2 * (start + area - extent) then at == start + area - extent
    else -1 <= 2 * at - twice <= 1
  }

  lemma ExtentIsFourFifths(parent: int, area: int, minimum: int)
    requires parent >= 1 && area >= 1 && minimum >= 1
    ensures FourFifths(PopupExtent(parent, area, minimum), parent, area, minimum)
  {
  }

  lemma StartIsCentred(from: I32, parent: I32, extent: int, start: int, area: int)
    requires parent >= 1 && 1 <= extent <= area && from + parent <= I32_MAX
    requires -0x8000_0000 <= from + Truncated(parent - extent, 2)
    ensures Centred(PopupStart(from, parent, extent, start, area), extent, from, parent, start, area)
  {
    assert from + Truncated(parent - extent, 2) < 0x8000_0000;
  }

  /** Away from the low end of the coordinates a popup is four fifths of its parent and centred on it. */
  lemma PopupIsCentred(parent: Target, popupId: string)
    requires PopupTarget(parent, popupId).Ok?
    requires parent.bounds.x >= -0x8000_0000 + 320 && parent.bounds.y >= -0x8000_0000 + 320
    ensures var b, from, area := PopupTarget(parent, popupId).value.bounds, parent.bounds, parent.workArea;
      && FourFifths(b.width, from.width, area.width, 640) && FourFifths(b.height, from.height, area.height, 480)
      && Centred(b.x, b.width, from.x, from.width, area.x, area.width)
      && Centred(b.y, b.height, from.y, from.height, area.y, area.height)
  {
    var from, area := parent.bounds, parent.workArea;
    ExtentIsFourFifths(from.width, area.width, 640);
    ExtentIsFourFifths(from.height, area.height, 480);
    CentreWrapsIff(from.x, from.width, area.width, 640);
    CentreWrapsIff(from.y, from.height, area.height, 480);
    StartIsCentred(from.x, from.width, PopupExtent(from.width, area.width, 640), area.x, area.width);
    StartIsCentred(from.y, from.height, PopupExtent(from.height, area.height, 480), area.y, area.height);
  }
}
