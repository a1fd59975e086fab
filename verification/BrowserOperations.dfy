/**
 * The browser-operation coordinator: multi-role leases granted through one FIFO queue per role.
 *
 * Every region held under the coordinator's mutex is one atomic step. A condvar wait ends the
 * step, and the wake-up starts another one (`Recheck`).
 */
module BrowserOperations {
  import opened Outcomes
  import opened Sequences
  import opened StringOrder
  import opened Text

  type Role = string
  type Id = nat  // a UUID; the environment hands every acquire a fresh one

  datatype Kind = Normal | RecoverableMutation | DestructiveMutation

  function ParseKind(text: string): Option<Kind> {
    match text
    case "normal" => Some(Normal)
    case "recoverableMutation" => Some(RecoverableMutation)
    case "destructiveMutation" => Some(DestructiveMutation)
    case _ => None
  }

  datatype Ticket = Ticket(kind: Kind, roles: seq<Role>, queuedVersions: map<Role, nat>)

  datatype State = State(
    blocked: set<Role>,
    queues: map<Role, seq<Id>>,
    versions: map<Role, nat>,
    shuttingDown: bool,
    tickets: map<Id, Ticket>)

  const Initial := State({}, map[], map[], false, map[])

  datatype Refusal =
    | KindInvalid
    | RolesRequired
    | ShuttingDown
    | MutationBlocked
    | DataChanged
    | NotFound

  /** What one pass of the acquire loop decides; `TicketMissing` is the `expect` that would panic. */
  datatype Decision = Waiting | Refused(error: Refusal) | Granted(roles: seq<Role>) | TicketMissing

  function NormalizeRoles(requested: seq<Role>): seq<Role> {
    SortedDistinct(NonBlank(requested))
  }

  function NonBlank(requested: seq<Role>): (r: seq<Role>)
    ensures forall x :: x in r <==> x in requested && !IsBlank(x)
  {
    if requested == [] then []
    else
      assert requested == [requested[0]] + requested[1..];
      (if IsBlank(requested[0]) then [] else [requested[0]]) + NonBlank(requested[1..])
  }

  function Version(s: State, r: Role): nat {
    if r in s.versions then s.versions[r] else 0
  }

  function VersionsAt(s: State, roles: seq<Role>): map<Role, nat> {
    map r | r in roles :: Version(s, r)
  }

  // ---- The steps as functions of the state -------------------------------------------------

  function QueuesWith(queues: map<Role, seq<Id>>, roles: seq<Role>, id: Id): map<Role, seq<Id>> {
    map r | r in queues.Keys + SetOf(roles) ::
      (if r in queues then queues[r] else []) + (if r in roles then [id] else [])
  }

  function QueuesWithout(queues: map<Role, seq<Id>>, roles: seq<Role>, id: Id): map<Role, seq<Id>> {
    map r | r in queues && (r in roles ==> Without(queues[r], id) != []) ::
      if r in roles then Without(queues[r], id) else queues[r]
  }

  function Enqueue(s: State, id: Id, kind: Kind, roles: seq<Role>): State {
    s.(tickets := s.tickets[id := Ticket(kind, roles, VersionsAt(s, roles))],
       queues := QueuesWith(s.queues, roles, id))
  }

  function Remove(s: State, id: Id): State {
    if id !in s.tickets then s
    else s.(tickets := s.tickets - {id},
            queues := QueuesWithout(s.queues, s.tickets[id].roles, id))
  }

  predicate AtFront(s: State, id: Id, roles: seq<Role>) {
    forall r | r in roles :: r in s.queues && s.queues[r] != [] && s.queues[r][0] == id
  }

  predicate VersionsMoved(s: State, t: Ticket) {
    exists r | r in t.roles :: Version(s, r) != (if r in t.queuedVersions then t.queuedVersions[r] else 0)
  }

  function Bumped(versions: map<Role, nat>, roles: seq<Role>): map<Role, nat> {
    map r | r in versions.Keys + SetOf(roles) ::
      (if r in versions then versions[r] else 0) + (if r in roles then 1 else 0)
  }

  function Admitted(s: State, kind: Kind, roles: seq<Role>): State {
    match kind
    case Normal => s
    case RecoverableMutation => s.(versions := Bumped(s.versions, roles))
    case DestructiveMutation => s.(blocked := s.blocked + SetOf(roles))
  }

  /** One pass of the acquire loop by the thread that owns `id`. */
  function Poll(s: State, id: Id, kind: Kind, roles: seq<Role>): (State, Decision) {
    if s.shuttingDown then (Remove(s, id), Refused(ShuttingDown))
    else if !AtFront(s, id, roles) then (s, Waiting)
    else if exists r | r in roles :: r in s.blocked then (Remove(s, id), Refused(MutationBlocked))
    else if id !in s.tickets then (s, TicketMissing)
    else if s.tickets[id].kind == Normal && VersionsMoved(s, s.tickets[id]) then
      (Remove(s, id), Refused(DataChanged))
    else (Admitted(s, kind, roles), Granted(roles))
  }

  function AcquireStep(s: State, id: Id, kindText: string, requested: seq<Role>): (State, Decision) {
    var roles := NormalizeRoles(requested);
    match ParseKind(kindText)
    case None => (s, Refused(KindInvalid))
    case Some(kind) =>
      if roles == [] then (s, Refused(RolesRequired))
      else if s.shuttingDown then (s, Refused(ShuttingDown))
      else Poll(Enqueue(s, id, kind, roles), id, kind, roles)
  }

  function CompleteStep(s: State, id: Id): (State, Result<(), Refusal>) {
    if id !in s.tickets then (s, Err(NotFound)) else (Remove(s, id), Ok(()))
  }

  function RetainStep(s: State, id: Id, retained: seq<Role>): (State, Result<(), Refusal>) {
    if id !in s.tickets then (s, Err(NotFound))
    else if s.tickets[id].kind != DestructiveMutation then (s, Err(KindInvalid))
    else
      var freed := set r | r in s.tickets[id].roles && r !in retained;
      (Remove(s.(blocked := s.blocked - freed), id), Ok(()))
  }

  function AbortStep(s: State, id: Id): (State, Result<(), Refusal>) {
    if id !in s.tickets then (s, Err(NotFound))
    else if s.tickets[id].kind == DestructiveMutation then
      (Remove(s.(blocked := s.blocked - SetOf(s.tickets[id].roles)), id), Ok(()))
    else (Remove(s, id), Ok(()))
  }

  function ShutdownStep(s: State): (State, bool) {
    (s.(shuttingDown := true), s.tickets == map[])
  }

  // ---- One iteration of each loop over the roles -------------------------------------------

  lemma QueuesWithoutNone(queues: map<Role, seq<Id>>, id: Id)
    ensures QueuesWithout(queues, [], id) == queues
  {
  }

  lemma QueuesWithoutNext(queues: map<Role, seq<Id>>, done: seq<Role>, r: Role, id: Id)
    ensures
      var q := QueuesWithout(queues, done, id);
      QueuesWithout(queues, done + [r], id) ==
        if r !in q then q
        else if Without(q[r], id) == [] then q - {r}
        else q[r := Without(q[r], id)]
  {
    var q, q' := QueuesWithout(queues, done, id), QueuesWithout(queues, done + [r], id);
    if r in q {
      var w := Without(q[r], id);
      assert w == Without(queues[r], id) by {
        WithoutElements(queues[r], id);
        WithoutAbsent(Without(queues[r], id), id);
      }
    }
    assert q'.Keys - {r} == q.Keys - {r};
  }

  lemma QueuesWithNone(queues: map<Role, seq<Id>>, id: Id)
    ensures QueuesWith(queues, [], id) == queues
  {
    assert forall x | x in queues :: queues[x] + [] == queues[x];
  }

  lemma QueuesWithNext(queues: map<Role, seq<Id>>, done: seq<Role>, r: Role, id: Id)
    requires r !in done
    ensures
      var q := QueuesWith(queues, done, id);
      QueuesWith(queues, done + [r], id) == q[r := (if r in q then q[r] else []) + [id]]
  {
    assert forall x :: x in done + [r] <==> x in done || x == r;
    assert forall x | x in queues :: queues[x] + [] == queues[x];
  }

  lemma BumpedNext(versions: map<Role, nat>, done: seq<Role>, r: Role)
    requires r !in done
    ensures Bumped(versions, []) == versions
    ensures
      var v := Bumped(versions, done);
      Bumped(versions, done + [r]) == v[r := (if r in v then v[r] else 0) + 1]
  {
    assert forall x :: x in done + [r] <==> x in done || x == r;
  }

  // ---- The coordinator object, each mutex-held region one method ---------------------------

  class BrowserOperationCoordinator {
    var blockedRoleIds: set<Role>
    var queues: map<Role, seq<Id>>
    var roleVersions: map<Role, nat>
    var shuttingDown: bool
    var tickets: map<Id, Ticket>

    function St(): State
      reads this
    {
      State(blockedRoleIds, queues, roleVersions, shuttingDown, tickets)
    }

    constructor ()
      ensures St() == Initial
    {
      blockedRoleIds, queues, roleVersions, shuttingDown, tickets := {}, map[], map[], false, map[];
    }

    method RemoveTicket(id: Id)
      modifies this
      ensures St() == Remove(old(St()), id)
    {
      if id in tickets {
        var roles := tickets[id].roles;
        tickets := tickets - {id};
        RetainOthers(id, roles);
      }
    }

    method RetainOthers(id: Id, roles: seq<Role>)
      modifies this`queues
      ensures queues == QueuesWithout(old(queues), roles, id)
    {
      QueuesWithoutNone(queues, id);
      for i := 0 to |roles|
        invariant queues == QueuesWithout(old(queues), roles[..i], id)
      {
        var r := roles[i];
        QueuesWithoutNext(old(queues), roles[..i], r, id);
        assert roles[..i + 1] == roles[..i] + [r];
        if r in queues {
          var left := Without(queues[r], id);
          queues := if left == [] then queues - {r} else queues[r := left];
        }
      }
      assert roles[..|roles|] == roles;
    }

    /** The body of the acquire loop up to a return or a wait. */
    method Recheck(id: Id, kind: Kind, roles: seq<Role>) returns (d: Decision)
      requires StrictlySorted(roles)
      modifies this
      ensures (St(), d) == Poll(old(St()), id, kind, roles)
    {
      if shuttingDown {
        RemoveTicket(id);
        return Refused(ShuttingDown);
      }
      if !forall r | r in roles :: r in queues && queues[r] != [] && queues[r][0] == id {
        return Waiting;
      }
      if exists r | r in roles :: r in blockedRoleIds {
        RemoveTicket(id);
        return Refused(MutationBlocked);
      }
      if id !in tickets { return TicketMissing; }
      if tickets[id].kind == Normal && VersionsMoved(St(), tickets[id]) {
        RemoveTicket(id);
        return Refused(DataChanged);
      }
      match kind {
        case Normal =>
        case RecoverableMutation => BumpVersions(roles);
        case DestructiveMutation => blockedRoleIds := blockedRoleIds + SetOf(roles);
      }
      return Granted(roles);
    }

    method BumpVersions(roles: seq<Role>)
      requires StrictlySorted(roles)
      modifies this`roleVersions
      ensures St() == Admitted(old(St()), RecoverableMutation, roles)
    {
      ghost var before := roleVersions;
      BumpedNext(before, [], "");
      for i := 0 to |roles|
        invariant St() == old(St()).(versions := roleVersions)
        invariant roleVersions == Bumped(before, roles[..i])
      {
        var r := roles[i];
        BumpedNext(before, roles[..i], r);
        assert roles[..i + 1] == roles[..i] + [r];
        roleVersions := roleVersions[r := (if r in roleVersions then roleVersions[r] else 0) + 1];
      }
      assert roles[..|roles|] == roles;
    }

    /** Registration and the first pass of the loop, one critical section. `id` is a fresh UUID. */
    method Acquire(id: Id, kindText: string, requested: seq<Role>) returns (d: Decision)
      modifies this
      ensures (St(), d) == AcquireStep(old(St()), id, kindText, requested)
    {
      var kind := ParseKind(kindText);
      if kind.None? { return Refused(KindInvalid); }
      var roles := NormalizeRoles(requested);
      if roles == [] { return Refused(RolesRequired); }
      if shuttingDown { return Refused(ShuttingDown); }
      Register(id, kind.value, roles);
      d := Recheck(id, kind.value, roles);
    }

    method Register(id: Id, kind: Kind, roles: seq<Role>)
      requires StrictlySorted(roles)
      modifies this`tickets, this`queues
      ensures St() == Enqueue(old(St()), id, kind, roles)
    {
      tickets := tickets[id := Ticket(kind, roles, VersionsAt(St(), roles))];
      PushBack(id, roles);
    }

    method PushBack(id: Id, roles: seq<Role>)
      requires StrictlySorted(roles)
      modifies this`queues
      ensures queues == QueuesWith(old(queues), roles, id)
    {
      QueuesWithNone(queues, id);
      for i := 0 to |roles|
        invariant queues == QueuesWith(old(queues), roles[..i], id)
      {
        var r := roles[i];
        QueuesWithNext(old(queues), roles[..i], r, id);
        assert roles[..i + 1] == roles[..i] + [r];
        queues := queues[r := (if r in queues then queues[r] else []) + [id]];
      }
      assert roles[..|roles|] == roles;
    }

    method Complete(id: Id) returns (r: Result<(), Refusal>)
      modifies this
      ensures (St(), r) == CompleteStep(old(St()), id)
    {
      if id !in tickets { return Err(NotFound); }
      RemoveTicket(id);
      return Ok(());
    }

    method CompleteDestructiveWithRetainedRoles(id: Id, retained: seq<Role>)
      returns (r: Result<(), Refusal>)
      modifies this
      ensures (St(), r) == RetainStep(old(St()), id, retained)
    {
      if id !in tickets { return Err(NotFound); }
      if tickets[id].kind != DestructiveMutation { return Err(KindInvalid); }
      var roles := tickets[id].roles;
      for i := 0 to |roles|
        invariant St() == old(St()).(blocked := blockedRoleIds)
        invariant blockedRoleIds == old(blockedRoleIds) - set x | x in roles[..i] && x !in retained
      {
        assert roles[..i + 1] == roles[..i] + [roles[i]];
        if roles[i] !in retained {
          blockedRoleIds := blockedRoleIds - {roles[i]};
        }
      }
      assert roles[..|roles|] == roles;
      RemoveTicket(id);
      return Ok(());
    }

    method Abort(id: Id) returns (r: Result<(), Refusal>)
      modifies this
      ensures (St(), r) == AbortStep(old(St()), id)
    {
      if id !in tickets { return Err(NotFound); }
      if tickets[id].kind == DestructiveMutation {
        var roles := tickets[id].roles;
        for i := 0 to |roles|
          invariant St() == old(St()).(blocked := blockedRoleIds)
          invariant blockedRoleIds == old(blockedRoleIds) - SetOf(roles[..i])
        {
          assert roles[..i + 1] == roles[..i] + [roles[i]];
          blockedRoleIds := blockedRoleIds - {roles[i]};
        }
        assert roles[..|roles|] == roles;
      }
      RemoveTicket(id);
      return Ok(());
    }

    method BeginShutdownAndCheckIdle() returns (idle: bool)
      modifies this
      ensures (St(), idle) == ShutdownStep(old(St()))
    {
      shuttingDown := true;
      return tickets == map[];
    }
  }
}
