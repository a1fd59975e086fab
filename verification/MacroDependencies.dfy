/**
 * The worklist searches over macros: `macroDependsOn`, the two unassigned-dependency searches
 * (TypeScript and Rust), `sourceRoleDependencies`, and their agreement with the stored-macro
 * validator.
 */
module MacroDependencies {
  import opened Outcomes
  import opened Sequences
  import opened CallGraph
  import V = MacroGraph
  import Text

  datatype Step = Action | Call(macroId: Id)

  datatype SourceScope = AllRoles | SelectedRoles(roleIds: seq<string>) | MacroRoles

  datatype Macro = Macro(id: Id, steps: seq<Step>, roleIds: seq<string>, sourceRole: bool, scope: SourceScope)

  /** `steps.flatMap(step => step.type === "macro" ? [step.macroId] : [])` */
  function DependencyIds(steps: seq<Step>): seq<Id> {
    if steps == [] then []
    else (match steps[0] case Action => [] case Call(id) => [id]) + DependencyIds(steps[1..])
  }

  /** `new Map(macros.map(macro => [macro.id, macro]))`: a later macro replaces an earlier namesake. */
  function ById(macros: seq<Macro>): map<Id, Macro> {
    if macros == [] then map[]
    else ById(macros[..|macros| - 1])[macros[|macros| - 1].id := macros[|macros| - 1]]
  }

  function CallsOf(byId: map<Id, Macro>): Graph {
    map id | id in byId :: DependencyIds(byId[id].steps)
  }

  function Mentioned(g: Graph): set<Id> {
    set a, t | a in g && t in g[a] :: t
  }

  /** The loop invariant every worklist search keeps. */
  ghost predicate Searching(g: Graph, source: Id, pending: seq<Id>, visited: set<Id>) {
    && (source in visited || source in pending)
    && (forall v | v in visited :: Reaches(g, source, v))
    && (forall p | p in pending :: Reaches(g, source, p))
    && (forall v, t | v in visited && t in Succ(g, v) :: t in visited || t in pending)
    && visited + SetOf(pending) <= Mentioned(g) + {source}
  }

  lemma SearchStarts(g: Graph, source: Id)
    ensures Searching(g, source, [source], {})
  {
    ReachesSelf(g, source);
  }

  /** Popping an id already seen. */
  lemma SearchSkips(g: Graph, source: Id, pending: seq<Id>, visited: set<Id>)
    requires Searching(g, source, pending, visited) && pending != [] && pending[|pending| - 1] in visited
    ensures Searching(g, source, pending[..|pending| - 1], visited)
  {
    var rest, last := pending[..|pending| - 1], pending[|pending| - 1];
    assert pending == rest + [last];
    forall id ensures id in pending <==> id in rest || id == last {}
  }

  /** Popping a new id and pushing what it calls. */
  lemma SearchExpands(g: Graph, source: Id, pending: seq<Id>, visited: set<Id>)
    requires Searching(g, source, pending, visited) && pending != []
    ensures
      var id := pending[|pending| - 1];
      Searching(g, source, pending[..|pending| - 1] + Succ(g, id), visited + {id})
  {
    var rest, id := pending[..|pending| - 1], pending[|pending| - 1];
    assert pending == rest + [id] && id in pending;
    forall t | t in Succ(g, id) ensures Reaches(g, source, t) && t in Mentioned(g) {
      CalledIsReached(g, source, id, t);
    }
    forall x ensures x in rest + Succ(g, id) <==> x in rest || x in Succ(g, id) {}
    assert forall x | x in pending :: x in rest || x == id;
  }

  lemma CalledIsReached(g: Graph, source: Id, id: Id, t: Id)
    requires Reaches(g, source, id) && t in Succ(g, id)
    ensures Reaches(g, source, t) && t in Mentioned(g)
  {
    ReachesSelf(g, t);
    ReachesStep(g, id, t, t);
    ReachesTransitive(g, source, id, t);
  }

  /** When nothing is pending, the visited ids are exactly the reachable ones. */
  lemma SearchEnds(g: Graph, source: Id, visited: set<Id>, id: Id)
    requires Searching(g, source, [], visited)
    ensures id in visited <==> Reaches(g, source, id)
  {
    if Reaches(g, source, id) { ClosedHoldsReachable(g, visited, source, id); }
  }

  /** True exactly when `target` is reached from `source` in zero or more calls. */
  method MacroDependsOn(macros: seq<Macro>, source: Id, target: Id) returns (r: bool)
    ensures r <==> Reaches(CallsOf(ById(macros)), source, target)
  {
    var byId := ById(macros);
    ghost var g := CallsOf(byId);
    var pending, visited := [source], {};
    SearchStarts(g, source);
    while pending != []
      invariant Searching(g, source, pending, visited) && target !in visited
      decreases Mentioned(g) + {source} - visited, |pending|
    {
      var id := pending[|pending| - 1];
      if id == target { return true; }
      SearchExpands(g, source, pending, visited);
      if id in visited {
        SearchSkips(g, source, pending, visited);
        pending := pending[..|pending| - 1];
        continue;
      }
      assert id in SetOf(pending);
      visited := visited + {id};
      pending := pending[..|pending| - 1] + (if id in byId then DependencyIds(byId[id].steps) else []);
    }
    SearchEnds(g, source, visited, target);
    return false;
  }

  predicate Unassigned(m: Macro) {
    !m.sourceRole && m.roleIds == []
  }

  /** Some reachable known macro neither follows its source role nor names a role. */
  ghost predicate HasUnassigned(macros: seq<Macro>, source: Id) {
    exists id :: id in ById(macros) && Reaches(CallsOf(ById(macros)), source, id) && Unassigned(ById(macros)[id])
  }

  /** The TypeScript search: the first unassigned dependency it meets, or undefined. */
  method FindUnassignedMacroDependency(macros: seq<Macro>, source: Id) returns (r: Option<Macro>)
    ensures r.Some? <==> HasUnassigned(macros, source)
    ensures r.Some? ==>
      var byId := ById(macros);
      && Unassigned(r.value) && r.value.id in byId && byId[r.value.id] == r.value
      && Reaches(CallsOf(byId), source, r.value.id)
  {
    var byId := ById(macros);
    ByIdKeys(macros);
    ghost var g := CallsOf(byId);
    var pending, visited := [source], {};
    SearchStarts(g, source);
    while pending != []
      invariant Searching(g, source, pending, visited)
      invariant forall v | v in visited && v in byId :: !Unassigned(byId[v])
      decreases Mentioned(g) + {source} - visited, |pending|
    {
      var id := pending[|pending| - 1];
      SearchExpands(g, source, pending, visited);
      if id in visited {
        SearchSkips(g, source, pending, visited);
        pending := pending[..|pending| - 1];
        continue;
      }
      assert id in SetOf(pending);
      visited := visited + {id};
      pending := pending[..|pending| - 1];
      if id !in byId {
        assert pending + [] == pending;
        continue;
      }
      if Unassigned(byId[id]) { return Some(byId[id]); }
      pending := pending + DependencyIds(byId[id].steps);
    }
    forall id | id in byId && Reaches(g, source, id) ensures !Unassigned(byId[id]) {
      SearchEnds(g, source, visited, id);
    }
    return None;
  }

  /** The Rust search behind the overlay's macro list; it pushes each call in a loop. */
  method HasUnassignedDependency(macros: seq<Macro>, source: Id) returns (r: bool)
    ensures r <==> HasUnassigned(macros, source)
  {
    var byId := ById(macros);
    ghost var g := CallsOf(byId);
    var pending, visited := [source], {};
    SearchStarts(g, source);
    while pending != []
      invariant Searching(g, source, pending, visited)
      invariant forall v | v in visited && v in byId :: !Unassigned(byId[v])
      decreases Mentioned(g) + {source} - visited, |pending|
    {
      var id := pending[|pending| - 1];
      SearchExpands(g, source, pending, visited);
      if id in visited {
        SearchSkips(g, source, pending, visited);
        pending := pending[..|pending| - 1];
        continue;
      }
      assert id in SetOf(pending);
      visited := visited + {id};
      pending := pending[..|pending| - 1];
      if id !in byId {
        assert pending + [] == pending;
        continue;
      }
      if Unassigned(byId[id]) { return true; }
      pending := PushCalls(pending, byId[id].steps);
    }
    forall id | id in byId && Reaches(g, source, id) ensures !Unassigned(byId[id]) {
      SearchEnds(g, source, visited, id);
    }
    return false;
  }

  method PushCalls(pending: seq<Id>, steps: seq<Step>) returns (r: seq<Id>)
    ensures r == pending + DependencyIds(steps)
  {
    r := pending;
    for i := 0 to |steps|
      invariant r + DependencyIds(steps[i..]) == pending + DependencyIds(steps)
    {
      assert steps[i..][0] == steps[i] && steps[i..][1..] == steps[i + 1..];
      if steps[i].Call? {
        assert r + ([steps[i].macroId] + DependencyIds(steps[i + 1..]))
            == (r + [steps[i].macroId]) + DependencyIds(steps[i + 1..]);
        r := r + [steps[i].macroId];
      } else {
        assert [] + DependencyIds(steps[i + 1..]) == DependencyIds(steps[i + 1..]);
      }
    }
    assert r + [] == r;
  }

  lemma {:induction false} ByIdKeys(macros: seq<Macro>)
    ensures forall id | id in ById(macros) :: ById(macros)[id].id == id && ById(macros)[id] in macros
    ensures forall m | m in macros :: m.id in ById(macros)
  {
    if macros != [] {
      ByIdKeys(macros[..|macros| - 1]);
      assert macros == macros[..|macros| - 1] + [macros[|macros| - 1]];
    }
  }

  /** Each reachable source-role macro exactly once, whatever cycles the calls form. */
  method SourceRoleDependencies(macros: seq<Macro>, root: Id) returns (dynamic: seq<Macro>)
    ensures NoDup(dynamic)
    ensures forall m :: m in dynamic <==>
      m.id in ById(macros) && ById(macros)[m.id] == m && m.sourceRole && Reaches(CallsOf(ById(macros)), root, m.id)
  {
    var byId := ById(macros);
    ByIdKeys(macros);
    ghost var g := CallsOf(byId);
    var pending, visited := [root], {};
    dynamic := [];
    SearchStarts(g, root);
    while pending != []
      invariant Searching(g, root, pending, visited)
      invariant NoDup(dynamic)
      invariant forall m :: m in dynamic <==> m.id in visited && m.id in byId && byId[m.id] == m && m.sourceRole
      decreases Mentioned(g) + {root} - visited, |pending|
    {
      var id := pending[|pending| - 1];
      SearchExpands(g, root, pending, visited);
      if id in visited {
        SearchSkips(g, root, pending, visited);
        pending := pending[..|pending| - 1];
        continue;
      }
      assert id in SetOf(pending);
      visited := visited + {id};
      pending := pending[..|pending| - 1];
      if id !in byId {
        assert pending + [] == pending;
        continue;
      }
      if byId[id].sourceRole {
        assert byId[id] !in dynamic;
        dynamic := dynamic + [byId[id]];
      }
      pending := pending + DependencyIds(byId[id].steps);
    }
    forall id ensures id in visited <==> Reaches(g, root, id) { SearchEnds(g, root, visited, id); }
  }

  predicate AllowsMacroSource(m: Macro, roleId: string) {
    match m.scope
    case AllRoles => true
    case SelectedRoles(ids) => roleId in ids
    case MacroRoles => roleId in m.roleIds
  }

  /** A role may start a chain exactly when the root allows it and so does every source-role macro reached. */
  method AllowsMacroChainSource(macros: seq<Macro>, root: Macro, roleId: string) returns (r: bool)
    ensures r <==>
      && (AllowsMacroSource(root, roleId) || (!root.sourceRole && roleId in root.roleIds))
      && forall id | id in ById(macros) && Reaches(CallsOf(ById(macros)), root.id, id) && ById(macros)[id].sourceRole ::
           AllowsMacroSource(ById(macros)[id], roleId)
  {
    if !(AllowsMacroSource(root, roleId) || (!root.sourceRole && roleId in root.roleIds)) { return false; }
    var dynamic := SourceRoleDependencies(macros, root.id);
    ByIdKeys(macros);
    for i := 0 to |dynamic|
      invariant forall j | 0 <= j < i :: AllowsMacroSource(dynamic[j], roleId)
    {
      if !AllowsMacroSource(dynamic[i], roleId) {
        ghost var m := dynamic[i];
        assert m in dynamic;
        assert m.id in ById(macros) && ById(macros)[m.id] == m && m.sourceRole;
        return false;
      }
    }
    forall id | id in ById(macros) && Reaches(CallsOf(ById(macros)), root.id, id) && ById(macros)[id].sourceRole
      ensures AllowsMacroSource(ById(macros)[id], roleId)
    {
      assert ById(macros)[id] in dynamic;
    }
    return true;
  }

  // ---- The searches against the validator --------------------------------------------------

  /** A macro as the validator reads it from storage. */
  function Stored(m: Macro): V.MacroValue {
    V.MacroObject(Some(m.id), Some(StoredSteps(m.steps)))
  }

  function StoredSteps(steps: seq<Step>): seq<V.StepValue> {
    if steps == [] then []
    else [match steps[0] case Action => V.OtherStep case Call(id) => V.MacroStep(Some(id))] + StoredSteps(steps[1..])
  }

  function StoredAll(macros: seq<Macro>): seq<V.MacroValue> {
    seq(|macros|, i requires 0 <= i < |macros| => Stored(macros[i]))
  }

  lemma {:induction false} StoredTargets(steps: seq<Step>)
    ensures V.Targets(StoredSteps(steps)).Some? <==> forall t | t in DependencyIds(steps) :: !Text.IsBlank(t)
    ensures V.Targets(StoredSteps(steps)).Some? ==> V.Targets(StoredSteps(steps)).value == DependencyIds(steps)
  {
    if steps != [] {
      StoredTargets(steps[1..]);
      assert StoredSteps(steps)[1..] == StoredSteps(steps[1..]);
      var rest := DependencyIds(steps[1..]);
      assert [] + rest == rest;
      if steps[0].Call? {
        assert forall t :: t in [steps[0].macroId] + rest <==> t == steps[0].macroId || t in rest;
      }
    }
  }

  /** The validator and the searches see the same call graph. */
  lemma {:induction false} SameGraph(macros: seq<Macro>)
    requires V.AllParse(StoredAll(macros))
    ensures V.GraphOf(StoredAll(macros)) == CallsOf(ById(macros))
  {
    if macros != [] {
      var front, last := macros[..|macros| - 1], macros[|macros| - 1];
      var stored := StoredAll(macros);
      assert stored[..|macros| - 1] == StoredAll(front);
      assert forall i | 0 <= i < |front| :: StoredAll(front)[i] == stored[i];
      SameGraph(front);
      StoredTargets(last.steps);
      assert V.ParseMacro(stored[|macros| - 1]).Ok?;
    }
  }

  lemma {:induction false} DependencyIdsAppend(steps: seq<Step>, id: Id)
    ensures DependencyIds(steps + [Call(id)]) == DependencyIds(steps) + [id]
  {
    if steps != [] {
      assert (steps + [Call(id)])[1..] == steps[1..] + [Call(id)];
      DependencyIdsAppend(steps[1..], id);
    } else {
      assert [Call(id)][1..] == [] && [id] + [] == [id];
    }
  }

  function AddCall(macros: seq<Macro>, k: nat, target: Id): seq<Macro>
    requires k < |macros|
  {
    macros[k := macros[k].(steps := macros[k].steps + [Call(target)])]
  }

  lemma {:induction false} AddCallById(macros: seq<Macro>, k: nat, target: Id)
    requires k < |macros| && forall i, j | 0 <= i < j < |macros| :: macros[i].id != macros[j].id
    ensures ById(AddCall(macros, k, target)) == ById(macros)[macros[k].id := AddCall(macros, k, target)[k]]
    ensures macros[k].id in ById(macros) && ById(macros)[macros[k].id] == macros[k]
  {
    var n := |macros| - 1;
    var front := macros[..n];
    var added := AddCall(macros, k, target);
    if k == n {
      assert added[..n] == front;
    } else {
      AddCallById(front, k, target);
      assert added[..n] == AddCall(front, k, target) && added[n] == macros[n];
      assert macros[k].id != macros[n].id;
      SwapUpdates(ById(front), macros[k].id, added[k], macros[n].id, macros[n]);
    }
  }

  lemma SwapUpdates(byId: map<Id, Macro>, a: Id, m: Macro, b: Id, n: Macro)
    requires a != b
    ensures byId[a := m][b := n] == byId[b := n][a := m]
  {
  }

  lemma AddCallGraph(macros: seq<Macro>, k: nat, target: Id)
    requires k < |macros| && forall i, j | 0 <= i < j < |macros| :: macros[i].id != macros[j].id
    ensures CallsOf(ById(AddCall(macros, k, target))) == WithCall(CallsOf(ById(macros)), macros[k].id, target)
    ensures macros[k].id in ById(macros)
  {
    AddCallById(macros, k, target);
    DependencyIdsAppend(macros[k].steps, target);
    CallsOfUpdated(ById(macros), macros[k].id, AddCall(macros, k, target)[k]);
  }

  lemma CallsOfUpdated(byId: map<Id, Macro>, id: Id, m: Macro)
    ensures CallsOf(byId[id := m]) == CallsOf(byId)[id := DependencyIds(m.steps)]
  {
  }

  lemma AddCallParses(macros: seq<Macro>, k: nat, target: Id)
    requires k < |macros| && V.AllParse(StoredAll(macros)) && !Text.IsBlank(target)
    ensures V.AllParse(StoredAll(AddCall(macros, k, target)))
    ensures forall i | 0 <= i < |macros| ::
      V.ParseMacro(StoredAll(AddCall(macros, k, target))[i]).value.id == macros[i].id &&
      V.ParseMacro(StoredAll(macros)[i]).value.id == macros[i].id
  {
    var added := AddCall(macros, k, target);
    forall i | 0 <= i < |macros|
      ensures V.ParseMacro(StoredAll(added)[i]).Ok? && V.ParseMacro(StoredAll(macros)[i]).Ok?
    {
      assert V.ParseMacro(StoredAll(macros)[i]).Ok?;
      StoredTargets(macros[i].steps);
      StoredTargets(added[i].steps);
      DependencyIdsAppend(macros[k].steps, target);
    }
  }

  /**
   * Main result: for macros the validator accepts, giving macro `a` one more call, to a known macro
   * `b`, is accepted again exactly when `macroDependsOn(b, a)` is false.
   */
  lemma AddingCallAcceptedIffNotDepending(macros: seq<Macro>, k: nat, b: Id)
    requires k < |macros| && V.Accepted(StoredAll(macros)) && b in ById(macros)
    ensures V.Accepted(StoredAll(AddCall(macros, k, b))) <==>
            !Reaches(CallsOf(ById(macros)), b, macros[k].id)
  {
    var a := macros[k].id;
    var stored, g := StoredAll(macros), CallsOf(ById(macros));
    ByIdKeys(macros);
    var m :| 0 <= m < |macros| && macros[m] == ById(macros)[b];
    assert V.ParseMacro(stored[m]).Ok?;
    AddCallParses(macros, k, b);
    forall i, j | 0 <= i < j < |macros| ensures macros[i].id != macros[j].id {
      assert V.ParseMacro(stored[i]).value.id != V.ParseMacro(stored[j]).value.id;
    }
    SameGraph(macros);
    SameGraph(AddCall(macros, k, b));
    AddCallGraph(macros, k, b);
    NewCallAcyclicIff(g, a, b);
    TargetsStayKnown(g, a, b);
    AddCallUnique(macros, k, b);
  }

  lemma TargetsStayKnown(g: Graph, a: Id, b: Id)
    requires V.TargetsKnown(g) && a in g && b in g
    ensures V.TargetsKnown(WithCall(g, a, b))
  {
  }

  lemma AddCallUnique(macros: seq<Macro>, k: nat, b: Id)
    requires k < |macros| && V.AllParse(StoredAll(macros)) && V.AllParse(StoredAll(AddCall(macros, k, b)))
    requires forall i, j | 0 <= i < j < |macros| :: macros[i].id != macros[j].id
    requires forall i | 0 <= i < |macros| ::
      V.ParseMacro(StoredAll(AddCall(macros, k, b))[i]).value.id == macros[i].id
    ensures V.UniqueIds(StoredAll(AddCall(macros, k, b)))
  {
  }
}
