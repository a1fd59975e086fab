/** The stored-macro validator: unique ids, known targets and no cycle of calls. */
module MacroGraph {
  import opened Outcomes
  import opened Text
  import opened CallGraph

  /** A step as JSON presents it: `MacroStep` when its "type" is "macro", with its "macroId" text. */
  datatype StepValue = OtherStep | MacroStep(macroId: Option<string>)

  datatype MacroValue = NotAnObject | MacroObject(id: Option<string>, steps: Option<seq<StepValue>>)

  datatype Error =
    | NotObject
    | IdRequired
    | StepsInvalid(id: Id)
    | DependencyInvalid(id: Id)
    | Duplicate(id: Id)
    | MissingTarget(id: Id, target: Id)
    | Cycle(id: Id)

  datatype Parsed = Parsed(id: Id, targets: seq<Id>)

  function Targets(steps: seq<StepValue>): Option<seq<Id>> {
    if steps == [] then Some([])
    else
      match steps[0]
      case OtherStep => Targets(steps[1..])
      case MacroStep(target) =>
        if target.None? || IsBlank(target.value) then None
        else
          var rest := Targets(steps[1..]);
          if rest.None? then None else Some([target.value] + rest.value)
  }

  function ParseMacro(m: MacroValue): Result<Parsed, Error> {
    match m
    case NotAnObject => Err(NotObject)
    case MacroObject(id, steps) =>
      if id.None? || IsBlank(id.value) then Err(IdRequired)
      else if steps.None? then Err(StepsInvalid(id.value))
      else
        var targets := Targets(steps.value);
        if targets.None? then Err(DependencyInvalid(id.value)) else Ok(Parsed(id.value, targets.value))
  }

  ghost predicate AllParse(macros: seq<MacroValue>) {
    forall i | 0 <= i < |macros| :: ParseMacro(macros[i]).Ok?
  }

  ghost predicate UniqueIds(macros: seq<MacroValue>)
    requires AllParse(macros)
  {
    forall i, j | 0 <= i < j < |macros| :: ParseMacro(macros[i]).value.id != ParseMacro(macros[j]).value.id
  }

  function GraphOf(macros: seq<MacroValue>): Graph {
    if macros == [] then map[]
    else
      var g, last := GraphOf(macros[..|macros| - 1]), ParseMacro(macros[|macros| - 1]);
      if last.Err? then g else g[last.value.id := last.value.targets]
  }

  ghost predicate TargetsKnown(g: Graph) {
    forall a, t | a in g && t in g[a] :: t in g
  }

  /** What the validator is for. */
  ghost predicate Accepted(macros: seq<MacroValue>) {
    AllParse(macros) && UniqueIds(macros) && TargetsKnown(GraphOf(macros)) && Acyclic(GraphOf(macros))
  }

  /** Each macro is a graph node under its own id, and there are no other nodes. */
  lemma {:induction false} GraphOfNodes(macros: seq<MacroValue>)
    requires AllParse(macros)
    ensures forall id :: id in GraphOf(macros) <==>
              exists i :: 0 <= i < |macros| && ParseMacro(macros[i]).value.id == id
  {
    if macros != [] {
      var front, last := macros[..|macros| - 1], ParseMacro(macros[|macros| - 1]).value;
      assert forall i | 0 <= i < |front| :: front[i] == macros[i];
      GraphOfNodes(front);
      forall id ensures id in GraphOf(macros) <==>
        exists i :: 0 <= i < |macros| && ParseMacro(macros[i]).value.id == id
      {
        if id in GraphOf(front) {
          var i :| 0 <= i < |front| && ParseMacro(front[i]).value.id == id;
          assert ParseMacro(macros[i]).value.id == id;
        }
        if id == last.id { assert ParseMacro(macros[|macros| - 1]).value.id == id; }
        if i :| 0 <= i < |macros| && ParseMacro(macros[i]).value.id == id {
          if i < |front| { assert ParseMacro(front[i]).value.id == id; }
        }
      }
    }
  }

  // ---- The depth-first search --------------------------------------------------------------

  ghost predicate Finished(g: Graph, visited: set<Id>) {
    visited <= g.Keys && Closed(g, visited) && forall v | v in visited :: !Calls(g, v, v)
  }

  ghost predicate AllCall(g: Graph, callers: set<Id>, id: Id) {
    forall v | v in callers :: Calls(g, v, id)
  }

  lemma CallersReachTargets(g: Graph, visiting: set<Id>, id: Id, t: Id)
    requires AllCall(g, visiting, id) && t in Succ(g, id)
    ensures AllCall(g, visiting + {id}, t)
  {
    ReachesSelf(g, t);
    ReachesStep(g, id, t, t);
    forall v | v in visiting ensures Calls(g, v, t) {
      CallsThen(g, v, id, t);
    }
  }

  /** Visiting one more id at a time, at most `room` more can be nested. */
  ghost predicate HasRoom(g: Graph, visiting: set<Id>, room: nat)
    decreases room
  {
    g.Keys <= visiting || (room > 0 && forall id | id in g.Keys - visiting :: HasRoom(g, visiting + {id}, room - 1))
  }

  /** There is room for every id. */
  lemma {:induction false} RoomForAll(g: Graph, visiting: set<Id>, room: nat)
    requires |g.Keys - visiting| <= room
    ensures HasRoom(g, visiting, room)
    decreases room
  {
    if room > 0 {
      forall id | id in g.Keys - visiting ensures HasRoom(g, visiting + {id}, room - 1) {
        assert g.Keys - visiting == (g.Keys - (visiting + {id})) + {id};
        RoomForAll(g, visiting + {id}, room - 1);
      }
    } else {
      assert g.Keys - visiting == {};
      forall id | id in g.Keys ensures id in visiting { assert id !in g.Keys - visiting; }
    }
  }

  lemma RoomShrinks(g: Graph, visiting: set<Id>, id: Id, room: nat)
    requires HasRoom(g, visiting, room) && id in g && id !in visiting
    ensures room > 0 && HasRoom(g, visiting + {id}, room - 1)
  {
  }

  /**
   * Depth-first visit with the shared `visiting` and `visited` sets passed in and out. `depth` is
   * the deepest nesting of calls: at most one frame for each id not being visited, and one more.
   */
  method Visit(id: Id, dependencies: Graph, visiting: set<Id>, visited: set<Id>, ghost room: nat)
    returns (r: Result<(), Error>, visiting': set<Id>, visited': set<Id>, ghost depth: nat)
    requires id in dependencies && TargetsKnown(dependencies)
    requires visiting <= dependencies.Keys && visiting !! visited && Finished(dependencies, visited)
    requires AllCall(dependencies, visiting, id) && HasRoom(dependencies, visiting, room)
    ensures r.Ok? ==> visiting' == visiting && visited + {id} <= visited' && visiting !! visited' &&
                      Finished(dependencies, visited')
    ensures r.Err? ==> r.error.Cycle? && Calls(dependencies, r.error.id, r.error.id)
    ensures depth <= room + 1
    decreases room
  {
    visiting', visited', depth := visiting, visited, 1;
    if id in visited { return Ok(()), visiting', visited', depth; }
    if id in visiting { return Err(Cycle(id)), visiting', visited', depth; }
    visiting' := visiting + {id};
    assert room > 0 && HasRoom(dependencies, visiting', room - 1) by {
      RoomShrinks(dependencies, visiting, id, room);
    }
    ghost var inside := visiting';
    var targets := dependencies[id];
    for i := 0 to |targets|
      invariant visiting' == inside
      invariant inside !! visited' && visited <= visited' && Finished(dependencies, visited')
      invariant forall j | 0 <= j < i :: targets[j] in visited'
      invariant depth <= room + 1
    {
      CallersReachTargets(dependencies, visiting, id, targets[i]);
      ghost var d;
      r, visiting', visited', d := Visit(targets[i], dependencies, visiting', visited', room - 1);
      if d + 1 > depth { depth := d + 1; }
      if r.Err? { return; }
    }
    LeavesAreSafe(dependencies, visited', id);
    visiting' := visiting' - {id};
    visited' := visited' + {id};
    r := Ok(());
  }

  /** A node all of whose targets are finished, itself unfinished, lies on no cycle. */
  lemma LeavesAreSafe(g: Graph, visited: set<Id>, id: Id)
    requires Finished(g, visited) && id in g && id !in visited
    requires forall t | t in g[id] :: t in visited
    ensures Finished(g, visited + {id})
  {
    forall t | t in g[id] ensures !Reaches(g, t, id) {
      if Reaches(g, t, id) { ClosedHoldsReachable(g, visited, t, id); }
    }
  }

  /** The first `k` macros are fine by themselves and the next one is not: it does not parse, or repeats an id. */
  ghost predicate BreaksAt(macros: seq<MacroValue>, k: nat)
    requires k < |macros|
  {
    && AllParse(macros[..k]) && UniqueIds(macros[..k])
    && (ParseMacro(macros[k]).Err? ||
        exists j :: 0 <= j < k && ParseMacro(macros[..k][j]).value.id == ParseMacro(macros[k]).value.id)
  }

  lemma BreaksOnce(macros: seq<MacroValue>, i: nat, k: nat)
    requires i < |macros| && k < |macros| && BreaksAt(macros, i) && BreaksAt(macros, k)
    ensures i == k
  {
    if i < k { BreaksBefore(macros, i, k); }
    if k < i { BreaksBefore(macros, k, i); }
  }

  lemma BreaksBefore(macros: seq<MacroValue>, i: nat, k: nat)
    requires i < k < |macros| && BreaksAt(macros, i)
    ensures !(AllParse(macros[..k]) && UniqueIds(macros[..k]))
  {
    var prefix := macros[..k];
    assert prefix[i] == macros[i];
    if AllParse(prefix) {
      var j :| 0 <= j < i && ParseMacro(macros[..i][j]).value.id == ParseMacro(macros[i]).value.id;
      assert macros[..i][j] == prefix[j];
    }
  }

  /** The one macro that breaks the list, and that a broken list is not accepted. */
  lemma BreaksHere(macros: seq<MacroValue>, i: nat)
    requires i < |macros| && BreaksAt(macros, i)
    ensures forall k: nat | k < |macros| && BreaksAt(macros, k) :: k == i
    ensures !Accepted(macros)
  {
    forall k: nat | k < |macros| && BreaksAt(macros, k) ensures k == i { BreaksOnce(macros, i, k); }
    if AllParse(macros) && UniqueIds(macros) { NothingBreaks(macros, i); }
  }

  /** The next macro parses and is new. */
  lemma NextParsed(macros: seq<MacroValue>, i: nat)
    requires i < |macros| && AllParse(macros[..i]) && UniqueIds(macros[..i]) && ParseMacro(macros[i]).Ok?
    requires ParseMacro(macros[i]).value.id !in GraphOf(macros[..i])
    ensures AllParse(macros[..i + 1]) && UniqueIds(macros[..i + 1])
    ensures var m := ParseMacro(macros[i]).value;
      GraphOf(macros[..i + 1]) == GraphOf(macros[..i])[m.id := m.targets]
  {
    var front, prefix := macros[..i], macros[..i + 1];
    assert prefix[..i] == front && prefix[i] == macros[i];
    GraphOfNodes(front);
    forall j | 0 <= j < i ensures prefix[j] == front[j] {}
  }

  lemma RepeatBreaks(macros: seq<MacroValue>, i: nat)
    requires i < |macros| && AllParse(macros[..i]) && UniqueIds(macros[..i]) && ParseMacro(macros[i]).Ok?
    requires ParseMacro(macros[i]).value.id in GraphOf(macros[..i])
    ensures BreaksAt(macros, i)
  {
    GraphOfNodes(macros[..i]);
  }

  lemma NothingBreaks(macros: seq<MacroValue>, k: nat)
    requires AllParse(macros) && UniqueIds(macros) && k < |macros|
    ensures !BreaksAt(macros, k)
  {
    forall j | 0 <= j < k ensures macros[..k][j] == macros[j] {}
    forall j | 0 <= j < k ensures ParseMacro(macros[j]).value.id != ParseMacro(macros[k]).value.id {}
  }

  method ValidateMacroGraph(macros: seq<MacroValue>) returns (r: Result<(), Error>)
    ensures r.Ok? <==> Accepted(macros)
    ensures forall k: nat | k < |macros| && BreaksAt(macros, k) ::
              r == Err(match ParseMacro(macros[k]) case Err(error) => error case Ok(m) => Duplicate(m.id))
    ensures r.Err? && r.error.MissingTarget? ==>
              AllParse(macros) && r.error.target in Succ(GraphOf(macros), r.error.id) &&
              r.error.target !in GraphOf(macros)
    ensures r.Err? && r.error.Cycle? ==>
              AllParse(macros) && TargetsKnown(GraphOf(macros)) && Calls(GraphOf(macros), r.error.id, r.error.id)
  {
    var dependencies: Graph := map[];
    for i := 0 to |macros|
      invariant AllParse(macros[..i]) && UniqueIds(macros[..i])
      invariant dependencies == GraphOf(macros[..i])
    {
      var parsed := ParseMacro(macros[i]);
      if parsed.Err? {
        BreaksHere(macros, i);
        return Err(parsed.error);
      }
      if parsed.value.id in dependencies {
        RepeatBreaks(macros, i);
        BreaksHere(macros, i);
        return Err(Duplicate(parsed.value.id));
      }
      NextParsed(macros, i);
      dependencies := dependencies[parsed.value.id := parsed.value.targets];
    }
    assert macros[..|macros|] == macros;
    forall k: nat | k < |macros| ensures !BreaksAt(macros, k) { NothingBreaks(macros, k); }

    var unchecked := dependencies.Keys;
    while unchecked != {}
      invariant unchecked <= dependencies.Keys
      invariant forall a, t | a in dependencies && a !in unchecked && t in dependencies[a] :: t in dependencies
    {
      var id :| id in unchecked;
      var targets := dependencies[id];
      for i := 0 to |targets|
        invariant forall j | 0 <= j < i :: targets[j] in dependencies
      {
        if targets[i] !in dependencies { return Err(MissingTarget(id, targets[i])); }
      }
      unchecked := unchecked - {id};
    }

    ghost var deepest;
    r, deepest := SearchCycles(dependencies);
  }

  /**
   * Visits the ids in whatever order the hash map yields them. The stack never holds more frames
   * than there are ids, plus one.
   */
  method SearchCycles(dependencies: Graph) returns (r: Result<(), Error>, ghost deepest: nat)
    requires TargetsKnown(dependencies)
    ensures r.Ok? <==> Acyclic(dependencies)
    ensures deepest <= |dependencies| + 1
    ensures r.Err? ==> r.error.Cycle? && Calls(dependencies, r.error.id, r.error.id)
  {
    var visiting: set<Id>, visited: set<Id> := {}, {};
    var rest := dependencies.Keys;
    deepest := 0;
    while rest != {}
      invariant rest <= dependencies.Keys && visiting == {} && Finished(dependencies, visited)
      invariant dependencies.Keys - rest <= visited
      invariant deepest <= |dependencies.Keys| + 1
    {
      var id :| id in rest;
      ghost var depth;
      RoomForAll(dependencies, visiting, |dependencies.Keys|);
      r, visiting, visited, depth := Visit(id, dependencies, visiting, visited, |dependencies.Keys|);
      if depth > deepest { deepest := depth; }
      if r.Err? { return; }
      rest := rest - {id};
    }
    forall a ensures !Calls(dependencies, a, a) {
      if a in dependencies { assert a in visited; }
    }
    return Ok(()), deepest;
  }
}
