/** What the macro validator and the searches read off stored macros, told by their steps. */
module MacroRules {
  import opened Outcomes
  import opened Text
  import opened CallGraph
  import opened MacroGraph
  import D = MacroDependencies

  // ---- One stored macro --------------------------------------------------------------------

  /** A text with something in it but whitespace. */
  predicate Written(text: Option<string>) {
    text.Some? && exists c :: c in text.value && !IsWhitespace(c)
  }

  lemma WrittenIff(text: string)
    ensures Written(Some(text)) <==> !IsBlank(text)
  {
    if c :| c in text && !IsWhitespace(c) {
      var i :| 0 <= i < |text| && text[i] == c;
    }
  }

  /** Every macro step names its macro. */
  ghost predicate CallsNamed(steps: seq<StepValue>) {
    forall step | step in steps && step.MacroStep? :: Written(step.macroId)
  }

  lemma {:induction false} TargetsAre(steps: seq<StepValue>, t: Id)
    ensures Targets(steps).Some? <==> CallsNamed(steps)
    ensures Targets(steps).Some? ==> (t in Targets(steps).value <==> MacroStep(Some(t)) in steps)
  {
    if steps != [] {
      var first, rest := steps[0], steps[1..];
      assert steps == [first] + rest;
      TargetsAre(rest, t);
      if first.MacroStep? && first.macroId.Some? {
        WrittenIff(first.macroId.value);
        if Targets(rest).Some? {
          var all := [first.macroId.value] + Targets(rest).value;
          assert t in all <==> t == first.macroId.value || t in Targets(rest).value;
        }
      }
      assert CallsNamed(steps) <==> (first.MacroStep? ==> Written(first.macroId)) && CallsNamed(rest);
    }
  }

  /** What a stored macro is refused for, in this order, and what it calls when it is not. */
  lemma ParsedMacro(m: MacroValue, t: Id)
    ensures var r := ParseMacro(m);
      match m
      case NotAnObject => r == Err(NotObject)
      case MacroObject(id, steps) =>
        if !Written(id) then r == Err(IdRequired)
        else if steps == None then r == Err(StepsInvalid(id.value))
        else if !CallsNamed(steps.value) then r == Err(DependencyInvalid(id.value))
        else r.Ok? && r.value.id == id.value && (t in r.value.targets <==> MacroStep(Some(t)) in steps.value)
  {
    if m.MacroObject? && m.id.Some? {
      WrittenIff(m.id.value);
      if m.steps.Some? { TargetsAre(m.steps.value, t); }
    }
  }

  /** The macro of this id has a step that calls `t`. */
  predicate HasCall(macros: seq<MacroValue>, i: nat, id: Id, t: Id)
    requires i < |macros|
  {
    macros[i].MacroObject? && macros[i].id == Some(id) && macros[i].steps.Some? &&
    MacroStep(Some(t)) in macros[i].steps.value
  }

  /** The calls of the graph are the macro steps of the stored macros. */
  lemma {:induction false} CallsAreSteps(macros: seq<MacroValue>, id: Id, t: Id)
    requires AllParse(macros) && UniqueIds(macros)
    ensures t in Succ(GraphOf(macros), id) <==> exists i :: 0 <= i < |macros| && HasCall(macros, i, id, t)
  {
    if macros != [] {
      var n := |macros| - 1;
      var front, last := macros[..n], macros[n];
      forall i | 0 <= i < n ensures front[i] == macros[i] && HasCall(front, i, id, t) == HasCall(macros, i, id, t) {}
      CallsAreSteps(front, id, t);
      GraphOfNodes(front);
      ParsedMacro(last, t);
      if i :| 0 <= i < n && HasCall(macros, i, id, t) { ParsedMacro(macros[i], t); }
      forall i | 0 <= i < n ensures ParseMacro(front[i]).value.id != ParseMacro(last).value.id {
        assert ParseMacro(macros[i]).value.id != ParseMacro(macros[n]).value.id;
      }
      assert HasCall(macros, n, id, t) <==> ParseMacro(last).value.id == id && t in ParseMacro(last).value.targets;
    }
  }

  // ---- The macros of the searches ----------------------------------------------------------

  lemma {:induction false} DependenciesAreCalls(steps: seq<D.Step>, t: Id)
    ensures t in D.DependencyIds(steps) <==> D.Call(t) in steps
  {
    if steps != [] {
      assert steps == [steps[0]] + steps[1..];
      DependenciesAreCalls(steps[1..], t);
    }
  }

  /** An id stands for the last macro that has it. */
  lemma {:induction false} LastNamesakeCounts(macros: seq<D.Macro>, k: nat)
    requires k < |macros| && forall j | k < j < |macros| :: macros[j].id != macros[k].id
    ensures macros[k].id in D.ById(macros) && D.ById(macros)[macros[k].id] == macros[k]
  {
    var n := |macros| - 1;
    if k < n {
      assert macros[..n][k] == macros[k];
      LastNamesakeCounts(macros[..n], k);
      assert macros[n].id != macros[k].id;
    }
  }

  /** Which roles a macro may start from, by its scope. */
  lemma AllowedSources(m: D.Macro, roleId: string)
    ensures D.AllowsMacroSource(m, roleId) <==>
      || m.scope == D.AllRoles
      || (m.scope == D.MacroRoles && roleId in m.roleIds)
      || exists ids :: m.scope == D.SelectedRoles(ids) && roleId in ids
    ensures D.Unassigned(m) <==> |m.roleIds| == 0 && !m.sourceRole
  {
  }
}
