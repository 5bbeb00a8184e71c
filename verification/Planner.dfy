/** The task planner: selection checks and the three-colour depth-first search. */
module Planner {
  import opened Integers
  import opened TaskGraph

  datatype Selection = Selection(only: seq<string>, skip: seq<string>)

  datatype PlanError =
    | EmptyIdentifier(kind: SelectionKind)
    | UnknownSelection(kind: SelectionKind, id: string)
    | RepeatedSelection(kind: SelectionKind, id: string)
    | SelectedAndSkipped(id: string)
    | CycleAt(id: string)
    | RequiredButSkipped(id: string)
    | UnknownStage(id: string)
    | EmptyPlan

  datatype SelectionKind = OnlyList | SkipList

  // ---------------------------------------------------------------- selections

  /** `unicode.IsSpace`. */
  predicate IsSpace(c: char) {
    || '\U{0009}' <= c <= '\U{000D}' || c == '\U{0020}' || c == '\U{0085}' || c == '\U{00A0}' || c == '\U{1680}'
    || '\U{2000}' <= c <= '\U{200A}' || c == '\U{2028}' || c == '\U{2029}' || c == '\U{202F}' || c == '\U{205F}' || c == '\U{3000}'
  }

  function TrimLeft(s: string): string {
    if s != [] && IsSpace(s[0]) then TrimLeft(s[1..]) else s
  }

  function TrimRight(s: string): string {
    if s != [] && IsSpace(s[|s| - 1]) then TrimRight(s[..|s| - 1]) else s
  }

  /** `strings.TrimSpace`. */
  function TrimSpace(s: string): string {
    TrimRight(TrimLeft(s))
  }

  /** Trimming cuts exactly the spaces at both ends. */
  lemma TrimSpaceIsExact(s: string) returns (i: nat, j: nat)
    ensures i <= j <= |s| && TrimSpace(s) == s[i..j]
    ensures forall k :: 0 <= k < |s| && (k < i || j <= k) ==> IsSpace(s[k])
    ensures i < j ==> !IsSpace(s[i]) && !IsSpace(s[j - 1])
  {
    hide IsSpace;
    i := TrimLeftIsExact(s);
    var t := s[i..];
    var m := TrimRightIsExact(t);
    j := i + m;
    assert t[..m] == s[i..j];
    assert forall k :: j <= k < |s| ==> s[k] == t[k - i];
  }

  lemma {:induction false} TrimLeftIsExact(s: string) returns (i: nat)
    ensures i <= |s| && TrimLeft(s) == s[i..]
    ensures forall k :: 0 <= k < i ==> IsSpace(s[k])
    ensures i < |s| ==> !IsSpace(s[i])
  {
    hide IsSpace;
    i := 0;
    if s != [] && IsSpace(s[0]) {
      var m := TrimLeftIsExact(s[1..]);
      i := m + 1;
      assert forall k :: 1 <= k < |s| ==> s[k] == s[1..][k - 1];
    }
  }

  lemma {:induction false} TrimRightIsExact(s: string) returns (j: nat)
    ensures j <= |s| && TrimRight(s) == s[..j]
    ensures forall k :: j <= k < |s| ==> IsSpace(s[k])
    ensures j > 0 ==> !IsSpace(s[j - 1])
  {
    hide IsSpace;
    j := |s|;
    if s != [] && IsSpace(s[|s| - 1]) {
      j := TrimRightIsExact(s[..|s| - 1]);
    }
  }

  function Trimmed(values: seq<string>): (ids: seq<string>)
    ensures |ids| == |values|
    ensures forall i :: 0 <= i < |values| ==> ids[i] == TrimSpace(values[i])
  {
    seq(|values|, i requires 0 <= i < |values| => TrimSpace(values[i]))
  }

  /** A selection list that names known tasks, each once. */
  predicate ValidList(values: seq<string>, g: Graph) {
    var ids := Trimmed(values);
    Distinct(ids) && forall i :: 0 <= i < |ids| ==> ids[i] != "" && ids[i] in g
  }

  function Chosen(values: seq<string>): set<string> {
    set id | id in Trimmed(values)
  }

  /** An error about a selection list names a defect that the list has. */
  predicate ListDefect(values: seq<string>, g: Graph, kind: SelectionKind, e: PlanError) {
    var ids := Trimmed(values);
    match e
    case EmptyIdentifier(k) => k == kind && "" in ids
    case UnknownSelection(k, id) => k == kind && id in ids && id !in g
    case RepeatedSelection(k, id) => k == kind && exists i, j :: 0 <= i < j < |ids| && ids[i] == id == ids[j]
    case _ => false
  }

  method ValidateSelectionIDs(values: seq<string>, g: Graph, kind: SelectionKind)
    returns (r: Result<set<string>, PlanError>)
    ensures r.Ok? <==> ValidList(values, g)
    ensures r.Ok? ==> r.value == Chosen(values)
    ensures r.Err? ==> ListDefect(values, g, kind, r.error)
  {
    hide TrimSpace;
    var result: set<string> := {};
    ghost var ids := Trimmed(values);
    for i := 0 to |values|
      invariant forall k :: 0 <= k < i ==> ids[k] != "" && ids[k] in g
      invariant Distinct(ids[..i])
      invariant forall x :: x in result <==> x in ids[..i]
    {
      var id := TrimSpace(values[i]);
      assert id == ids[i];
      if id == "" {
        return Err(EmptyIdentifier(kind));
      }
      if id !in g {
        return Err(UnknownSelection(kind, id));
      }
      if id in result {
        return Err(RepeatedSelection(kind, id));
      }
      result := result + {id};
      assert ids[..i + 1] == ids[..i] + [id];
    }
    assert ids[..|values|] == ids;
    r := Ok(result);
  }

  // ---------------------------------------------------------------- what a plan is

  function Ids(tasks: seq<Task>): (ids: seq<string>)
    ensures |ids| == |tasks|
    ensures forall i :: 0 <= i < |tasks| ==> ids[i] == tasks[i].id
  {
    seq(|tasks|, i requires 0 <= i < |tasks| => tasks[i].id)
  }

  /** The selected tasks and everything they depend on. */
  ghost predicate Needed(g: Graph, selected: set<string>, id: string) {
    exists root :: root in selected && Reaches(g, root, id)
  }

  /** A stage that no plan can contain. */
  ghost predicate Blocked(g: Graph, skipped: set<string>, id: string) {
    id !in g || id in skipped || OnCycle(g, id)
  }

  ghost predicate Plannable(g: Graph, skipped: set<string>, selected: set<string>) {
    && (exists id :: Needed(g, selected, id))
    && forall id :: Needed(g, selected, id) ==> !Blocked(g, skipped, id)
  }

  /** Exactly the needed tasks, each once, every dependency before its dependents. */
  ghost predicate IsPlan(g: Graph, selected: set<string>, plan: seq<Task>) {
    && plan != []
    && Distinct(Ids(plan))
    && DepsFirst(g, Ids(plan))
    && (forall t :: t in plan ==> t.id in g && g[t.id] == t)
    && forall id :: id in Ids(plan) <==> Needed(g, selected, id)
  }

  /** An error of the search names a stage that is reachable and really blocks the plan. */
  ghost predicate Genuine(g: Graph, skipped: set<string>, start: string, e: PlanError) {
    match e
    case CycleAt(id) => Reaches(g, start, id) && OnCycle(g, id)
    case RequiredButSkipped(id) => Reaches(g, start, id) && id in skipped
    case UnknownStage(id) => Reaches(g, start, id) && id !in g
    case _ => false
  }

  lemma GenuineFromDependency(g: Graph, skipped: set<string>, x: string, y: string, e: PlanError)
    requires Reaches(g, x, y) && Genuine(g, skipped, y, e)
    ensures Genuine(g, skipped, x, e)
  {
    hide Reaches, OnCycle;
    ReachesThenReaches(g, x, y, e.id);
  }

  // ---------------------------------------------------------------- the search

  datatype Colour = Visiting | Visited

  class PlanBuilder {
    const g: Graph
    const skipped: set<string>
    var state: map<string, Colour>
    var ordered: seq<Task>

    ghost function Gray(): set<string>
      reads this
    {
      set id | id in state && state[id] == Visiting
    }

    ghost function Black(): set<string>
      reads this
    {
      set id | id in state && state[id] == Visited
    }

    ghost predicate Valid()
      reads this
    {
      && (forall id :: id in g ==> g[id].id == id)
      && (forall id :: id in Black() <==> id in Ids(ordered))
      && (forall t :: t in ordered ==> t.id in g && g[t.id] == t && t.id !in skipped)
      && Distinct(Ids(ordered))
      && DepsFirst(g, Ids(ordered))
    }

    constructor (g: Graph, skipped: set<string>)
      requires forall id :: id in g ==> g[id].id == id
      ensures Valid() && Gray() == {} && ordered == [] && this.g == g && this.skipped == skipped
    {
      this.g := g;
      this.skipped := skipped;
      state := map[];
      ordered := [];
    }

    /** Visits a stage that every stage under visit depends on. */
    method Visit(id: string) returns (err: Option<PlanError>)
      requires Valid()
      requires forall x :: x in Gray() ==> Leads(g, x, id)
      modifies this
      ensures err.Some? ==> Genuine(g, skipped, id, err.value)
      ensures err.None? ==>
        && Valid() && Gray() == old(Gray()) && id in Black() && old(Black()) <= Black() && old(state.Keys) <= state.Keys
        && (forall x :: x in Black() ==> x in old(Black()) || Reaches(g, id, x))
        && Ids(ordered) == Walk(g, [id], old(Ids(ordered)), old(Gray()))
      decreases g.Keys - state.Keys
    {
      hide Leads, Reaches, DepsFirst, Distinct, Walk;
      WalkOne(g, id, Ids(ordered), Gray());
      if id in state {
        if state[id] == Visiting {
          assert id in Gray();
          ReachesSelf(g, id);
          return Some(CycleAt(id));
        }
        return None;
      }
      if id in skipped {
        ReachesSelf(g, id);
        return Some(RequiredButSkipped(id));
      }
      if id !in g {
        ReachesSelf(g, id);
        return Some(UnknownStage(id));
      }
      err := VisitDependencies(id);
      if err.Some? {
        return;
      }
      Finish(id);
      ReachesSelf(g, id);
    }

    /** Marks the stage and visits its dependencies in order. */
    method VisitDependencies(id: string) returns (err: Option<PlanError>)
      requires Valid() && id in g && id !in state && id !in skipped
      requires forall x :: x in Gray() ==> Leads(g, x, id)
      modifies this
      ensures err.Some? ==> Genuine(g, skipped, id, err.value)
      ensures err.None? ==>
        && Valid() && Gray() == old(Gray()) + {id} && old(Black()) <= Black() && old(state.Keys) <= state.Keys
        && (forall d :: d in g[id].dependencies ==> d in Black())
        && (forall x :: x in Black() ==> x in old(Black()) || Reaches(g, id, x))
        && Ids(ordered) == Walk(g, Deps(g, id), old(Ids(ordered)), old(Gray()) + {id})
      decreases g.Keys - state.Keys, 0
    {
      hide Leads, Reaches, DepsFirst, Distinct, Genuine, Walk;
      ghost var gray, black, done := Gray(), Black(), Ids(ordered);
      WalkNothing(g, done, gray + {id});
      state := state[id := Visiting];
      var dependencies := g[id].dependencies;
      assert Gray() == gray + {id};
      assert Black() == black;
      for i := 0 to |dependencies|
        invariant Valid() && Gray() == gray + {id} && black <= Black()
        invariant forall k :: 0 <= k < i ==> dependencies[k] in Black()
        invariant forall x :: x in Black() ==> x in black || Reaches(g, id, x)
        invariant id in state && old(state.Keys) <= state.Keys
        invariant Ids(ordered) == Walk(g, dependencies[..i], done, gray + {id})
      {
        var d := dependencies[i];
        assert Edge(g, id, d);
        EdgeLeads(g, id, d);
        forall x | x in Gray()
          ensures Leads(g, x, d)
        {
          if x != id { LeadsOn(g, x, id, d); }
        }
        ghost var before := Black();
        WalkSnoc(g, dependencies[..i], d, done, gray + {id});
        assert dependencies[..i + 1] == dependencies[..i] + [d];
        err := Visit(d);
        if err.Some? {
          GenuineFromDependency(g, skipped, id, d, err.value);
          return;
        }
        forall x | x in Black()
          ensures x in black || Reaches(g, id, x)
        {
          if x !in before { ReachesThenReaches(g, id, d, x); }
        }
      }
      assert dependencies[..|dependencies|] == dependencies;
      err := None;
    }

    /** All dependencies are planned: append the stage. */
    method Finish(id: string)
      requires Valid() && id in Gray() && id in g && id !in skipped
      requires forall d :: d in g[id].dependencies ==> d in Black()
      modifies this
      ensures Valid() && Gray() == old(Gray()) - {id} && Black() == old(Black()) + {id}
      ensures state.Keys == old(state.Keys) && Ids(ordered) == old(Ids(ordered)) + [id]
    {
      ghost var ids := Ids(ordered);
      assert id !in Black();
      DepsFirstSnoc(g, ids, id);
      state := state[id := Visited];
      ordered := ordered + [g[id]];
      assert Ids(ordered) == ids + [id];
    }
  }

  lemma WalkNothing(g: Graph, done: seq<string>, open: set<string>)
    ensures Walk(g, [], done, open) == done
  {
  }

  lemma WalkOne(g: Graph, id: string, done: seq<string>, open: set<string>)
    ensures Walk(g, [id], done, open) ==
      if id in done || id in open || id !in g then done else Walk(g, Deps(g, id), done, open + {id}) + [id]
  {
    hide Deps;
  }

  lemma LeadsOn(g: Graph, x: string, y: string, z: string)
    requires Leads(g, x, y) && Reaches(g, y, z)
    ensures Leads(g, x, z)
  {
    assert Reaches(g, x, y);
    ReachesThenReaches(g, x, y, z);
  }

  // ---------------------------------------------------------------- building the plan

  /** The stages that the selection starts from. */
  function Selected(tasks: seq<Task>, selection: Selection): set<string> {
    if selection.only == [] then (set t | t in tasks && t.enabledByDefault :: t.id) - Chosen(selection.skip)
    else Chosen(selection.only)
  }

  predicate ValidSelection(g: Graph, selection: Selection) {
    && ValidList(selection.skip, g)
    && ValidList(selection.only, g)
    && (selection.only != [] ==> Chosen(selection.only) !! Chosen(selection.skip))
  }

  /** An error about the selection names a defect that it has. */
  predicate SelectionDefect(g: Graph, selection: Selection, e: PlanError) {
    || ListDefect(selection.skip, g, SkipList, e)
    || ListDefect(selection.only, g, OnlyList, e)
    || (e.SelectedAndSkipped? && e.id in Chosen(selection.only) && e.id in Chosen(selection.skip))
  }

  /** The checks on the selection and the stages that remain selected. */
  method ResolveSelection(tasks: seq<Task>, g: Graph, selection: Selection)
    returns (r: Result<(set<string>, set<string>), PlanError>)
    requires g == TasksById(tasks)
    ensures r.Ok? <==> ValidSelection(g, selection)
    ensures r.Ok? ==> r.value == (Chosen(selection.skip), Selected(tasks, selection))
    ensures r.Err? ==> SelectionDefect(g, selection, r.error)
  {
    hide ValidList, Chosen, TasksById, ListDefect;
    var skipped := ValidateSelectionIDs(selection.skip, g, SkipList);
    if skipped.Err? {
      return Err(skipped.error);
    }
    if selection.only == [] {
      EmptyListIsValid(g);
      var enabled := EnabledTasks(tasks);
      return Ok((skipped.value, enabled - skipped.value));
    }
    var only := ValidateSelectionIDs(selection.only, g, OnlyList);
    if only.Err? {
      return Err(only.error);
    }
    if both :| both in skipped.value && both in only.value {
      return Err(SelectedAndSkipped(both));
    }
    r := Ok((skipped.value, only.value));
  }

  lemma EmptyListIsValid(g: Graph)
    ensures ValidList([], g)
  {
  }

  method EnabledTasks(tasks: seq<Task>) returns (selected: set<string>)
    ensures selected == set t | t in tasks && t.enabledByDefault :: t.id
  {
    selected := {};
    for i := 0 to |tasks|
      invariant selected == set t | t in tasks[..i] && t.enabledByDefault :: t.id
    {
      assert tasks[..i + 1] == tasks[..i] + [tasks[i]];
      if tasks[i].enabledByDefault {
        selected := selected + {tasks[i].id};
      }
    }
    assert tasks[..|tasks|] == tasks;
  }

  lemma SelectedAreTasks(tasks: seq<Task>, selection: Selection)
    requires ValidSelection(TasksById(tasks), selection)
    ensures forall id :: id in Selected(tasks, selection) ==> exists t :: t in tasks && t.id == id
  {
    hide TrimSpace, Distinct;
    var g := TasksById(tasks);
    forall id | id in Selected(tasks, selection)
      ensures exists t :: t in tasks && t.id == id
    {
      if selection.only != [] {
        var i :| 0 <= i < |selection.only| && Trimmed(selection.only)[i] == id;
        assert g[id] in tasks;
      }
    }
  }

  /** The selected stages in manifest order. */
  function Roots(tasks: seq<Task>, selected: set<string>): seq<string> {
    if tasks == [] then []
    else
      var last := tasks[|tasks| - 1];
      Roots(tasks[..|tasks| - 1], selected) + if last.id in selected then [last.id] else []
  }

  /** Builds the plan, or explains why there is none. */
  method BuildPlan(tasks: seq<Task>, selection: Selection) returns (r: Result<seq<Task>, PlanError>)
    ensures
      var g, skipped, selected := TasksById(tasks), Chosen(selection.skip), Selected(tasks, selection);
      && (r.Ok? <==> ValidSelection(g, selection) && Plannable(g, skipped, selected))
      && (r.Ok? ==> IsPlan(g, selected, r.value) && Ids(r.value) == Walk(g, Roots(tasks, selected), [], {}))
      && (r.Err? && ValidSelection(g, selection) && r.error != EmptyPlan ==>
            exists root :: root in selected && Genuine(g, skipped, root, r.error))
      && (r.Err? && ValidSelection(g, selection) && r.error == EmptyPlan ==> selected == {})
      && (r.Err? && !ValidSelection(g, selection) ==> SelectionDefect(g, selection, r.error))
  {
    hide ValidSelection, SelectionDefect, Selected, Chosen, TasksById, Plannable, IsPlan, Genuine, Walk, Roots;
    var g := TasksById(tasks);
    var resolved := ResolveSelection(tasks, g, selection);
    if resolved.Err? {
      return Err(resolved.error);
    }
    var skipped, selected := resolved.value.0, resolved.value.1;
    SelectedAreTasks(tasks, selection);
    var builder := new PlanBuilder(g, skipped);
    var err := VisitSelected(builder, tasks, selected);
    if err.Some? {
      GenuineBlocks(g, skipped, selected, err.value);
      return Err(err.value);
    }
    if builder.ordered == [] {
      NothingSelected(g, skipped, selected, builder.ordered);
      return Err(EmptyPlan);
    }
    OrderedIsPlan(g, skipped, selected, builder.ordered);
    r := Ok(builder.ordered);
  }

  /** Every selected stage is among the ordered ones, and those are needed. */
  ghost predicate Covers(g: Graph, selected: set<string>, ordered: seq<Task>) {
    && (forall id :: id in selected ==> id in Ids(ordered))
    && forall id :: id in Ids(ordered) ==> Needed(g, selected, id)
  }

  method VisitSelected(builder: PlanBuilder, tasks: seq<Task>, selected: set<string>) returns (err: Option<PlanError>)
    requires builder.Valid() && builder.Gray() == {} && builder.ordered == []
    requires forall id :: id in selected ==> exists t :: t in tasks && t.id == id
    modifies builder
    ensures err.Some? ==> exists root :: root in selected && Genuine(builder.g, builder.skipped, root, err.value)
    ensures err.None? ==> builder.Valid() && Covers(builder.g, selected, builder.ordered)
    ensures err.None? ==> Ids(builder.ordered) == Walk(builder.g, Roots(tasks, selected), [], {})
  {
    hide Leads, Reaches, DepsFirst, Distinct, Genuine, Walk;
    WalkNothing(builder.g, [], {});
    for i := 0 to |tasks|
      invariant builder.Valid() && builder.Gray() == {}
      invariant forall t :: t in tasks[..i] && t.id in selected ==> t.id in builder.Black()
      invariant forall id :: id in builder.Black() ==> Needed(builder.g, selected, id)
      invariant Ids(builder.ordered) == Walk(builder.g, Roots(tasks[..i], selected), [], {})
    {
      assert tasks[..i + 1] == tasks[..i] + [tasks[i]];
      NextRoot(tasks, selected, i);
      if tasks[i].id !in selected {
        continue;
      }
      WalkSnoc(builder.g, Roots(tasks[..i], selected), tasks[i].id, [], {});
      err := builder.Visit(tasks[i].id);
      if err.Some? {
        return;
      }
    }
    assert tasks[..|tasks|] == tasks;
    err := None;
  }

  lemma NextRoot(tasks: seq<Task>, selected: set<string>, i: nat)
    requires i < |tasks|
    ensures tasks[i].id in selected ==> Roots(tasks[..i + 1], selected) == Roots(tasks[..i], selected) + [tasks[i].id]
    ensures tasks[i].id !in selected ==> Roots(tasks[..i + 1], selected) == Roots(tasks[..i], selected)
  {
    assert tasks[..i + 1][..i] == tasks[..i];
  }

  lemma GenuineBlocks(g: Graph, skipped: set<string>, selected: set<string>, e: PlanError)
    requires exists root :: root in selected && Genuine(g, skipped, root, e)
    ensures !Plannable(g, skipped, selected)
    ensures e != EmptyPlan
  {
    hide Reaches, OnCycle;
    var root :| root in selected && Genuine(g, skipped, root, e);
    assert Needed(g, selected, e.id) && Blocked(g, skipped, e.id);
  }

  lemma NothingSelected(g: Graph, skipped: set<string>, selected: set<string>, ordered: seq<Task>)
    requires Covers(g, selected, ordered) && ordered == []
    ensures selected == {} && !Plannable(g, skipped, selected)
  {
    hide Reaches;
    forall id | id in selected
      ensures id in Ids(ordered)
    {
    }
  }

  lemma OrderedIsPlan(g: Graph, skipped: set<string>, selected: set<string>, ordered: seq<Task>)
    requires ordered != [] && Covers(g, selected, ordered)
    requires Distinct(Ids(ordered)) && DepsFirst(g, Ids(ordered))
    requires forall t :: t in ordered ==> t.id in g && g[t.id] == t && t.id !in skipped
    ensures Plannable(g, skipped, selected) && IsPlan(g, selected, ordered)
  {
    hide Needed, Blocked, DepsFirst, Distinct;
    assert Ids(ordered)[0] in Ids(ordered);
    forall id | Needed(g, selected, id)
      ensures id in Ids(ordered) && !Blocked(g, skipped, id)
    {
      NeededIsOrdered(g, skipped, selected, ordered, id);
    }
  }

  lemma NeededIsOrdered(g: Graph, skipped: set<string>, selected: set<string>, ordered: seq<Task>, id: string)
    requires Covers(g, selected, ordered) && Needed(g, selected, id)
    requires Distinct(Ids(ordered)) && DepsFirst(g, Ids(ordered))
    requires forall t :: t in ordered ==> t.id in g && g[t.id] == t && t.id !in skipped
    ensures id in Ids(ordered) && !Blocked(g, skipped, id)
  {
    hide Reaches, OnCycle, DepsFirst, Distinct;
    OrderedMeansClosedAndAcyclic(g, Ids(ordered));
    var root :| root in selected && Reaches(g, root, id);
    assert id in Ids(ordered);
    var i :| 0 <= i < |ordered| && ordered[i].id == id;
    assert ordered[i] in ordered;
  }
}
