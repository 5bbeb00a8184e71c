/** Manifest validation: identifiers, dependencies and the search for cycles. */
module Manifest {
  import opened Integers
  import opened TaskGraph
  import opened Planner

  /** A closed walk along dependencies. */
  predicate IsCycle(g: Graph, c: seq<string>) {
    |c| >= 2 && IsPath(g, c) && c[0] == c[|c| - 1]
  }

  /** Each stage depends on the next. */
  predicate Chained(g: Graph, s: seq<string>) {
    forall i :: 0 <= i < |s| - 1 ==> Edge(g, s[i], s[i + 1])
  }

  /** Everything the search can meet. */
  function Universe(g: Graph): set<string> {
    g.Keys + set x, d | x in g && d in g[x].dependencies :: d
  }

  class CycleFinder {
    const g: Graph
    var state: map<string, Colour>
    var stack: seq<string>

    /** The stages in the order in which their visits ended. */
    ghost var finished: seq<string>

    ghost predicate Valid()
      reads this
    {
      && (forall id :: id in state && state[id] == Visiting <==> id in stack)
      && (forall id :: id in state && state[id] == Visited <==> id in finished)
      && Distinct(stack)
      && Chained(g, stack)
      && Distinct(finished)
      && DepsFirst(g, finished)
      && state.Keys <= Universe(g)
    }

    constructor (g: Graph)
      ensures Valid() && stack == [] && finished == [] && this.g == g
    {
      this.g := g;
      state, stack, finished := map[], [], [];
    }

    method Visit(id: string) returns (cycle: Option<seq<string>>)
      requires Valid() && id in Universe(g)
      requires stack != [] ==> Edge(g, stack[|stack| - 1], id)
      modifies this
      ensures cycle.Some? ==> IsCycle(g, cycle.value)
      ensures cycle.None? ==>
        && Valid() && stack == old(stack) && id in finished && old(finished) <= finished && old(state.Keys) <= state.Keys
      decreases Universe(g) - state.Keys, 0
    {
      hide DepsFirst, Distinct, Universe, Chained, IsCycle;
      if id in state {
        if state[id] == Visiting {
          var found := ReportCycle(id);
          return Some(found);
        }
        return None;
      }
      ghost var before := stack;
      Enter(id);
      cycle := VisitDependencies(id);
      if cycle.None? {
        Leave(id, before);
      }
    }

    method VisitDependencies(id: string) returns (cycle: Option<seq<string>>)
      requires Valid() && stack != [] && stack[|stack| - 1] == id
      modifies this
      ensures cycle.Some? ==> IsCycle(g, cycle.value)
      ensures cycle.None? ==>
        && Valid() && stack == old(stack) && old(finished) <= finished && old(state.Keys) <= state.Keys
        && forall d :: d in Deps(g, id) ==> d in finished
      decreases Universe(g) - state.Keys, 1
    {
      hide DepsFirst, Distinct, Universe, Chained, IsCycle;
      var dependencies := Deps(g, id);
      for i := 0 to |dependencies|
        invariant Valid() && stack == old(stack) && old(finished) <= finished && old(state.Keys) <= state.Keys
        invariant forall k :: 0 <= k < i ==> dependencies[k] in finished
      {
        DependencyInUniverse(g, id, dependencies[i]);
        assert Edge(g, id, dependencies[i]);
        cycle := Visit(dependencies[i]);
        if cycle.Some? {
          return;
        }
      }
      cycle := None;
    }

    /** Marks the stage as being visited and pushes it. */
    method Enter(id: string)
      requires Valid() && id in Universe(g) && id !in state
      requires stack != [] ==> Edge(g, stack[|stack| - 1], id)
      modifies this
      ensures Valid() && stack == old(stack) + [id] && finished == old(finished) && state.Keys == old(state.Keys) + {id}
    {
      hide DepsFirst, Distinct, Universe, Edge, Chained;
      PushKeepsStack(g, stack, id);
      state := state[id := Visiting];
      stack := stack + [id];
    }

    /** All dependencies are finished: pop the stage. */
    method Leave(id: string, ghost before: seq<string>)
      requires Valid() && stack == before + [id]
      requires forall d :: d in Deps(g, id) ==> d in finished
      modifies this
      ensures Valid() && stack == before && finished == old(finished) + [id] && state.Keys == old(state.Keys)
    {
      hide DepsFirst, Distinct, Universe, Chained, Deps;
      PopKeepsStack(g, before, id);
      assert id in stack;
      FinishKeepsOrder(g, finished, id);
      stack := stack[..|stack| - 1];
      state := state[id := Visited];
      finished := finished + [id];
    }

    /** The part of the stack from the stage on, closed by the stage itself. */
    method ReportCycle(id: string) returns (cycle: seq<string>)
      requires Valid() && id in stack && Edge(g, stack[|stack| - 1], id)
      ensures IsCycle(g, cycle)
    {
      hide DepsFirst, Distinct, Universe;
      var start := 0;
      while start < |stack| && stack[start] != id
        invariant 0 <= start <= |stack| && id in stack[start..]
      {
        start := start + 1;
      }
      cycle := stack[start..] + [id];
      forall i | 0 <= i < |cycle| - 1
        ensures Edge(g, cycle[i], cycle[i + 1])
      {
        if i + 1 < |stack| - start {
          assert Edge(g, stack[start + i], stack[start + i + 1]);
        } else {
          assert cycle[i] == stack[|stack| - 1];
        }
      }
    }
  }

  lemma PushKeepsStack(g: Graph, stack: seq<string>, id: string)
    requires Distinct(stack) && id !in stack
    requires Chained(g, stack)
    requires stack != [] ==> Edge(g, stack[|stack| - 1], id)
    ensures Distinct(stack + [id])
    ensures Chained(g, stack + [id])
    ensures forall x :: x in stack + [id] <==> x in stack || x == id
  {
  }

  lemma PopKeepsStack(g: Graph, before: seq<string>, id: string)
    requires Distinct(before + [id])
    requires Chained(g, before + [id])
    ensures Distinct(before) && id !in before
    ensures Chained(g, before)
    ensures forall x :: x in before + [id] <==> x in before || x == id
    ensures (before + [id])[..|before + [id]| - 1] == before
  {
    hide Edge;
    var s := before + [id];
    assert forall i :: 0 <= i < |before| ==> s[i] == before[i];
    assert s[|before|] == id;
    forall i | 0 <= i < |before| - 1
      ensures Edge(g, before[i], before[i + 1])
    {
      assert Edge(g, s[i], s[i + 1]);
    }
  }

  lemma FinishKeepsOrder(g: Graph, finished: seq<string>, id: string)
    requires Distinct(finished) && DepsFirst(g, finished) && id !in finished
    requires forall d :: d in Deps(g, id) ==> d in finished
    ensures Distinct(finished + [id]) && DepsFirst(g, finished + [id])
    ensures forall x :: x in finished + [id] <==> x in finished || x == id
  {
    DepsFirstSnoc(g, finished, id);
  }

  lemma DependencyInUniverse(g: Graph, id: string, d: string)
    requires d in Deps(g, id)
    ensures d in Universe(g)
  {
  }

  /** Accepts exactly the acyclic graphs, and otherwise reports a genuine cycle. */
  method ValidateAcyclic(tasks: seq<Task>, g: Graph) returns (cycle: Option<seq<string>>)
    requires g == TasksById(tasks)
    ensures cycle.None? <==> forall id :: !OnCycle(g, id)
    ensures cycle.Some? ==> IsCycle(g, cycle.value)
  {
    hide DepsFirst, Distinct, OnCycle, TasksById;
    var finder := new CycleFinder(g);
    for i := 0 to |tasks|
      invariant finder.Valid() && finder.stack == []
      invariant forall k :: 0 <= k < i ==> tasks[k].id in finder.finished
    {
      assert tasks[i] in tasks;
      cycle := finder.Visit(tasks[i].id);
      if cycle.Some? {
        CycleMembers(g, cycle.value);
        return;
      }
    }
    NoCycleLeft(tasks, g, finder.finished);
    cycle := None;
  }

  lemma CycleMembers(g: Graph, c: seq<string>)
    requires IsCycle(g, c)
    ensures OnCycle(g, c[0])
  {
    assert Joins(g, c, c[0], c[0]);
  }

  lemma NoCycleLeft(tasks: seq<Task>, g: Graph, finished: seq<string>)
    requires g == TasksById(tasks) && Distinct(finished) && DepsFirst(g, finished)
    requires forall k :: 0 <= k < |tasks| ==> tasks[k].id in finished
    ensures forall id :: !OnCycle(g, id)
  {
    hide DepsFirst, Distinct, TasksById, OnCycle;
    OrderedMeansClosedAndAcyclic(g, finished);
    forall id
      ensures !OnCycle(g, id)
    {
      CyclicIsKnown(g, id);
      if id in g {
        var k :| 0 <= k < |tasks| && tasks[k] == g[id];
        assert id in finished;
      }
    }
  }

  lemma CyclicIsKnown(g: Graph, id: string)
    ensures OnCycle(g, id) ==> id in g
  {
    if OnCycle(g, id) {
      var p :| Joins(g, p, id, id) && |p| >= 2;
      assert Edge(g, p[0], p[1]);
    }
  }

  // ---------------------------------------------------------------- the whole manifest

  datatype ManifestError =
    | UnsupportedVersion
    | InvalidIdentifier(id: string)
    | EmptyTitle(id: string)
    | DuplicateIdentifier(id: string)
    | ScriptRejected(id: string)
    | SelfDependency(id: string)
    | UnknownDependency(id: string, dependency: string)
    | RepeatedDependency(id: string, dependency: string)
    | DependencyCycle(cycle: seq<string>)

  predicate IsIdentifierChar(c: char) {
    'a' <= c <= 'z' || '0' <= c <= '9'
  }

  /** The task identifier pattern: runs of lower-case letters and digits, joined by single dashes. */
  predicate IsTaskId(id: string) {
    && |id| > 0
    && IsIdentifierChar(id[0]) && IsIdentifierChar(id[|id| - 1])
    && (forall i :: 0 <= i < |id| ==> IsIdentifierChar(id[i]) || id[i] == '-')
    && forall i :: 0 <= i < |id| - 1 ==> IsIdentifierChar(id[i]) || IsIdentifierChar(id[i + 1])
  }

  /** A non-empty run of lower-case letters and digits, by their code points. */
  predicate IsWord(s: string) {
    s != "" && forall c :: c in s ==> 97 <= c as int <= 122 || 48 <= c as int <= 57
  }

  function Joined(words: seq<string>): string
    requires words != []
  {
    if |words| == 1 then words[0] else words[0] + "-" + Joined(words[1..])
  }

  /** Identifiers are exactly the words joined by single dashes. */
  lemma TaskIdsAreJoinedWords(id: string)
    ensures IsTaskId(id) <==> exists words :: AllWords(words) && Joined(words) == id
  {
    hide IsTaskId, IsWord;
    if IsTaskId(id) {
      var words := SplitWords(id);
    }
    if words :| AllWords(words) && Joined(words) == id {
      JoinedIsTaskId(words);
    }
  }

  predicate AllWords(words: seq<string>) {
    words != [] && forall i :: 0 <= i < |words| ==> IsWord(words[i])
  }

  lemma WordChars(c: char)
    ensures IsIdentifierChar(c) <==> 97 <= c as int <= 122 || 48 <= c as int <= 57
  {
  }

  lemma {:induction false} SplitWords(id: string) returns (words: seq<string>)
    requires IsTaskId(id)
    ensures AllWords(words) && Joined(words) == id
    decreases |id|
  {
    hide IsIdentifierChar;
    var n := 0;
    while n < |id| && IsIdentifierChar(id[n])
      invariant n <= |id| && forall k :: 0 <= k < n ==> IsIdentifierChar(id[k])
    {
      n := n + 1;
    }
    var first := id[..n];
    forall c | c in first
      ensures 97 <= c as int <= 122 || 48 <= c as int <= 57
    {
      WordChars(c);
    }
    if n == |id| {
      words := [id];
      assert first == id;
    } else {
      var rest := SplitWords(id[n + 1..]);
      words := [first] + rest;
      assert words[1..] == rest;
      assert id == first + "-" + id[n + 1..];
    }
  }

  lemma {:induction false} JoinedIsTaskId(words: seq<string>)
    requires AllWords(words)
    ensures IsTaskId(Joined(words))
  {
    hide IsIdentifierChar;
    var first := words[0];
    forall i | 0 <= i < |first|
      ensures IsIdentifierChar(first[i])
    {
      assert first[i] in first;
      WordChars(first[i]);
    }
    if |words| > 1 {
      JoinedIsTaskId(words[1..]);
    }
  }

  predicate GoodTask(t: Task, scriptOk: Task -> bool) {
    IsTaskId(t.id) && TrimSpace(t.title) != "" && scriptOk(t)
  }

  predicate GoodDependencies(t: Task, g: Graph) {
    && Distinct(t.dependencies)
    && forall d :: d in t.dependencies ==> d != t.id && d in g
  }

  /** A manifest that the validator accepts. `scriptOk` stands for the checks against the file
      system. */
  ghost predicate WellFormed(version: int, tasks: seq<Task>, scriptOk: Task -> bool) {
    && version == 1
    && (forall t :: t in tasks ==> GoodTask(t, scriptOk))
    && Distinct(Ids(tasks))
    && (forall t :: t in tasks ==> GoodDependencies(t, TasksById(tasks)))
    && forall id :: !OnCycle(TasksById(tasks), id)
  }

  /** An error about a task names a defect that one of the tasks has. */
  ghost predicate TaskDefect(tasks: seq<Task>, scriptOk: Task -> bool, e: ManifestError) {
    match e
    case InvalidIdentifier(id) => !IsTaskId(id) && id in Ids(tasks)
    case EmptyTitle(id) => exists t :: t in tasks && t.id == id && TrimSpace(t.title) == ""
    case DuplicateIdentifier(id) => exists i, j :: 0 <= i < j < |tasks| && tasks[i].id == id == tasks[j].id
    case ScriptRejected(id) => exists t :: t in tasks && t.id == id && !scriptOk(t)
    case _ => false
  }

  /** An error about a dependency names a defect of the task that has it. */
  predicate DependencyDefect(t: Task, g: Graph, e: ManifestError) {
    var ds := t.dependencies;
    match e
    case SelfDependency(id) => id == t.id && id in ds
    case UnknownDependency(id, d) => id == t.id && d in ds && d !in g
    case RepeatedDependency(id, d) => id == t.id && exists i, j :: 0 <= i < j < |ds| && ds[i] == d == ds[j]
    case _ => false
  }

  /** Why a manifest is refused. */
  ghost predicate Defect(version: int, tasks: seq<Task>, scriptOk: Task -> bool, e: ManifestError) {
    || (e.UnsupportedVersion? && version != 1)
    || TaskDefect(tasks, scriptOk, e)
    || (exists t :: t in tasks && DependencyDefect(t, TasksById(tasks), e))
    || (e.DependencyCycle? && IsCycle(TasksById(tasks), e.cycle))
  }

  method Validate(version: int, tasks: seq<Task>, scriptOk: Task -> bool) returns (err: Option<ManifestError>)
    ensures err.None? <==> WellFormed(version, tasks, scriptOk)
    ensures err.Some? ==> Defect(version, tasks, scriptOk, err.value)
  {
    hide OnCycle, IsTaskId, TrimSpace, TasksById, GoodDependencies, TaskDefect, DependencyDefect, IsCycle;
    if version != 1 {
      return Some(UnsupportedVersion);
    }
    err := CheckTasks(tasks, scriptOk);
    if err.Some? {
      return;
    }
    var g := TasksById(tasks);
    for i := 0 to |tasks|
      invariant forall k :: 0 <= k < i ==> GoodDependencies(tasks[k], g)
    {
      assert tasks[i] in tasks;
      err := CheckDependencies(tasks[i], g);
      if err.Some? {
        return;
      }
    }
    var cycle := ValidateAcyclic(tasks, g);
    if cycle.Some? {
      return Some(DependencyCycle(cycle.value));
    }
    err := None;
  }

  method CheckTasks(tasks: seq<Task>, scriptOk: Task -> bool) returns (err: Option<ManifestError>)
    ensures err.None? <==> (forall t :: t in tasks ==> GoodTask(t, scriptOk)) && Distinct(Ids(tasks))
    ensures err.Some? ==> TaskDefect(tasks, scriptOk, err.value)
  {
    hide IsTaskId, TrimSpace;
    var seen: set<string> := {};
    for i := 0 to |tasks|
      invariant forall k :: 0 <= k < i ==> GoodTask(tasks[k], scriptOk)
      invariant Distinct(Ids(tasks)[..i])
      invariant forall x :: x in seen <==> x in Ids(tasks)[..i]
    {
      var t := tasks[i];
      assert t in tasks && Ids(tasks)[i] == t.id;
      if !IsTaskId(t.id) {
        return Some(InvalidIdentifier(t.id));
      }
      if TrimSpace(t.title) == "" {
        return Some(EmptyTitle(t.id));
      }
      if t.id in seen {
        return Some(DuplicateIdentifier(t.id));
      }
      if !scriptOk(t) {
        return Some(ScriptRejected(t.id));
      }
      seen := seen + {t.id};
      assert Ids(tasks)[..i + 1] == Ids(tasks)[..i] + [t.id];
    }
    assert Ids(tasks)[..|tasks|] == Ids(tasks);
    err := None;
  }

  method CheckDependencies(t: Task, g: Graph) returns (err: Option<ManifestError>)
    ensures err.None? <==> GoodDependencies(t, g)
    ensures err.Some? ==> DependencyDefect(t, g, err.value)
  {
    var seen: set<string> := {};
    var ds := t.dependencies;
    for i := 0 to |ds|
      invariant forall k :: 0 <= k < i ==> ds[k] != t.id && ds[k] in g
      invariant Distinct(ds[..i])
      invariant forall x :: x in seen <==> x in ds[..i]
    {
      var d := ds[i];
      assert d in ds;
      if d == t.id {
        return Some(SelfDependency(t.id));
      }
      if d !in g {
        return Some(UnknownDependency(t.id, d));
      }
      if d in seen {
        return Some(RepeatedDependency(t.id, d));
      }
      seen := seen + {d};
      assert ds[..i + 1] == ds[..i] + [d];
    }
    assert ds[..|ds|] == ds;
    err := None;
  }

  // ---------------------------------------------------------------- validated manifests can be planned

  lemma {:induction false} PathsStayKnown(tasks: seq<Task>, g: Graph, p: seq<string>)
    requires g == TasksById(tasks) && forall t :: t in tasks ==> GoodDependencies(t, g)
    requires IsPath(g, p) && p[0] in g
    ensures p[|p| - 1] in g
    decreases |p|
  {
    hide TasksById, Distinct;
    if |p| > 1 {
      assert Edge(g, p[0], p[1]);
      assert GoodDependencies(g[p[0]], g);
      var q := p[1..];
      forall k | 0 <= k < |q| - 1
        ensures Edge(g, q[k], q[k + 1])
      {
        assert Edge(g, p[k + 1], p[k + 1 + 1]);
      }
      PathsStayKnown(tasks, g, q);
    }
  }

  /** For a validated manifest and known selected stages, planning can fail only because nothing
      is selected or because a needed stage is skipped: cycles and unknown stages are excluded. */
  lemma ValidatedManifestsPlan(version: int, tasks: seq<Task>, scriptOk: Task -> bool, skipped: set<string>, selected: set<string>)
    requires WellFormed(version, tasks, scriptOk)
    requires forall id :: id in selected ==> id in TasksById(tasks)
    ensures
      var g := TasksById(tasks);
      Plannable(g, skipped, selected) <==> selected != {} && forall id :: Needed(g, selected, id) ==> id !in skipped
  {
    hide OnCycle, TasksById, Distinct, Reaches, GoodTask, GoodDependencies;
    var g := TasksById(tasks);
    forall id | Needed(g, selected, id)
      ensures id in g
    {
      NeededIsKnown(tasks, g, selected, id);
    }
    if root :| root in selected {
      ReachesSelf(g, root);
      assert Needed(g, selected, root);
    }
  }

  lemma NeededIsKnown(tasks: seq<Task>, g: Graph, selected: set<string>, id: string)
    requires g == TasksById(tasks) && forall t :: t in tasks ==> GoodDependencies(t, g)
    requires forall x :: x in selected ==> x in g
    requires Needed(g, selected, id)
    ensures id in g
  {
    hide TasksById, GoodDependencies;
    var root :| root in selected && Reaches(g, root, id);
    var p :| Joins(g, p, root, id);
    PathsStayKnown(tasks, g, p);
  }
}
