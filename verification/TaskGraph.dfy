/** Tasks, their dependency graph, and dependency orders. */
module TaskGraph {
  /** `title` is the source's `Label`, whose name is reserved here. */
  datatype Task = Task(
    id: string,
    title: string,
    scriptPath: string,
    enabledByDefault: bool,
    dependencies: seq<string>,
    manifestOrder: nat)

  type Graph = map<string, Task>

  /** Go's map of tasks by identifier; a repeated identifier keeps its last task. */
  function TasksById(tasks: seq<Task>): (g: Graph)
    ensures forall id :: id in g ==> g[id].id == id && g[id] in tasks
    ensures forall t :: t in tasks ==> t.id in g
  {
    if tasks == [] then map[]
    else
      var last := tasks[|tasks| - 1];
      TasksById(tasks[..|tasks| - 1])[last.id := last]
  }

  /** An unknown task has no dependencies, as Go's zero value has none. */
  function Deps(g: Graph, id: string): seq<string> {
    if id in g then g[id].dependencies else []
  }

  predicate Edge(g: Graph, x: string, y: string) {
    y in Deps(g, x)
  }

  predicate IsPath(g: Graph, p: seq<string>) {
    |p| >= 1 && forall i :: 0 <= i < |p| - 1 ==> Edge(g, p[i], p[i + 1])
  }

  /** `p` leads from `x` to `y`. */
  predicate Joins(g: Graph, p: seq<string>, x: string, y: string) {
    IsPath(g, p) && p[0] == x && p[|p| - 1] == y
  }

  ghost predicate Reaches(g: Graph, x: string, y: string) {
    exists p :: Joins(g, p, x, y)
  }

  /** Reaches by at least one dependency. */
  ghost predicate Leads(g: Graph, x: string, y: string) {
    exists p :: Joins(g, p, x, y) && |p| >= 2
  }

  ghost predicate OnCycle(g: Graph, x: string) {
    Leads(g, x, x)
  }

  lemma ReachesSelf(g: Graph, x: string)
    ensures Reaches(g, x, x)
  {
    assert Joins(g, [x], x, x);
  }

  lemma JoinPaths(g: Graph, p: seq<string>, q: seq<string>, x: string, y: string, z: string)
    requires Joins(g, p, x, y) && Joins(g, q, y, z)
    ensures Joins(g, p + q[1..], x, z) && |p + q[1..]| == |p| + |q| - 1
  {
    var r := p + q[1..];
    forall i | 0 <= i < |r| - 1
      ensures Edge(g, r[i], r[i + 1])
    {
      if i < |p| - 1 {
        assert r[i] == p[i] && r[i + 1] == p[i + 1];
      } else {
        assert r[i] == q[i - (|p| - 1)] && r[i + 1] == q[i - (|p| - 1) + 1];
      }
    }
    assert r[|r| - 1] == q[|q| - 1];
  }

  lemma EdgeLeads(g: Graph, x: string, y: string)
    requires Edge(g, x, y)
    ensures Leads(g, x, y) && Reaches(g, x, y)
  {
    assert Joins(g, [x, y], x, y);
  }

  lemma ReachesThenReaches(g: Graph, x: string, y: string, z: string)
    requires Reaches(g, x, y) && Reaches(g, y, z)
    ensures Reaches(g, x, z)
    ensures Leads(g, x, y) || Leads(g, y, z) ==> Leads(g, x, z)
  {
    var p :| Joins(g, p, x, y);
    var q :| Joins(g, q, y, z);
    JoinPaths(g, p, q, x, y, z);
    if Leads(g, x, y) {
      var p2 :| Joins(g, p2, x, y) && |p2| >= 2;
      JoinPaths(g, p2, q, x, y, z);
    }
    if Leads(g, y, z) {
      var q2 :| Joins(g, q2, y, z) && |q2| >= 2;
      JoinPaths(g, p, q2, x, y, z);
    }
  }

  // ---------------------------------------------------------------- dependency orders

  predicate Distinct(ids: seq<string>) {
    forall i, j :: 0 <= i < j < |ids| ==> ids[i] != ids[j]
  }

  /** Every dependency of a listed task is listed before it. */
  predicate DepsFirst(g: Graph, ids: seq<string>) {
    forall i, d :: 0 <= i < |ids| && d in Deps(g, ids[i]) ==> d in ids[..i]
  }

  lemma DepsFirstSnoc(g: Graph, ids: seq<string>, id: string)
    requires DepsFirst(g, ids) && forall d :: d in Deps(g, id) ==> d in ids
    ensures DepsFirst(g, ids + [id])
  {
    var more := ids + [id];
    forall i, d | 0 <= i < |more| && d in Deps(g, more[i])
      ensures d in more[..i]
    {
      if i < |ids| {
        assert more[..i] == ids[..i] && more[i] == ids[i];
      } else {
        assert more[..i] == ids;
      }
    }
  }

  /** Following dependencies from a listed task leads only to tasks listed earlier. */
  lemma {:induction false} PathsGoBack(g: Graph, ids: seq<string>, p: seq<string>, i: nat)
    requires DepsFirst(g, ids) && IsPath(g, p) && i < |ids| && p[0] == ids[i]
    ensures |p| == 1 ==> p[|p| - 1] == ids[i]
    ensures |p| >= 2 ==> p[|p| - 1] in ids[..i]
    decreases |p|
  {
    if |p| >= 2 {
      assert Edge(g, p[0], p[1]);
      assert p[1] in ids[..i];
      var j :| 0 <= j < i && ids[j] == p[1];
      var q := p[1..];
      forall k | 0 <= k < |q| - 1
        ensures Edge(g, q[k], q[k + 1])
      {
        assert Edge(g, p[k + 1], p[k + 1 + 1]);
      }
      PathsGoBack(g, ids, q, j);
      assert forall x :: x in ids[..j] ==> x in ids[..i];
    }
  }

  /** A list that respects dependencies contains everything its members need, and no cycle. */
  lemma OrderedMeansClosedAndAcyclic(g: Graph, ids: seq<string>)
    requires Distinct(ids) && DepsFirst(g, ids)
    ensures forall x, y :: x in ids && Reaches(g, x, y) ==> y in ids
    ensures forall x :: x in ids ==> !OnCycle(g, x)
  {
    forall x, y | x in ids && Reaches(g, x, y)
      ensures y in ids
    {
      var i :| 0 <= i < |ids| && ids[i] == x;
      var p :| Joins(g, p, x, y);
      PathsGoBack(g, ids, p, i);
    }
    forall x | x in ids
      ensures !OnCycle(g, x)
    {
      if OnCycle(g, x) {
        var i :| 0 <= i < |ids| && ids[i] == x;
        var p :| Joins(g, p, x, x) && |p| >= 2;
        PathsGoBack(g, ids, p, i);
      }
    }
  }

  // ---------------------------------------------------------------- depth-first order

  /** Post-order: appends to `done` what the stages of `ids` need and then the stages themselves,
      in the order given. `open` holds the stages that are being visited. */
  function Walk(g: Graph, ids: seq<string>, done: seq<string>, open: set<string>): seq<string>
    decreases g.Keys - open, |ids|
  {
    if ids == [] then done
    else
      var id := ids[0];
      var more := if id in done || id in open || id !in g then done
        else Walk(g, Deps(g, id), done, open + {id}) + [id];
      Walk(g, ids[1..], more, open)
  }

  lemma {:induction false} WalkSnoc(g: Graph, ids: seq<string>, id: string, done: seq<string>, open: set<string>)
    ensures Walk(g, ids + [id], done, open) == Walk(g, [id], Walk(g, ids, done, open), open)
    decreases |ids|
  {
    hide Deps;
    if ids != [] {
      var first := ids[0];
      var more := if first in done || first in open || first !in g then done
        else Walk(g, Deps(g, first), done, open + {first}) + [first];
      assert (ids + [id])[1..] == ids[1..] + [id];
      WalkSnoc(g, ids[1..], id, more, open);
    } else {
      assert ids + [id] == [id];
    }
  }
}
