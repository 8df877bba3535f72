/** What a resolved task graph is: the reachable tasks, each once, needs first, in the order the naive
    unfolding first completes them; and what each failure means. */
module TopologicalOrder {
  import opened Wrappers
  import opened TaskGraph

  // ----- Reachability

  ghost predicate IsPath(nodes: Nodes, p: seq<string>) {
    && p != []
    && (|p| == 1 || (p[0] in nodes && p[1] in nodes[p[0]].needs && IsPath(nodes, p[1..])))
  }

  ghost predicate Reaches(nodes: Nodes, a: string, b: string) {
    exists p :: IsPath(nodes, p) && p[0] == a && p[|p| - 1] == b
  }

  /** At least one edge leads from `a` to `b`. */
  ghost predicate DependsOn(nodes: Nodes, a: string, b: string) {
    a in nodes && exists d :: d in nodes[a].needs && Reaches(nodes, d, b)
  }

  ghost predicate ReachesCycle(nodes: Nodes, a: string) {
    exists c :: Reaches(nodes, a, c) && DependsOn(nodes, c, c)
  }

  ghost predicate ReachesUnknown(nodes: Nodes, a: string) {
    exists u :: Reaches(nodes, a, u) && u !in nodes
  }

  lemma ReachesItself(nodes: Nodes, a: string)
    ensures Reaches(nodes, a, a)
  {
    assert IsPath(nodes, [a]);
  }

  lemma {:induction false} JoinPaths(nodes: Nodes, p: seq<string>, q: seq<string>)
    requires IsPath(nodes, p) && IsPath(nodes, q) && p[|p| - 1] == q[0]
    ensures IsPath(nodes, p + q[1..])
  {
    if |p| == 1 {
      assert p + q[1..] == q;
    } else {
      var tail := p[1..] + q[1..];
      JoinPaths(nodes, p[1..], q);
      assert p + q[1..] == [p[0]] + tail && tail[0] == p[1];
      assert ([p[0]] + tail)[1..] == tail;
    }
  }

  lemma ReachesThrough(nodes: Nodes, a: string, b: string, c: string)
    requires Reaches(nodes, a, b) && Reaches(nodes, b, c)
    ensures Reaches(nodes, a, c)
  {
    var p :| IsPath(nodes, p) && p[0] == a && p[|p| - 1] == b;
    var q :| IsPath(nodes, q) && q[0] == b && q[|q| - 1] == c;
    JoinPaths(nodes, p, q);
    var r := p + q[1..];
    assert r[0] == a && r[|r| - 1] == c;
  }

  lemma ReachesNeed(nodes: Nodes, a: string, d: string)
    requires a in nodes && d in nodes[a].needs
    ensures Reaches(nodes, a, d) && DependsOn(nodes, a, d)
  {
    assert [a, d][1..] == [d];
    assert IsPath(nodes, [a, d]);
    ReachesItself(nodes, d);
  }

  /** A dependency of a dependency is a dependency. */
  lemma DependsThrough(nodes: Nodes, a: string, b: string, c: string)
    requires DependsOn(nodes, a, b) && Reaches(nodes, b, c)
    ensures DependsOn(nodes, a, c)
  {
    var d :| d in nodes[a].needs && Reaches(nodes, d, b);
    ReachesThrough(nodes, d, b, c);
  }

  // ----- The invariant of the search

  function Names(tasks: seq<TaskNode>): set<string> {
    set i | 0 <= i < |tasks| :: tasks[i].name
  }

  /** The tasks are distinct nodes of the graph and every need of one comes before it. */
  ghost predicate NeedsFirst(nodes: Nodes, tasks: seq<TaskNode>) {
    && UniqueNames(tasks)
    && (forall i :: 0 <= i < |tasks| ==> tasks[i].name in nodes && nodes[tasks[i].name] == tasks[i])
    && (forall i, d :: 0 <= i < |tasks| && d in tasks[i].needs ==> d in Names(tasks[..i]))
  }

  ghost predicate Consistent(nodes: Nodes, s: Search) {
    && NeedsFirst(nodes, s.ordered)
    && s.visited == Names(s.ordered)
    && s.visited !! s.visiting
  }

  /** Everything being visited depends on each of the names about to be visited. */
  ghost predicate Above(nodes: Nodes, s: Search, names: seq<string>) {
    forall v, n :: v in s.visiting && n in names ==> DependsOn(nodes, v, n)
  }

  lemma NamesOfPrefix(tasks: seq<TaskNode>, more: seq<TaskNode>)
    requires tasks <= more
    ensures Names(tasks) <= Names(more)
  {
    forall n | n in Names(tasks) ensures n in Names(more) {
      var i :| 0 <= i < |tasks| && tasks[i].name == n;
      assert more[i].name == n;
    }
  }

  lemma AppendNeedsFirst(nodes: Nodes, tasks: seq<TaskNode>, name: string)
    requires Keyed(nodes) && NeedsFirst(nodes, tasks)
    requires name in nodes && name !in Names(tasks)
    requires forall d :: d in nodes[name].needs ==> d in Names(tasks)
    ensures NeedsFirst(nodes, tasks + [nodes[name]])
    ensures Names(tasks + [nodes[name]]) == Names(tasks) + {name}
  {
    var more := tasks + [nodes[name]];
    forall i, d | 0 <= i < |more| && d in more[i].needs ensures d in Names(more[..i]) {
      assert more[..i] == tasks[..i];
      if i == |tasks| {
        assert tasks[..i] == tasks;
      }
    }
    forall n ensures n in Names(more) <==> n in Names(tasks) + {name} {
      if n in Names(tasks) {
        NamesOfPrefix(tasks, more);
      } else if n == name {
        assert more[|tasks|].name == name;
      }
    }
  }

  /** What a successful visit of `names` adds. */
  ghost predicate Extends(nodes: Nodes, names: seq<string>, s: Search, t: Search) {
    && Consistent(nodes, t)
    && t.visiting == s.visiting
    && s.ordered <= t.ordered
    && (forall n :: n in names ==> n in t.visited)
    && (forall n :: n in t.visited ==> n in s.visited || SomeReaches(nodes, names, n))
  }

  ghost predicate SomeReaches(nodes: Nodes, names: seq<string>, n: string) {
    exists m :: m in names && Reaches(nodes, m, n)
  }

  /** What an abandoned visit of `names` means. */
  ghost predicate Explains(nodes: Nodes, names: seq<string>, error: GraphError) {
    match error
    case DuplicateNames => false
    case Cycle => exists m :: m in names && ReachesCycle(nodes, m)
    case UnknownTask(u) => u !in nodes && SomeReaches(nodes, names, u)
  }

  function Enter(s: Search, name: string): Search {
    s.(visiting := s.visiting + {name})
  }

  lemma EnteredIsAbove(nodes: Nodes, name: string, s: Search)
    requires name in nodes && Above(nodes, s, [name])
    ensures Above(nodes, Enter(s, name), nodes[name].needs)
  {
    assert name in [name];
    forall v, n | v in Enter(s, name).visiting && n in nodes[name].needs ensures DependsOn(nodes, v, n) {
      ReachesNeed(nodes, name, n);
      if v != name {
        DependsThrough(nodes, v, name, n);
      }
    }
  }

  lemma ReachesThroughNeeds(nodes: Nodes, name: string, n: string)
    requires name in nodes && SomeReaches(nodes, nodes[name].needs, n)
    ensures SomeReaches(nodes, [name], n)
  {
    var m :| m in nodes[name].needs && Reaches(nodes, m, n);
    ReachesNeed(nodes, name, m);
    ReachesThrough(nodes, name, m, n);
    assert name in [name];
  }

  lemma LeaveExtends(nodes: Nodes, name: string, s: Search, t: Search)
    requires Keyed(nodes) && name in nodes && name !in s.visiting && name !in s.visited
    requires Extends(nodes, nodes[name].needs, Enter(s, name), t)
    ensures Extends(nodes, [name], s, Search(t.visiting - {name}, t.visited + {name}, t.ordered + [nodes[name]]))
  {
    AppendNeedsFirst(nodes, t.ordered, name);
    ReachesItself(nodes, name);
    assert name in [name];
    forall n | n in t.visited && n !in s.visited ensures SomeReaches(nodes, [name], n) {
      ReachesThroughNeeds(nodes, name, n);
    }
  }

  lemma ErrorLifts(nodes: Nodes, name: string, error: GraphError)
    requires name in nodes && Explains(nodes, nodes[name].needs, error)
    ensures Explains(nodes, [name], error)
  {
    assert name in [name];
    if error.Cycle? {
      var m :| m in nodes[name].needs && ReachesCycle(nodes, m);
      var c :| Reaches(nodes, m, c) && DependsOn(nodes, c, c);
      ReachesNeed(nodes, name, m);
      ReachesThrough(nodes, name, m, c);
    } else {
      ReachesThroughNeeds(nodes, name, error.name);
    }
  }

  lemma {:induction false} VisitIsSound(nodes: Nodes, name: string, s: Search)
    requires Keyed(nodes) && Consistent(nodes, s) && Above(nodes, s, [name])
    ensures match Visit(nodes, name, s)
      case Ok(t) => Extends(nodes, [name], s, t)
      case Err(error) => Explains(nodes, [name], error)
    decreases nodes.Keys - s.visiting, 0
  {
    ReachesItself(nodes, name);
    assert name in [name];
    if name in s.visiting {
      assert DependsOn(nodes, name, name);
    } else if name in nodes && name !in s.visited {
      EnteredIsAbove(nodes, name, s);
      VisitAllIsSound(nodes, nodes[name].needs, Enter(s, name));
      match VisitAll(nodes, nodes[name].needs, Enter(s, name)) {
        case Ok(t) => LeaveExtends(nodes, name, s, t);
        case Err(error) => ErrorLifts(nodes, name, error);
      }
    }
  }

  lemma {:induction false} VisitAllIsSound(nodes: Nodes, names: seq<string>, s: Search)
    requires Keyed(nodes) && Consistent(nodes, s) && Above(nodes, s, names)
    ensures match VisitAll(nodes, names, s)
      case Ok(t) => Extends(nodes, names, s, t)
      case Err(error) => Explains(nodes, names, error)
    decreases nodes.Keys - s.visiting, |names| + 1
  {
    if names != [] {
      assert names[0] in names;
      VisitIsSound(nodes, names[0], s);
      match Visit(nodes, names[0], s) {
        case Ok(t) =>
          assert forall n :: n in names[1..] ==> n in names;
          VisitAllIsSound(nodes, names[1..], t);
          match VisitAll(nodes, names[1..], t) {
            case Ok(u) =>
              NamesOfPrefix(t.ordered, u.ordered);
              assert forall n :: n in names ==> n in [names[0]] || n in names[1..];
            case Err(error) =>
          }
        case Err(error) =>
      }
    }
  }

  // ----- A needs-first sequence is closed and acyclic

  function IndexOf(tasks: seq<TaskNode>, name: string): (i: nat)
    requires name in Names(tasks)
    ensures i < |tasks| && tasks[i].name == name
  {
    if tasks[0].name == name then 0
    else
      assert name in Names(tasks[1..]) by {
        var i :| 0 <= i < |tasks| && tasks[i].name == name;
        assert tasks[1..][i - 1].name == name;
      }
      1 + IndexOf(tasks[1..], name)
  }

  lemma NeedComesEarlier(nodes: Nodes, tasks: seq<TaskNode>, a: string, d: string)
    requires NeedsFirst(nodes, tasks) && a in Names(tasks) && a in nodes && d in nodes[a].needs
    ensures d in Names(tasks) && IndexOf(tasks, d) < IndexOf(tasks, a)
  {
    var i := IndexOf(tasks, a);
    assert tasks[i] == nodes[a];
    assert d in Names(tasks[..i]);
    var j :| 0 <= j < i && tasks[..i][j].name == d;
    assert tasks[j].name == d;
    assert IndexOf(tasks, d) == j;
  }

  lemma {:induction false} PathGoesDown(nodes: Nodes, tasks: seq<TaskNode>, p: seq<string>)
    requires NeedsFirst(nodes, tasks) && IsPath(nodes, p) && p[0] in Names(tasks)
    ensures p[|p| - 1] in Names(tasks) && p[|p| - 1] in nodes
    ensures IndexOf(tasks, p[|p| - 1]) <= IndexOf(tasks, p[0])
    decreases |p|
  {
    if |p| > 1 {
      NeedComesEarlier(nodes, tasks, p[0], p[1]);
      PathGoesDown(nodes, tasks, p[1..]);
    }
  }

  lemma ReachableIsEarlier(nodes: Nodes, tasks: seq<TaskNode>, a: string, b: string)
    requires NeedsFirst(nodes, tasks) && a in Names(tasks) && Reaches(nodes, a, b)
    ensures b in Names(tasks) && b in nodes
    ensures IndexOf(tasks, b) <= IndexOf(tasks, a)
  {
    var p :| IsPath(nodes, p) && p[0] == a && p[|p| - 1] == b;
    PathGoesDown(nodes, tasks, p);
  }

  lemma NeedsFirstIsAcyclic(nodes: Nodes, tasks: seq<TaskNode>, c: string)
    requires NeedsFirst(nodes, tasks) && c in Names(tasks)
    ensures !DependsOn(nodes, c, c)
  {
    if DependsOn(nodes, c, c) {
      var d :| d in nodes[c].needs && Reaches(nodes, d, c);
      NeedComesEarlier(nodes, tasks, c, d);
      ReachableIsEarlier(nodes, tasks, d, c);
      assert false;
    }
  }

  // ----- Main results

  /** A resolved order: exactly the tasks reachable from the target, each once, needs first, and the
      target last. */
  ghost predicate IsResolution(nodes: Nodes, target: string, tasks: seq<TaskNode>) {
    && NeedsFirst(nodes, tasks)
    && (forall n :: n in Names(tasks) <==> Reaches(nodes, target, n))
    && tasks != [] && tasks[|tasks| - 1].name == target
  }

  lemma TargetComesLast(nodes: Nodes, target: string, t: Search)
    requires Keyed(nodes) && Visit(nodes, target, START) == Ok(t)
    ensures t.ordered != [] && t.ordered[|t.ordered| - 1].name == target
  {
  }

  lemma OnlyOneReaches(nodes: Nodes, a: string, n: string)
    requires SomeReaches(nodes, [a], n)
    ensures Reaches(nodes, a, n)
  {
  }

  lemma NamesAreReachable(nodes: Nodes, target: string, t: Search, n: string)
    requires Extends(nodes, [target], START, t)
    ensures n in t.visited <==> Reaches(nodes, target, n)
  {
    if n in t.visited {
      assert n !in START.visited;
      OnlyOneReaches(nodes, target, n);
    } else if Reaches(nodes, target, n) {
      assert target in [target];
      ReachableIsEarlier(nodes, t.ordered, target, n);
    }
  }

  lemma SuccessIsResolution(nodes: Nodes, target: string, t: Search)
    requires Keyed(nodes) && Visit(nodes, target, START) == Ok(t)
    ensures IsResolution(nodes, target, t.ordered)
  {
    VisitIsSound(nodes, target, START);
    TargetComesLast(nodes, target, t);
    forall n { NamesAreReachable(nodes, target, t, n); }
  }

  /** Success means a resolved order; each error names a real defect reachable from the target. */
  lemma ResolveIsSound(target: string, graph: seq<TaskNode>)
    ensures match Resolve(target, graph)
      case Ok(tasks) => UniqueNames(graph) && IsResolution(NodeMap(graph), target, tasks)
      case Err(DuplicateNames) => !UniqueNames(graph)
      case Err(Cycle) => UniqueNames(graph) && ReachesCycle(NodeMap(graph), target)
      case Err(UnknownTask(u)) =>
        UniqueNames(graph) && Reaches(NodeMap(graph), target, u) && u !in NodeMap(graph)
  {
    NodeMapSize(graph);
    var nodes := NodeMap(graph);
    if |nodes| == |graph| {
      match Visit(nodes, target, START) {
        case Ok(t) =>
          SuccessIsResolution(nodes, target, t);
        case Err(error) =>
          VisitIsSound(nodes, target, START);
          assert Explains(nodes, [target], error);
      }
    }
  }

  /** Resolution succeeds exactly when names are unique and everything reachable from the target is
      known and acyclic. */
  lemma ResolveSucceedsIff(target: string, graph: seq<TaskNode>)
    ensures Resolve(target, graph).Ok? <==>
      && UniqueNames(graph)
      && !ReachesUnknown(NodeMap(graph), target)
      && !ReachesCycle(NodeMap(graph), target)
  {
    ResolveIsSound(target, graph);
    var nodes := NodeMap(graph);
    if Resolve(target, graph).Ok? {
      var tasks := Resolve(target, graph).value;
      assert target in Names(tasks) by {
        ReachesItself(nodes, target);
      }
      forall n | Reaches(nodes, target, n) ensures n in nodes && !DependsOn(nodes, n, n) {
        ReachableIsEarlier(nodes, tasks, target, n);
        NeedsFirstIsAcyclic(nodes, tasks, n);
      }
    }
  }

  // ----- The search refines naive unfolding

  /** The naive postorder: unfold every need in turn, then the task; `None` on a cycle or a gap. */
  function Unfold(nodes: Nodes, name: string, above: set<string>): Option<seq<string>>
    decreases nodes.Keys - above, 0
  {
    if name in above || name !in nodes then None
    else match UnfoldAll(nodes, nodes[name].needs, above + {name})
      case None => None
      case Some(names) => Some(names + [name])
  }

  function UnfoldAll(nodes: Nodes, names: seq<string>, above: set<string>): Option<seq<string>>
    decreases nodes.Keys - above, |names| + 1
  {
    if names == [] then Some([])
    else match Unfold(nodes, names[0], above)
      case None => None
      case Some(first) =>
        match UnfoldAll(nodes, names[1..], above)
        case None => None
        case Some(rest) => Some(first + rest)
  }

  /** `done` followed by the names not yet there, each at its first occurrence. */
  function AppendNew(done: seq<string>, names: seq<string>): seq<string>
    decreases |names|
  {
    if names == [] then done
    else AppendNew(if names[0] in done then done else done + [names[0]], names[1..])
  }

  function NameList(tasks: seq<TaskNode>): seq<string> {
    seq(|tasks|, i requires 0 <= i < |tasks| => tasks[i].name)
  }

  lemma NameListMembers(tasks: seq<TaskNode>)
    ensures forall n :: n in NameList(tasks) <==> n in Names(tasks)
  {
    forall n ensures n in NameList(tasks) <==> n in Names(tasks) {
      if n in Names(tasks) {
        assert NameList(tasks)[IndexOf(tasks, n)] == n;
      }
    }
  }

  lemma {:induction false} AppendNewOfConcat(done: seq<string>, xs: seq<string>, ys: seq<string>)
    ensures AppendNew(done, xs + ys) == AppendNew(AppendNew(done, xs), ys)
    decreases |xs|
  {
    if xs == [] {
      assert xs + ys == ys;
    } else {
      assert (xs + ys)[0] == xs[0] && (xs + ys)[1..] == xs[1..] + ys;
      AppendNewOfConcat(if xs[0] in done then done else done + [xs[0]], xs[1..], ys);
    }
  }

  lemma {:induction false} AppendNothingNew(done: seq<string>, names: seq<string>)
    requires forall n :: n in names ==> n in done
    ensures AppendNew(done, names) == done
    decreases |names|
  {
    if names != [] {
      assert names[0] in names;
      AppendNothingNew(done, names[1..]);
    }
  }

  /** A finished task unfolds completely, inside the finished tasks, whatever unfinished is above it. */
  lemma {:induction false} FinishedUnfolds(nodes: Nodes, tasks: seq<TaskNode>, name: string, above: set<string>)
    requires NeedsFirst(nodes, tasks) && name in Names(tasks)
    requires forall n :: n in above && n in Names(tasks) ==> IndexOf(tasks, name) < IndexOf(tasks, n)
    ensures Unfold(nodes, name, above).Some?
    ensures forall n :: n in Unfold(nodes, name, above).value ==> n in Names(tasks)
    decreases nodes.Keys - above, 0
  {
    assert tasks[IndexOf(tasks, name)] == nodes[name];
    var above' := above + {name};
    forall d | d in nodes[name].needs
      ensures d in Names(tasks)
      ensures forall n :: n in above' && n in Names(tasks) ==> IndexOf(tasks, d) < IndexOf(tasks, n)
    {
      NeedComesEarlier(nodes, tasks, name, d);
    }
    FinishedAllUnfold(nodes, tasks, nodes[name].needs, above');
  }

  lemma {:induction false} FinishedAllUnfold(nodes: Nodes, tasks: seq<TaskNode>, names: seq<string>, above: set<string>)
    requires NeedsFirst(nodes, tasks)
    requires forall d :: d in names ==> d in Names(tasks)
    requires forall d, n :: d in names && n in above && n in Names(tasks) ==> IndexOf(tasks, d) < IndexOf(tasks, n)
    ensures UnfoldAll(nodes, names, above).Some?
    ensures forall n :: n in UnfoldAll(nodes, names, above).value ==> n in Names(tasks)
    decreases nodes.Keys - above, |names| + 1
  {
    if names != [] {
      assert names[0] in names;
      FinishedUnfolds(nodes, tasks, names[0], above);
      FinishedAllUnfold(nodes, tasks, names[1..], above);
    }
  }

  /** Visiting `name` appends exactly what its unfolding has and the search does not have yet. */
  lemma {:induction false} VisitRefinesUnfold(nodes: Nodes, name: string, s: Search)
    requires Keyed(nodes) && Consistent(nodes, s) && Above(nodes, s, [name])
    ensures match Unfold(nodes, name, s.visiting)
      case None => Visit(nodes, name, s).Err?
      case Some(names) =>
        && Visit(nodes, name, s).Ok?
        && NameList(Visit(nodes, name, s).value.ordered) == AppendNew(NameList(s.ordered), names)
    decreases nodes.Keys - s.visiting, 0
  {
    NameListMembers(s.ordered);
    if name in s.visiting {
    } else if name in s.visited {
      FinishedUnfolds(nodes, s.ordered, name, s.visiting);
      AppendNothingNew(NameList(s.ordered), Unfold(nodes, name, s.visiting).value);
    } else if name in nodes {
      var needs, entered := nodes[name].needs, Enter(s, name);
      EnteredIsAbove(nodes, name, s);
      VisitAllRefinesUnfold(nodes, needs, entered);
      VisitAllIsSound(nodes, needs, entered);
      if UnfoldAll(nodes, needs, entered.visiting).Some? {
        var t := VisitAll(nodes, needs, entered).value;
        NameListMembers(t.ordered);
        assert NameList(t.ordered + [nodes[name]]) == NameList(t.ordered) + [name];
        AppendNewOfConcat(NameList(s.ordered), UnfoldAll(nodes, needs, entered.visiting).value, [name]);
      }
    }
  }

  lemma {:induction false} VisitAllRefinesUnfold(nodes: Nodes, names: seq<string>, s: Search)
    requires Keyed(nodes) && Consistent(nodes, s) && Above(nodes, s, names)
    ensures match UnfoldAll(nodes, names, s.visiting)
      case None => VisitAll(nodes, names, s).Err?
      case Some(all) =>
        && VisitAll(nodes, names, s).Ok?
        && NameList(VisitAll(nodes, names, s).value.ordered) == AppendNew(NameList(s.ordered), all)
    decreases nodes.Keys - s.visiting, |names| + 1
  {
    if names != [] {
      assert names[0] in names && forall n :: n in names[1..] ==> n in names;
      VisitRefinesUnfold(nodes, names[0], s);
      VisitIsSound(nodes, names[0], s);
      if Visit(nodes, names[0], s).Ok? {
        var t := Visit(nodes, names[0], s).value;
        VisitAllRefinesUnfold(nodes, names[1..], t);
        if UnfoldAll(nodes, names, s.visiting).Some? {
          AppendNewOfConcat(NameList(s.ordered), Unfold(nodes, names[0], s.visiting).value,
                            UnfoldAll(nodes, names[1..], s.visiting).value);
        }
      }
    }
  }

  /** The search with memory returns the naive unfolding with later repeats removed, and fails
      exactly when the unfolding does. */
  lemma ResolveIsDeduplicatedUnfolding(target: string, graph: seq<TaskNode>)
    requires UniqueNames(graph)
    ensures match Unfold(NodeMap(graph), target, {})
      case None => Resolve(target, graph).Err?
      case Some(names) =>
        && Resolve(target, graph).Ok?
        && NameList(Resolve(target, graph).value) == AppendNew([], names)
  {
    NodeMapSize(graph);
    VisitRefinesUnfold(NodeMap(graph), target, START);
    assert NameList(START.ordered) == [];
  }
}
