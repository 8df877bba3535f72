/** What a resolved task graph promises about the list of tasks it was given. */
module GraphGuarantees {
  import opened Wrappers
  import opened TaskGraph
  import opened TopologicalOrder

  /** Some listed task with the first name needs the second. */
  ghost predicate Needs(graph: seq<TaskNode>, a: string, b: string) {
    exists t :: t in graph && t.name == a && b in t.needs
  }

  ghost predicate Listed(graph: seq<TaskNode>, name: string) {
    exists t :: t in graph && t.name == name
  }

  /** Each name of the chain needs the next. */
  ghost predicate Chain(graph: seq<TaskNode>, p: seq<string>) {
    p != [] && (|p| == 1 || (Needs(graph, p[0], p[1]) && Chain(graph, p[1..])))
  }

  ghost predicate Leads(graph: seq<TaskNode>, a: string, b: string) {
    exists p :: Chain(graph, p) && p[0] == a && p[|p| - 1] == b
  }

  ghost predicate LeadsBack(graph: seq<TaskNode>, c: string) {
    exists p :: Chain(graph, p) && |p| > 1 && p[0] == c && p[|p| - 1] == c
  }

  ghost predicate NamesDiffer(tasks: seq<TaskNode>) {
    forall i, j :: 0 <= i < j < |tasks| ==> tasks[i].name != tasks[j].name
  }

  /** The lookup table holds each listed task under its name. */
  lemma {:induction false} TableHolds(graph: seq<TaskNode>)
    requires NamesDiffer(graph)
    ensures forall t :: t in graph ==> t.name in NodeMap(graph) && NodeMap(graph)[t.name] == t
    ensures forall name :: name in NodeMap(graph) ==> NodeMap(graph)[name] in graph
  {
    if graph != [] {
      var n := |graph| - 1;
      var front, last := graph[..n], graph[n];
      assert forall i :: 0 <= i < n ==> front[i] == graph[i];
      TableHolds(front);
      assert graph == front + [last];
      forall t | t in front ensures t.name != last.name {
        var i :| 0 <= i < n && front[i] == t;
        assert graph[i].name != graph[n].name;
      }
    }
  }

  lemma EdgesAgree(graph: seq<TaskNode>, a: string, b: string)
    requires NamesDiffer(graph)
    ensures Needs(graph, a, b) <==> a in NodeMap(graph) && b in NodeMap(graph)[a].needs
    ensures Listed(graph, a) <==> a in NodeMap(graph)
  {
    TableHolds(graph);
    if a in NodeMap(graph) {
      assert NodeMap(graph)[a] in graph && NodeMap(graph)[a].name == a;
    }
  }

  lemma {:induction false} ChainsAgree(graph: seq<TaskNode>, p: seq<string>)
    requires NamesDiffer(graph)
    ensures Chain(graph, p) <==> IsPath(NodeMap(graph), p)
    decreases |p|
  {
    hide NodeMap, Needs, NamesDiffer;
    if |p| > 1 {
      EdgesAgree(graph, p[0], p[1]);
      ChainsAgree(graph, p[1..]);
    }
  }

  lemma LeadsIff(graph: seq<TaskNode>, a: string, b: string)
    requires NamesDiffer(graph)
    ensures Leads(graph, a, b) <==> Reaches(NodeMap(graph), a, b)
  {
    hide NodeMap, IsPath, Chain, NamesDiffer;
    forall p ensures Chain(graph, p) <==> IsPath(NodeMap(graph), p) {
      ChainsAgree(graph, p);
    }
    EmptyIsNoPath(graph);
  }

  lemma EmptyIsNoPath(graph: seq<TaskNode>)
    ensures forall p :: IsPath(NodeMap(graph), p) ==> p != []
    ensures forall p :: Chain(graph, p) ==> p != []
  {
  }

  lemma LeadsBackIff(graph: seq<TaskNode>, c: string)
    requires NamesDiffer(graph)
    ensures LeadsBack(graph, c) <==> DependsOn(NodeMap(graph), c, c)
  {
    var nodes := NodeMap(graph);
    hide NodeMap, NamesDiffer;
    if LeadsBack(graph, c) {
      var p :| Chain(graph, p) && |p| > 1 && p[0] == c && p[|p| - 1] == c;
      ChainsAgree(graph, p);
      assert IsPath(nodes, p[1..]) && p[1..][|p| - 2] == c;
      assert Reaches(nodes, p[1], c);
    }
    if DependsOn(nodes, c, c) {
      var d :| d in nodes[c].needs && Reaches(nodes, d, c);
      var q :| IsPath(nodes, q) && q[0] == d && q[|q| - 1] == c;
      var p := [c] + q;
      assert p[1..] == q && IsPath(nodes, p);
      ChainsAgree(graph, p);
    }
  }

  /** Exactly the tasks the target leads to, as listed and each once, every need before its dependent
      and the target last. */
  ghost predicate IsOrderFor(target: string, graph: seq<TaskNode>, tasks: seq<TaskNode>) {
    && (forall t :: t in tasks ==> t in graph)
    && NamesDiffer(tasks)
    && (forall name :: Listed(tasks, name) <==> Leads(graph, target, name))
    && (forall i, d :: 0 <= i < |tasks| && d in tasks[i].needs ==> exists j :: 0 <= j < i && tasks[j].name == d)
    && tasks != [] && tasks[|tasks| - 1].name == target
  }

  /** Each outcome, by the listed tasks alone. */
  lemma ResolvesTo(target: string, graph: seq<TaskNode>)
    ensures match Resolve(target, graph)
      case Ok(tasks) => NamesDiffer(graph) && IsOrderFor(target, graph, tasks)
      case Err(DuplicateNames) => !NamesDiffer(graph)
      case Err(Cycle) => NamesDiffer(graph) && exists c :: Leads(graph, target, c) && LeadsBack(graph, c)
      case Err(UnknownTask(u)) => NamesDiffer(graph) && Leads(graph, target, u) && !Listed(graph, u)
  {
    hide Resolve, NodeMap, IsPath, Chain, Leads, LeadsBack, Reaches, DependsOn, NeedsFirst;
    ResolveIsSound(target, graph);
    if NamesDiffer(graph) {
      Agreement(graph, target);
      match Resolve(target, graph) {
        case Ok(tasks) => OrderAgrees(target, graph, tasks);
        case Err(_) =>
      }
    }
  }

  lemma Agreement(graph: seq<TaskNode>, target: string)
    requires NamesDiffer(graph)
    ensures forall n :: Leads(graph, target, n) <==> Reaches(NodeMap(graph), target, n)
    ensures forall n :: LeadsBack(graph, n) <==> DependsOn(NodeMap(graph), n, n)
    ensures forall n :: Listed(graph, n) <==> n in NodeMap(graph)
  {
    hide NodeMap, Leads, LeadsBack, Reaches, DependsOn, Listed, NamesDiffer;
    forall n
      ensures Leads(graph, target, n) <==> Reaches(NodeMap(graph), target, n)
      ensures LeadsBack(graph, n) <==> DependsOn(NodeMap(graph), n, n)
      ensures Listed(graph, n) <==> n in NodeMap(graph)
    {
      LeadsIff(graph, target, n);
      LeadsBackIff(graph, n);
      EdgesAgree(graph, n, n);
    }
  }

  lemma OrderAgrees(target: string, graph: seq<TaskNode>, tasks: seq<TaskNode>)
    requires NamesDiffer(graph) && IsResolution(NodeMap(graph), target, tasks)
    ensures IsOrderFor(target, graph, tasks)
  {
    hide NodeMap, Leads, Reaches;
    Agreement(graph, target);
    TableHolds(graph);
    forall t | t in tasks ensures t in graph {
      var i :| 0 <= i < |tasks| && tasks[i] == t;
      assert NodeMap(graph)[tasks[i].name] == t;
    }
    forall name ensures Listed(tasks, name) <==> name in Names(tasks) {
      if name in Names(tasks) {
        var i :| 0 <= i < |tasks| && tasks[i].name == name;
        assert tasks[i] in tasks;
      }
    }
    forall i, d | 0 <= i < |tasks| && d in tasks[i].needs ensures exists j :: 0 <= j < i && tasks[j].name == d {
      assert d in Names(tasks[..i]);
      var j :| 0 <= j < i && tasks[..i][j].name == d;
      assert tasks[j].name == d;
    }
  }

  /** Resolution succeeds exactly when names differ, and everything the target leads to is listed and
      leads back to nothing. */
  lemma ResolvesIff(target: string, graph: seq<TaskNode>)
    ensures Resolve(target, graph).Ok? <==>
      && NamesDiffer(graph)
      && forall n :: Leads(graph, target, n) ==> Listed(graph, n) && !LeadsBack(graph, n)
  {
    hide Resolve, NodeMap, IsPath, Chain, Leads, LeadsBack, Reaches, DependsOn, Listed;
    ResolveSucceedsIff(target, graph);
    if NamesDiffer(graph) {
      Agreement(graph, target);
    }
  }
}
