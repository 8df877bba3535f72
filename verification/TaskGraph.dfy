/** Resolution of a named task graph: depth-first search with cycle and unknown-name detection. */
module TaskGraph {
  import opened Wrappers

  datatype TaskNode = TaskNode(name: string, command: seq<string>, needs: seq<string>)

  datatype GraphError = DuplicateNames | Cycle | UnknownTask(name: string)

  type Nodes = map<string, TaskNode>

  /** The dictionary from name to node; a later node with the same name replaces an earlier one. */
  function NodeMap(graph: seq<TaskNode>): (nodes: Nodes)
    ensures Keyed(nodes)
  {
    if graph == [] then map[]
    else
      var last := graph[|graph| - 1];
      NodeMap(graph[..|graph| - 1])[last.name := last]
  }

  predicate Keyed(nodes: Nodes) {
    forall name :: name in nodes ==> nodes[name].name == name
  }

  predicate UniqueNames(graph: seq<TaskNode>) {
    forall i, j :: 0 <= i < j < |graph| ==> graph[i].name != graph[j].name
  }

  lemma {:induction false} NodeMapNames(graph: seq<TaskNode>, name: string)
    ensures name in NodeMap(graph) <==> exists i :: 0 <= i < |graph| && graph[i].name == name
  {
    if graph != [] {
      var n := |graph| - 1;
      NodeMapNames(graph[..n], name);
      if name in NodeMap(graph[..n]) {
        var i :| 0 <= i < n && graph[..n][i].name == name;
        assert graph[i].name == name;
      } else if i :| 0 <= i < |graph| && graph[i].name == name {
        assert i < n ==> graph[..n][i].name == name;
      }
    }
  }

  /** The length test of the source detects exactly the repeated names. */
  lemma {:induction false} NodeMapSize(graph: seq<TaskNode>)
    ensures |NodeMap(graph)| <= |graph|
    ensures |NodeMap(graph)| == |graph| <==> UniqueNames(graph)
  {
    if graph != [] {
      var n := |graph| - 1;
      var front := NodeMap(graph[..n]);
      NodeMapSize(graph[..n]);
      NodeMapNames(graph[..n], graph[n].name);
      assert NodeMap(graph) == front[graph[n].name := graph[n]];
      assert |NodeMap(graph)| == |front| + if graph[n].name in front then 0 else 1;
      if UniqueNames(graph[..n]) && graph[n].name !in front {
        forall i, j | 0 <= i < j < |graph| ensures graph[i].name != graph[j].name {
          assert graph[..n][i] == graph[i];
          if j < n {
            assert graph[..n][j] == graph[j];
          }
        }
      } else if graph[n].name in front {
        var i :| 0 <= i < n && graph[..n][i].name == graph[n].name;
        assert graph[i].name == graph[n].name;
      }
    }
  }

  // ----- The search as a function of its three mutable collections

  datatype Search = Search(visiting: set<string>, visited: set<string>, ordered: seq<TaskNode>)

  const START := Search({}, {}, [])

  function Visit(nodes: Nodes, name: string, s: Search): (r: Result<Search, GraphError>)
    ensures r.Ok? ==> r.value.visiting == s.visiting
    decreases nodes.Keys - s.visiting, 0
  {
    if name in s.visiting then Err(Cycle)
    else if name in s.visited then Ok(s)
    else if name !in nodes then Err(UnknownTask(name))
    else match VisitAll(nodes, nodes[name].needs, s.(visiting := s.visiting + {name}))
      case Err(error) => Err(error)
      case Ok(t) => Ok(Search(t.visiting - {name}, t.visited + {name}, t.ordered + [nodes[name]]))
  }

  function VisitAll(nodes: Nodes, names: seq<string>, s: Search): (r: Result<Search, GraphError>)
    ensures r.Ok? ==> r.value.visiting == s.visiting
    decreases nodes.Keys - s.visiting, |names| + 1
  {
    if names == [] then Ok(s)
    else match Visit(nodes, names[0], s)
      case Err(error) => Err(error)
      case Ok(t) => VisitAll(nodes, names[1..], t)
  }

  function Resolve(target: string, graph: seq<TaskNode>): Result<seq<TaskNode>, GraphError> {
    if |NodeMap(graph)| != |graph| then Err(DuplicateNames)
    else match Visit(NodeMap(graph), target, START)
      case Err(error) => Err(error)
      case Ok(s) => Ok(s.ordered)
  }

  // ----- The search as the source runs it

  class Resolver {
    const nodes: Nodes
    var visiting: set<string>
    var visited: set<string>
    var ordered: seq<TaskNode>

    constructor (nodes: Nodes)
      ensures this.nodes == nodes && Snapshot() == START
    {
      this.nodes := nodes;
      visiting, visited, ordered := {}, {}, [];
    }

    function Snapshot(): Search
      reads this
    {
      Search(visiting, visited, ordered)
    }

    /** An error stands for the exception, which abandons the whole search. */
    method VisitTask(name: string) returns (error: Option<GraphError>)
      modifies this
      ensures error.Some? ==> Visit(nodes, name, old(Snapshot())) == Err(error.value)
      ensures error.None? ==> Visit(nodes, name, old(Snapshot())) == Ok(Snapshot())
      decreases nodes.Keys - visiting
    {
      if name in visiting {
        return Some(Cycle);
      }
      if name in visited {
        return None;
      }
      if name !in nodes {
        return Some(UnknownTask(name));
      }
      var node := nodes[name];
      visiting := visiting + {name};
      ghost var entered := Snapshot();
      for i := 0 to |node.needs|
        invariant visiting == old(visiting) + {name}
        invariant VisitAll(nodes, node.needs, entered) == VisitAll(nodes, node.needs[i..], Snapshot())
      {
        ghost var before := Snapshot();
        assert node.needs[i..][0] == node.needs[i] && node.needs[i..][1..] == node.needs[i + 1..];
        error := VisitTask(node.needs[i]);
        if error.Some? {
          return;
        }
        assert VisitAll(nodes, node.needs[i..], before) == VisitAll(nodes, node.needs[i + 1..], Snapshot());
      }
      visiting := visiting - {name};
      visited := visited + {name};
      ordered := ordered + [node];
      error := None;
    }
  }

  method ResolveTasks(target: string, graph: seq<TaskNode>) returns (r: Result<seq<TaskNode>, GraphError>)
    ensures r == Resolve(target, graph)
  {
    var nodes: Nodes := map[];
    for i := 0 to |graph|
      invariant nodes == NodeMap(graph[..i])
    {
      nodes := nodes[graph[i].name := graph[i]];
      assert graph[..i + 1][..i] == graph[..i];
    }
    assert graph[..|graph|] == graph;
    if |nodes| != |graph| {
      return Err(DuplicateNames);
    }
    var search := new Resolver(nodes);
    var error := search.VisitTask(target);
    if error.Some? {
      return Err(error.value);
    }
    return Ok(search.ordered);
  }
}
