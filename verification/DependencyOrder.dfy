/**
 The dependency order repair campaigns consume: a depth-first topological sort that
 survives cycles, self-loops and dependencies on unknown requirements.
 */
module DependencyOrder {

  datatype Requirement = Requirement(id: string, dependencies: seq<string>)

  /** Known requirements by id; the last record for an id wins. */
  type Graph = map<string, seq<string>>

  function ById(rs: seq<Requirement>): Graph {
    if rs == [] then map[]
    else ById(rs[..|rs| - 1])[rs[|rs| - 1].id := rs[|rs| - 1].dependencies]
  }

  ghost predicate Edge(g: Graph, u: string, v: string) {
    u in g && v in g[u]
  }

  ghost predicate Walk(g: Graph, p: seq<string>) {
    forall i :: 0 <= i < |p| - 1 ==> Edge(g, p[i], p[i + 1])
  }

  ghost predicate Cycle(g: Graph, p: seq<string>) {
    |p| >= 2 && p[0] == p[|p| - 1] && Walk(g, p)
  }

  ghost predicate OnCycle(g: Graph, v: string) {
    exists p: seq<string> :: Cycle(g, p) && p[0] == v
  }

  /** A dependency of a known requirement that is not itself known. */
  ghost predicate Missing(g: Graph, v: string) {
    v !in g && exists u :: Edge(g, u, v)
  }

  ghost predicate Closed(g: Graph) {
    forall u, v :: Edge(g, u, v) ==> v in g
  }

  ghost predicate Acyclic(g: Graph) {
    forall p: seq<string> :: !Cycle(g, p)
  }

  ghost predicate NoRepeats(s: seq<string>) {
    forall i, j :: 0 <= i < j < |s| ==> s[i] != s[j]
  }

  /** Dependency v of a requirement placed after `earlier` comes earlier or is reported. */
  ghost predicate Placed(g: Graph, earlier: seq<string>, unresolved: set<string>, v: string) {
    v in unresolved || (v in g && v in earlier)
  }

  ghost predicate Ordered(g: Graph, order: seq<string>, unresolved: set<string>) {
    forall i, v :: 0 <= i < |order| && Edge(g, order[i], v) ==> Placed(g, order[..i], unresolved, v)
  }

  ghost predicate Justified(g: Graph, unresolved: set<string>) {
    forall v :: v in unresolved ==> Missing(g, v) || OnCycle(g, v)
  }

  /** Visiting an id that is on the stack closes a cycle. */
  lemma StackCycle(g: Graph, stack: seq<string>, v: string)
    requires Walk(g, stack) && v in stack && Edge(g, stack[|stack| - 1], v)
    ensures OnCycle(g, v)
  {
    var j :| 0 <= j < |stack| && stack[j] == v;
    var p := stack[j..] + [v];
    assert Cycle(g, p);
  }

  class DependencyOrder {
    const byId: Graph
    var visited: set<string>
    var stack: seq<string>            // the Set `stack` in insertion order
    var order: seq<string>
    var unresolved: set<string>

    constructor (byId: Graph)
      ensures Valid() && this.byId == byId && stack == [] && order == []
    {
      this.byId := byId;
      visited, stack, order, unresolved := {}, [], [], {};
    }

    ghost predicate Valid()
      reads this
    {
      && (forall x :: x in visited <==> x in order) && NoRepeats(order) && NoRepeats(stack)
      && (forall x :: x in stack ==> x in byId && x !in visited) && (forall x :: x in order ==> x in byId)
      && Walk(byId, stack) && Ordered(byId, order, unresolved) && Justified(byId, unresolved)
    }

    /** Not yet visited and not being visited: the measure that makes `visit` terminate. */
    ghost function Unseen(): set<string>
      reads this
    {
      byId.Keys - visited - (set x | x in stack)
    }

    method Visit(id: string)
      requires Valid() && id in byId && (stack != [] ==> Edge(byId, stack[|stack| - 1], id))
      modifies this
      ensures Valid() && stack == old(stack) && old(order) <= order && old(unresolved) <= unresolved
      ensures old(visited) <= visited && (id in visited || id in unresolved)
      ensures stack == [] ==> id in visited
      decreases Unseen()
    {
      if id in visited {
        return;
      }
      if id in stack {
        StackCycle(byId, stack, id);
        unresolved := unresolved + {id};
        return;
      }
      stack := stack + [id];
      var deps := byId[id];
      for i := 0 to |deps|
        invariant Valid() && stack == old(stack) + [id] && old(order) <= order && old(unresolved) <= unresolved
        invariant old(visited) <= visited
        invariant forall j :: 0 <= j < i ==> Placed(byId, order, unresolved, deps[j])
      {
        var dep := deps[i];
        assert Edge(byId, id, dep);
        if dep !in byId {
          unresolved := unresolved + {dep};
        } else {
          assert Unseen() < old(Unseen()) by {
            assert id in old(Unseen()) && id !in Unseen();
          }
          Visit(dep);
        }
      }
      Close(id);
    }

    /** Leaves the stack and appends the id after its dependencies. */
    method Close(id: string)
      requires Valid() && stack != [] && stack[|stack| - 1] == id
      requires forall v :: v in byId[id] ==> Placed(byId, order, unresolved, v)
      modifies this
      ensures Valid() && stack == old(stack)[..|old(stack)| - 1] && order == old(order) + [id]
      ensures unresolved == old(unresolved) && visited == old(visited) + {id}
    {
      stack := stack[..|stack| - 1];
      visited := visited + {id};
      order := order + [id];
      forall i, v | 0 <= i < |order| && Edge(byId, order[i], v)
        ensures Placed(byId, order[..i], unresolved, v)
      {
        if i < |order| - 1 {
          assert order[..i] == old(order)[..i] && order[i] == old(order)[i];
        } else {
          assert order[..i] == old(order);
        }
      }
    }
  }

  /** Along a walk that meets nothing unresolved, positions in the order only go down. */
  lemma {:induction false} WalkDescends(g: Graph, order: seq<string>, unresolved: set<string>,
                                        p: seq<string>, i: nat, j: nat)
    requires Ordered(g, order, unresolved) && NoRepeats(order) && Walk(g, p) && p != []
    requires forall m :: 0 <= m < |p| ==> p[m] !in unresolved
    requires i < |order| && order[i] == p[0] && j < |order| && order[j] == p[|p| - 1]
    ensures |p| >= 2 ==> j < i
    decreases |p|
  {
    if |p| >= 2 {
      assert Edge(g, p[0], p[1]);
      assert Placed(g, order[..i], unresolved, p[1]);
      var k :| 0 <= k < i && order[k] == p[1];
      var q := p[1..];
      assert Walk(g, q) by {
        forall m | 0 <= m < |q| - 1
          ensures Edge(g, q[m], q[m + 1])
        {
          assert Edge(g, p[m + 1], p[m + 2]);
        }
      }
      WalkDescends(g, order, unresolved, q, k, j);
    }
  }

  /** `unresolved` breaks every cycle and names every missing dependency. */
  lemma DefectsReported(g: Graph, order: seq<string>, unresolved: set<string>)
    requires NoRepeats(order) && Ordered(g, order, unresolved) && forall x :: x in g <==> x in order
    ensures forall p: seq<string> :: Cycle(g, p) ==> exists v :: v in p && v in unresolved
    ensures forall v :: Missing(g, v) ==> v in unresolved
  {
    forall v | Missing(g, v)
      ensures v in unresolved
    {
      var u :| Edge(g, u, v);
      var i :| 0 <= i < |order| && order[i] == u;
      assert Placed(g, order[..i], unresolved, v);
    }
    forall p: seq<string> | Cycle(g, p)
      ensures exists v :: v in p && v in unresolved
    {
      if forall v :: v in p ==> v !in unresolved {
        assert Edge(g, p[0], p[1]);
        var i :| 0 <= i < |order| && order[i] == p[0];
        WalkDescends(g, order, unresolved, p, i, i);
      }
    }
  }

  /**
   For every requirement graph and every order of the seeds: each known id is listed
   once; every edge has its dependency earlier or in `unresolved`; each unresolved id is
   missing or lies on a cycle; and `unresolved` is empty exactly when the graph is closed
   and acyclic.
   */
  method BuildDependencyOrder(rs: seq<Requirement>, seeds: seq<string>)
      returns (order: seq<string>, unresolved: set<string>)
    requires forall x :: x in seeds <==> x in ById(rs)
    ensures NoRepeats(order) && forall x :: x in order <==> x in ById(rs)
    ensures Ordered(ById(rs), order, unresolved) && Justified(ById(rs), unresolved)
    ensures forall v :: Missing(ById(rs), v) ==> v in unresolved
    ensures forall p: seq<string> :: Cycle(ById(rs), p) ==> exists v :: v in p && v in unresolved
    ensures unresolved == {} <==> Closed(ById(rs)) && Acyclic(ById(rs))
  {
    var d := new DependencyOrder(ById(rs));
    for i := 0 to |seeds|
      invariant d.Valid() && d.stack == [] && fresh(d)
      invariant forall j :: 0 <= j < i ==> seeds[j] in d.visited
    {
      d.Visit(seeds[i]);
    }
    order, unresolved := d.order, d.unresolved;
    ghost var g := ById(rs);
    DefectsReported(g, order, unresolved);
    if unresolved != {} {
      ghost var v :| v in unresolved;
      if Missing(g, v) {
        ghost var u :| Edge(g, u, v);
        assert !Closed(g);
      } else {
        ghost var p: seq<string> :| Cycle(g, p) && p[0] == v;
        assert !Acyclic(g);
      }
    }
  }
}
