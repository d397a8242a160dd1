/**
 * The script embedded in each recipe page: a set of finished node ids,
 * toggled by clicking a node, after which every node's class list is
 * brought in line with that set. A finished node carries `done`; a node
 * whose every direct dependency is finished carries `todo`.
 */
module Client {
  import opened Dependencies

  const DoneClass: string := "done"
  const TodoClass: string := "todo"

  /** How the page shows a node. */
  datatype Status = Done | Todo | Neutral

  /** `dependencies[node.id] || []`: nodes missing from the index have no dependencies. */
  function DepsOf(deps: map<string, seq<string>>, id: string): seq<string>
  {
    if id in deps then deps[id] else []
  }

  /** `DepsOf(...).every(d => done.has(d))` */
  predicate Ready(deps: map<string, seq<string>>, done: set<string>, id: string)
  {
    forall d :: d in DepsOf(deps, id) ==> d in done
  }

  /** The readiness rule as a pure classification of one node. */
  function Classify(deps: map<string, seq<string>>, done: set<string>, id: string): Status
  {
    if id in done then Done else if Ready(deps, done, id) then Todo else Neutral
  }

  /** One iteration of `sync()`: the node's class list after it is brought up to date. */
  function Restyle(cl: set<string>, deps: map<string, seq<string>>, done: set<string>, id: string): (r: set<string>)
    ensures DoneClass in r <==> Classify(deps, done, id) == Done
    ensures TodoClass in r <==> Classify(deps, done, id) == Todo
    ensures r - {DoneClass, TodoClass} == cl - {DoneClass, TodoClass}
  {
    assert DoneClass != TodoClass by {
      assert DoneClass[0] != TodoClass[0];
    }
    if id in done then
      cl + {DoneClass} - {TodoClass}
    else
      var c := cl - {DoneClass};
      if Ready(deps, done, id) then c + {TodoClass} else c - {TodoClass}
  }

  /** The click handler's update of the finished set. */
  function ToggleSet(done: set<string>, id: string): (r: set<string>)
    ensures id in r <==> id !in done
    ensures forall x :: x != id ==> (x in r <==> x in done)
  {
    if id !in done then done + {id} else done - {id}
  }

  /** Clicking the same node twice restores the finished set. */
  lemma ToggleTwice(done: set<string>, id: string)
    ensures ToggleSet(ToggleSet(done, id), id) == done
  {
  }

  /** Restyling depends only on the current finished set: an earlier restyle leaves no trace. */
  lemma RestyleOverrides(cl: set<string>, deps: map<string, seq<string>>, d1: set<string>, d2: set<string>, id: string)
    ensures Restyle(Restyle(cl, deps, d1, id), deps, d2, id) == Restyle(cl, deps, d2, id)
  {
  }

  /** A second `sync()` with nothing clicked in between changes nothing. */
  lemma RestyleIdempotent(cl: set<string>, deps: map<string, seq<string>>, done: set<string>, id: string)
    ensures Restyle(Restyle(cl, deps, done, id), deps, done, id) == Restyle(cl, deps, done, id)
  {
    RestyleOverrides(cl, deps, done, done, id);
  }

  /** The finished set after a sequence of clicks on the given ids. */
  function ReplayDone(done: set<string>, clicks: seq<string>): set<string>
    decreases |clicks|
  {
    if clicks == [] then done else ReplayDone(ToggleSet(done, clicks[0]), clicks[1..])
  }

  /** One node's class list after each click toggles the finished set and syncs the page. */
  function ReplayClasses(cl: set<string>, deps: map<string, seq<string>>, done: set<string>,
                         clicks: seq<string>, id: string): set<string>
    decreases |clicks|
  {
    if clicks == [] then
      cl
    else
      var d := ToggleSet(done, clicks[0]);
      ReplayClasses(Restyle(cl, deps, d, id), deps, d, clicks[1..], id)
  }

  /** Incremental syncing after every click agrees with one sync from the initial classes
      against the final finished set. */
  lemma {:induction false} HistoryIrrelevant(cl: set<string>, deps: map<string, seq<string>>,
                                             done: set<string>, clicks: seq<string>, id: string)
    ensures ReplayClasses(Restyle(cl, deps, done, id), deps, done, clicks, id)
            == Restyle(cl, deps, ReplayDone(done, clicks), id)
    decreases |clicks|
  {
    if clicks != [] {
      var d := ToggleSet(done, clicks[0]);
      RestyleOverrides(cl, deps, done, d, id);
      HistoryIrrelevant(cl, deps, d, clicks[1..], id);
    }
  }

  /** With the index built from the chains, a node is ready exactly when every node that
      immediately precedes it in some chain is finished. */
  lemma ReadyMeansPredecessorsDone(edges: seq<seq<string>>, done: set<string>, id: string)
    ensures Ready(DependencyIndex(edges), done, id) <==> forall x :: Link(edges, (id, x)) ==> x in done
  {
    var deps := DependencyIndex(edges);
    IndexKeys(edges, id);
    if id in deps {
      forall x
        ensures x in deps[id] <==> Link(edges, (id, x))
      {
        IndexSourcesMembers(edges, id, x);
      }
    }
  }

  /** With A finished, B is ready and C is not, for want of B; finishing B makes C ready. */
  lemma ReadinessExample(edges: seq<seq<string>>)
    requires edges == [["A", "B"], ["B", "C"], ["A", "C"]]
    ensures var deps := DependencyIndex(edges);
      && Classify(deps, {"A"}, "B") == Todo
      && Classify(deps, {"A"}, "C") == Neutral
      && Classify(deps, ToggleSet({"A"}, "B"), "C") == Todo
  {
    IndexExample(edges);
    ReadinessOfIndex(DependencyIndex(edges));
  }

  /** The readiness facts of the example, read off its index alone. */
  lemma ReadinessOfIndex(deps: map<string, seq<string>>)
    requires deps == map["B" := ["A"], "C" := ["A", "B"]]
    ensures Classify(deps, {"A"}, "B") == Todo
    ensures Classify(deps, {"A"}, "C") == Neutral
    ensures Classify(deps, ToggleSet({"A"}, "B"), "C") == Todo
  {
    assert "A" != "B" && "A" != "C" && "B" != "C" by {
      assert "A"[0] != "B"[0] && "A"[0] != "C"[0] && "B"[0] != "C"[0];
    }
    assert ToggleSet({"A"}, "B") == {"A", "B"};
  }

  /** The page: its nodes in document order, the embedded index, each node's class list, and the finished set. */
  class Page {
    const nodes: seq<string>
    const dependencies: map<string, seq<string>>
    const classLists: array<set<string>>
    ghost const initial: seq<set<string>>
    var done: set<string>

    /** One class list per node. */
    predicate Shaped()
    {
      classLists.Length == |nodes|
    }

    /** Every class list is the initial one restyled against the current finished set. */
    ghost predicate Valid()
      reads this, classLists
    {
      && Shaped()
      && |initial| == |nodes|
      && forall j :: 0 <= j < |nodes| ==> classLists[j] == Restyle(initial[j], dependencies, done, nodes[j])
    }

    /** Page load: an empty finished set, then the first `sync()`. */
    constructor (nodes: seq<string>, dependencies: map<string, seq<string>>, initial: seq<set<string>>)
      requires |initial| == |nodes|
      ensures Valid() && fresh(classLists)
      ensures this.nodes == nodes && this.dependencies == dependencies && this.initial == initial
      ensures done == {}
    {
      this.nodes := nodes;
      this.dependencies := dependencies;
      this.initial := initial;
      classLists := new set<string>[|nodes|](i requires 0 <= i < |initial| => initial[i]);
      done := {};
      new;
      Sync();
    }

    /** `sync()`: restyle every node against the current finished set. */
    method Sync()
      requires Shaped()
      modifies classLists
      ensures forall j :: 0 <= j < |nodes| ==>
        classLists[j] == Restyle(old(classLists[j]), dependencies, done, nodes[j])
    {
      for i := 0 to |nodes|
        invariant forall j :: 0 <= j < i ==>
          classLists[j] == Restyle(old(classLists[j]), dependencies, done, nodes[j])
        invariant forall j :: i <= j < |nodes| ==> classLists[j] == old(classLists[j])
      {
        var id := nodes[i];
        if id in done {
          classLists[i] := classLists[i] + {DoneClass};
          classLists[i] := classLists[i] - {TodoClass};
        } else {
          classLists[i] := classLists[i] - {DoneClass};
          if Ready(dependencies, done, id) {
            classLists[i] := classLists[i] + {TodoClass};
          } else {
            classLists[i] := classLists[i] - {TodoClass};
          }
        }
      }
    }

    /** The click handler of the `i`-th node: toggle its id in the finished set, then sync. */
    method Click(i: nat)
      requires Valid() && i < |nodes|
      modifies this, classLists
      ensures Valid()
      ensures done == ToggleSet(old(done), nodes[i])
      ensures forall j :: 0 <= j < |nodes| ==>
        classLists[j] == Restyle(old(classLists[j]), dependencies, done, nodes[j])
    {
      var id := nodes[i];
      if !(id in done) {
        done := done + {id};
      } else {
        done := done - {id};
      }
      ghost var was := old(done);
      Sync();
      forall j | 0 <= j < |nodes|
        ensures classLists[j] == Restyle(initial[j], dependencies, done, nodes[j])
      {
        RestyleOverrides(initial[j], dependencies, was, done, nodes[j]);
      }
    }
  }
}
