/**
 * The dependency index of convert.py: every authored chain is cut into
 * consecutive pairs, each stored as (target, source); the pairs are sorted,
 * grouped by target with `itertools.groupby`, and a dict comprehension maps
 * each target to the sources in its group.
 */
module Dependencies {
  import opened Order
  import opened Sorting

  /** `zip(edge, edge[1:])` over one chain, each pair stored as `(right, left)`. */
  function ChainPairs(c: seq<string>): (r: seq<Pair>)
    ensures |r| == if c == [] then 0 else |c| - 1
    ensures forall i :: 0 <= i < |r| ==> r[i] == (c[i + 1], c[i])
  {
    if |c| < 2 then [] else [(c[1], c[0])] + ChainPairs(c[1..])
  }

  /** The generator over all chains, chain by chain in authored order. */
  function AllPairs(edges: seq<seq<string>>): (r: seq<Pair>)
    ensures forall c, i :: c in edges && 0 <= i < |c| - 1 ==> (c[i + 1], c[i]) in r
  {
    if edges == [] then [] else ChainPairs(edges[0]) + AllPairs(edges[1..])
  }

  /** Some chain has `p.1` immediately followed by `p.0`. */
  ghost predicate Link(edges: seq<seq<string>>, p: Pair)
  {
    exists c, i :: c in edges && 0 <= i < |c| - 1 && c[i + 1] == p.0 && c[i] == p.1
  }

  /** The pair list holds exactly the swapped consecutive pairs of the chains. */
  lemma {:induction false} AllPairsMembers(edges: seq<seq<string>>, p: Pair)
    ensures p in AllPairs(edges) <==> Link(edges, p)
  {
    if edges != [] {
      var c := edges[0];
      var cp := ChainPairs(c);
      assert AllPairs(edges) == cp + AllPairs(edges[1..]);
      AllPairsMembers(edges[1..], p);
      if p in cp {
        var i :| 0 <= i < |cp| && cp[i] == p;
        assert c in edges && c[i + 1] == p.0 && c[i] == p.1;
      }
      if Link(edges[1..], p) {
        var d, i :| d in edges[1..] && 0 <= i < |d| - 1 && d[i + 1] == p.0 && d[i] == p.1;
        assert d in edges;
      }
      if Link(edges, p) {
        var d, i :| d in edges && 0 <= i < |d| - 1 && d[i + 1] == p.0 && d[i] == p.1;
        if d == c {
          assert cp[i] == p;
        } else {
          assert d in edges[1..];
        }
      }
    }
  }

  /** The sorted pair list, `edges` at convert.py line 113. */
  function SortedPairs(edges: seq<seq<string>>): (r: seq<Pair>)
    ensures Sorted(r)
    ensures multiset(r) == multiset(AllPairs(edges))
  {
    SortPairs(AllPairs(edges))
  }

  /** The targets occurring in a pair list. */
  function Targets(s: seq<Pair>): set<string>
  {
    set p | p in s :: p.0
  }

  /** The sources paired with target `k`, in list order: what the index should hold for `k`. */
  function SourcesOf(s: seq<Pair>, k: string): seq<string>
  {
    if s == [] then [] else (if s[0].0 == k then [s[0].1] else []) + SourcesOf(s[1..], k)
  }

  lemma {:induction false} SourcesAppend(a: seq<Pair>, b: seq<Pair>, k: string)
    ensures SourcesOf(a + b, k) == SourcesOf(a, k) + SourcesOf(b, k)
  {
    if a != [] {
      assert (a + b)[0] == a[0] && (a + b)[1..] == a[1..] + b;
      SourcesAppend(a[1..], b, k);
      var h := if a[0].0 == k then [a[0].1] else [];
      assert SourcesOf(a + b, k) == h + SourcesOf(a[1..] + b, k);
      assert SourcesOf(a, k) == h + SourcesOf(a[1..], k);
    } else {
      assert a + b == b;
    }
  }

  /** Each source occurs in `SourcesOf(s, k)` as often as its pair with `k` occurs in `s`. */
  lemma {:induction false} SourcesCount(s: seq<Pair>, k: string, x: string)
    ensures multiset(SourcesOf(s, k))[x] == multiset(s)[(k, x)]
  {
    if s != [] {
      SourcesCount(s[1..], k, x);
      assert s == [s[0]] + s[1..];
    }
  }

  lemma SourcesMember(s: seq<Pair>, k: string, x: string)
    ensures x in SourcesOf(s, k) <==> (k, x) in s
  {
  }

  lemma {:induction false} SourcesAbsent(s: seq<Pair>, k: string)
    requires k !in Targets(s)
    ensures SourcesOf(s, k) == []
  {
    if s != [] {
      assert s[0] in s;
      SourcesAbsent(s[1..], k);
    }
  }

  /** Strings in Python's ascending order. */
  predicate StrSorted(r: seq<string>)
  {
    forall i, j :: 0 <= i < j < |r| ==> StrLe(r[i], r[j])
  }

  /** In a sorted pair list, the sources of any one target come out ascending. */
  lemma {:induction false} SourcesSorted(s: seq<Pair>, k: string)
    requires Sorted(s)
    ensures StrSorted(SourcesOf(s, k))
  {
    if s != [] {
      var rest := SourcesOf(s[1..], k);
      SourcesSorted(s[1..], k);
      if s[0].0 == k {
        forall j | 0 <= j < |rest|
          ensures StrLe(s[0].1, rest[j])
        {
          assert rest[j] in rest;
          SourcesMember(s[1..], k, rest[j]);
          var m :| 0 <= m < |s[1..]| && s[1..][m] == (k, rest[j]);
          assert PairLe(s[0], s[m + 1]);
        }
      }
    }
  }

  /** The length of the leading run of pairs whose target is `k`. */
  function RunLength(s: seq<Pair>, k: string): (n: nat)
    ensures n <= |s|
    ensures forall i :: 0 <= i < n ==> s[i].0 == k
    ensures n < |s| ==> s[n].0 != k
  {
    if s == [] || s[0].0 != k then 0 else 1 + RunLength(s[1..], k)
  }

  /** One `(key, group)` item yielded by `itertools.groupby`. */
  datatype Group = Group(key: string, items: seq<Pair>)

  /** The groups' items, one after the other. */
  function Concat(gs: seq<Group>): seq<Pair>
  {
    if gs == [] then [] else gs[0].items + Concat(gs[1..])
  }

  /** `groupby(s, key=lambda a: a[0])`: the maximal runs of pairs with one target. */
  function GroupBy(s: seq<Pair>): (gs: seq<Group>)
    ensures Concat(gs) == s
    ensures forall g :: g in gs ==> g.items != [] && forall p :: p in g.items ==> p.0 == g.key
    ensures forall i :: 0 <= i < |gs| - 1 ==> gs[i].key != gs[i + 1].key
    ensures s != [] ==> gs != [] && gs[0].key == s[0].0
    decreases |s|
  {
    if s == [] then
      []
    else
      var n := RunLength(s, s[0].0);
      assert s == s[..n] + s[n..];
      [Group(s[0].0, s[..n])] + GroupBy(s[n..])
  }

  /** `[r for l, r in lst]`: the second components of a group. */
  function Seconds(items: seq<Pair>): (r: seq<string>)
    ensures |r| == |items|
    ensures forall i :: 0 <= i < |r| ==> r[i] == items[i].1
  {
    if items == [] then [] else [items[0].1] + Seconds(items[1..])
  }

  /** The dict comprehension over the groups: a later group with the same key overwrites an earlier one. */
  function DictOf(gs: seq<Group>): (m: map<string, seq<string>>)
    ensures m.Keys == set g | g in gs :: g.key
  {
    if gs == [] then map[] else map[gs[0].key := Seconds(gs[0].items)] + DictOf(gs[1..])
  }

  /** A key's value comes from the last group that carries that key. */
  lemma {:induction false} DictOfLastWins(gs: seq<Group>, i: nat)
    requires i < |gs|
    requires forall j :: i < j < |gs| ==> gs[j].key != gs[i].key
    ensures DictOf(gs)[gs[i].key] == Seconds(gs[i].items)
  {
    var rest := DictOf(gs[1..]);
    if i == 0 {
      assert gs[0].key !in rest;
    } else {
      assert gs[1..][i - 1] == gs[i];
      DictOfLastWins(gs[1..], i - 1);
      assert gs[i] in gs[1..];
    }
  }

  /** `dependencies` at convert.py line 117. */
  function DependencyIndex(edges: seq<seq<string>>): map<string, seq<string>>
  {
    DictOf(GroupBy(SortedPairs(edges)))
  }

  /** Within a run of one target, the group's sources are that target's sources, and no other's. */
  lemma {:induction false} SourcesOfRun(items: seq<Pair>, k: string, x: string)
    requires forall p :: p in items ==> p.0 == k
    ensures SourcesOf(items, x) == if x == k then Seconds(items) else []
  {
    if items != [] {
      assert items[0] in items;
      SourcesOfRun(items[1..], k, x);
    }
  }

  /** In a sorted list, the target of the first pair does not recur after its run. */
  lemma RunIsWhole(s: seq<Pair>)
    requires Sorted(s) && s != []
    ensures s[0].0 !in Targets(s[RunLength(s, s[0].0)..])
  {
    var k := s[0].0;
    var n := RunLength(s, k);
    var t := s[n..];
    if k in Targets(t) {
      var j :| 0 <= j < |t| && t[j].0 == k;
      assert j != 0;
      PairLeTargets(s[0], s[n]);
      PairLeTargets(s[n], s[n + j]);
      StrLeAntisym(k, s[n].0);
    }
  }

  /** Splitting off the leading run: the targets and the sources of each target. */
  lemma SplitRun(s: seq<Pair>, x: string)
    requires s != []
    ensures var n := RunLength(s, s[0].0);
      && Targets(s) == {s[0].0} + Targets(s[n..])
      && SourcesOf(s, x) == (if x == s[0].0 then Seconds(s[..n]) else []) + SourcesOf(s[n..], x)
  {
    var k := s[0].0;
    var n := RunLength(s, k);
    var run, t := s[..n], s[n..];
    assert s == run + t;
    assert Targets(run) == {k} by {
      assert run[0] == s[0];
    }
    assert Targets(s) == Targets(run) + Targets(t);
    SourcesAppend(run, t, x);
    SourcesOfRun(run, k, x);
  }

  lemma GroupByUnfold(s: seq<Pair>)
    requires s != []
    ensures var n := RunLength(s, s[0].0);
      GroupBy(s) == [Group(s[0].0, s[..n])] + GroupBy(s[n..])
  {
  }

  lemma DictOfCons(g: Group, gs: seq<Group>)
    ensures DictOf([g] + gs) == map[g.key := Seconds(g.items)] + DictOf(gs)
  {
    assert ([g] + gs)[1..] == gs;
  }

  lemma SortedSuffix(s: seq<Pair>, n: nat)
    requires Sorted(s) && n <= |s|
    ensures Sorted(s[n..])
  {
  }

  /** One step of the grouping: the leading run becomes the first entry of the dict comprehension. */
  lemma GroupStep(s: seq<Pair>)
    requires Sorted(s) && s != []
    ensures var n := RunLength(s, s[0].0);
      && Sorted(s[n..])
      && DictOf(GroupBy(s)) == map[s[0].0 := Seconds(s[..n])] + DictOf(GroupBy(s[n..]))
  {
    var n := RunLength(s, s[0].0);
    GroupByUnfold(s);
    DictOfCons(Group(s[0].0, s[..n]), GroupBy(s[n..]));
    SortedSuffix(s, n);
  }

  /** The entry for `x` after the run's group is put in front of an index of the rest. */
  lemma StepValue(k: string, run: seq<Pair>, t: seq<Pair>, rest: map<string, seq<string>>, x: string)
    requires forall p :: p in run ==> p.0 == k
    requires k !in Targets(t)
    requires rest.Keys == Targets(t) && (x in rest ==> rest[x] == SourcesOf(t, x))
    requires x == k || x in rest
    ensures (map[k := Seconds(run)] + rest)[x] == SourcesOf(run + t, x)
  {
    SourcesAppend(run, t, x);
    SourcesOfRun(run, k, x);
    if x == k {
      SourcesAbsent(t, k);
    }
  }

  /** Putting the run's group in front of an index of the rest gives an index of the whole list. */
  lemma StepMap(k: string, run: seq<Pair>, t: seq<Pair>, rest: map<string, seq<string>>)
    requires forall p :: p in run ==> p.0 == k
    requires k !in Targets(t)
    requires rest.Keys == Targets(t)
    requires forall x :: x in rest ==> rest[x] == SourcesOf(t, x)
    ensures (map[k := Seconds(run)] + rest).Keys == {k} + Targets(t)
    ensures forall x :: x in {k} + Targets(t) ==> (map[k := Seconds(run)] + rest)[x] == SourcesOf(run + t, x)
  {
    forall x | x in {k} + Targets(t)
      ensures (map[k := Seconds(run)] + rest)[x] == SourcesOf(run + t, x)
    {
      StepValue(k, run, t, rest, x);
    }
  }

  /** Grouping a sorted list yields one group per target, holding exactly that target's sources. */
  lemma {:induction false} IndexOfSorted(s: seq<Pair>)
    requires Sorted(s)
    ensures DictOf(GroupBy(s)).Keys == Targets(s)
    ensures forall k :: k in Targets(s) ==> DictOf(GroupBy(s))[k] == SourcesOf(s, k)
    decreases |s|
  {
    if s != [] {
      var k := s[0].0;
      var n := RunLength(s, k);
      var run, t := s[..n], s[n..];
      assert s == run + t;
      GroupStep(s);
      RunIsWhole(s);
      SplitRun(s, k);
      IndexOfSorted(t);
      StepMap(k, run, t, DictOf(GroupBy(t)));
    }
  }

  /** The index has an entry for exactly the nodes that end some consecutive pair of a chain. */
  lemma IndexKeys(edges: seq<seq<string>>, k: string)
    ensures k in DependencyIndex(edges) <==> exists x :: Link(edges, (k, x))
  {
    var s := SortedPairs(edges);
    IndexOfSorted(s);
    if k in DependencyIndex(edges) {
      var p :| p in s && p.0 == k;
      assert p in multiset(AllPairs(edges));
      AllPairsMembers(edges, p);
    }
    if exists x :: Link(edges, (k, x)) {
      var x :| Link(edges, (k, x));
      AllPairsMembers(edges, (k, x));
      assert (k, x) in multiset(s);
      assert k in Targets(s);
    }
  }

  /** An entry of the index lists its sources in ascending order, not in authored order. */
  lemma IndexSourcesAscending(edges: seq<seq<string>>, k: string)
    requires k in DependencyIndex(edges)
    ensures StrSorted(DependencyIndex(edges)[k])
  {
    var s := SortedPairs(edges);
    IndexOfSorted(s);
    SourcesSorted(s, k);
  }

  /** An entry of the index repeats a source once per occurrence of that edge in the chains. */
  lemma IndexSourcesCount(edges: seq<seq<string>>, k: string, x: string)
    requires k in DependencyIndex(edges)
    ensures multiset(DependencyIndex(edges)[k])[x] == multiset(AllPairs(edges))[(k, x)]
  {
    var s := SortedPairs(edges);
    IndexOfSorted(s);
    SourcesCount(s, k, x);
  }

  /** A source is listed for `k` exactly when some chain has it immediately before `k`. */
  lemma IndexSourcesMembers(edges: seq<seq<string>>, k: string, x: string)
    requires k in DependencyIndex(edges)
    ensures x in DependencyIndex(edges)[k] <==> Link(edges, (k, x))
  {
    IndexSourcesCount(edges, k, x);
    AllPairsMembers(edges, (k, x));
  }

  /** No entry of the index is empty, so `|| []` on the page only serves nodes missing from it. */
  lemma IndexEntriesNonEmpty(edges: seq<seq<string>>, k: string)
    requires k in DependencyIndex(edges)
    ensures DependencyIndex(edges)[k] != []
  {
    IndexKeys(edges, k);
    var x :| Link(edges, (k, x));
    IndexSourcesMembers(edges, k, x);
  }

  lemma ExampleAllPairs(edges: seq<seq<string>>)
    requires edges == [["A", "B"], ["B", "C"], ["A", "C"]]
    ensures AllPairs(edges) == [("B", "A"), ("C", "B"), ("C", "A")]
  {
    var e1, e2 := edges[1..], edges[2..];
    assert e1[1..] == e2 && e2[1..] == [];
    assert ChainPairs(edges[0]) == [("B", "A")];
    assert ChainPairs(edges[1]) == [("C", "B")];
    assert ChainPairs(edges[2]) == [("C", "A")];
    assert AllPairs(e2) == [("C", "A")];
    assert AllPairs(e1) == [("C", "B"), ("C", "A")];
  }

  lemma ExampleSorted(r: seq<Pair>)
    requires r == [("B", "A"), ("C", "A"), ("C", "B")]
    ensures Sorted(r)
  {
  }

  /** The chains A→B, B→C and A→C sort into B←A, C←A, C←B. */
  lemma ExampleSortedPairs(edges: seq<seq<string>>, r: seq<Pair>)
    requires edges == [["A", "B"], ["B", "C"], ["A", "C"]]
    requires r == [("B", "A"), ("C", "A"), ("C", "B")]
    ensures SortedPairs(edges) == r
  {
    ExampleAllPairs(edges);
    ExampleSorted(r);
    assert multiset(r) == multiset(AllPairs(edges));
    SortPairsIsTheSortedPermutation(AllPairs(edges), r);
  }

  lemma ExampleSources(r: seq<Pair>)
    requires r == [("B", "A"), ("C", "A"), ("C", "B")]
    ensures Targets(r) == {"B", "C"}
    ensures SourcesOf(r, "B") == ["A"]
    ensures SourcesOf(r, "C") == ["A", "B"]
  {
    assert "B" != "C" by {
      assert "B"[0] != "C"[0];
    }
    var r1, r2 := r[1..], r[2..];
    assert r1[1..] == r2 && r2[1..] == [];
    assert r2[0] == ("C", "B") && r1[0] == ("C", "A");
    assert SourcesOf(r2[1..], "B") == [] && SourcesOf(r2[1..], "C") == [];
    assert SourcesOf(r2, "B") == [] && SourcesOf(r2, "C") == ["B"];
    assert SourcesOf(r1, "B") == [] && SourcesOf(r1, "C") == ["A", "B"];
    assert r[0] in r && r[1] in r;
  }

  lemma ExamplePairFacts(edges: seq<seq<string>>)
    requires edges == [["A", "B"], ["B", "C"], ["A", "C"]]
    ensures Targets(SortedPairs(edges)) == {"B", "C"}
    ensures SourcesOf(SortedPairs(edges), "B") == ["A"]
    ensures SourcesOf(SortedPairs(edges), "C") == ["A", "B"]
  {
    var r := [("B", "A"), ("C", "A"), ("C", "B")];
    ExampleSortedPairs(edges, r);
    ExampleSources(r);
  }

  /** The chains A→B, B→C and A→C: C's sources come out as [A, B], ascending, not in authored order. */
  lemma IndexExample(edges: seq<seq<string>>)
    requires edges == [["A", "B"], ["B", "C"], ["A", "C"]]
    ensures DependencyIndex(edges) == map["B" := ["A"], "C" := ["A", "B"]]
  {
    var want := map["B" := ["A"], "C" := ["A", "B"]];
    ExamplePairFacts(edges);
    assert want.Keys == {"B", "C"};
    assert want["B"] == ["A"] && want["C"] == ["A", "B"];
    IndexFrom(edges, SortedPairs(edges), want);
  }

  /** The index is fixed by the sorted pairs' targets and their sources. */
  lemma IndexFrom(edges: seq<seq<string>>, r: seq<Pair>, want: map<string, seq<string>>)
    requires SortedPairs(edges) == r
    requires want.Keys == Targets(r)
    requires forall k :: k in want ==> want[k] == SourcesOf(r, k)
    ensures DependencyIndex(edges) == want
  {
    var m := DictOf(GroupBy(r));
    IndexOfSorted(r);
    SameEntries(m, want);
  }

  lemma SameEntries(m: map<string, seq<string>>, want: map<string, seq<string>>)
    requires m.Keys == want.Keys
    requires forall k :: k in m ==> m[k] == want[k]
    ensures m == want
  {
  }
}
