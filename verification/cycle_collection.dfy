/** collect_cycle of libanjuta/anjuta-plugin-manager.c: a search for the way back to a
    plugin that keeps no record of where it has been.  On some graphs it never comes
    back; the model has a stack of a given depth and says when it overflows. */
module CycleCollection {
  import opened Options
  import opened PluginGraph

  /** The search from `cur`: nothing if the stack overflows, an empty list if `base` is
      not found, else the plugins on the way to it. */
  function Collect(index: Index, base: PluginHandle, cur: PluginHandle, stack: nat): Option<seq<PluginHandle>>
    decreases stack, |cur.dependencyNames| + 1
  {
    if stack == 0 then None else CollectFrom(index, base, cur, 0, stack)
  }

  /** The search from the i-th dependency name on. */
  function CollectFrom(index: Index, base: PluginHandle, cur: PluginHandle, i: nat, stack: nat): Option<seq<PluginHandle>>
    requires stack > 0 && i <= |cur.dependencyNames|
    decreases stack, |cur.dependencyNames| - i
  {
    if i == |cur.dependencyNames| then Some([])
    else if cur.dependencyNames[i] !in index then CollectFrom(index, base, cur, i + 1, stack)
    else
      var dep := index[cur.dependencyNames[i]];
      if dep == base then Some([dep])
      else
        match Collect(index, base, dep, stack - 1)
        case None => None
        case Some(found) => if found == [] then CollectFrom(index, base, cur, i + 1, stack) else Some([dep] + found)
  }

  method CollectCycle(index: Index, base: PluginHandle, cur: PluginHandle, stack: nat) returns (cycle: Option<seq<PluginHandle>>)
    ensures cycle == Collect(index, base, cur, stack)
    decreases stack
  {
    if stack == 0 {
      return None;
    }
    var i := 0;
    while i < |cur.dependencyNames|
      invariant 0 <= i <= |cur.dependencyNames|
      invariant Collect(index, base, cur, stack) == CollectFrom(index, base, cur, i, stack)
    {
      if cur.dependencyNames[i] in index {
        var dep := index[cur.dependencyNames[i]];
        if dep == base {
          return Some([dep]);
        }
        var found := CollectCycle(index, base, dep, stack - 1);
        if found.None? {
          return None;
        }
        if found.value != [] {
          return Some([dep] + found.value);
        }
      }
      i := i + 1;
    }
    cycle := Some([]);
  }

  /** A list of plugins, each needed by the one before it, that ends in `base`. */
  ghost predicate Way(index: Index, base: PluginHandle, from: PluginHandle, way: seq<PluginHandle>)
    decreases way
  {
    way != [] && Edge(index, from, way[0]) && if |way| == 1 then way[0] == base else Way(index, base, way[0], way[1..])
  }

  /** A dependency goes through one of the names. */
  lemma LeadingName(index: Index, a: PluginHandle, b: PluginHandle) returns (j: nat)
    requires DependsOn(index, a, b)
    ensures j < |a.dependencyNames| && a.dependencyNames[j] in index
    ensures Leads(index, index[a.dependencyNames[j]], b) && b in {index[a.dependencyNames[j]]} + Closure(index, index[a.dependencyNames[j]])
  {
    var c := DependsFirst(index, a, b);
    var d :| d in a.dependencyNames && d in index && index[d] == c;
    j :| 0 <= j < |a.dependencyNames| && a.dependencyNames[j] == d;
    DependsIndexed(index, a, b);
  }

  /** What the search finds is a way, and it finds one if there is any. */
  lemma {:induction false} CollectFinds(index: Index, base: PluginHandle, cur: PluginHandle, stack: nat)
    requires Collect(index, base, cur, stack).Some?
    ensures var way := Collect(index, base, cur, stack).value;
            (way == [] <==> !DependsOn(index, cur, base)) && (way != [] ==> Way(index, base, cur, way))
    decreases stack, |cur.dependencyNames| + 1
  {
    CollectFromFinds(index, base, cur, 0, stack);
    if DependsOn(index, cur, base) {
      var j := LeadingName(index, cur, base);
    }
  }

  lemma {:induction false} CollectFromFinds(index: Index, base: PluginHandle, cur: PluginHandle, i: nat, stack: nat)
    requires stack > 0 && i <= |cur.dependencyNames| && CollectFrom(index, base, cur, i, stack).Some?
    ensures var way := CollectFrom(index, base, cur, i, stack).value;
            && (way != [] ==> Way(index, base, cur, way) && DependsOn(index, cur, base))
            && (way == [] ==> forall j | i <= j < |cur.dependencyNames| && cur.dependencyNames[j] in index ::
                               !Leads(index, index[cur.dependencyNames[j]], base))
    decreases stack, |cur.dependencyNames| - i
  {
    if i < |cur.dependencyNames| {
      var name := cur.dependencyNames[i];
      if name !in index {
        CollectFromFinds(index, base, cur, i + 1, stack);
      } else {
        var dep := index[name];
        assert Edge(index, cur, dep);
        EdgeDepends(index, cur, dep);
        if dep != base {
          CollectFinds(index, base, dep, stack - 1);
          var found := Collect(index, base, dep, stack - 1).value;
          if found == [] {
            CollectFromFinds(index, base, cur, i + 1, stack);
          } else {
            DependsTransitive(index, cur, dep, base);
            assert ([dep] + found)[1..] == found;
          }
        }
      }
    }
  }

  /** No cycle can be reached from a plugin. */
  ghost predicate CycleFree(index: Index, x: PluginHandle) {
    ({x} + Closure(index, x)) !! OnCycle(index)
  }

  /** The i-th dependency is the first that leads to `base`, and no cycle can be reached
      from the ones before it. */
  ghost predicate LeadsFirst(index: Index, base: PluginHandle, cur: PluginHandle, i: nat) {
    && i < |cur.dependencyNames|
    && cur.dependencyNames[i] in index && Leads(index, index[cur.dependencyNames[i]], base)
    && forall j | 0 <= j < i && cur.dependencyNames[j] in index ::
        !Leads(index, index[cur.dependencyNames[j]], base) && CycleFree(index, index[cur.dependencyNames[j]])
  }

  /** Always taking the first dependency that leads to `base` leads there within `n`
      steps, past nothing but dependencies from which no cycle can be reached. */
  ghost predicate StraightWay(index: Index, base: PluginHandle, cur: PluginHandle, n: nat)
    decreases n, 0
  {
    n > 0 && exists i: nat :: LeadsFirst(index, base, cur, i) && StraightOn(index, base, index[cur.dependencyNames[i]], n - 1)
  }

  ghost predicate StraightOn(index: Index, base: PluginHandle, next: PluginHandle, n: nat)
    decreases n, 1
  {
    next == base || StraightWay(index, base, next, n)
  }

  /** The graph lets a search from `cur` for `base` end. */
  ghost predicate Searchable(index: Index, base: PluginHandle, cur: PluginHandle) {
    if DependsOn(index, cur, base) then exists n: nat :: StraightWay(index, base, cur, n) else CycleFree(index, cur)
  }

  lemma CycleFreeBelow(index: Index, x: PluginHandle, y: PluginHandle)
    requires CycleFree(index, x) && DependsOn(index, x, y)
    ensures CycleFree(index, y) && y in index.Values && Closure(index, y) < Closure(index, x)
  {
    DependsIndexed(index, x, y);
    forall z | z in Closure(index, y)
      ensures z in Closure(index, x)
    {
      DependsTransitive(index, x, y, z);
    }
    assert y in Closure(index, x) && y !in OnCycle(index);
    ClosureShrinks(index, x, y);
  }

  /** A search below which there is no cycle ends, with or without success. */
  lemma {:induction false} CycleFreeEnds(index: Index, base: PluginHandle, cur: PluginHandle, stack: nat)
    requires CycleFree(index, cur) && stack > |Closure(index, cur)|
    ensures Collect(index, base, cur, stack).Some?
    decreases stack, |cur.dependencyNames| + 1
  {
    CycleFreeEndsFrom(index, base, cur, 0, stack);
  }

  lemma {:induction false} CycleFreeEndsFrom(index: Index, base: PluginHandle, cur: PluginHandle, i: nat, stack: nat)
    requires CycleFree(index, cur) && stack > |Closure(index, cur)| && i <= |cur.dependencyNames|
    ensures CollectFrom(index, base, cur, i, stack).Some?
    decreases stack, |cur.dependencyNames| - i
  {
    if i < |cur.dependencyNames| {
      CycleFreeEndsFrom(index, base, cur, i + 1, stack);
      var name := cur.dependencyNames[i];
      if name in index && index[name] != base {
        assert Edge(index, cur, index[name]);
        EdgeDepends(index, cur, index[name]);
        CycleFreeBelow(index, cur, index[name]);
        SubsetSmaller(Closure(index, index[name]), Closure(index, cur));
        CycleFreeEnds(index, base, index[name], stack - 1);
      }
    }
  }

  lemma {:induction false} SubsetSmallerOrEqual<T>(s: set<T>, t: set<T>)
    requires s <= t
    ensures |s| <= |t|
  {
    if s != t { SubsetSmaller(s, t); }
  }

  lemma {:induction false} StraightWayFrom(index: Index, base: PluginHandle, cur: PluginHandle, i: nat, j: nat, stack: nat)
    requires LeadsFirst(index, base, cur, i) && j <= i && stack > |index.Values| + 1
    requires var next := index[cur.dependencyNames[i]];
             next != base ==> Collect(index, base, next, stack - 1).Some? && Collect(index, base, next, stack - 1).value != []
    ensures var way := CollectFrom(index, base, cur, j, stack); way.Some? && way.value != []
    decreases i - j
  {
    if j < i {
      StraightWayFrom(index, base, cur, i, j + 1, stack);
      var name := cur.dependencyNames[j];
      if name in index {
        var dep := index[name];
        SubsetSmallerOrEqual(Closure(index, dep), index.Values);
        CycleFreeEnds(index, base, dep, stack - 1);
        CollectFinds(index, base, dep, stack - 1);
      }
    }
  }

  /** The stack that a straight way needs. */
  lemma {:induction false} StraightWayEnds(index: Index, base: PluginHandle, cur: PluginHandle, n: nat)
    requires StraightWay(index, base, cur, n)
    ensures var way := Collect(index, base, cur, n + |index.Values| + 1); way.Some? && way.value != []
    decreases n
  {
    var stack := n + |index.Values| + 1;
    var i: nat :| LeadsFirst(index, base, cur, i) && StraightOn(index, base, index[cur.dependencyNames[i]], n - 1);
    if index[cur.dependencyNames[i]] != base {
      StraightWayEnds(index, base, index[cur.dependencyNames[i]], n - 1);
    }
    StraightWayFrom(index, base, cur, i, 0, stack);
  }

  /** What the search has passed over has been searched. */
  lemma {:induction false} Searched(index: Index, base: PluginHandle, cur: PluginHandle, i: nat, j: nat, stack: nat)
    requires stack > 0 && i <= j < |cur.dependencyNames| && CollectFrom(index, base, cur, i, stack) == Some([])
    requires cur.dependencyNames[j] in index
    ensures Collect(index, base, index[cur.dependencyNames[j]], stack - 1).Some?
    decreases j - i
  {
    if i < j { Searched(index, base, cur, i + 1, j, stack); }
  }

  lemma CycleFreeAbove(index: Index, x: PluginHandle)
    requires forall j | 0 <= j < |x.dependencyNames| && x.dependencyNames[j] in index :: CycleFree(index, index[x.dependencyNames[j]])
    ensures CycleFree(index, x)
  {
    forall y | y in {x} + Closure(index, x)
      ensures y !in OnCycle(index)
    {
      if y in OnCycle(index) {
        assert DependsOn(index, x, y);
        var j := LeadingName(index, x, y);
      }
    }
  }

  /** A search that ends without finding `base` has seen all there is, so there is no
      cycle; one that ends with it has gone a straight way. */
  lemma {:induction false} EndsSearchable(index: Index, base: PluginHandle, cur: PluginHandle, stack: nat)
    requires Collect(index, base, cur, stack).Some?
    ensures Searchable(index, base, cur)
    ensures DependsOn(index, cur, base) ==> StraightWay(index, base, cur, stack)
    decreases stack, |cur.dependencyNames| + 1
  {
    CollectFinds(index, base, cur, stack);
    if DependsOn(index, cur, base) {
      var i := FirstLead(index, base, cur, 0, stack);
      assert StraightWay(index, base, cur, stack);
    } else {
      forall j | 0 <= j < |cur.dependencyNames| && cur.dependencyNames[j] in index
        ensures CycleFree(index, index[cur.dependencyNames[j]])
      {
        var dep := index[cur.dependencyNames[j]];
        assert Edge(index, cur, dep);
        EdgeDepends(index, cur, dep);
        if Leads(index, dep, base) && dep != base { DependsTransitive(index, cur, dep, base); }
        Searched(index, base, cur, 0, j, stack);
        EndsSearchable(index, base, dep, stack - 1);
      }
      CycleFreeAbove(index, cur);
    }
  }

  lemma {:induction false} FirstLead(index: Index, base: PluginHandle, cur: PluginHandle, j: nat, stack: nat) returns (i: nat)
    requires stack > 0 && j <= |cur.dependencyNames| && DependsOn(index, cur, base)
    requires forall k | 0 <= k < j && cur.dependencyNames[k] in index ::
               !Leads(index, index[cur.dependencyNames[k]], base) && CycleFree(index, index[cur.dependencyNames[k]])
    requires CollectFrom(index, base, cur, j, stack).Some?
    ensures LeadsFirst(index, base, cur, i) && StraightOn(index, base, index[cur.dependencyNames[i]], stack - 1)
    decreases stack, |cur.dependencyNames| - j
  {
    if j == |cur.dependencyNames| {
      var k := LeadingName(index, cur, base);
      assert false;
    } else if cur.dependencyNames[j] !in index {
      i := FirstLead(index, base, cur, j + 1, stack);
    } else {
      var dep := index[cur.dependencyNames[j]];
      if dep == base {
        i := j;
      } else {
        EndsSearchable(index, base, dep, stack - 1);
        CollectFinds(index, base, dep, stack - 1);
        if Leads(index, dep, base) {
          i := j;
        } else {
          i := FirstLead(index, base, cur, j + 1, stack);
        }
      }
    }
  }

  /** With some stack the search ends, exactly when the graph lets it. */
  lemma CollectEnds(index: Index, base: PluginHandle, cur: PluginHandle)
    ensures (exists stack :: Collect(index, base, cur, stack).Some?) <==> Searchable(index, base, cur)
  {
    if stack :| Collect(index, base, cur, stack).Some? {
      EndsSearchable(index, base, cur, stack);
    }
    if Searchable(index, base, cur) {
      if DependsOn(index, cur, base) {
        var n: nat :| StraightWay(index, base, cur, n);
        StraightWayEnds(index, base, cur, n);
      } else {
        CycleFreeEnds(index, base, cur, |Closure(index, cur)| + 1);
      }
    }
  }

  lemma {:induction false} StraightWayMore(index: Index, base: PluginHandle, cur: PluginHandle, n: nat, m: nat)
    requires StraightWay(index, base, cur, n) && n <= m
    ensures StraightWay(index, base, cur, m)
    decreases n
  {
    var i: nat :| LeadsFirst(index, base, cur, i) && StraightOn(index, base, index[cur.dependencyNames[i]], n - 1);
    if index[cur.dependencyNames[i]] != base {
      StraightWayMore(index, base, index[cur.dependencyNames[i]], n - 1, m - 1);
    }
  }

  /** One stack is deep enough for all cycles, if the graph lets each be collected. */
  lemma {:induction false} EnoughStack(index: Index, bases: set<PluginHandle>) returns (n: nat)
    requires forall w | w in bases :: DependsOn(index, w, w) && Searchable(index, w, w)
    ensures forall w | w in bases :: StraightWay(index, w, w, n)
    ensures forall w | w in bases :: Collect(index, w, w, n + |index.Values| + 1).Some?
    decreases bases
  {
    n := 0;
    if bases != {} {
      var b :| b in bases;
      var k: nat :| StraightWay(index, b, b, k);
      var m := EnoughStack(index, bases - {b});
      n := k + m;
      forall w | w in bases
        ensures StraightWay(index, w, w, n)
      {
        StraightWayMore(index, w, w, if w == b then k else m, n);
      }
    }
    forall w | w in bases
      ensures Collect(index, w, w, n + |index.Values| + 1).Some?
    {
      StraightWayEnds(index, w, w, n);
    }
  }

  /** A plugin on one cycle that needs, first, a plugin on another cycle: no stack is
      deep enough to find the way back to it. */
  lemma {:induction false} SideCycleOverflows(x: PluginHandle, y: PluginHandle, a: PluginHandle, b: PluginHandle, stack: nat)
    requires x.dependencyNames == ["a", "y"] && y.dependencyNames == ["x"]
    requires a.dependencyNames == ["b"] && b.dependencyNames == ["a"] && a != x && b != x
    ensures var index := map["x" := x, "y" := y, "a" := a, "b" := b];
            && Collect(index, x, x, stack) == None
            && Collect(index, x, a, stack) == None && Collect(index, x, b, stack) == None
    decreases stack
  {
    if stack > 0 {
      SideCycleOverflows(x, y, a, b, stack - 1);
    }
  }
}
