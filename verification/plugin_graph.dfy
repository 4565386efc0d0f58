/** Plugin handles and the dependency graph that their descriptions declare.

    A handle lists the ids of the plugins it needs.  Together with the index by
    id kept by the plugin manager this gives a directed graph, which never
    changes once the handles are built: everything in this module except the
    mutable tables of a handle is therefore independent of the heap. */
module PluginGraph {
  import opened PluginDescriptions

  /** libanjuta/anjuta-plugin-handle.c, the part used for resolution. */
  class PluginHandle {
    const id: string
    const dependencyNames: seq<string>
    const description: PluginDescription
    // Dense tables: every direct or indirect dependency, and the converse.
    var dependencies: set<PluginHandle>
    var dependents: set<PluginHandle>
    var canLoad: bool
    var canUnload: bool
    var checked: bool
    var resolvePass: int

    /** The state of a handle that no resolution has visited. */
    predicate Untouched()
      reads this
    {
      dependencies == {} && dependents == {} && !checked && resolvePass == -1
    }

    constructor (id: string, dependencyNames: seq<string>, description: PluginDescription)
      ensures this.id == id && this.dependencyNames == dependencyNames && this.description == description
      ensures Untouched() && canUnload
    {
      this.id, this.dependencyNames, this.description := id, dependencyNames, description;
      dependencies, dependents := {}, {};
      canLoad, canUnload := false, true;
      checked, resolvePass := false, -1;
    }
  }

  type Index = map<string, PluginHandle>

  /** `a` names `b` among its dependencies. */
  predicate Edge(index: Index, a: PluginHandle, b: PluginHandle) {
    exists d :: d in a.dependencyNames && d in index && index[d] == b
  }

  /** There is a path of exactly `n` edges from `a` to `b`. */
  ghost predicate Steps(index: Index, a: PluginHandle, b: PluginHandle, n: nat) {
    if n == 0 then a == b
    else exists c :: c in index.Values && Edge(index, a, c) && Steps(index, c, b, n - 1)
  }

  /** `b` is a direct or indirect dependency of `a`. */
  ghost predicate DependsOn(index: Index, a: PluginHandle, b: PluginHandle) {
    exists n: nat :: n >= 1 && Steps(index, a, b, n)
  }

  /** `a` is `b` or needs it. */
  ghost predicate Leads(index: Index, a: PluginHandle, b: PluginHandle) {
    a == b || DependsOn(index, a, b)
  }

  ghost function Closure(index: Index, a: PluginHandle): set<PluginHandle> {
    set x | x in index.Values && DependsOn(index, a, x)
  }

  ghost function OnCycle(index: Index): set<PluginHandle> {
    set x | x in index.Values && DependsOn(index, x, x)
  }

  ghost predicate Acyclic(index: Index) {
    OnCycle(index) == {}
  }

  lemma {:induction false} StepsAppend(index: Index, a: PluginHandle, b: PluginHandle, c: PluginHandle, m: nat, n: nat)
    requires Steps(index, a, b, m) && Steps(index, b, c, n)
    ensures Steps(index, a, c, m + n)
    decreases m
  {
    if m > 0 {
      var x :| x in index.Values && Edge(index, a, x) && Steps(index, x, b, m - 1);
      StepsAppend(index, x, b, c, m - 1, n);
    }
  }

  lemma EdgeDepends(index: Index, a: PluginHandle, b: PluginHandle)
    requires Edge(index, a, b)
    ensures DependsOn(index, a, b) && b in index.Values
  {
    assert Steps(index, b, b, 0);
    assert Steps(index, a, b, 1);
  }

  lemma DependsTransitive(index: Index, a: PluginHandle, b: PluginHandle, c: PluginHandle)
    requires DependsOn(index, a, b) && DependsOn(index, b, c)
    ensures DependsOn(index, a, c)
  {
    var m: nat :| m >= 1 && Steps(index, a, b, m);
    var n: nat :| n >= 1 && Steps(index, b, c, n);
    StepsAppend(index, a, b, c, m, n);
  }

  /** The first edge of a dependency. */
  lemma DependsFirst(index: Index, a: PluginHandle, b: PluginHandle) returns (c: PluginHandle)
    requires DependsOn(index, a, b)
    ensures Edge(index, a, c) && c in index.Values && Leads(index, c, b)
  {
    var n: nat :| n >= 1 && Steps(index, a, b, n);
    c :| c in index.Values && Edge(index, a, c) && Steps(index, c, b, n - 1);
    if n > 1 { assert n - 1 >= 1; }
  }

  lemma {:induction false} StepsIndexed(index: Index, a: PluginHandle, b: PluginHandle, n: nat)
    requires n >= 1 && Steps(index, a, b, n)
    ensures b in index.Values
    decreases n
  {
    var c :| c in index.Values && Edge(index, a, c) && Steps(index, c, b, n - 1);
    if n > 1 { StepsIndexed(index, c, b, n - 1); }
  }

  /** Everything a handle needs is one of the indexed handles. */
  lemma {:induction false} DependsIndexed(index: Index, a: PluginHandle, b: PluginHandle)
    requires DependsOn(index, a, b)
    ensures b in index.Values
  {
    var n: nat :| n >= 1 && Steps(index, a, b, n);
    StepsIndexed(index, a, b, n);
  }

  /** What one dependency name brings in. */
  ghost function Brought(index: Index, name: string): set<PluginHandle> {
    if name in index then {index[name]} + Closure(index, index[name]) else {}
  }

  /** What the first `i` dependency names of `a` bring in. */
  ghost function ClosureUpTo(index: Index, a: PluginHandle, i: nat): set<PluginHandle>
    requires i <= |a.dependencyNames|
  {
    set x | x in index.Values &&
            exists j :: 0 <= j < i && a.dependencyNames[j] in index && Leads(index, index[a.dependencyNames[j]], x)
  }

  lemma ClosureStep(index: Index, a: PluginHandle, i: nat)
    requires i < |a.dependencyNames|
    ensures ClosureUpTo(index, a, i + 1) == ClosureUpTo(index, a, i) + Brought(index, a.dependencyNames[i])
  {
    var d := a.dependencyNames[i];
    forall x | x in ClosureUpTo(index, a, i + 1)
      ensures x in ClosureUpTo(index, a, i) + Brought(index, d)
    {
      var j :| 0 <= j < i + 1 && a.dependencyNames[j] in index && Leads(index, index[a.dependencyNames[j]], x);
      if j == i { assert x in Brought(index, d); }
    }
    if d in index {
      forall x | x in Brought(index, d)
        ensures x in ClosureUpTo(index, a, i + 1)
      {
        assert Leads(index, index[a.dependencyNames[i]], x);
      }
    }
  }

  /** Following all dependency names yields exactly the transitive closure. */
  lemma ClosureComplete(index: Index, a: PluginHandle)
    ensures ClosureUpTo(index, a, |a.dependencyNames|) == Closure(index, a)
  {
    var n := |a.dependencyNames|;
    forall x | x in Closure(index, a)
      ensures x in ClosureUpTo(index, a, n)
    {
      var c := DependsFirst(index, a, x);
      var d :| d in a.dependencyNames && d in index && index[d] == c;
      var j :| 0 <= j < n && a.dependencyNames[j] == d;
    }
    forall x | x in ClosureUpTo(index, a, n)
      ensures x in Closure(index, a)
    {
      var j :| 0 <= j < n && a.dependencyNames[j] in index && Leads(index, index[a.dependencyNames[j]], x);
      var c := index[a.dependencyNames[j]];
      EdgeDepends(index, a, c);
      if x != c { DependsTransitive(index, a, c, x); }
    }
  }

  /** Following the last dependency name from handle to handle, `n` times,
      leads to a name that no handle has. */
  ghost predicate BlockedAfter(index: Index, a: PluginHandle, n: nat) {
    a.dependencyNames != [] &&
    var last := a.dependencyNames[|a.dependencyNames| - 1];
    if n == 0 then last !in index else last in index && BlockedAfter(index, index[last], n - 1)
  }

  ghost predicate Blocked(index: Index, a: PluginHandle) {
    exists n: nat :: BlockedAfter(index, a, n)
  }

  /** The verdict that the first `i` dependency names give: the last one decides. */
  ghost predicate Verdict(index: Index, a: PluginHandle, i: nat)
    requires i <= |a.dependencyNames|
  {
    i == 0 || (a.dependencyNames[i - 1] in index && !Blocked(index, index[a.dependencyNames[i - 1]]))
  }

  lemma VerdictComplete(index: Index, a: PluginHandle)
    ensures Verdict(index, a, |a.dependencyNames|) <==> !Blocked(index, a)
  {
    if a.dependencyNames != [] {
      var last := a.dependencyNames[|a.dependencyNames| - 1];
      if last !in index {
        assert BlockedAfter(index, a, 0);
      } else {
        if Blocked(index, index[last]) {
          var n: nat :| BlockedAfter(index, index[last], n);
          assert BlockedAfter(index, a, n + 1);
        }
        if Blocked(index, a) {
          var n: nat :| BlockedAfter(index, a, n);
          assert BlockedAfter(index, index[last], n - 1);
        }
      }
    }
  }

  predicate Known(index: Index, a: PluginHandle) {
    forall d | d in a.dependencyNames :: d in index
  }

  /** The verdict that is documented: every name that `a` or one of its
      dependencies lists belongs to a plugin. */
  ghost predicate Loadable(index: Index, a: PluginHandle) {
    && Known(index, a)
    && (forall x | x in Closure(index, a) :: Known(index, x))
  }

  predicate AllKnown(index: Index) {
    forall h | h in index.Values :: Known(index, h)
  }

  /** The last dependency of `a` can only be loaded if all of them can. */
  ghost predicate LastDecides(index: Index, a: PluginHandle) {
    a.dependencyNames != [] ==>
    var last := a.dependencyNames[|a.dependencyNames| - 1];
    last in index && Loadable(index, index[last]) ==>
    forall d | d in a.dependencyNames :: d in index && Loadable(index, index[d])
  }

  lemma LoadableStep(index: Index, a: PluginHandle)
    ensures Loadable(index, a) <==> forall d | d in a.dependencyNames :: d in index && Loadable(index, index[d])
  {
    if Loadable(index, a) {
      forall d | d in a.dependencyNames
        ensures d in index && Loadable(index, index[d])
      {
        EdgeDepends(index, a, index[d]);
        forall x | x in Closure(index, index[d])
          ensures Known(index, x)
        {
          DependsTransitive(index, a, index[d], x);
        }
      }
    }
    if forall d | d in a.dependencyNames :: d in index && Loadable(index, index[d]) {
      forall x | x in Closure(index, a)
        ensures Known(index, x)
      {
        var c := DependsFirst(index, a, x);
      }
    }
  }

  lemma SubsetSmaller<T>(s: set<T>, t: set<T>)
    requires s < t
    ensures |s| < |t|
  {
    assert |t| == |s| + |t - s| by { assert t == s + (t - s); }
    assert t - s != {};
  }

  /** In an acyclic graph the closure of a dependency is strictly smaller. */
  lemma ClosureShrinks(index: Index, a: PluginHandle, b: PluginHandle)
    requires DependsOn(index, a, b) && !DependsOn(index, b, b)
    ensures Closure(index, b) < Closure(index, a)
    ensures |Closure(index, b)| < |Closure(index, a)|
  {
    forall x | x in Closure(index, b)
      ensures x in Closure(index, a)
    {
      DependsTransitive(index, a, b, x);
    }
    DependsIndexed(index, a, b);
    assert b in Closure(index, a) && b !in Closure(index, b);
    SubsetSmaller(Closure(index, b), Closure(index, a));
  }

  lemma {:induction false} VerdictByDescent(index: Index, h: PluginHandle)
    requires Acyclic(index) && h in index.Values
    requires forall x | x in index.Values :: LastDecides(index, x)
    ensures !Blocked(index, h) <==> Loadable(index, h)
    decreases |Closure(index, h)|
  {
    VerdictComplete(index, h);
    LoadableStep(index, h);
    if h.dependencyNames != [] {
      var last := h.dependencyNames[|h.dependencyNames| - 1];
      if last in index {
        EdgeDepends(index, h, index[last]);
        assert index[last] !in OnCycle(index);
        ClosureShrinks(index, h, index[last]);
        VerdictByDescent(index, index[last]);
      }
    }
  }

  /** In an acyclic graph, the recorded verdict of every plugin is the documented
      one exactly if no plugin has a loadable last dependency and an unloadable
      earlier one. */
  lemma VerdictIsDocumented(index: Index)
    requires Acyclic(index)
    ensures (forall h | h in index.Values :: !Blocked(index, h) <==> Loadable(index, h)) <==>
            (forall h | h in index.Values :: LastDecides(index, h))
  {
    if forall h | h in index.Values :: !Blocked(index, h) <==> Loadable(index, h) {
      forall h | h in index.Values
        ensures LastDecides(index, h)
      {
        VerdictComplete(index, h);
        LoadableStep(index, h);
      }
    }
    if forall h | h in index.Values :: LastDecides(index, h) {
      forall h | h in index.Values
        ensures !Blocked(index, h) <==> Loadable(index, h)
      {
        VerdictByDescent(index, h);
      }
    }
  }

  /** A missing dependency followed by a good one goes unnoticed. */
  lemma VerdictOverlooksMissing(a: PluginHandle, b: PluginHandle)
    requires a.dependencyNames == ["missing", "b"] && b.dependencyNames == []
    ensures var index := map["a" := a, "b" := b]; !Blocked(index, a) && !Loadable(index, a)
  {
    var index := map["a" := a, "b" := b];
    VerdictComplete(index, b);
    VerdictComplete(index, a);
    assert "missing" in a.dependencyNames;
    assert "missing"[0] != "a"[0] && "missing"[0] != "b"[0];
  }

  lemma {:induction false} KnownNotBlockedAfter(index: Index, h: PluginHandle, n: nat)
    requires AllKnown(index) && h in index.Values
    ensures !BlockedAfter(index, h, n)
    decreases n
  {
    if h.dependencyNames != [] {
      var last := h.dependencyNames[|h.dependencyNames| - 1];
      assert Known(index, h) && last in h.dependencyNames;
      if n > 0 { KnownNotBlockedAfter(index, index[last], n - 1); }
    }
  }

  /** Without unknown names every plugin can be loaded. */
  lemma KnownNotBlocked(index: Index, h: PluginHandle)
    requires AllKnown(index) && h in index.Values
    ensures !Blocked(index, h)
  {
    if Blocked(index, h) {
      var n: nat :| BlockedAfter(index, h, n);
      KnownNotBlockedAfter(index, h, n);
    }
  }
}
