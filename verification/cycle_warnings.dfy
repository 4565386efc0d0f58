/** Which cycles the dependency search of libanjuta/anjuta-plugin-manager.c warns of, as a
    function of the graph and the order of the plugins: the search on sets of handles, as
    if every cycle could be collected. */
module CycleWarnings {
  import opened CycleCollection
  import opened Options
  import opened PluginGraph

  /** The handle that is warned of, if any, and what is checked afterwards. */
  datatype Found = Found(warned: Option<PluginHandle>, checked: set<PluginHandle>)

  /** The search from a handle.  A handle that is met again while it is open is warned of,
      and the handles on the way to it are given up as checked. */
  function Search(index: Index, p: PluginHandle, open: set<PluginHandle>, checked: set<PluginHandle>): (r: Found)
    requires p in index.Values
    ensures checked <= r.checked
    decreases index.Values - open - checked, 0, 0
  {
    if p in checked then Found(None, checked)
    else if p in open then Found(Some(p), checked)
    else
      assert p in index.Values - open - checked && p !in index.Values - (open + {p}) - checked;
      var r := SearchFrom(index, p, 0, open + {p}, checked);
      Found(r.warned, r.checked + {p})
  }

  /** The search from the i-th dependency name of an open handle on. */
  function SearchFrom(index: Index, p: PluginHandle, i: nat, open: set<PluginHandle>, checked: set<PluginHandle>): (r: Found)
    requires i <= |p.dependencyNames|
    ensures checked <= r.checked
    decreases index.Values - open - checked, 1, |p.dependencyNames| - i
  {
    if i == |p.dependencyNames| then Found(None, checked)
    else if p.dependencyNames[i] !in index then SearchFrom(index, p, i + 1, open, checked)
    else
      var r := Search(index, index[p.dependencyNames[i]], open, checked);
      if r.warned.Some? then r
      else
        assert index.Values - open - r.checked <= index.Values - open - checked;
        SearchFrom(index, p, i + 1, open, r.checked)
  }

  function Listed(warned: Option<PluginHandle>): seq<PluginHandle> {
    if warned.Some? then [warned.value] else []
  }

  /** The warnings of the passes from the l-th plugin on. */
  function Warnings(index: Index, available: seq<PluginHandle>, l: nat, checked: set<PluginHandle>): seq<PluginHandle>
    requires l <= |available| && forall h | h in available :: h in index.Values
    decreases |available| - l
  {
    if l == |available| then []
    else
      var r := Search(index, available[l], {}, checked);
      Listed(r.warned) + Warnings(index, available, l + 1, r.checked)
  }

  /** Every cycle that is warned of can be collected on a stack of the given depth. */
  ghost predicate Collectable(index: Index, available: seq<PluginHandle>, stack: nat)
    requires forall h | h in available :: h in index.Values
  {
    forall w | w in Warnings(index, available, 0, {}) :: Collect(index, w, w, stack).Some?
  }

  /** The first dependency leads on. */
  lemma SearchFirst(index: Index, p: PluginHandle, open: set<PluginHandle>, checked: set<PluginHandle>)
    requires p in index.Values && p !in checked && p !in open
    requires p.dependencyNames != [] && p.dependencyNames[0] in index
    ensures var r := Search(index, index[p.dependencyNames[0]], open + {p}, checked);
            Search(index, p, open, checked) ==
            if r.warned.Some? then Found(r.warned, r.checked + {p})
            else var s := SearchFrom(index, p, 1, open + {p}, r.checked); Found(s.warned, s.checked + {p})
  {
  }

  /** A plugin whose first dependency is checked and whose second one needs it is warned of. */
  lemma FollowedByBack(index: Index, x: PluginHandle, y: PluginHandle, checked: set<PluginHandle>)
    requires x in index.Values && x !in checked && y !in checked && x != y
    requires |x.dependencyNames| == 2 && x.dependencyNames[0] in index && index[x.dependencyNames[0]] in checked
    requires x.dependencyNames[1] in index && index[x.dependencyNames[1]] == y
    requires y.dependencyNames != [] && y.dependencyNames[0] in index && index[y.dependencyNames[0]] == x
    ensures Search(index, x, {}, checked) == Found(Some(x), checked + {y} + {x})
  {
    var open: set<PluginHandle> := {};
    SearchFirst(index, x, {}, checked);
    SearchFirst(index, y, open + {x}, checked);
    assert Search(index, x, open + {x} + {y}, checked) == Found(Some(x), checked);
    assert Search(index, y, open + {x}, checked) == Found(Some(x), checked + {y});
    assert SearchFrom(index, x, 1, open + {x}, checked) == Found(Some(x), checked + {y});
  }

  /** On the graph of SideCycleOverflows, with the side cycle first in the list, `a` and
      then `x` are warned of; so resolution ends with no stack. */
  lemma SideCycleWarned(x: PluginHandle, y: PluginHandle, a: PluginHandle, b: PluginHandle, stack: nat)
    requires x.dependencyNames == ["a", "y"] && y.dependencyNames == ["x"]
    requires a.dependencyNames == ["b"] && b.dependencyNames == ["a"]
    ensures var index, available := map["x" := x, "y" := y, "a" := a, "b" := b], [a, b, x, y];
            && (forall h | h in available :: h in index.Values)
            && Warnings(index, available, 0, {}) == [a, x] && !Collectable(index, available, stack)
  {
    var index, available := map["x" := x, "y" := y, "a" := a, "b" := b], [a, b, x, y];
    assert index["x"] == x && index["y"] == y && index["a"] == a && index["b"] == b;
    var none: set<PluginHandle> := {};
    assert none + {a} == {a} && none + {x} == {x} && {b} + {a} == {b, a} && {b, a} + {y} + {x} == {b, a, y, x};
    SearchFirst(index, a, {}, {});
    SearchFirst(index, b, {a}, {});
    assert Search(index, a, {a} + {b}, {}) == Found(Some(a), {});
    assert Search(index, b, {a}, {}) == Found(Some(a), none + {b});
    assert none + {b} == {b};
    assert Search(index, a, {}, {}) == Found(Some(a), {b, a});
    assert Search(index, b, {}, {b, a}) == Found(None, {b, a});
    FollowedByBack(index, x, y, {b, a});
    assert Search(index, x, {}, {b, a}) == Found(Some(x), {b, a, y, x});
    var all := {b, a, y, x};
    assert Search(index, y, {}, all) == Found(None, all);
    assert Warnings(index, available, 3, all) == Warnings(index, available, 4, all) == [];
    assert Warnings(index, available, 2, {b, a}) == [x] + [];
    assert Warnings(index, available, 1, {b, a}) == [] + [x];
    assert Warnings(index, available, 0, {}) == [a] + [x];
    SideCycleOverflows(x, y, a, b, stack);
    assert x in Warnings(index, available, 0, {});
  }
}
