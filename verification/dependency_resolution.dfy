/** Dependency resolution of libanjuta/anjuta-plugin-manager.c: a depth-first
    search that marks handles in place and builds their dense dependency
    tables, followed by the sort that yields the load order.

    A handle is unvisited (pass -1), open (a pass number, not checked) or
    checked.  `warned` collects the handles of the "cycle found" warnings. */
module DependencyResolution {
  import opened CycleCollection
  import opened CycleWarnings
  import opened Options
  import opened PluginGraph
  import ListSort
  import opened Sequences

  ghost predicate Open(h: PluginHandle)
    reads h`checked, h`resolvePass
  {
    !h.checked && h.resolvePass != -1
  }

  ghost function OpenOnes(index: Index): set<PluginHandle>
    reads index.Values`checked, index.Values`resolvePass
  {
    set h | h in index.Values && Open(h)
  }

  ghost function Unvisited(index: Index): set<PluginHandle>
    reads index.Values`resolvePass
  {
    set h | h in index.Values && h.resolvePass == -1
  }

  /** The dependents tables are the converse of the dependencies tables. */
  ghost predicate Mirrored(index: Index)
    reads index.Values
  {
    && (forall a | a in index.Values :: a.dependencies <= index.Values && a.dependents <= index.Values)
    && (forall a, b | a in index.Values && b in index.Values :: b in a.dependencies <==> a in b.dependents)
  }

  /** What holds between any two steps of the search in pass `pass`. */
  ghost predicate Searching(index: Index, pass: int)
    reads index.Values
  {
    && Mirrored(index)
    && (forall h | h in index.Values ::
          && (h.checked ==> h.resolvePass != -1)
          && (Open(h) ==> h.resolvePass == pass)
          && (h.resolvePass == -1 ==> h.dependencies == {}))
  }

  /** The tables of `h` are final and right. */
  ghost predicate Exact(index: Index, h: PluginHandle)
    reads h, index.Values
  {
    && h.dependencies == Closure(index, h)
    && (forall x | x in h.dependencies && x in index.Values :: x.checked)
    && h.canLoad == !Blocked(index, h)
    && h !in OnCycle(index)
  }

  ghost function Checked(index: Index): set<PluginHandle>
    reads index.Values`checked
  {
    set h | h in index.Values && h.checked
  }

  ghost function ExactOnes(index: Index): set<PluginHandle>
    reads index.Values
  {
    set h | h in index.Values && Exact(index, h)
  }

  ghost predicate AllExact(index: Index)
    reads index.Values
  {
    Checked(index) <= ExactOnes(index)
  }

  /** The first `i` dependency names of the open handle `plugin` are dealt with. */
  ghost predicate Resolved(index: Index, plugin: PluginHandle, i: nat)
    requires i <= |plugin.dependencyNames|
    reads plugin, index.Values
  {
    && AllExact(index)
    && plugin.dependencies == ClosureUpTo(index, plugin, i)
    && (forall x | x in plugin.dependencies && x in index.Values :: x.checked)
    && plugin.canLoad == Verdict(index, plugin, i)
  }

  /** A visited handle other than `except` is never revised. */
  twostate predicate Keeps(index: Index, except: set<PluginHandle>)
    reads index.Values
  {
    forall h | h in index.Values && h !in except && old(h.resolvePass) != -1 ::
      && h.checked == old(h.checked) && h.resolvePass == old(h.resolvePass)
      && h.dependencies == old(h.dependencies) && h.canLoad == old(h.canLoad)
  }

  twostate lemma AllExactKept(index: Index)
    requires old(AllExact(index))
    requires forall x | x in index.Values :: x.checked == old(x.checked)
    requires forall x | x in index.Values && x.checked ::
               x.dependencies == old(x.dependencies) && x.canLoad == old(x.canLoad)
    ensures AllExact(index)
  {
    forall h | h in index.Values && h.checked
      ensures Exact(index, h)
    {
      assert h in old(Checked(index)) && h in old(ExactOnes(index));
    }
  }

  method AddDependency(ghost index: Index, dependent: PluginHandle, dependency: PluginHandle)
    requires dependent in index.Values && dependency in index.Values
    requires Mirrored(index)
    modifies dependent`dependencies, dependency`dependents
    ensures dependent.dependencies == old(dependent.dependencies) + {dependency}
    ensures dependency.dependents == old(dependency.dependents) + {dependent}
    ensures Mirrored(index)
  {
    dependency.dependents := dependency.dependents + {dependent};
    dependent.dependencies := dependent.dependencies + {dependency};
  }

  /** Copies the dense table of `child` and `child` itself into that of `plugin`. */
  method AddDependencies(ghost index: Index, plugin: PluginHandle, child: PluginHandle)
    requires plugin in index.Values && child in index.Values && child != plugin
    requires Mirrored(index)
    modifies plugin`dependencies, index.Values`dependents
    ensures Mirrored(index)
    ensures plugin.dependencies == old(plugin.dependencies) + child.dependencies + {child}
  {
    var rest := child.dependencies;
    ghost var done := {};
    while rest != {}
      invariant done + rest == child.dependencies == old(child.dependencies) && done !! rest
      invariant Mirrored(index)
      invariant plugin.dependencies == old(plugin.dependencies) + done
      decreases rest
    {
      var key :| key in rest;
      assert key in index.Values;
      AddDependency(index, plugin, key);
      rest, done := rest - {key}, done + {key};
    }
    AddDependency(index, plugin, child);
  }

  /** The tables and the verdict that a handle takes over from a child. */
  method Inherit(ghost index: Index, plugin: PluginHandle, child: PluginHandle, ghost pass: int)
    requires plugin in index.Values && child in index.Values && child != plugin
    requires Searching(index, pass) && Open(plugin)
    modifies plugin`dependencies, plugin`canLoad, index.Values`dependents
    ensures Searching(index, pass)
    ensures plugin.dependencies == old(plugin.dependencies) + child.dependencies + {child} && plugin.canLoad == child.canLoad
  {
    AddDependencies(index, plugin, child);
    plugin.canLoad := child.canLoad;
  }

  /** A child resolved without cycle: `plugin` inherits its table and its verdict. */
  method InheritFrom(ghost index: Index, plugin: PluginHandle, child: PluginHandle, ghost i: nat, ghost pass: int, ghost clean: bool)
    requires plugin in index.Values && child in index.Values && child != plugin
    requires Searching(index, pass) && Open(plugin)
    requires i < |plugin.dependencyNames| && plugin.dependencyNames[i] in index && index[plugin.dependencyNames[i]] == child
    requires clean ==> child.checked && Resolved(index, plugin, i)
    modifies plugin`dependencies, plugin`canLoad, index.Values`dependents
    ensures Searching(index, pass)
    ensures clean ==> Resolved(index, plugin, i + 1)
  {
    Inherit(index, plugin, child, pass);
    if clean {
      assert child in old(Checked(index)) && child in old(ExactOnes(index));
      AllExactKept(index);
      ClosureStep(index, plugin, i);
    }
  }

  /** A name that resolves to nothing. */
  method InheritNothing(ghost index: Index, plugin: PluginHandle, ghost i: nat, ghost pass: int, ghost clean: bool)
    requires plugin in index.Values && Searching(index, pass) && Open(plugin)
    requires i < |plugin.dependencyNames| && plugin.dependencyNames[i] !in index
    requires clean ==> Resolved(index, plugin, i)
    modifies plugin`canLoad
    ensures Searching(index, pass)
    ensures clean ==> Resolved(index, plugin, i + 1)
  {
    plugin.canLoad := false;
    if clean {
      AllExactKept(index);
      ClosureStep(index, plugin, i);
    }
  }

  /** After a search without cycle `plugin` joins the handles with exact tables. */
  method SetChecked(ghost index: Index, plugin: PluginHandle, ghost pass: int, ghost clean: bool)
    requires plugin in index.Values && Searching(index, pass) && plugin.resolvePass != -1
    requires clean ==> !plugin.checked && Resolved(index, plugin, |plugin.dependencyNames|)
    modifies plugin`checked
    ensures Searching(index, pass)
    ensures plugin.checked && Checked(index) == old(Checked(index)) + {plugin} && OpenOnes(index) == old(OpenOnes(index)) - {plugin}
    ensures clean ==> AllExact(index)
  {
    plugin.checked := true;
    if clean {
      ClosureComplete(index, plugin);
      VerdictComplete(index, plugin);
      forall h | h in index.Values && h.checked
        ensures Exact(index, h)
      {
        assert h != plugin ==> h in old(Checked(index)) && h in old(ExactOnes(index));
      }
    }
  }

  /** Opens an unvisited handle. */
  method Visit(ghost index: Index, plugin: PluginHandle, pass: int, ghost clean: bool)
    requires plugin in index.Values && !plugin.checked && plugin.resolvePass == -1 && pass != -1
    requires Searching(index, pass)
    requires clean ==> AllExact(index)
    modifies plugin`canLoad, plugin`resolvePass
    ensures plugin.resolvePass == pass && Unvisited(index) < old(Unvisited(index))
    ensures OpenOnes(index) == old(OpenOnes(index)) + {plugin} && Checked(index) == old(Checked(index))
    ensures Searching(index, pass)
    ensures clean ==> Resolved(index, plugin, 0)
  {
    assert plugin in Unvisited(index);
    plugin.canLoad := true;
    plugin.resolvePass := pass;
    assert plugin !in Unvisited(index);
    if clean { AllExactKept(index); }
  }

  /** The result of a search: the cycle found, if any, is empty when there is none, and
      there is no result when collecting a cycle has overflowed the stack.  The
      warnings tell which: only the last of them can have caused an overflow. */
  ghost predicate Outcome(index: Index, cycle: Option<seq<PluginHandle>>, warned: seq<PluginHandle>, stack: nat) {
    && (forall w | w in warned :: w in OnCycle(index))
    && match cycle
       case None => warned != [] && Collect(index, warned[|warned| - 1], warned[|warned| - 1], stack) == None
       case Some(list) => (list == [] <==> warned == []) && forall w | w in warned :: Collect(index, w, w, stack) == Some(list)
  }

  /** A search has given the warning that it gives on sets of handles, and has checked the
      same handles unless it was cut short. */
  ghost predicate As(index: Index, found: Found, cycle: Option<seq<PluginHandle>>, warned: seq<PluginHandle>)
    reads index.Values`checked
  {
    warned == Listed(found.warned) && (cycle.Some? ==> Checked(index) == found.checked)
  }

  /** One turn of the loop over the dependency names of an open handle, for a
      name that resolves. */
  method ResolveChild(index: Index, plugin: PluginHandle, child: PluginHandle, ghost i: nat, pass: int, stack: nat,
                      ghost open: set<PluginHandle>, ghost checked: set<PluginHandle>, ghost clean: bool)
    returns (cycle: Option<seq<PluginHandle>>, warned: seq<PluginHandle>)
    requires plugin in index.Values && pass != -1 && i < |plugin.dependencyNames|
    requires plugin.dependencyNames[i] in index && index[plugin.dependencyNames[i]] == child
    requires Searching(index, pass) && plugin in open && open == OpenOnes(index) && checked == Checked(index)
    requires forall g | g in open :: g == plugin || plugin in Closure(index, g)
    requires clean ==> Resolved(index, plugin, i)
    modifies index.Values`dependencies, index.Values`dependents,
             index.Values`canLoad, index.Values`checked, index.Values`resolvePass
    ensures Outcome(index, cycle, warned, stack)
    ensures cycle.Some? ==> Searching(index, pass) && OpenOnes(index) == open
    ensures cycle.Some? ==> Keeps(index, {plugin}) && plugin.resolvePass == old(plugin.resolvePass)
    ensures clean && cycle == Some([]) ==> Resolved(index, plugin, i + 1)
    ensures As(index, Search(index, child, open, checked), cycle, warned)
    decreases Unvisited(index), 2
  {
    EdgeDepends(index, plugin, child);
    forall g | g in open
      ensures child in Closure(index, g)
    {
      if g != plugin { DependsTransitive(index, g, plugin, child); }
    }
    cycle, warned := ResolveForModule(index, child, pass, stack, open, checked, clean);
    if cycle == Some([]) {
      InheritFrom(index, plugin, child, i, pass, clean);
    }
  }

  /** One turn of that loop, be the name known or not. */
  method ResolveName(index: Index, plugin: PluginHandle, i: nat, pass: int, stack: nat,
                     ghost open: set<PluginHandle>, ghost checked: set<PluginHandle>, ghost clean: bool)
    returns (cycle: Option<seq<PluginHandle>>, warned: seq<PluginHandle>, ghost now: set<PluginHandle>)
    requires plugin in index.Values && pass != -1 && i < |plugin.dependencyNames|
    requires Searching(index, pass) && plugin in open && open == OpenOnes(index) && checked == Checked(index)
    requires forall g | g in open :: g == plugin || plugin in Closure(index, g)
    requires clean ==> Resolved(index, plugin, i)
    modifies index.Values`dependencies, index.Values`dependents,
             index.Values`canLoad, index.Values`checked, index.Values`resolvePass
    ensures Outcome(index, cycle, warned, stack)
    ensures cycle.Some? ==> Searching(index, pass) && OpenOnes(index) == open
    ensures cycle.Some? ==> Keeps(index, {plugin}) && plugin.resolvePass == old(plugin.resolvePass)
    ensures clean && cycle == Some([]) ==> Resolved(index, plugin, i + 1)
    ensures var total := SearchFrom(index, plugin, i, open, checked);
            if cycle == Some([]) then now == Checked(index) && total == SearchFrom(index, plugin, i + 1, open, now)
            else As(index, total, cycle, warned)
    decreases Unvisited(index), 3
  {
    var name := plugin.dependencyNames[i];
    if name in index {
      cycle, warned := ResolveChild(index, plugin, index[name], i, pass, stack, open, checked, clean);
      now := Checked(index);
    } else {
      cycle, warned, now := Some([]), [], checked;
      InheritNothing(index, plugin, i, pass, clean);
    }
  }

  /** The search from an unvisited handle that has just been opened. */
  method ResolveOpened(index: Index, plugin: PluginHandle, pass: int, stack: nat,
                       ghost open: set<PluginHandle>, ghost checked: set<PluginHandle>, ghost clean: bool)
    returns (cycle: Option<seq<PluginHandle>>, warned: seq<PluginHandle>)
    requires plugin in index.Values && pass != -1
    requires Searching(index, pass) && plugin in open && open == OpenOnes(index) && checked == Checked(index)
    requires forall g | g in open :: g == plugin || plugin in Closure(index, g)
    requires clean ==> Resolved(index, plugin, 0)
    modifies index.Values`dependencies, index.Values`dependents,
             index.Values`canLoad, index.Values`checked, index.Values`resolvePass
    ensures Outcome(index, cycle, warned, stack)
    ensures cycle.Some? ==> Searching(index, pass) && OpenOnes(index) == open
    ensures cycle.Some? ==> Keeps(index, {plugin}) && plugin.resolvePass == old(plugin.resolvePass)
    ensures clean && cycle == Some([]) ==> Resolved(index, plugin, |plugin.dependencyNames|)
    ensures As(index, SearchFrom(index, plugin, 0, open, checked), cycle, warned)
    decreases Unvisited(index), 4
  {
    ghost var total := SearchFrom(index, plugin, 0, open, checked);
    ghost var now := checked;
    cycle, warned := Some([]), [];
    var i := 0;
    while i < |plugin.dependencyNames| && cycle == Some([])
      invariant 0 <= i <= |plugin.dependencyNames|
      invariant Outcome(index, cycle, warned, stack) && (cycle == Some([]) ==> Unvisited(index) <= old(Unvisited(index)))
      invariant cycle.Some? ==> Searching(index, pass) && OpenOnes(index) == open
      invariant cycle.Some? ==> Keeps(index, {plugin}) && plugin.resolvePass == old(plugin.resolvePass)
      invariant clean && cycle == Some([]) ==> Resolved(index, plugin, i)
      invariant if cycle == Some([]) then now == Checked(index) && total == SearchFrom(index, plugin, i, open, now)
                else As(index, total, cycle, warned)
    {
      cycle, warned, now := ResolveName(index, plugin, i, pass, stack, open, now, clean);
      i := i + 1;
    }
  }

  /** The warning of a cycle through a handle, which is collected for it. */
  method Warn(index: Index, plugin: PluginHandle, stack: nat) returns (cycle: Option<seq<PluginHandle>>, warned: seq<PluginHandle>)
    requires plugin in OnCycle(index)
    ensures Outcome(index, cycle, warned, stack) && cycle != Some([]) && warned == Listed(Some(plugin))
  {
    warned := [plugin];
    cycle := CollectCycle(index, plugin, plugin, stack);
    if cycle.Some? {
      CollectFinds(index, plugin, plugin, stack);
    }
  }

  /** The search from an unvisited handle. */
  method ResolveUnvisited(index: Index, plugin: PluginHandle, pass: int, stack: nat,
                          ghost open: set<PluginHandle>, ghost checked: set<PluginHandle>, ghost clean: bool)
    returns (cycle: Option<seq<PluginHandle>>, warned: seq<PluginHandle>)
    requires plugin in index.Values && pass != -1 && !plugin.checked && plugin.resolvePass == -1
    requires Searching(index, pass) && open == OpenOnes(index) && checked == Checked(index)
    requires forall g | g in open :: plugin in Closure(index, g)
    requires clean ==> AllExact(index)
    modifies index.Values`dependencies, index.Values`dependents,
             index.Values`canLoad, index.Values`checked, index.Values`resolvePass
    ensures Outcome(index, cycle, warned, stack)
    ensures cycle.Some? ==> Searching(index, pass) && OpenOnes(index) == open
    ensures cycle.Some? ==> Keeps(index, {}) && plugin.checked
    ensures clean && cycle == Some([]) ==> AllExact(index)
    ensures As(index, Search(index, plugin, open, checked), cycle, warned)
    decreases Unvisited(index), 0
  {
    assert plugin !in open && plugin !in checked;
    Visit(index, plugin, pass, clean);
    cycle, warned := ResolveOpened(index, plugin, pass, stack, open + {plugin}, checked, clean);
    if cycle.Some? {
      SetChecked(index, plugin, pass, clean && cycle == Some([]));
    }
  }

  method ResolveForModule(index: Index, plugin: PluginHandle, pass: int, stack: nat,
                          ghost open: set<PluginHandle>, ghost checked: set<PluginHandle>, ghost clean: bool)
    returns (cycle: Option<seq<PluginHandle>>, warned: seq<PluginHandle>)
    requires plugin in index.Values && pass != -1
    requires Searching(index, pass) && open == OpenOnes(index) && checked == Checked(index)
    requires forall g | g in open :: plugin in Closure(index, g)
    requires clean ==> AllExact(index)
    modifies index.Values`dependencies, index.Values`dependents,
             index.Values`canLoad, index.Values`checked, index.Values`resolvePass
    ensures Outcome(index, cycle, warned, stack)
    ensures cycle.Some? ==> Searching(index, pass) && OpenOnes(index) == open
    ensures cycle.Some? ==> Keeps(index, {})
    ensures cycle.Some? ==> if plugin in open then cycle != Some([]) else plugin.checked
    ensures clean && cycle == Some([]) ==> AllExact(index)
    ensures As(index, Search(index, plugin, open, checked), cycle, warned)
    decreases Unvisited(index), 1
  {
    if plugin.checked {
      assert plugin in checked;
      return Some([]), [];
    }
    if plugin.resolvePass == pass {
      assert plugin in open && plugin !in checked;
      cycle, warned := Warn(index, plugin, stack);
      return;
    }
    if plugin.resolvePass != -1 {
      assert false;
    }
    cycle, warned := ResolveUnvisited(index, plugin, pass, stack, open, checked, clean);
  }

  /** What resolution leaves behind: exact tables in both directions and the
      verdict of each handle. */
  ghost predicate Tables(index: Index, h: PluginHandle)
    reads h`dependencies, h`dependents, h`canLoad
  {
    && h.dependencies == Closure(index, h)
    && h.dependents == (set x | x in index.Values && h in Closure(index, x))
    && h.canLoad == !Blocked(index, h)
  }

  ghost predicate Resolution(index: Index)
    reads index.Values`dependencies, index.Values`dependents, index.Values`canLoad
  {
    forall h {:trigger Tables(index, h)} | h in index.Values :: Tables(index, h)
  }

  /** No handle needs one that comes after it. */
  ghost predicate LoadOrder(index: Index, list: seq<PluginHandle>) {
    forall i, j {:trigger DependsOn(index, list[i], list[j])} | 0 <= i <= j < |list| ::
      !DependsOn(index, list[i], list[j])
  }

  /** dependency_compare, on the sizes of the tables. */
  function TableSize(sizes: map<PluginHandle, nat>, h: PluginHandle): nat {
    if h in sizes then sizes[h] else 0
  }

  /** The plugins with tables of one size, in order. */
  ghost function OfSize(list: seq<PluginHandle>, n: nat): seq<PluginHandle>
    reads list`dependencies
  {
    if list == [] then []
    else (if |list[0].dependencies| == n then [list[0]] else []) + OfSize(list[1..], n)
  }

  function BySize(sizes: map<PluginHandle, nat>): (PluginHandle, PluginHandle) -> bool {
    (a: PluginHandle, b: PluginHandle) => TableSize(sizes, a) <= TableSize(sizes, b)
  }

  ghost predicate AreSizes(sizes: map<PluginHandle, nat>, list: seq<PluginHandle>)
    reads list`dependencies
  {
    forall h | h in list :: h in sizes && sizes[h] == |h.dependencies|
  }

  lemma {:induction false} OfSizeIsEquivalents(sizes: map<PluginHandle, nat>, x: PluginHandle, list: seq<PluginHandle>)
    requires AreSizes(sizes, list) && AreSizes(sizes, [x])
    ensures ListSort.Equivalents(BySize(sizes), x, list) == OfSize(list, |x.dependencies|)
  {
    if list != [] {
      OfSizeIsEquivalents(sizes, x, list[1..]);
    }
  }

  lemma {:induction false} OfSizeNone(list: seq<PluginHandle>, n: nat)
    requires forall h | h in list :: |h.dependencies| != n
    ensures OfSize(list, n) == []
  {
    if list != [] {
      OfSizeNone(list[1..], n);
    }
  }

  lemma StableBySize(sizes: map<PluginHandle, nat>, list: seq<PluginHandle>, n: nat)
    requires AreSizes(sizes, list)
    ensures OfSize(ListSort.Sort(BySize(sizes), list), n) == OfSize(list, n)
  {
    var order := ListSort.Sort(BySize(sizes), list);
    ListSort.SameElements(order, list);
    if x :| x in list && |x.dependencies| == n {
      ListSort.SortStable(BySize(sizes), x, list);
      OfSizeIsEquivalents(sizes, x, list);
      OfSizeIsEquivalents(sizes, x, order);
    } else {
      OfSizeNone(list, n);
      OfSizeNone(order, n);
    }
  }

  lemma OrderedBySize(sizes: map<PluginHandle, nat>, list: seq<PluginHandle>, order: seq<PluginHandle>)
    requires AreSizes(sizes, list) && order == ListSort.Sort(BySize(sizes), list)
    ensures forall i, j | 0 <= i < j < |order| :: |order[i].dependencies| <= |order[j].dependencies|
  {
    ListSort.SameElements(order, list);
    ListSort.SortOrdered(BySize(sizes), list);
    forall i, j | 0 <= i < j < |order|
      ensures |order[i].dependencies| <= |order[j].dependencies|
    {
      assert BySize(sizes)(order[i], order[j]);
    }
  }

  /** Plugins with tables of equal size stay in order. */
  method SortBySize(list: seq<PluginHandle>) returns (order: seq<PluginHandle>)
    ensures multiset(order) == multiset(list)
    ensures forall h | h in order :: h in list
    ensures forall i, j | 0 <= i < j < |order| :: |order[i].dependencies| <= |order[j].dependencies|
    ensures forall n: nat :: OfSize(order, n) == OfSize(list, n)
  {
    var sizes: map<PluginHandle, nat> := map h | h in list :: |h.dependencies|;
    order := ListSort.Sort(BySize(sizes), list);
    ListSort.SameElements(order, list);
    OrderedBySize(sizes, list, order);
    forall n: nat
      ensures OfSize(order, n) == OfSize(list, n)
    {
      StableBySize(sizes, list, n);
    }
  }

  /** The available plugins are exactly the indexed ones. */
  ghost predicate Lists(index: Index, available: seq<PluginHandle>) {
    && (forall h | h in available :: h in index.Values)
    && (forall h | h in index.Values :: h in available)
  }

  /** The warnings so far, before the l-th pass. */
  ghost predicate WarnedSoFar(index: Index, available: seq<PluginHandle>, l: nat, checked: set<PluginHandle>, warned: seq<PluginHandle>)
    requires l <= |available| && forall h | h in available :: h in index.Values
  {
    warned + Warnings(index, available, l, checked) == Warnings(index, available, 0, {})
  }

  lemma NoneWarned(index: Index, available: seq<PluginHandle>)
    requires forall h | h in available :: h in index.Values
    ensures WarnedSoFar(index, available, 0, {}, [])
  {
    assert [] + Warnings(index, available, 0, {}) == Warnings(index, available, 0, {});
  }

  lemma WarningsNext(index: Index, available: seq<PluginHandle>, l: nat, checked: set<PluginHandle>, warned: seq<PluginHandle>)
    requires l < |available| && forall h | h in available :: h in index.Values
    requires WarnedSoFar(index, available, l, checked, warned)
    ensures var found := Search(index, available[l], {}, checked);
            WarnedSoFar(index, available, l + 1, found.checked, warned + Listed(found.warned))
  {
    var found := Search(index, available[l], {}, checked);
    Associative(warned, Listed(found.warned), Warnings(index, available, l + 1, found.checked));
  }

  /** One pass: what was checked before it stays so. */
  method ResolvePass(index: Index, available: seq<PluginHandle>, l: nat, pass: int, stack: nat,
                     ghost checked: set<PluginHandle>, ghost clean: bool)
    returns (cycle: Option<seq<PluginHandle>>, warned: seq<PluginHandle>)
    requires Lists(index, available) && l < |available| && pass == l + 1
    requires Searching(index, pass) && OpenOnes(index) == {} && checked == Checked(index)
    requires forall k | 0 <= k < l :: available[k].checked
    requires clean ==> AllExact(index)
    modifies index.Values`dependencies, index.Values`dependents,
             index.Values`canLoad, index.Values`checked, index.Values`resolvePass
    ensures Outcome(index, cycle, warned, stack)
    ensures cycle.Some? ==> Searching(index, pass + 1) && OpenOnes(index) == {}
    ensures cycle.Some? ==> forall k | 0 <= k <= l :: available[k].checked
    ensures clean && cycle == Some([]) ==> AllExact(index)
    ensures As(index, Search(index, available[l], {}, checked), cycle, warned)
  {
    assert forall k | 0 <= k < l :: available[k] in index.Values;
    cycle, warned := ResolveForModule(index, available[l], pass, stack, {}, checked, clean);
    assert cycle.Some? ==> forall h | h in index.Values :: !Open(h) by {
      assert forall h | h in index.Values && Open(h) :: h in OpenOnes(index);
    }
  }

  /** A warning that could not be collected ends the loop. */
  lemma WarningsCut(index: Index, available: seq<PluginHandle>, l: nat, checked: set<PluginHandle>, warned: seq<PluginHandle>,
                    more: seq<PluginHandle>, stack: nat)
    requires l <= |available| && forall h | h in available :: h in index.Values
    requires WarnedSoFar(index, available, l, checked, warned + more) && more != []
    requires Collect(index, more[|more| - 1], more[|more| - 1], stack) == None
    ensures !Collectable(index, available, stack) && warned + more <= Warnings(index, available, 0, {})
  {
    assert more[|more| - 1] in (warned + more) + Warnings(index, available, l, checked);
  }

  /** The warnings so far are right, and their cycles have been collected. */
  ghost predicate AllCollected(index: Index, warned: seq<PluginHandle>, stack: nat) {
    forall w | w in warned :: w in OnCycle(index) && Collect(index, w, w, stack).Some?
  }

  lemma AllCollectedAll(index: Index, available: seq<PluginHandle>, warned: seq<PluginHandle>, stack: nat)
    requires forall h | h in available :: h in index.Values
    requires AllCollected(index, warned, stack)
    requires exists checked :: WarnedSoFar(index, available, |available|, checked, warned)
    ensures warned == Warnings(index, available, 0, {}) && Collectable(index, available, stack)
  {
    assert warned + [] == warned;
  }

  lemma CollectedMore(index: Index, warned: seq<PluginHandle>, more: seq<PluginHandle>, stack: nat)
    requires AllCollected(index, warned, stack) && AllCollected(index, more, stack)
    ensures AllCollected(index, warned + more, stack)
  {
  }

  /** The resolving loop: one pass a plugin, each pass a search. */
  method ResolveAll(index: Index, available: seq<PluginHandle>, stack: nat) returns (warned: seq<PluginHandle>, done: bool)
    requires Lists(index, available)
    requires forall h | h in available :: h.Untouched()
    modifies index.Values`dependencies, index.Values`dependents,
             index.Values`canLoad, index.Values`checked, index.Values`resolvePass
    ensures forall w | w in warned :: w in OnCycle(index)
    ensures done <==> Collectable(index, available, stack)
    ensures if done then warned == Warnings(index, available, 0, {}) else warned <= Warnings(index, available, 0, {})
    ensures (forall w | w in OnCycle(index) :: Collect(index, w, w, stack).Some?) ==> done
    ensures done ==> forall k | 0 <= k < |available| :: available[k].checked
    ensures warned == [] ==> done && Mirrored(index) && AllExact(index)
  {
    warned, done := [], true;
    ghost var now := Checked(index);
    assert now == {};
    NoneWarned(index, available);
    var pass := 1;
    var l := 0;
    while l < |available|
      invariant 0 <= l <= |available| && pass == l + 1
      invariant Searching(index, pass)
      invariant OpenOnes(index) == {} && now == Checked(index)
      invariant forall k | 0 <= k < l :: available[k].checked
      invariant AllCollected(index, warned, stack)
      invariant warned == [] ==> AllExact(index)
      invariant WarnedSoFar(index, available, l, now, warned)
    {
      WarningsNext(index, available, l, now, warned);
      ghost var found := Search(index, available[l], {}, now);
      var cycle, more := ResolvePass(index, available, l, pass, stack, now, warned == []);
      if cycle.None? {
        WarningsCut(index, available, l + 1, found.checked, warned, more, stack);
        return warned + more, false;
      }
      // The cycle is dropped here; only its warning remains.
      CollectedMore(index, warned, more, stack);
      warned := warned + more;
      now := found.checked;
      pass := pass + 1;
      l := l + 1;
    }
    AllCollectedAll(index, available, warned, stack);
  }

  lemma AllCheckedIsResolution(index: Index)
    requires forall h | h in index.Values :: h.checked
    requires AllExact(index) && Mirrored(index)
    ensures Resolution(index) && Acyclic(index)
  {
    forall h | h in index.Values
      ensures Exact(index, h)
    {
      assert h in Checked(index) && h in ExactOnes(index);
    }
  }

  /** Sorting by the size of the dense tables gives a load order. */
  lemma SizeOrderIsLoadOrder(index: Index, list: seq<PluginHandle>)
    requires Acyclic(index)
    requires forall h | h in list :: h in index.Values
    requires forall i, j | 0 <= i < j < |list| :: |Closure(index, list[i])| <= |Closure(index, list[j])|
    ensures LoadOrder(index, list)
  {
    forall i, j | 0 <= i <= j < |list|
      ensures !DependsOn(index, list[i], list[j])
    {
      if DependsOn(index, list[i], list[j]) {
        assert list[j] !in OnCycle(index);
        ClosureShrinks(index, list[i], list[j]);
      }
    }
  }

  /** resolve_dependencies.  It is not `done` if the stack overflows while a cycle is
      collected, which depends on the graph, the order of the plugins and the stack alone. */
  method ResolveDependencies(index: Index, available: seq<PluginHandle>, stack: nat)
    returns (order: seq<PluginHandle>, warned: seq<PluginHandle>, done: bool)
    requires Lists(index, available)
    requires forall h | h in available :: h.Untouched()
    modifies index.Values`dependencies, index.Values`dependents,
             index.Values`canLoad, index.Values`checked, index.Values`resolvePass
    ensures warned == [] <==> Acyclic(index)
    ensures forall w | w in warned :: w in OnCycle(index)
    ensures done <==> Collectable(index, available, stack)
    ensures if done then warned == Warnings(index, available, 0, {}) else warned <= Warnings(index, available, 0, {})
    ensures (forall w | w in OnCycle(index) :: Collect(index, w, w, stack).Some?) ==> done
    ensures done ==> multiset(order) == multiset(available)
    ensures done ==> forall i, j | 0 <= i < j < |order| :: |order[i].dependencies| <= |order[j].dependencies|
    ensures done ==> forall n: nat :: OfSize(order, n) == OfSize(available, n)
    ensures Acyclic(index) ==> done && Resolution(index) && LoadOrder(index, order)
  {
    order := available;
    warned, done := ResolveAll(index, available, stack);
    assert warned != [] ==> warned[0] in warned;
    if done {
      order := SortBySize(available);
      if warned == [] {
        AllCheckedIsResolution(index);
        assert forall h | h in order :: Tables(index, h);
        SizeOrderIsLoadOrder(index, order);
      }
    }
  }
}
