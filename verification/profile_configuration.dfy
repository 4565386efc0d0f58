/** The settings of a profile, libanjuta/anjuta-profile.c: they override keys of the
    descriptions of some plugins while the profile is in use. */
module ProfileConfiguration {
  import opened PluginGraph
  import opened PluginDescriptions
  import opened Options
  import opened Sequences

  datatype Setting = Setting(group: string, key: string, value: string)

  /** A setting as it is applied to one plugin. */
  datatype Change = Change(handle: PluginHandle, setting: Setting)

  /** The entry of `configuration` that undoes a change. */
  datatype Undo = Undo(handle: PluginHandle, group: string, key: string)

  function UndoOf(c: Change): Undo {
    Undo(c.handle, c.setting.group, c.setting.key)
  }

  /** Does an undo entry concern this key of this description? */
  predicate Concerns(u: Undo, d: PluginDescription, group: string, key: string) {
    u.handle.description == d && u.group == group && u.key == key
  }

  /** The undo entries of some changes, latest first. */
  function UndoAll(changes: seq<Change>): seq<Undo> {
    if changes == [] then [] else UndoAll(changes[1..]) + [UndoOf(changes[0])]
  }

  /** The entry of a key after all changes. */
  function Overridden(e: Entry, changes: seq<Change>, d: PluginDescription, group: string, key: string): Entry
    decreases |changes|
  {
    if changes == [] then e
    else
      var n := |changes| - 1;
      var before := Overridden(e, changes[..n], d, group, key);
      if Concerns(UndoOf(changes[n]), d, group, key) then OverrideEntry(before, changes[n].setting.value) else before
  }

  /** The entry of a key after all undo entries, from the first to the last. */
  function Removed(e: Entry, undos: seq<Undo>, d: PluginDescription, group: string, key: string): Entry
    decreases undos
  {
    if undos == [] then e
    else Removed(if Concerns(undos[0], d, group, key) then RemoveEntry(e) else e, undos[1..], d, group, key)
  }

  /** What a reader sees: an absent key is a key without value. */
  function Seen(e: Entry): Entry {
    if e.Absent? then Entry(None, []) else e
  }

  lemma {:induction false} SeenRemovedAll(e: Entry, f: Entry, undos: seq<Undo>, d: PluginDescription, group: string, key: string)
    requires Seen(e) == Seen(f)
    ensures Seen(Removed(e, undos, d, group, key)) == Seen(Removed(f, undos, d, group, key))
    decreases undos
  {
    if undos != [] {
      if Concerns(undos[0], d, group, key) {
        SeenRemovedAll(RemoveEntry(e), RemoveEntry(f), undos[1..], d, group, key);
      } else {
        SeenRemovedAll(e, f, undos[1..], d, group, key);
      }
    }
  }

  lemma RemoveUndoesOverride(e: Entry, value: string)
    ensures Seen(RemoveEntry(OverrideEntry(e, value))) == Seen(e)
  {
    if e.Entry? { assert ([e.value] + e.overrides)[1..] == e.overrides; }
  }

  lemma {:induction false} UndoAllLast(changes: seq<Change>)
    requires changes != []
    ensures var n := |changes| - 1; UndoAll(changes) == [UndoOf(changes[n])] + UndoAll(changes[..n])
  {
    var n := |changes| - 1;
    if n > 0 {
      UndoAllLast(changes[1..]);
      assert changes[1..][..n - 1] == changes[..n][1..];
      assert changes[1..][n - 1] == changes[n];
    }
  }

  /** Undoing all the changes of a configuration restores what a reader sees of
      every key, with as many overridden values as before, even when the same key
      of the same plugin is set several times. */
  lemma {:induction false} UndoRestores(e: Entry, changes: seq<Change>, d: PluginDescription, group: string, key: string)
    ensures Seen(Removed(Overridden(e, changes, d, group, key), UndoAll(changes), d, group, key)) == Seen(e)
    decreases |changes|
  {
    if changes != [] {
      var n := |changes| - 1;
      var c := changes[n];
      var before := Overridden(e, changes[..n], d, group, key);
      var after := Overridden(e, changes, d, group, key);
      UndoAllLast(changes);
      var undos := UndoAll(changes);
      assert undos[0] == UndoOf(c) && undos[1..] == UndoAll(changes[..n]);
      var once := if Concerns(undos[0], d, group, key) then RemoveEntry(after) else after;
      RemoveUndoesOverride(before, c.setting.value);
      SeenRemovedAll(once, before, UndoAll(changes[..n]), d, group, key);
      UndoRestores(e, changes[..n], d, group, key);
    }
  }

  /** Some change sets this key of this description. */
  predicate Touches(changes: seq<Change>, d: PluginDescription, group: string, key: string)
    decreases |changes|
  {
    changes != [] &&
    (Concerns(UndoOf(changes[|changes| - 1]), d, group, key) || Touches(changes[..|changes| - 1], d, group, key))
  }

  /** An entry after changes and their undoing: a key that was set for the first time is
      not taken away again but stays, without a value. */
  function Restored(e: Entry, changes: seq<Change>, d: PluginDescription, group: string, key: string): Entry {
    if e.Absent? && Touches(changes, d, group, key) then Entry(None, []) else e
  }

  lemma {:induction false} Untouched(e: Entry, changes: seq<Change>, d: PluginDescription, group: string, key: string)
    requires !Touches(changes, d, group, key)
    ensures Overridden(e, changes, d, group, key) == e && Removed(e, UndoAll(changes), d, group, key) == e
    decreases |changes|
  {
    if changes != [] {
      UndoAllLast(changes);
      Untouched(e, changes[..|changes| - 1], d, group, key);
    }
  }

  lemma {:induction false} OverriddenAbsent(e: Entry, changes: seq<Change>, d: PluginDescription, group: string, key: string)
    ensures Overridden(e, changes, d, group, key).Absent? <==> e.Absent? && !Touches(changes, d, group, key)
    decreases |changes|
  {
    if changes != [] {
      OverriddenAbsent(e, changes[..|changes| - 1], d, group, key);
    }
  }

  /** Exactly what undoing all the changes leaves behind. */
  lemma {:induction false} UndoLeaves(e: Entry, changes: seq<Change>, d: PluginDescription, group: string, key: string)
    ensures Removed(Overridden(e, changes, d, group, key), UndoAll(changes), d, group, key)
         == Restored(e, changes, d, group, key)
    decreases |changes|
  {
    if changes != [] {
      var n := |changes| - 1;
      var before := Overridden(e, changes[..n], d, group, key);
      UndoAllLast(changes);
      assert UndoAll(changes)[1..] == UndoAll(changes[..n]);
      UndoLeaves(e, changes[..n], d, group, key);
      OverriddenAbsent(e, changes[..n], d, group, key);
      RemoveUndoesOverride(before, changes[n].setting.value);
      if before.Absent? {
        Untouched(Entry(None, []), changes[..n], d, group, key);
        Untouched(e, changes[..n], d, group, key);
      }
    }
  }

  /** The k-th change is the last one of this key. */
  predicate LastOf(changes: seq<Change>, k: nat, d: PluginDescription, group: string, key: string) {
    && k < |changes| && Concerns(UndoOf(changes[k]), d, group, key)
    && forall j | k < j < |changes| :: !Concerns(UndoOf(changes[j]), d, group, key)
  }

  /** After changes a key reads as the last setting that concerns it. */
  lemma {:induction false} LastReads(e: Entry, changes: seq<Change>, k: nat, d: PluginDescription, group: string, key: string)
    requires LastOf(changes, k, d, group, key)
    ensures var r := Overridden(e, changes, d, group, key); r.Entry? && r.value == Some(changes[k].setting.value)
    decreases |changes|
  {
    if k < |changes| - 1 {
      LastReads(e, changes[..|changes| - 1], k, d, group, key);
    }
  }

  /** Undo entries are used up in turn. */
  lemma {:induction false} RemovedAppend(e: Entry, a: seq<Undo>, b: seq<Undo>, d: PluginDescription, group: string, key: string)
    ensures Removed(e, a + b, d, group, key) == Removed(Removed(e, a, d, group, key), b, d, group, key)
    decreases a
  {
    if a == [] {
      assert a + b == b;
    } else {
      assert (a + b)[0] == a[0] && (a + b)[1..] == a[1..] + b;
      RemovedAppend(if Concerns(a[0], d, group, key) then RemoveEntry(e) else e, a[1..], b, d, group, key);
    }
  }

  // ---------- the changes that a configuration asks for ----------

  function ChangesOfPlugin(handle: PluginHandle, settings: seq<Setting>): seq<Change> {
    if settings == [] then [] else [Change(handle, settings[0])] + ChangesOfPlugin(handle, settings[1..])
  }

  function ChangesOfGroup(handles: seq<PluginHandle>, settings: seq<Setting>): seq<Change> {
    if handles == [] then [] else ChangesOfPlugin(handles[0], settings) + ChangesOfGroup(handles[1..], settings)
  }

  function AllChanges(handlesList: seq<seq<PluginHandle>>, configList: seq<seq<Setting>>): seq<Change>
    requires |handlesList| == |configList|
  {
    if handlesList == [] then []
    else ChangesOfGroup(handlesList[0], configList[0]) + AllChanges(handlesList[1..], configList[1..])
  }

  ghost predicate Started(descriptions: set<PluginDescription>)
    reads descriptions
  {
    forall d | d in descriptions :: d.sections != []
  }

  twostate predicate Configured(descriptions: set<PluginDescription>, new changes: seq<Change>)
    reads descriptions
  {
    forall d, group: string, key: string | d in descriptions ::
      Lookup(d.sections, group, key) == Overridden(old(Lookup(d.sections, group, key)), changes, d, group, key)
  }

  twostate predicate Unconfigured(descriptions: set<PluginDescription>, new undos: seq<Undo>)
    reads descriptions
  {
    forall d, group: string, key: string | d in descriptions ::
      Lookup(d.sections, group, key) == Removed(old(Lookup(d.sections, group, key)), undos, d, group, key)
  }

  lemma {:induction false} UndoAllMember(changes: seq<Change>, u: Undo) returns (c: Change)
    requires u in UndoAll(changes)
    ensures c in changes && u == UndoOf(c)
  {
    c := changes[0];
    if u != UndoOf(c) {
      c := UndoAllMember(changes[1..], u);
    }
  }

  /** A plugin gets each setting once, in order. */
  lemma {:induction false} PluginChanges(handle: PluginHandle, settings: seq<Setting>)
    ensures var r := ChangesOfPlugin(handle, settings);
            |r| == |settings| && forall i | 0 <= i < |r| :: r[i] == Change(handle, settings[i])
  {
    if settings != [] {
      PluginChanges(handle, settings[1..]);
    }
  }

  /** The plugins of a group come in order. */
  lemma {:induction false} PluginsInTurn(handles: seq<PluginHandle>, more: seq<PluginHandle>, settings: seq<Setting>)
    ensures ChangesOfGroup(handles + more, settings) == ChangesOfGroup(handles, settings) + ChangesOfGroup(more, settings)
    ensures |handles| == 1 ==> ChangesOfGroup(handles, settings) == ChangesOfPlugin(handles[0], settings)
  {
    if handles == [] {
      assert handles + more == more;
    } else {
      assert (handles + more)[1..] == handles[1..] + more;
      PluginsInTurn(handles[1..], more, settings);
      Associative(ChangesOfPlugin(handles[0], settings), ChangesOfGroup(handles[1..], settings), ChangesOfGroup(more, settings));
    }
  }

  lemma {:induction false} GroupChanges(handles: seq<PluginHandle>, settings: seq<Setting>, c: Change)
    ensures c in ChangesOfGroup(handles, settings) <==> c.handle in handles && c.setting in settings
  {
    if handles != [] {
      GroupChanges(handles[1..], settings, c);
      var first := ChangesOfPlugin(handles[0], settings);
      PluginChanges(handles[0], settings);
      assert c in first <==> c.handle == handles[0] && c.setting in settings by {
        if c.handle == handles[0] && c.setting in settings {
          var i :| 0 <= i < |settings| && settings[i] == c.setting;
          assert first[i] == c;
        }
      }
      assert c.handle in handles <==> c.handle == handles[0] || c.handle in handles[1..];
    }
  }

  /** The groups come in order. */
  lemma {:induction false} GroupsInTurn(handles: seq<seq<PluginHandle>>, config: seq<seq<Setting>>,
                                        moreHandles: seq<seq<PluginHandle>>, moreConfig: seq<seq<Setting>>)
    requires |handles| == |config| && |moreHandles| == |moreConfig|
    ensures AllChanges(handles + moreHandles, config + moreConfig) == AllChanges(handles, config) + AllChanges(moreHandles, moreConfig)
    ensures |handles| == 1 ==> AllChanges(handles, config) == ChangesOfGroup(handles[0], config[0])
  {
    if handles == [] {
      assert handles + moreHandles == moreHandles && config + moreConfig == moreConfig;
    } else {
      assert (handles + moreHandles)[1..] == handles[1..] + moreHandles && (config + moreConfig)[1..] == config[1..] + moreConfig;
      GroupsInTurn(handles[1..], config[1..], moreHandles, moreConfig);
      Associative(ChangesOfGroup(handles[0], config[0]), AllChanges(handles[1..], config[1..]), AllChanges(moreHandles, moreConfig));
    }
  }

  /** A change is made when some group holds its plugin and its setting. */
  predicate InGroup(handlesList: seq<seq<PluginHandle>>, configList: seq<seq<Setting>>, g: nat, c: Change)
    requires |handlesList| == |configList|
  {
    g < |handlesList| && c.handle in handlesList[g] && c.setting in configList[g]
  }

  /** Exactly the settings of the groups are changed, for each plugin of the same group. */
  lemma {:induction false} AllChangesAre(handlesList: seq<seq<PluginHandle>>, configList: seq<seq<Setting>>, c: Change)
    requires |handlesList| == |configList|
    ensures c in AllChanges(handlesList, configList) <==> exists g: nat :: InGroup(handlesList, configList, g, c)
  {
    if handlesList != [] {
      GroupChanges(handlesList[0], configList[0], c);
      AllChangesAre(handlesList[1..], configList[1..], c);
      assert forall g: nat | 0 < g :: InGroup(handlesList, configList, g, c) <==> InGroup(handlesList[1..], configList[1..], g - 1, c);
      assert forall g: nat :: InGroup(handlesList[1..], configList[1..], g, c) <==> InGroup(handlesList, configList, g + 1, c);
      assert InGroup(handlesList, configList, 0, c) <==> c in ChangesOfGroup(handlesList[0], configList[0]);
    }
  }

  lemma UndoKnown(handlesList: seq<seq<PluginHandle>>, configList: seq<seq<Setting>>, u: Undo)
    requires |handlesList| == |configList| && u in UndoAll(AllChanges(handlesList, configList))
    ensures exists g :: g in handlesList && u.handle in g
  {
    var c := UndoAllMember(AllChanges(handlesList, configList), u);
    AllChangesAre(handlesList, configList, c);
    var g: nat :| InGroup(handlesList, configList, g, c);
    assert handlesList[g] in handlesList;
  }

  lemma UndosKnown(handlesList: seq<seq<PluginHandle>>, configList: seq<seq<Setting>>, descriptions: set<PluginDescription>)
    requires |handlesList| == |configList|
    requires forall g | g in handlesList :: forall h | h in g :: h.description in descriptions
    ensures forall u | u in UndoAll(AllChanges(handlesList, configList)) :: u.handle.description in descriptions
  {
    forall u | u in UndoAll(AllChanges(handlesList, configList))
      ensures u.handle.description in descriptions
    {
      UndoKnown(handlesList, configList, u);
    }
  }

  lemma {:induction false} OverriddenAppend(e: Entry, a: seq<Change>, b: seq<Change>, d: PluginDescription, group: string, key: string)
    ensures Overridden(e, a + b, d, group, key) == Overridden(Overridden(e, a, d, group, key), b, d, group, key)
    decreases |b|
  {
    if b == [] {
      assert a + b == a;
    } else {
      var n := |b| - 1;
      OverriddenAppend(e, a, b[..n], d, group, key);
      assert (a + b)[..|a + b| - 1] == a + b[..n];
    }
  }

  lemma {:induction false} UndoAllAppend(a: seq<Change>, b: seq<Change>)
    ensures UndoAll(a + b) == UndoAll(b) + UndoAll(a)
  {
    if a == [] {
      assert a + b == b && UndoAll(b) + [] == UndoAll(b);
    } else {
      UndoAllAppend(a[1..], b);
      assert (a + b)[1..] == a[1..] + b;
    }
  }

  lemma Several(changes: seq<Change>, more: seq<Change>)
    ensures UndoAll(changes + more) == UndoAll(more) + UndoAll(changes)
    ensures forall e, d, group, key ::
              Overridden(e, changes + more, d, group, key) == Overridden(Overridden(e, changes, d, group, key), more, d, group, key)
  {
    UndoAllAppend(changes, more);
    forall e, d, group, key
      ensures Overridden(e, changes + more, d, group, key) == Overridden(Overridden(e, changes, d, group, key), more, d, group, key)
    {
      OverriddenAppend(e, changes, more, d, group, key);
    }
  }

  lemma OneRemoved(e: Entry, items: seq<Undo>, i: nat, d: PluginDescription, group: string, key: string)
    requires i < |items|
    ensures Removed(e, items[..i + 1], d, group, key) ==
            var before := Removed(e, items[..i], d, group, key);
            if Concerns(items[i], d, group, key) then RemoveEntry(before) else before
  {
    assert items[..i + 1] == items[..i] + [items[i]];
    RemovedAppend(e, items[..i], [items[i]], d, group, key);
    assert [items[i]][1..] == [];
  }

  lemma OneMore(changes: seq<Change>, c: Change)
    ensures UndoAll(changes + [c]) == [UndoOf(c)] + UndoAll(changes)
    ensures forall e, d, group, key ::
              Overridden(e, changes + [c], d, group, key) ==
              var before := Overridden(e, changes, d, group, key);
              if Concerns(UndoOf(c), d, group, key) then OverrideEntry(before, c.setting.value) else before
  {
    UndoAllLast(changes + [c]);
    assert (changes + [c])[..|changes|] == changes;
  }

  /** The part of AnjutaProfile that keeps the settings in effect. */
  class Configuration {
    var configuration: seq<Undo>

    constructor ()
      ensures configuration == []
    {
      configuration := [];
    }

    /** One setting of one plugin. */
    method Apply(c: Change, ghost descriptions: set<PluginDescription>)
      requires Started(descriptions) && c.handle.description in descriptions
      modifies this, descriptions
      ensures Started(descriptions)
      ensures configuration == [UndoOf(c)] + old(configuration)
      ensures forall d, group: string, key: string | d in descriptions ::
                Lookup(d.sections, group, key) ==
                if Concerns(UndoOf(c), d, group, key) then OverrideEntry(old(Lookup(d.sections, group, key)), c.setting.value)
                else old(Lookup(d.sections, group, key))
    {
      var ok := c.handle.description.Override(c.setting.group, c.setting.key, c.setting.value);
      configuration := [UndoOf(c)] + configuration;
    }

    /** anjuta_profile_configure_plugins, the settings of one plugin. */
    method ConfigurePlugin(handle: PluginHandle, settings: seq<Setting>, ghost descriptions: set<PluginDescription>)
      returns (ghost changes: seq<Change>)
      requires Started(descriptions) && handle.description in descriptions
      modifies this, descriptions
      ensures Started(descriptions) && changes == ChangesOfPlugin(handle, settings)
      ensures configuration == UndoAll(changes) + old(configuration)
      ensures Configured(descriptions, changes)
    {
      changes := [];
      assert UndoAll([]) + configuration == configuration;
      var s := 0;
      while s < |settings|
        invariant 0 <= s <= |settings| && Started(descriptions)
        invariant changes + ChangesOfPlugin(handle, settings[s..]) == ChangesOfPlugin(handle, settings)
        invariant configuration == UndoAll(changes) + old(configuration)
        invariant Configured(descriptions, changes)
      {
        assert settings[s..][1..] == settings[s + 1..];
        var c := Change(handle, settings[s]);
        Apply(c, descriptions);
        OneMore(changes, c);
        changes := changes + [c];
        s := s + 1;
      }
      assert settings[s..] == [] && changes + [] == changes;
    }

    /** anjuta_profile_configure_plugins, the settings of one group of plugins. */
    method ConfigureGroup(handles: seq<PluginHandle>, settings: seq<Setting>,
                          ghost descriptions: set<PluginDescription>) returns (ghost changes: seq<Change>)
      requires Started(descriptions) && forall h | h in handles :: h.description in descriptions
      modifies this, descriptions
      ensures Started(descriptions) && changes == ChangesOfGroup(handles, settings)
      ensures configuration == UndoAll(changes) + old(configuration)
      ensures Configured(descriptions, changes)
    {
      changes := [];
      assert UndoAll([]) + configuration == configuration;
      var p := 0;
      while p < |handles|
        invariant 0 <= p <= |handles| && Started(descriptions)
        invariant changes + ChangesOfGroup(handles[p..], settings) == ChangesOfGroup(handles, settings)
        invariant configuration == UndoAll(changes) + old(configuration)
        invariant Configured(descriptions, changes)
      {
        assert handles[p..][1..] == handles[p + 1..] && handles[p] in handles;
        ghost var more := ConfigurePlugin(handles[p], settings, descriptions);
        Several(changes, more);
        Associative(UndoAll(more), UndoAll(changes), old(configuration));
        Associative(changes, more, ChangesOfGroup(handles[p + 1..], settings));
        changes := changes + more;
        p := p + 1;
      }
      assert handles[p..] == [] && changes + [] == changes;
    }

    /** anjuta_profile_configure_plugins */
    method ConfigurePlugins(handlesList: seq<seq<PluginHandle>>, configList: seq<seq<Setting>>,
                            ghost descriptions: set<PluginDescription>) returns (ghost changes: seq<Change>)
      requires |handlesList| == |configList|
      requires Started(descriptions) && forall g | g in handlesList :: forall h | h in g :: h.description in descriptions
      modifies this, descriptions
      ensures Started(descriptions) && changes == AllChanges(handlesList, configList)
      ensures configuration == UndoAll(changes) + old(configuration)
      ensures Configured(descriptions, changes)
      ensures forall d, group: string, key: string, k: nat {:trigger LastOf(changes, k, d, group, key)}
                | d in descriptions && LastOf(changes, k, d, group, key) ::
                var e := Lookup(d.sections, group, key); e.Entry? && e.value == Some(changes[k].setting.value)
    {
      changes := [];
      assert UndoAll([]) + configuration == configuration;
      var g := 0;
      while g < |handlesList|
        invariant 0 <= g <= |handlesList| && Started(descriptions)
        invariant changes + AllChanges(handlesList[g..], configList[g..]) == AllChanges(handlesList, configList)
        invariant configuration == UndoAll(changes) + old(configuration)
        invariant Configured(descriptions, changes)
      {
        assert handlesList[g..][1..] == handlesList[g + 1..] && configList[g..][1..] == configList[g + 1..];
        assert handlesList[g] in handlesList;
        ghost var more := ConfigureGroup(handlesList[g], configList[g], descriptions);
        Several(changes, more);
        Associative(UndoAll(more), UndoAll(changes), old(configuration));
        Associative(changes, more, AllChanges(handlesList[g + 1..], configList[g + 1..]));
        changes := changes + more;
        g := g + 1;
      }
      assert changes + [] == changes;
      forall d, group: string, key: string, k: nat {:trigger LastOf(changes, k, d, group, key)}
        | d in descriptions && LastOf(changes, k, d, group, key)
        ensures var e := Lookup(d.sections, group, key); e.Entry? && e.value == Some(changes[k].setting.value)
      {
        LastReads(old(Lookup(d.sections, group, key)), changes, k, d, group, key);
      }
    }

    /** anjuta_profile_unconfigure_plugins */
    method UnconfigurePlugins(ghost descriptions: set<PluginDescription>)
      requires Started(descriptions) && forall u | u in configuration :: u.handle.description in descriptions
      modifies this, descriptions
      ensures Started(descriptions) && configuration == []
      ensures Unconfigured(descriptions, old(configuration))
    {
      var items := configuration;
      var i := 0;
      while i < |items|
        invariant 0 <= i <= |items| && items == old(configuration) && Started(descriptions)
        invariant Unconfigured(descriptions, items[..i])
      {
        var u := items[i];
        assert u in items;
        var ok := u.handle.description.Remove(u.group, u.key);
        forall d, group: string, key: string | d in descriptions
          ensures Lookup(d.sections, group, key) == Removed(old(Lookup(d.sections, group, key)), items[..i + 1], d, group, key)
        {
          OneRemoved(old(Lookup(d.sections, group, key)), items, i, d, group, key);
        }
        i := i + 1;
      }
      assert items[..i] == items;
      configuration := [];
    }

    /** The settings of a profile from its load to its unload: afterwards every key
        of every description reads as before. */
    method ConfigureAndUnconfigure(handlesList: seq<seq<PluginHandle>>, configList: seq<seq<Setting>>,
                                   ghost descriptions: set<PluginDescription>)
      requires configuration == [] && |handlesList| == |configList|
      requires Started(descriptions) && forall g | g in handlesList :: forall h | h in g :: h.description in descriptions
      modifies this, descriptions
      ensures configuration == []
      ensures forall d, group: string, key: string | d in descriptions ::
                && Lookup(d.sections, group, key) ==
                   Restored(old(Lookup(d.sections, group, key)), AllChanges(handlesList, configList), d, group, key)
                && Seen(Lookup(d.sections, group, key)) == Seen(old(Lookup(d.sections, group, key)))
    {
      ghost var changes := ConfigurePlugins(handlesList, configList, descriptions);
      assert configuration == UndoAll(changes);
      UndosKnown(handlesList, configList, descriptions);
      UnconfigurePlugins(descriptions);
      forall d, group: string, key: string | d in descriptions
        ensures Lookup(d.sections, group, key) == Restored(old(Lookup(d.sections, group, key)), changes, d, group, key)
        ensures Seen(Lookup(d.sections, group, key)) == Seen(old(Lookup(d.sections, group, key)))
      {
        UndoLeaves(old(Lookup(d.sections, group, key)), changes, d, group, key);
        UndoRestores(old(Lookup(d.sections, group, key)), changes, d, group, key);
      }
    }
  }
}
