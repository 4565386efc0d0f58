# A verified model of the Anjuta core library

This project models six components of `libanjuta`, the library under the Anjuta
IDE, and proves what they promise.  `dafny verify dfyconfig.toml` checks all of it.

* **Plugins.**  A handle names the plugins it needs.  Resolution
  (`plugin_graph.dfy`, `dependency_resolution.dfy`) fills every handle's dense tables
  by a memoised depth-first search and sorts the handles by table size; a cycle that
  it meets is collected by a search of its own (`cycle_collection.dfy`), and which cycles
  it meets is a function of the graph (`cycle_warnings.dfy`).  The plugin manager
  (`plugin_manager.dfy`) walks that order to load or unload a plugin with all it
  needs or all that need it; a profile (`profile.dfy`, `profile_configuration.dfy`)
  exchanges whole plugin sets and overrides metadata; the profile manager
  (`profile_stack.dfy`, `profile_manager.dfy`) keeps a stack of profiles, where
  loading one may push, pop, freeze or thaw in turn, and `profile_run.dfy` puts both
  managers together.  `plugin_query.dfy` finds plugins by their metadata.
* **Plugin descriptions.**  The text format as functions with its laws
  (`description_text.dfy`), a grammar that says without them which texts are accepted and
  how descriptions are printed (`description_grammar.dfy`), the parser with its cursor
  (`description_parser.dfy`), and the sections in memory with the printer and the override
  stack (`plugin_description.dfy`).
* **Completion.**  A lazily sorted index with a cached range (`completion_index.dfy`,
  `completion.dfy`).
* **Project tree.**  Linked nodes described by the list of children of every node
  (`project_tree.dfy`), and the walks that follow the links while a callback cuts them
  (`project_traversal.dfy`).
* **Sessions.**  The re-entrant loading loop (`session_load.dfy`) and the string lists
  (`session_list.dfy`).
* **Launcher and command queue.**  Line buffering of a stream (`launcher.dfy`) and the
  one-at-a-time scheduler (`command_queue.dfy`).

`options.dfy`, `sequences.dfy`, `string_comparison.dfy` and `list_sort.dfy` are shared.

Code that changes state is modelled by classes and loops; each method is proved
against a function or a property of its inputs, and the laws are lemmas about those
functions.  Callbacks become parameters: `refusing` is the set of plugins whose
`activate` or `deactivate` answers FALSE, `unreadable` the set of profiles whose files
cannot be read, and `reactions` lists the calls that handlers make during the n-th load
or emission from now, so that theorems hold for every finite pattern of nested calls.
Recursion that nothing in the code bounds gets a stack of a given depth.

What the proofs brought to light, each stated exactly:

* Cycle pruning is switched off in the code (`cycle = NULL`,
  `libanjuta/anjuta-plugin-manager.c:347`), although the comment above promises it.
  Resolution warns of a cycle if and only if there is one; without cycles the tables
  and the order are exactly right.
* The search that collects a cycle for the warning does not remember where it has been.
  A plugin on one cycle that needs, first, a plugin on another one sends it round that
  other cycle until the stack overflows (`SideCycleOverflows`), and resolution does warn
  of it (`SideCycleWarned`).  `CollectEnds` says for
  which graphs it comes back: always taking the first dependency that leads to the goal
  must lead there, past nothing but dependencies from which no cycle can be reached.
* `can_load` is overwritten by each dependency in turn, so the last one decides, where
  the comment says that a plugin cannot load when any child cannot.  The two agree
  everywhere exactly when the last dependency decides everywhere
  (`VerdictIsDocumented`), and `VerdictOverlooksMissing` is a plugin that is reported
  loadable without one of its dependencies.
* One refusal can leave an active plugin without a plugin that it needs
  (`RefusalLeavesGap`).  The active set
  is closed after every single step of an update exactly when it is closed before and
  after the update (`UpdateClosed`), and `LoadEndsClosed` and `UnloadEndsClosed` say in
  terms of the graph and the refusals when it ends closed.
* A plugin that refuses to stop when all plugins are unloaded is forgotten while it stays
  activated, and the next load of its handle makes a second live object (`Restart`).  In
  every other operation exactly the objects in the table of active plugins are activated.
* Loading a profile leaves exactly its plugins and the pinned ones if and only if that
  set is closed under dependencies.  What it leaves otherwise is stated too (`Loaded`): a
  plugin that is unloaded with another one does not come back, even if the profile lists
  it (`IncompleteProfile`).  A "system" profile pins only the plugins that it
  activates itself, so a dependency that was active before is not pinned with them.
  Loaded first, it keeps its plugins active through all later loads (`LoadSystemFirst`).
* A profile follows activations, but for plugins excluded from sessions, so that
  activating one of those puts it out of step with the active set; `FollowKeepsSync` says
  exactly when it stays in step.
* A profile that is loaded or removed while another one activates its plugins leaves the
  other connected to the plugin manager: it is disconnected first and connects
  afterwards.  As long as that does not happen, exactly the current profile is connected
  (`OnlyTheCurrentProfileFollows`); for one load the converse holds too (`NestedLoad`,
  `NestedLoads`), and `BothFollow` is the smallest failing run.  Calls from the "scoped"
  signal are harmless.  However loads nest, every push, freeze and thaw made in a load that
  happens takes effect exactly once (`CallsMade`).
* Pushing a profile returns FALSE while the manager is frozen, which is documented as
  failure, although the push succeeds (`Verdict`).
* A key that a profile setting adds to a description keeps a NULL value when the setting
  is taken back (`UndoLeaves`), and a query for such a key dereferences NULL
  (`SettingsBreakQueries`, `AddedKeyBreaksQueries`).
* A description that ends in a comment, a blank or a section line without a newline
  sends the parser's cursor past the end of the text (`MissingFinalNewline`,
  `CommentOverrun`).
* Removing a project node that only has its parent filled in cuts off all children of
  that parent (`Remove`).
* When a session has been loaded, the slot is cleared without releasing the session in
  it: one reference is lost for every outermost call (`SessionLoad`).
* When the launcher ends with an unfinished line on the error stream, it frees the buffer
  of the output stream in its place (`Flush`).
* A command that is pushed twice can have two others started together
  (`RepeatedCommand`); `OneAtATime` says exactly when, and commands that are pushed once
  do run one at a time (`FinishedOnce`).

## Model

| member | source | states |
|---|---|---|
| DependencyResolution.AddDependency | libanjuta/anjuta-plugin-manager.c:178-185 | one pair is entered in both tables, which stay each other's inverse |
| DependencyResolution.AddDependencies | libanjuta/anjuta-plugin-manager.c:187-192 | the child and its whole dense table are inherited, and the tables stay inverse |
| DependencyResolution.InheritFrom | libanjuta/anjuta-plugin-manager.c:246-255 | after a checked child has been merged, the plugin's table is its closure over one dependency name more, and `can_load` is the child's |
| DependencyResolution.InheritNothing | libanjuta/anjuta-plugin-manager.c:256-260 | an unknown name brings in nothing and settles `can_load` to FALSE for now |
| DependencyResolution.ResolveChild | libanjuta/anjuta-plugin-manager.c:232-261 | one turn of the search: warnings name only plugins on cycles; unless the stack overflows in one, open plugins are left as they were, and without a warning the next dependency is resolved |
| DependencyResolution.ResolveName | libanjuta/anjuta-plugin-manager.c:232-261 | one turn for any dependency name, known or not; it leaves the rest of the search on sets to do |
| DependencyResolution.ResolveForModule | libanjuta/anjuta-plugin-manager.c:199-265 | the search warns of exactly what the search on sets warns of, and the list returned is the one collected for it; there is no answer only if that collection overflows the stack; else the plugin ends checked, unless it was being visited, and without a warning every checked plugin has exactly its transitive dependencies |
| DependencyResolution.ResolveAll | libanjuta/anjuta-plugin-manager.c:339-354 | the loop finishes exactly when the stack holds the collection of every cycle that the graph and the order of the plugins make it warn of, and then those are the warnings and every available plugin is checked; without warnings the dense tables are exact |
| DependencyResolution.SortBySize | libanjuta/anjuta-plugin-manager.c:302-310 | a permutation in which the sizes of the dense tables do not fall and plugins with tables of equal size keep their order |
| DependencyResolution.ResolveDependencies | libanjuta/anjuta-plugin-manager.c:312-360 | a warning is given if and only if the graph has a cycle; without one resolution finishes, dependencies is exactly reachability, dependents its inverse, and no plugin comes before one it needs; with cycles it finishes exactly when all those that it warns of, a function of the graph and the order, can be collected; whenever it finishes, the result is the available plugins by the size of their tables, those of equal size in the order in which they were |
| CycleWarnings.SideCycleWarned | libanjuta/anjuta-plugin-manager.c:199-265 | on the graph of `SideCycleOverflows` both cycles are warned of, so that no stack is deep enough for resolution |
| CycleCollection.CollectCycle | libanjuta/anjuta-plugin-manager.c:141-176 | the loop computes `Collect`, the search for the way back to a plugin on a stack of a given depth |
| CycleCollection.CollectFinds | libanjuta/anjuta-plugin-manager.c:141-176 | a search that ends finds a way exactly when the plugin can be reached, and what it returns is such a way |
| CycleCollection.CollectEnds | libanjuta/anjuta-plugin-manager.c:141-176 | with some stack the search ends, if and only if the graph lets it: no cycle below a start that does not reach the goal, else a finite way of first leading dependencies with no cycle below the ones passed over |
| CycleCollection.EnoughStack | libanjuta/anjuta-plugin-manager.c:141-176 | if every cycle can be collected, one finite stack is deep enough for all |
| CycleCollection.SideCycleOverflows | libanjuta/anjuta-plugin-manager.c:141-176 | a graph with two cycles on which no stack is deep enough |
| DependencyResolution.AllCheckedIsResolution | libanjuta/anjuta-plugin-manager.c:312-328 | exact tables for all plugins that the search checked imply that there is no cycle |
| DependencyResolution.SizeOrderIsLoadOrder | libanjuta/anjuta-plugin-manager.c:302-310 | sorting by the size of the closure is a topological order |
| PluginGraph.ClosureShrinks | libanjuta/anjuta-plugin-manager.c:302-310 | the closure of a dependency that is on no cycle is a proper subset of its dependent's |
| PluginGraph.ClosureComplete | libanjuta/anjuta-plugin-manager.c:232-261 | what all dependency names bring in together is exactly the set of reachable plugins |
| PluginGraph.VerdictComplete | libanjuta/anjuta-plugin-manager.c:252-258 | overwriting the verdict name by name ends in the verdict of the last name, followed through the graph |
| PluginGraph.VerdictIsDocumented | libanjuta/anjuta-plugin-manager.c:252-258 | `can_load` is "all dependencies can load" for every plugin exactly when the last dependency decides for every plugin |
| PluginGraph.VerdictOverlooksMissing | libanjuta/anjuta-plugin-manager.c:252-258 | a plugin with a missing first and a present last dependency is reported loadable |
| PluginGraph.KnownNotBlocked | libanjuta/anjuta-plugin-manager.c:254-258 | with no name missing every plugin can load |
| ListSort.SortOrdered | libanjuta/anjuta-plugin-manager.c:358-359 | the sort of GLib puts the elements in order |
| ListSort.SortStable | libanjuta/anjuta-plugin-manager.c:358-359 | and does not exchange elements that compare equal |
| PluginManagement.PluginManager.OnPluginActivated | libanjuta/anjuta-plugin-manager.c:489-509 | the handle moves from the cache to the active plugins |
| PluginManagement.PluginManager.OnPluginDeactivated | libanjuta/anjuta-plugin-manager.c:511-530 | the handle moves from the active plugins to the cache |
| PluginManagement.PluginManager.ActivateObject | libanjuta/anjuta-plugin.c:518-536 | activation happens exactly when the object is inactive and agrees; else nothing changes |
| PluginManagement.PluginManager.DeactivateObject | libanjuta/anjuta-plugin.c:548-566 | deactivation happens exactly when the object is active and agrees; else nothing changes |
| PluginManagement.PluginManager.ProvideObject | libanjuta/anjuta-plugin-manager.c:727-737 | the cached object of a handle, or else a fresh inactive one |
| PluginManagement.PluginManager.Activate | libanjuta/anjuta-plugin-manager.c:727-742 | a cached object is activated again, or else a fresh one; active and cached handles stay disjoint; if of all objects exactly those of active handles were activated, they still are |
| PluginManagement.ActivatedRight | libanjuta/anjuta-plugin-manager.c:489-509 | activating the object of an inactive handle keeps tables and flags right, whichever object it is |
| PluginManagement.OnwardsTransitive | libanjuta/anjuta-plugin-manager.c:681-765 | over any number of steps no handle loses or changes its object, new objects are new, and forgotten ones are left alone |
| PluginManagement.PluginManager.Deactivate | libanjuta/anjuta-plugin-manager.c:708-717 | the object goes to the cache and keeps its handle |
| PluginManagement.PluginManager.ConsiderLoading | libanjuta/anjuta-plugin-manager.c:722-759 | one turn of the loading loop: the plugin is activated, with its signal, exactly when it is wanted, inactive and agrees |
| PluginManagement.PluginManager.Load | libanjuta/anjuta-plugin-manager.c:720-760 | activates, in load order, exactly the wanted inactive plugins that agree, with these signals and no others; no handle changes its object |
| PluginManagement.PluginManager.ConsiderUnloading | libanjuta/anjuta-plugin-manager.c:705-718 | one turn of the unloading loop: the plugin is deactivated, with its signal, exactly when it is active, has to go and agrees |
| PluginManagement.PluginManager.Unload | libanjuta/anjuta-plugin-manager.c:701-719 | deactivates, in reverse order, exactly the plugin and its active dependents that agree, with these signals and no others |
| PluginManagement.PluginManager.PluginSetUpdate | libanjuta/anjuta-plugin-manager.c:681-765 | the active set gains the plugin and its closure, or loses it and its dependents, but for those that refuse; it is closed under dependencies after every single step if and only if it is closed before and after |
| PluginManagement.PluginManager.GetPluginByHandle | libanjuta/anjuta-plugin-manager.c:1537-1556 | loads what is needed, with the signals of an update, and returns the active object, or null when the handle could not be activated |
| PluginManagement.PluginManager.UnloadPluginByHandle | libanjuta/anjuta-plugin-manager.c:1610-1624 | unloads the plugin and its dependents, with the signals of an update, and tells whether it is gone |
| PluginManagement.PluginManager.DeactivateAll | libanjuta/anjuta-plugin-manager.c:576-590 | every active plugin that agrees is deactivated, dependents first, and the refusing ones are what is left |
| PluginManagement.DroppedRight | libanjuta/anjuta-plugin-manager.c:592-605 | when the tables are dropped the activated flags agree with them exactly if nothing was active |
| PluginManagement.PluginManager.UnloadAllPlugins | libanjuta/anjuta-plugin-manager.c:569-609 | every active plugin that agrees is deactivated, dependents first; the active set is closed at every step exactly when it was closed and the refusing ones among it are; at the end no handle is active or cached, but the objects of those that refused stay activated, and so the flags agree with the tables exactly when none refused |
| PluginManagement.PluginManager.Restart | libanjuta/anjuta-plugin-manager.c:569-609 | a plugin that refused is still running when its handle is loaded again, with a second object |
| PluginManagement.StartsClosed | libanjuta/anjuta-plugin-manager.c:720-760 | the signals of a loading loop bring in exactly its goal, closed at every step if and only if at both ends |
| PluginManagement.LoadStepClosed | libanjuta/anjuta-plugin-manager.c:722-728 | in load order, every stage of a load with closed ends is closed |
| PluginManagement.StopsClosed | libanjuta/anjuta-plugin-manager.c:701-719 | the signals of an unloading loop take out exactly its goal, closed at every step if and only if at both ends |
| PluginManagement.UnloadStepClosed | libanjuta/anjuta-plugin-manager.c:703-718 | in reverse order, every stage of an unload with closed ends is closed |
| PluginManagement.StopsAll | libanjuta/anjuta-plugin-manager.c:569-609 | when all are asked to stop, exactly those that refuse are left |
| PluginManagement.UpdateClosed | libanjuta/anjuta-plugin-manager.c:681-765 | an update is closed at every step if and only if it is closed before and after |
| PluginManagement.LoadEndsClosed | libanjuta/anjuta-plugin-manager.c:631-660 | a load ends closed if and only if nothing that it brings in needs an inactive plugin that refuses or is known not to be loadable |
| PluginManagement.RefusalLeavesGap | libanjuta/anjuta-plugin-manager.c:722-759 | a plugin is activated although the only one that it needs refuses |
| PluginManagement.UnloadEndsClosed | libanjuta/anjuta-plugin-manager.c:611-629 | an unload ends closed if and only if no active plugin that refuses to stop needs one that stops |
| PluginManagement.AlwaysClosedAppend | libanjuta/anjuta-plugin-manager.c:681-765 | of updates that follow one another the whole keeps the set closed at every step if and only if each does |
| Profiles.Profile.UnloadOthers | libanjuta/anjuta-profile.c:1307-1319 | exactly what is neither wanted nor pinned goes, with all that need it |
| Profiles.Profile.ActivatePlugins | libanjuta/anjuta-plugin-manager.c:2523-2579 | the plugins come in with all that they need, and nothing else |
| Profiles.Profile.Pin | libanjuta/anjuta-profile.c:1345-1352 | only the system profile pins, and only the plugins that it is about to activate |
| Profiles.Profile.Load | libanjuta/anjuta-profile.c:1296-1372 | the active set afterwards, for any profile: what is not to be kept is gone with all that need it, what was not active has come in with all that it needs; it is closed, and it is the profile's plugins and the pinned ones if and only if that set is closed |
| Profiles.LoadedIs | libanjuta/anjuta-profile.c:1296-1372 | the set that a load leaves is closed, and is the kept one if and only if that is closed |
| Profiles.IncompleteProfile | libanjuta/anjuta-profile.c:1307-1352 | a profile that lists a plugin without what it needs, loaded while both are active, leaves neither |
| Profiles.Profile.Follow | libanjuta/anjuta-profile.c:406-431 | a connected profile follows activations, but for plugins excluded from sessions, and deactivations |
| Profiles.FollowKeepsSync | libanjuta/anjuta-profile.c:401-431 | through any run of activations and deactivations a profile in step with the active set is in step at the end if and only if every active plugin that is excluded from sessions belongs to it, or is pinned, all the same |
| Profiles.ExcludedOutOfStep | libanjuta/anjuta-profile.c:401-413 | activating an excluded plugin puts a profile out of step |
| Profiles.RunKeepsPinned | libanjuta/anjuta-profile.c:1296-1372 | over any run of loads of closed sets the pinned plugins stay, and going back to a profile that was in step restores the active set |
| Profiles.Profile.LoadOver | libanjuta/anjuta-profile.c:1296-1372 | a profile with a closed set, loaded over closed pinned plugins, leaves exactly its plugins and the pinned ones |
| Profiles.Profile.LoadPinning | libanjuta/anjuta-profile.c:1345-1352 | a system profile loaded when nothing is active pins exactly its plugins |
| Profiles.LoadInTurn | libanjuta/anjuta-profile.c:1296-1372 | on the plugin manager itself, for any list of profiles with closed sets, among them system profiles whose plugins are pinned already: the pinned plugins stay active, the active set ends as the last profile's plugins and the pinned ones, and only the last profile is connected |
| Profiles.LoadSystemFirst | libanjuta/anjuta-profile.c:1296-1372 | from an empty manager, a system profile and then any list of profiles with closed sets, the system profile included: the plugins of the system profile are exactly the pinned ones and are active at the end, with those of the last profile |
| ProfileRuns.StepCurrent | libanjuta/anjuta-profile-manager.c:243-417 | after a call that loads profiles, the last one loaded is current; after one that loads none, the loaded profiles are what they were, or none is left |
| ProfileRuns.Loads | libanjuta/anjuta-profile-manager.c:243-273 | without nested calls the loop loads all that is pending, the oldest first, and nothing while frozen |
| ProfileRuns.PerformAll | libanjuta/anjuta-profile-manager.c:243-417 | for every run of pushes, pops, freezes and thaws from an empty manager that ends unfrozen: the active plugins are those of the profile on top of the stack of the calls, and the pinned ones |
| ProfileConfiguration.Configuration.Apply | libanjuta/anjuta-profile.c:535-577 | one setting overrides one key of one description, every other key reads as before, and the undo entry is put in front |
| ProfileConfiguration.Configuration.ConfigurePlugins | libanjuta/anjuta-profile.c:535-577 | the changes of all groups are made in order, with their undo entries, and a key reads as the last setting that concerns it |
| ProfileConfiguration.AllChangesAre | libanjuta/anjuta-profile.c:547-571 | a change is made exactly when some group holds its plugin and the list of that group holds its setting |
| ProfileConfiguration.PluginChanges | libanjuta/anjuta-profile.c:558-567 | a plugin gets each setting of the list once, in order |
| ProfileConfiguration.PluginsInTurn | libanjuta/anjuta-profile.c:552-568 | the plugins of a group get the settings one after the other |
| ProfileConfiguration.GroupsInTurn | libanjuta/anjuta-profile.c:547-571 | the groups come one after the other |
| ProfileConfiguration.LastReads | libanjuta/anjuta-profile.c:558-567 | after any changes a key reads as the last setting that concerns it |
| ProfileConfiguration.Configuration.UnconfigurePlugins | libanjuta/anjuta-profile.c:580-608 | every recorded key is removed again, the latest first, and the list is emptied |
| ProfileConfiguration.Configuration.ConfigureAndUnconfigure | libanjuta/anjuta-profile.c:535-608 | every key of every description reads as before and has as many overridden values, even when one key was set several times |
| ProfileConfiguration.UndoRestores | libanjuta/anjuta-profile.c:535-608 | the undo list of any list of changes gives back the value and the override stack of every entry |
| ProfileConfiguration.UndoLeaves | libanjuta/anjuta-profile.c:535-608 | after settings have been applied and taken back, a key that was there is as before; one that was not is there with a NULL value if and only if some setting touched it |
| ProfileStack.LoadProfile | libanjuta/anjuta-profile.c:1296-1372 | a profile that cannot be read changes nothing; else one load more has happened and, whatever the nested calls do, the log of calls only grows and is the stack, the current profile ends connected, and nothing is left pending; if no later load calls the manager, the stack is what the calls made while the plugins are activated, and then those made from "scoped", leave of it |
| ProfileStack.LoadProfiles | libanjuta/anjuta-profile-manager.c:243-273 | queue and loaded profiles remain the stack of the calls logged, the queue ends empty unless the manager is frozen, and without nested calls the stack and the log are unchanged |
| ProfileStack.Verdict | libanjuta/anjuta-profile-manager.c:243-273 | the verdict of the loop is FALSE when nothing is loaded; when all profiles can be read it is TRUE exactly when something is; without nested calls it tells whether the top of the queue can be read |
| ProfileStack.PushProfile | libanjuta/anjuta-profile-manager.c:302-314 | the push is logged before what its loads do, and the stack remains that of the log; without nested calls the stack is the profile on top of what it was |
| ProfileStack.PopProfile | libanjuta/anjuta-profile-manager.c:330-372 | a pop of the top of the stack is logged before what its load does, and any other changes nothing; without nested calls the stack loses its top |
| ProfileStack.FreezeManager | libanjuta/anjuta-profile-manager.c:383-391 | only the count rises |
| ProfileStack.ThawManager | libanjuta/anjuta-profile-manager.c:404-417 | the thaw is logged before what its loads do, nothing is left pending unless still frozen; without nested calls the stack is unchanged and a positive count is one lower |
| ProfileStack.Step | libanjuta/anjuta-profile-manager.c:243-417 | a call that takes effect is logged first, and any other changes nothing; the state remains what its log says |
| ProfileStack.Perform | libanjuta/anjuta-profile-manager.c:243-417 | every sequence of calls keeps: queue and loaded profiles are the stack of the calls logged, the log only grows, the current profile is followed, nothing is pending unless frozen; when loads do not nest, the stack is a function of the calls alone |
| ProfileStack.CallsMade | libanjuta/anjuta-profile.c:1340-1368 | for every run from an empty manager and every pattern of nested calls: the calls made from outside, and those made before and after the connection by the loads that have happened, have taken effect once each, a pop at most once, and no others have |
| ProfileStack.PerformMakes | libanjuta/anjuta-profile-manager.c:243-417 | from any state, what has taken effect or is still to be made in loads is conserved but for the calls made from outside |
| ProfileStack.Current | libanjuta/anjuta-profile-manager.c:428-439 | the current profile is the top of the stack |
| ProfileStack.EveryRun | libanjuta/anjuta-profile-manager.c:243-439 | for every run from an empty manager, every pattern of nested calls and every call in the run: it is logged before what its loads do, or refused and without effect; queue and loaded profiles are the stack of the log, its top is the current profile and is connected if it could be read, and nothing is pending unless frozen |
| ProfileStack.OnlyTheCurrentProfileFollows | libanjuta/anjuta-profile-manager.c:249-270 | over every run and every nesting in which no profile is loaded or removed while another is being activated, exactly the current profile is connected, and once |
| ProfileStack.PlainCalm | libanjuta/anjuta-profile-manager.c:249-270 | when loads call nothing, every run is such |
| ProfileStack.NestedLoad | libanjuta/anjuta-profile-manager.c:265-270 | after a profile has been activated and has connected, exactly it is connected if and only if the calls made in its activation load and remove nothing |
| ProfileStack.LoadsAll | libanjuta/anjuta-profile-manager.c:250-270 | whatever the loads do, a manager that ends unfrozen has loaded the whole stack; without nested calls that is what was pending, the oldest loaded first |
| ProfileStack.FreezeDefers | libanjuta/anjuta-profile-manager.c:374-417 | while frozen a push waits, nothing is loaded and nothing loaded changes; a thaw that is not the last one only lowers the count; after the last one nothing is pending |
| ProfileStack.NestedLoads | libanjuta/anjuta-profile-manager.c:265-270 | after a push, a pop or a thaw that loads one profile, exactly the current profile is connected if and only if the calls made during the activation load and remove nothing |
| ProfileStack.BothFollow | libanjuta/anjuta-profile-manager.c:265-270 | a profile that pushes another one while it is activated leaves both connected |
| ProfileManagement.ProfileManager.Load | libanjuta/anjuta-profile.c:1296-1372 | computes `LoadProfile`: the calls made while the plugins are activated, the connection of the handlers, the calls made from "scoped"; and nothing at all for a profile that cannot be read |
| ProfileManagement.ProfileManager.LoadQueue | libanjuta/anjuta-profile-manager.c:243-273 | the loop computes `LoadProfiles` and returns the verdict of the last load in it |
| ProfileManagement.ProfileManager.Push | libanjuta/anjuta-profile-manager.c:302-314 | computes `PushProfile` and returns the verdict of its loop |
| ProfileManagement.ProfileManager.Pop | libanjuta/anjuta-profile-manager.c:330-372 | computes `PopProfile`, and succeeds exactly for the current profile when the next one, if it is to be loaded, can be read |
| ProfileManagement.ProfileManager.Thaw | libanjuta/anjuta-profile-manager.c:404-417 | computes `ThawManager` and returns the verdict of its loop |
| ProfileManagement.ProfileManager.GetCurrent | libanjuta/anjuta-profile-manager.c:428-439 | returns the top of the stack |
| PluginQueries.LeftmostSuffices | libanjuta/anjuta-plugin-manager.c:1757-1768 | taking the leftmost occurrence misses no placement |
| PluginQueries.StarMatch | libanjuta/anjuta-plugin-manager.c:1747-1774 | a pattern matches exactly when its segments can be placed in the value in order without overlap |
| PluginQueries.PlaceableExactly | libanjuta/anjuta-plugin-manager.c:1757-1768 | that is, exactly when there are positions for the segments, each behind the end of the one before |
| PluginQueries.SplitJoin | libanjuta/anjuta-plugin-manager.c:1242-1246 | the pieces of a split hold no separator and join to the text |
| PluginQueries.JoinPieces | libanjuta/anjuta-plugin-manager.c:1242-1246 | pieces without a separator that are joined are found again |
| PluginQueries.StripDrops | libanjuta/anjuta-plugin-manager.c:1244-1244 | stripping removes the blanks on both sides and no others |
| PluginQueries.PropertyToList | libanjuta/anjuta-plugin-manager.c:1236-1249 | the loop computes the list of elements of the text between the commas |
| PluginQueries.ElementsAt | libanjuta/anjuta-plugin-manager.c:1243-1246 | there is one element for each piece, the piece without the blanks around it, last first |
| PluginQueries.JudgedPieces | libanjuta/anjuta-plugin-manager.c:1736-1790 | a value of pieces joined by commas satisfies a query exactly when some piece, without the blanks around it, matches; an empty value satisfies none |
| PluginQueries.MatchesElement | libanjuta/anjuta-plugin-manager.c:1745-1779 | places in order for the segments of an element with a star, else the same letters one by one without regard to case |
| PluginQueries.MatchesCondition | libanjuta/anjuta-plugin-manager.c:1733-1790 | a condition holds exactly when the key is there and some element matches; for a key with a NULL value there is no answer |
| PluginQueries.VerdictOf | libanjuta/anjuta-plugin-manager.c:1733-1790 | a plugin is selected exactly when all conditions hold; the query breaks off exactly when the first that does not hold is on a NULL value |
| PluginQueries.SettingsBreakQueries | libanjuta/anjuta-plugin-manager.c:1236-1249 | after settings have been applied and taken back, exactly the keys that had a NULL value before, and those that the settings had added, have no answer |
| PluginQueries.AddedKeyBreaksQueries | libanjuta/anjuta-plugin-manager.c:1236-1249 | one setting of a key that is not there, taken back, breaks every query for the key |
| PluginQueries.AnswerHolds | libanjuta/anjuta-plugin-manager.c:1680-1809 | the answer holds exactly the available plugins that are offered and satisfy every condition; there is none exactly when an offered plugin breaks the query off |
| PluginQueries.AnswerInOrder | libanjuta/anjuta-plugin-manager.c:1680-1809 | the answer is in the order of the available plugins |
| PluginQueries.ListQuery | libanjuta/anjuta-plugin-manager.c:1680-1809 | the loop computes this answer |
| DescriptionText.UnescapeEscape | libanjuta/anjuta-plugin-description.c:190-307 | unescaping undoes escaping |
| DescriptionText.EscapeSafe | libanjuta/anjuta-plugin-description.c:254-307 | escaped text has no newline, and no leading space when that is asked for |
| DescriptionText.ParsedIsWellFormed | libanjuta/anjuta-plugin-description.c:592-621 | whatever the parser accepts is well formed |
| DescriptionText.RoundTrip | libanjuta/anjuta-plugin-description.c:592-685 | printing a well-formed description and parsing it gives the same sections, lines, keys, locales and values |
| DescriptionText.RoundTripExactly | libanjuta/anjuta-plugin-description.c:592-685 | and that holds for no other description |
| DescriptionText.PrintIdempotent | libanjuta/anjuta-plugin-description.c:592-685 | printing after parsing loses nothing |
| DescriptionText.MissingFinalNewline | libanjuta/anjuta-plugin-description.c:380-396 | without a final newline a text parses as with one, or the cursor overruns, exactly when the last line is not a key line and all is well before it |
| DescriptionText.CommentOverrun | libanjuta/anjuta-plugin-description.c:380-396 | a lone comment character without a newline is overrun |
| DescriptionText.NoOverrun | libanjuta/anjuta-plugin-description.c:592-621 | a text that is empty or ends in a newline is never overrun |
| DescriptionGrammar.KeyCharacter | libanjuta/anjuta-plugin-description.c:72-89 | the characters of a key are the hyphen, the ten digits and the letters of the alphabet, capital and small |
| DescriptionGrammar.UnescapeExactly | libanjuta/anjuta-plugin-description.c:190-252 | unescaping gives a value exactly when the text spells it, character by character, each as itself or by one of the five escapes |
| DescriptionGrammar.EscapedExactly | libanjuta/anjuta-plugin-description.c:254-307 | how each character is escaped: tab, newline, carriage return and backslash, a space only at the beginning and on request, and nothing else |
| DescriptionGrammar.KeyLinesAccepted | libanjuta/anjuta-plugin-description.c:434-531 | a line is accepted as a key line exactly when it is a key, a locale in brackets or none, a sign with any number of blanks on both sides, and a text that spells the value |
| DescriptionGrammar.EscapedValueAccepted | libanjuta/anjuta-plugin-description.c:434-531 | so every value, escaped, is read back behind every key and locale and with any number of blanks |
| DescriptionGrammar.KeyLinesRejected | libanjuta/anjuta-plugin-description.c:453-519 | for each error code, exactly the lines that are refused with it: no key, a locale that is not closed or no sign; another character before the sign; a wrong escape |
| DescriptionGrammar.HeadersAccepted | libanjuta/anjuta-plugin-description.c:397-432 | a line that begins with a bracket is a header exactly when it is a text in brackets that is not empty and spells a name |
| DescriptionGrammar.HeadersRejected | libanjuta/anjuta-plugin-description.c:406-423 | for each error code, exactly the header lines that are refused with it |
| DescriptionGrammar.RemarkExactly | libanjuta/anjuta-plugin-description.c:363-378 | a line is kept as it is exactly when it begins with a number sign or consists of white space |
| DescriptionGrammar.TextAccepted | libanjuta/anjuta-plugin-description.c:592-621 | a text of complete lines is accepted exactly when each of its lines is a header, a key line or a remark, and the description says the same in the same order |
| DescriptionGrammar.TextRejected | libanjuta/anjuta-plugin-description.c:533-560 | the error of a text is that of the first wrong line, with the number of that line and the last header before it |
| DescriptionGrammar.Printed | libanjuta/anjuta-plugin-description.c:633-685 | the printer writes exactly the headers, key lines and remarks of a description, one on each line, without any blank of its own |
| DescriptionParser.Parser.IsBlankLine | libanjuta/anjuta-plugin-description.c:363-378 | tells whether the line has only white space |
| DescriptionParser.Parser.ParseCommentOrBlank | libanjuta/anjuta-plugin-description.c:380-395 | the line is kept word for word and the cursor goes behind the newline, be there one or not |
| DescriptionParser.Parser.ParseSectionStart | libanjuta/anjuta-plugin-description.c:397-432 | the same header, errors included, as the line grammar gives |
| DescriptionParser.Parser.ParseKeyValue | libanjuta/anjuta-plugin-description.c:434-531 | the cursor computes the key, locale and value, or the error, that `KeyLinesAccepted` and `KeyLinesRejected` determine |
| DescriptionParser.NewFromString | libanjuta/anjuta-plugin-description.c:592-621 | the cursor-moving parser computes `Parse`, which `TextAccepted` and `TextRejected` determine: sections, or the first error with its section and line number, or an overrun |
| PluginDescriptions.UnescapeString | libanjuta/anjuta-plugin-description.c:190-252 | the character loop computes `Unescape` |
| PluginDescriptions.EscapeString | libanjuta/anjuta-plugin-description.c:254-307 | the character loop computes `Escape` |
| PluginDescriptions.PluginDescription.CreateSection | libanjuta/anjuta-plugin-description.c:310-346 | a new section is appended, or the empty first section takes the name |
| PluginDescriptions.PluginDescription.GetRaw | libanjuta/anjuta-plugin-description.c:749-776 | the value of the entry of an unlocalised key, if there is one |
| PluginDescriptions.LookupExactly | libanjuta/anjuta-plugin-description.c:749-776 | that entry is the first unlocalised line of the key in the first section of the name, and there is none exactly when there is no such line |
| PluginDescriptions.PluginDescription.ToString | libanjuta/anjuta-plugin-description.c:633-685 | the nested loops compute `Print` |
| PluginDescriptions.PluginDescription.Override | libanjuta/anjuta-plugin-description.c:1028-1062 | pushes the old value, reads as the new one, and changes no other entry and no other line; a missing line or section is added at the end |
| PluginDescriptions.PluginDescription.Remove | libanjuta/anjuta-plugin-description.c:1074-1105 | pops the value that was overridden last, and changes no other entry and no other line |
| CompletionIndex.CompareMonotone | libanjuta/anjuta-completion.c:60-76 | along sorted names the comparison with a prefix only falls |
| StringComparison.CompareExactly | libanjuta/anjuta-completion.c:60-76 | one name comes before another exactly when it is a proper prefix of it or has the lower character at the first difference |
| StringComparison.FoldedLetters | libanjuta/anjuta-completion.c:60-76 | without regard to case exactly the capital letters of the alphabet count as their small ones |
| CompletionIndex.Index.WantedExactly | libanjuta/anjuta-completion.c:175-202 | an item is wanted exactly when its name begins with the prefix, letter by letter, up to case if that does not matter, and the filter lets it pass |
| CompletionIndex.SelectCounts | libanjuta/anjuta-completion.c:175-202 | a wanted item is selected as often as it is there, and no other is |
| CompletionIndex.Index.FirstMatch | libanjuta/anjuta-completion.c:132-152 | the first bisection loses no match and ends on the first one if there is any |
| CompletionIndex.Index.LastMatch | libanjuta/anjuta-completion.c:154-173 | the second bisection ends on the last match |
| CompletionIndex.Index.Collect | libanjuta/anjuta-completion.c:175-202 | the matches that pass the filter, in order; all of them if the maximum is not positive, else the first ones up to the maximum |
| CompletionIndex.Index.Search | libanjuta/anjuta-completion.c:130-206 | from any range that covers the matches: a linear scan's result, and a range that covers them again |
| CompletionIndex.Index.CoversLonger | libanjuta/anjuta-completion.c:101-113 | a range for a prefix serves every longer prefix |
| CompletionIndex.SelectWithin | libanjuta/anjuta-completion.c:175-202 | scanning a range that holds all matches is scanning everything |
| Completions.Completion.Prepare | libanjuta/anjuta-completion.c:101-128 | sorts when needed and gives a range that covers the matches, cached or not |
| Completions.Completion.Complete | libanjuta/anjuta-completion.c:86-209 | after any history the result is that of a linear scan over the sorted items, the whole of it unless the maximum is positive, and else its beginning of that length at most; no item is lost |
| Completions.Completion.AddItem | libanjuta/anjuta-completion.c:253-260 | one item more, and the cached range will not be used |
| Completions.Completion.Clear | libanjuta/anjuta-completion.c:211-244 | no items and no cached range |
| Completions.Completion.SetCaseSensitive | libanjuta/anjuta-completion.c:296-312 | a change drops the order and the cached range |
| Completions.Completion.SetFilter | libanjuta/anjuta-completion.c:262-271 | the cached range stays right under any filter |
| ProjectTree.Node.constructor | libanjuta/anjuta-project.c:1112-1126 | a new node is detached |
| ProjectTree.SpliceBefore | libanjuta/anjuta-project.c:599-615 | exactly which links of which nodes are written when a node goes in front of a sibling |
| ProjectTree.SpliceAfter | libanjuta/anjuta-project.c:656-675 | the same behind a sibling, or in front of all children |
| ProjectTree.InsertBefore | libanjuta/anjuta-project.c:586-633 | an insertion into the parent's list at the sibling's index or at the end; all nodes stay well linked |
| ProjectTree.InsertAfter | libanjuta/anjuta-project.c:643-678 | an insertion behind the sibling or at the front; all nodes stay well linked |
| ProjectTree.Prepend | libanjuta/anjuta-project.c:711-715 | an insertion at index 0 |
| ProjectTree.Append | libanjuta/anjuta-project.c:722-726 | an insertion at the end |
| ProjectTree.Unlink | libanjuta/anjuta-project.c:686-704 | exactly which links of which nodes are written when a node is taken out |
| ProjectTree.Remove | libanjuta/anjuta-project.c:686-704 | a deletion at one index; for a node with only its parent filled in, the links stay good exactly when that parent has no children |
| ProjectTree.CheckNode | libanjuta/anjuta-project.c:512-534 | complains of exactly the nodes that only have their parent filled in |
| ProjectTree.DeleteInsert | libanjuta/anjuta-project.c:586-704 | deleting at the index of an insertion undoes it |
| ProjectTraversal.InsertRemoveRestores | libanjuta/anjuta-project.c:586-704 | inserting a detached node and removing it gives back every link |
| ProjectTraversal.LinksDetermined | libanjuta/anjuta-project.c:512-534 | the lists of children and the parents leave no link open |
| ProjectTraversal.InsertForest | libanjuta/anjuta-project.c:586-678 | an insertion gives a forest again exactly when the parent is not in the node's own subtree |
| ProjectTraversal.LinkedForest | libanjuta/anjuta-project.c:512-534 | linked nodes without a cycle form a forest: no node is a child twice |
| ProjectTraversal.OrderOnce | libanjuta/anjuta-project.c:407-441 | either order holds exactly the nodes of the subtree, each once |
| ProjectTraversal.ParentFirst | libanjuta/anjuta-project.c:407-441 | pre-order has every parent before its children, post-order after them |
| ProjectTraversal.SiblingsInOrder | libanjuta/anjuta-project.c:407-441 | in either order everything below a child comes before everything below a later child of the same parent, anywhere in the tree |
| ProjectTraversal.PreOrderForeach | libanjuta/anjuta-project.c:425-441 | visits the original subtree in pre-order although the callback unlinks nodes; exactly those are cut |
| ProjectTraversal.PostOrderForeach | libanjuta/anjuta-project.c:407-423 | the same in post-order |
| ProjectTraversal.Foreach | libanjuta/anjuta-project.c:447-465 | the same for either order |
| ProjectTraversal.PreOrderTraverse | libanjuta/anjuta-project.c:326-351 | the first match in pre-order |
| ProjectTraversal.PostOrderTraverse | libanjuta/anjuta-project.c:304-324 | the first match in post-order |
| ProjectTraversal.Traverse | libanjuta/anjuta-project.c:360-376 | the node that matches while none before it does, and NULL exactly when none in the subtree does |
| SessionLoading.Shell.Emit | libanjuta/anjuta-shell.c:969-987 | a signal is emitted only for a live session, which is alive afterwards; each request of its handlers makes one session more and replaces the session to load |
| SessionLoading.Shell.EmitPhases | libanjuta/anjuta-shell.c:967-984 | START and a prefix of FIRST, NORMAL, LAST, cut short exactly when another session was requested |
| SessionLoading.Shell.EndSession | libanjuta/anjuta-shell.c:958-988 | exactly one END closes a block, and the loop's reference is dropped |
| SessionLoading.Shell.LoadRequested | libanjuta/anjuta-shell.c:953-993 | the trace is a sequence of blocks of one session each; the last one is complete and for the latest request; it is the run that the requests of the handlers determine |
| SessionLoading.Shell.SessionLoad | libanjuta/anjuta-shell.c:926-994 | a nested call only replaces the session to load; an outermost one gives such a trace, and all references but one are dropped |
| SessionLoading.RunSteps | libanjuta/anjuta-shell.c:953-993 | in that run each emission follows from the one before and from the number of sessions requested so far, the requests of its own handlers included: the next phase, END for a session that is no longer wanted, START for the latest one after an END, or nothing any more |
| SessionLoading.OpenedInOrder | libanjuta/anjuta-shell.c:967-984 | a session goes through START, FIRST, NORMAL and LAST in this order |
| SessionLoading.StartedAndEndedOnce | libanjuta/anjuta-shell.c:953-993 | in such a trace a session is started and ended once each, or neither |
| SessionLists.FirstSeparator | libanjuta/anjuta-session.c:310-325 | the first separator of a joined text is the right one exactly when the element is free of it and does not end in a percent sign |
| SessionLists.JoinThenSplit | libanjuta/anjuta-session.c:296-457 | a list reads back as it was stored exactly when it is not a single empty string, holds no separator, and no element but the last ends in a percent sign |
| SessionLists.StoredIsRead | libanjuta/anjuta-session.c:296-457 | what `SetStringList` stores of a list without NULL elements is read as that list by `GetStringList`, under the same condition |
| SessionLists.NullSkipped | libanjuta/anjuta-session.c:310-325 | a NULL element does not matter, wherever it stands |
| SessionLists.SplitThenJoin | libanjuta/anjuta-session.c:423-457 | storing the list that was read reproduces the text |
| SessionLists.Session.SetStringList | libanjuta/anjuta-session.c:296-336 | an empty list removes the key; else the strings are joined, NULL elements skipped |
| SessionLists.Session.GetStringList | libanjuta/anjuta-session.c:423-457 | the pieces of the stored text, or nothing |
| Launchers.CompleteLinesAre | libanjuta/anjuta-launcher.c:721-729 | the complete lines of a text are what stands before any point behind a newline with no newline after it |
| Launchers.Launcher.FindIncompleteLine | libanjuta/anjuta-launcher.c:721-729 | the backward scan ends behind the last newline |
| Launchers.Launcher.BufferLines | libanjuta/anjuta-launcher.c:704-748 | the complete lines of buffer and chunk are delivered and the rest is kept, for this stream only |
| Launchers.LinedMore | libanjuta/anjuta-launcher.c:684-749 | deliveries are the complete lines of the input and the buffer is the rest, however the input is cut into chunks |
| Launchers.Launcher.BufferedOutput | libanjuta/anjuta-launcher.c:684-749 | with buffering on this is kept for both streams; without buffering a chunk is delivered at once; without a callback it is dropped |
| Launchers.Launcher.Flush | libanjuta/anjuta-launcher.c:965-982 | everything that was read has been delivered, each buffer as one last delivery; each pending buffer is released once if and only if none is pending for the error stream, else the output buffer is released twice when it is pending, and the error buffer never |
| CommandQueues.Pushed | libanjuta/anjuta-command-queue.c:153-175 | started commands followed by waiting ones gain exactly the command at the end, however often it was pushed before; an idle automatic queue stays empty |
| CommandQueues.Run | libanjuta/anjuta-command-queue.c:177-205 | acts exactly on an idle, non-empty manual queue, and keeps the order |
| CommandQueues.Finished | libanjuta/anjuta-command-queue.c:105-130 | whatever finishes, the waiting commands are started in their order, and a queue goes idle only when it has drained |
| CommandQueues.HandledSum | libanjuta/anjuta-command-queue.c:105-130 | calls of the handlers one after the other do what all of them do together, however they nest |
| CommandQueues.HandledReach | libanjuta/anjuta-command-queue.c:105-130 | handlers start exactly `Reach` waiting commands: one for each call, and more for the handlers of commands that finish at once; those that do not run together |
| CommandQueues.OneAtATime | libanjuta/anjuta-command-queue.c:105-130 | when the only running command finishes, at most one runs afterwards if and only if the commands started by its handlers that do not finish at once are the same |
| CommandQueues.RepeatedCommand | libanjuta/anjuta-command-queue.c:153-175 | a command pushed twice has two others started together |
| CommandQueues.StartedOnce | libanjuta/anjuta-command.c:248-257 | with commands that are pushed once, starting runs on through all that finish at once, to the first that does not, which alone runs; "finished" is emitted once, and only when a manual queue has drained |
| CommandQueues.PushedOnce | libanjuta/anjuta-command-queue.c:153-175 | pushing a command that is new to the queue keeps that: each started command has one handler, what has started is what has finished and at most one more |
| CommandQueues.RunOnce | libanjuta/anjuta-command-queue.c:177-205 | so does starting a manual queue |
| CommandQueues.FinishedOnce | libanjuta/anjuta-command-queue.c:105-130 | so does the end of the running command, and the next commands run in order |
| CommandQueues.CommandQueue.StartCommand | libanjuta/anjuta-command.c:248-257 | computes `Started`: a running command is not started again, and one that finishes at once is followed by others before the call returns |
| CommandQueues.CommandQueue.CommandFinished | libanjuta/anjuta-command-queue.c:105-130 | the loop over the connected handlers computes `Finished`; those connected meanwhile are not called |
| CommandQueues.CommandQueue.OnCommandFinished | libanjuta/anjuta-command-queue.c:105-130 | one handler takes one waiting command, or goes idle |
| CommandQueues.CommandQueue.Push | libanjuta/anjuta-command-queue.c:153-175 | computes `Pushed`, for any command |
| CommandQueues.CommandQueue.Start | libanjuta/anjuta-command-queue.c:177-205 | computes `Run`, and tells whether a command was started |

## Left out

- All widgets, dialogs, preferences pages and status bars: user interface.
- Processes, pipes, pseudo terminals, password prompts and encodings: the launcher gets chunks as strings.  The backward scan by character is modelled on single characters, since a newline byte is never part of a longer UTF-8 character (section 3 of RFC 3629).
- Switching buffering off while a buffer is filled: the next chunk overtakes the buffer, which `BufferedOutput` states but which is outside the conservation law.
- The XML reader and writer of profiles: the parsed sets, and which profiles cannot be read, are inputs.  The settings of a profile are applied when its file is read, which happens once, so they are not applied again when the profile is loaded for the second time.
- The key file behind a session: a map from section and key to text.
- Reference counts, except those of the sessions in `session_load.dfy`; quarks are strings.
- `prune_modules`: it is never reached, because the cycle is dropped (`libanjuta/anjuta-plugin-manager.c:347`).
- DependencyResolution.ResolveForModule: its own recursion is not counted against the stack, because every call visits one plugin more and so its depth is at most the number of plugins.
- Callbacks of plugins that call the plugin manager again, plugin objects that cannot be created, and value watches.
- Hash tables are visited in an unspecified order: the unloading loop of a profile and the activation of its plugins are modelled for every order.
- The table entries that `should_load` and `should_unload` read are addresses converted to `int`; they are modelled as present or absent.
- ProfileStack.PushProfile: handlers of "profile-pushed", "profile-popped" and "descoped" (which unloading a profile emits, inside the loading loop) that call the manager again, because only loads nest here.
- ProfileRuns.PerformAll: loads that call the manager in turn and profiles that cannot be read, because then the current profile need not be the last one whose plugins were activated; `ProfileStack` covers them without the plugins.
- Profiles.LoadInTurn: a system profile that is loaded over active plugins pins only what it activates itself, so the pinned set need not be closed; `Profile.Load` covers that one load at a time.
- Clients that push or start from "command-finished" between the handlers of the queue.
- Localised lookup of description keys, and the integer and boolean readers: easy members.
- PluginDescriptions.PluginDescription.ToString: requires every line to have a value, because the original escapes a NULL value that removal has left.
- ProjectTraversal.PreOrderForeach: the callback either unlinks the node it is given or leaves the tree alone.
- ProjectTree.InsertBefore: the node is detached and the sibling is a child of the parent, as the disabled checks in the original ask for (`libanjuta/anjuta-project.c:592-595`).
- `anjuta-modeline.c`, `anjuta-async-command.c` and `anjuta-language-provider.c`.
