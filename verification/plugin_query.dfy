/** Looking for plugins by what their descriptions say: the star match and the list
    query of libanjuta/anjuta-plugin-manager.c. */
module PluginQueries {
  import opened DescriptionText
  import opened Options
  import opened PluginDescriptions
  import opened PluginGraph
  import opened ProfileConfiguration
  import opened StringComparison

  predicate OccursAt(text: string, p: nat, part: string) {
    p + |part| <= |text| && text[p..p + |part|] == part
  }

  /** strstr, from a position on. */
  function Search(text: string, from: nat, part: string): (r: Option<nat>)
    requires from <= |text|
    ensures r.Some? ==> from <= r.value && OccursAt(text, r.value, part)
                        && forall p | from <= p < r.value :: !OccursAt(text, p, part)
    ensures r.None? ==> forall p | from <= p :: !OccursAt(text, p, part)
    decreases |text| - from
  {
    if OccursAt(text, from, part) then Some(from) else if from == |text| then None else Search(text, from + 1, part)
  }

  /** The parts can be placed in the text one behind the other, in order, without
      overlap and from a position on; anything may be between and around them. */
  ghost predicate Placeable(parts: seq<string>, text: string, from: nat) {
    parts == [] || exists p :: from <= p && OccursAt(text, p, parts[0]) && Placeable(parts[1..], text, p + |parts[0]|)
  }

  /** Taking the leftmost place for every part misses no placement. */
  lemma {:induction false} PlaceableEarlier(parts: seq<string>, text: string, from: nat, earlier: nat)
    requires Placeable(parts, text, from) && earlier <= from
    ensures Placeable(parts, text, earlier)
  {
    if parts != [] {
      var p :| from <= p && OccursAt(text, p, parts[0]) && Placeable(parts[1..], text, p + |parts[0]|);
      assert earlier <= p;
    }
  }

  lemma LeftmostSuffices(parts: seq<string>, text: string, from: nat)
    requires parts != [] && from <= |text|
    ensures var p := Search(text, from, parts[0]);
            Placeable(parts, text, from) <==> p.Some? && Placeable(parts[1..], text, p.value + |parts[0]|)
  {
    var first := Search(text, from, parts[0]);
    if Placeable(parts, text, from) {
      var p :| from <= p && OccursAt(text, p, parts[0]) && Placeable(parts[1..], text, p + |parts[0]|);
      PlaceableEarlier(parts[1..], text, p + |parts[0]|, first.value + |parts[0]|);
    }
  }

  function SplitPieces(t: string, separator: char): (r: seq<string>)
    ensures r != []
    decreases |t|
  {
    if t == "" then [""]
    else
      var rest := SplitPieces(t[1..], separator);
      if t[0] == separator then [""] + rest else [[t[0]] + rest[0]] + rest[1..]
  }

  /** Places for the parts, in order. */
  predicate Places(positions: seq<nat>, parts: seq<string>, text: string, from: nat) {
    && |positions| == |parts|
    && (forall i | 0 <= i < |parts| :: OccursAt(text, positions[i], parts[i]))
    && (forall i | 0 < i < |parts| :: positions[i - 1] + |parts[i - 1]| <= positions[i])
    && (parts != [] ==> from <= positions[0])
  }

  lemma {:induction false} PlacesFound(parts: seq<string>, text: string, from: nat) returns (positions: seq<nat>)
    requires Placeable(parts, text, from)
    ensures Places(positions, parts, text, from)
  {
    positions := [];
    if parts != [] {
      var p :| from <= p && OccursAt(text, p, parts[0]) && Placeable(parts[1..], text, p + |parts[0]|);
      var more := PlacesFound(parts[1..], text, p + |parts[0]|);
      positions := [p] + more;
    }
  }

  /** The parts can be placed exactly when there are places for them. */
  lemma {:induction false} PlaceableExactly(parts: seq<string>, text: string, from: nat)
    ensures Placeable(parts, text, from) <==> exists positions :: Places(positions, parts, text, from)
    decreases |parts|
  {
    if Placeable(parts, text, from) {
      var positions := PlacesFound(parts, text, from);
    }
    forall positions | Places(positions, parts, text, from)
      ensures Placeable(parts, text, from)
    {
      if parts != [] {
        assert Places(positions[1..], parts[1..], text, positions[0] + |parts[0]|);
        PlaceableExactly(parts[1..], text, positions[0] + |parts[0]|);
      }
    }
  }

  /** g_strsplit at a single character: no pieces for an empty text. */
  function SplitAt(t: string, separator: char): seq<string> {
    if t == "" then [] else SplitPieces(t, separator)
  }

  function JoinWith(pieces: seq<string>, separator: char): string {
    if pieces == [] then "" else if |pieces| == 1 then pieces[0] else pieces[0] + [separator] + JoinWith(pieces[1..], separator)
  }

  lemma {:induction false} PiecesJoin(t: string, separator: char)
    ensures JoinWith(SplitPieces(t, separator), separator) == t
    ensures forall piece | piece in SplitPieces(t, separator) :: separator !in piece
  {
    if t != "" {
      var rest := SplitPieces(t[1..], separator);
      PiecesJoin(t[1..], separator);
      if t[0] == separator {
        assert ([""] + rest)[1..] == rest;
        assert "" + [separator] + t[1..] == t;
      } else {
        var r := [[t[0]] + rest[0]] + rest[1..];
        assert rest[0] in rest && forall piece | piece in rest[1..] :: piece in rest;
        assert r[1..] == rest[1..];
        if |rest| == 1 {
          assert [t[0]] + t[1..] == t;
        } else {
          assert ([t[0]] + rest[0]) + [separator] + JoinWith(rest[1..], separator)
              == [t[0]] + (rest[0] + [separator] + JoinWith(rest[1..], separator));
        }
      }
    }
  }

  /** Pieces that are joined are found again. */
  lemma {:induction false} JoinPieces(pieces: seq<string>, separator: char)
    requires pieces != [] && forall piece | piece in pieces :: separator !in piece
    ensures SplitPieces(JoinWith(pieces, separator), separator) == pieces
    decreases |pieces|, |pieces[0]|
  {
    var first, t := pieces[0], JoinWith(pieces, separator);
    if first == "" {
      if |pieces| > 1 {
        JoinPieces(pieces[1..], separator);
        assert t == [separator] + JoinWith(pieces[1..], separator);
        assert pieces == [""] + pieces[1..];
      }
    } else {
      var shorter := [first[1..]] + pieces[1..];
      assert shorter[1..] == pieces[1..] && forall piece | piece in pieces[1..] :: piece in pieces;
      assert first in pieces && first[0] in first && forall c | c in first[1..] :: c in first;
      JoinPieces(shorter, separator);
      assert t[1..] == JoinWith(shorter, separator);
      assert [first[0]] + first[1..] == first && pieces == [first] + pieces[1..];
    }
  }

  /** The pieces are what stands between the separators. */
  lemma {:induction false} SplitJoin(t: string, separator: char)
    ensures JoinWith(SplitAt(t, separator), separator) == t
    ensures forall piece | piece in SplitAt(t, separator) :: separator !in piece
  {
    if t != "" {
      PiecesJoin(t, separator);
    }
  }

  /** The star match of anjuta_plugin_manager_list_query. */
  method StarMatch(pattern: string, avalue: string) returns (found: bool)
    ensures found <==> Placeable(SplitAt(pattern, '*'), avalue, 0)
  {
    var segments := SplitAt(pattern, '*');
    var cursor := 0;
    var i := 0;
    assert segments[0..] == segments;
    while i < |segments|
      invariant 0 <= i <= |segments| && 0 <= cursor <= |avalue|
      invariant Placeable(segments, avalue, 0) <==> Placeable(segments[i..], avalue, cursor)
    {
      assert segments[i..][1..] == segments[i + 1..];
      LeftmostSuffices(segments[i..], avalue, cursor);
      if |segments[i]| > 0 {
        var at := Search(avalue, cursor, segments[i]);
        if at.None? {
          return false;
        }
        cursor := at.value;
      }
      cursor := cursor + |segments[i]|;
      i := i + 1;
    }
    found := true;
  }

  function StripStart(s: string): string {
    if s != "" && IsSpace(s[0]) then StripStart(s[1..]) else s
  }

  function StripEnd(s: string): string
    decreases |s|
  {
    if s != "" && IsSpace(s[|s| - 1]) then StripEnd(s[..|s| - 1]) else s
  }

  /** g_strstrip */
  function Strip(s: string): string {
    StripEnd(StripStart(s))
  }

  predicate Blank(s: string) {
    forall i | 0 <= i < |s| :: IsSpace(s[i])
  }

  lemma {:induction false} StripStartDrops(lead: string, s: string)
    requires Blank(lead) && (s != "" ==> !IsSpace(s[0]))
    ensures StripStart(lead + s) == s
  {
    if lead == "" {
      assert lead + s == s;
    } else {
      assert (lead + s)[1..] == lead[1..] + s;
      StripStartDrops(lead[1..], s);
    }
  }

  lemma {:induction false} StripEndDrops(s: string, trail: string)
    requires Blank(trail) && (s != "" ==> !IsSpace(s[|s| - 1]))
    ensures StripEnd(s + trail) == s
    decreases |trail|
  {
    if trail == "" {
      assert s + trail == s;
    } else {
      var n := |trail| - 1;
      assert (s + trail)[..|s + trail| - 1] == s + trail[..n];
      StripEndDrops(s, trail[..n]);
    }
  }

  /** Stripping takes away the blanks on both sides, and no others. */
  lemma StripDrops(lead: string, s: string, trail: string)
    requires Blank(lead) && Blank(trail)
    requires s != "" ==> !IsSpace(s[0]) && !IsSpace(s[|s| - 1])
    ensures Strip(lead + s + trail) == s
  {
    if s == "" {
      assert lead + s + trail == (lead + trail) + "";
      StripStartDrops(lead + trail, "");
    } else {
      assert lead + s + trail == lead + (s + trail);
      StripStartDrops(lead, s + trail);
      StripEndDrops(s, trail);
    }
  }

  /** The elements of a metadata value, last first. */
  function Elements(pieces: seq<string>): seq<string>
    decreases |pieces|
  {
    if pieces == [] then [] else [Strip(pieces[|pieces| - 1])] + Elements(pieces[..|pieces| - 1])
  }

  /** Each piece gives one element, without the blanks around it. */
  lemma {:induction false} ElementsAt(pieces: seq<string>, i: nat)
    requires i < |pieces|
    ensures |Elements(pieces)| == |pieces| && Elements(pieces)[i] == Strip(pieces[|pieces| - 1 - i])
    decreases |pieces|
  {
    var front := pieces[..|pieces| - 1];
    if i > 0 {
      ElementsAt(front, i - 1);
    } else if front != [] {
      ElementsAt(front, 0);
    }
  }

  lemma ElementsAre(pieces: seq<string>, element: string)
    ensures element in Elements(pieces) <==> exists i :: 0 <= i < |pieces| && Strip(pieces[i]) == element
  {
    var elements, n := Elements(pieces), |pieces|;
    forall i | 0 <= i < n
      ensures Strip(pieces[i]) in elements
    {
      ElementsAt(pieces, n - 1 - i);
    }
    if element in elements {
      var i :| 0 <= i < |elements| && elements[i] == element;
      if n > 0 { ElementsAt(pieces, 0); }
      ElementsAt(pieces, i);
    }
  }

  /** property_to_list */
  method PropertyToList(value: string) returns (list: seq<string>)
    ensures list == Elements(SplitAt(value, ','))
  {
    var split := SplitAt(value, ',');
    list := [];
    var p := 0;
    while p < |split|
      invariant 0 <= p <= |split| && list == Elements(split[..p])
    {
      assert split[..p + 1][..p] == split[..p];
      list := [Strip(split[p])] + list;
      p := p + 1;
    }
    assert split[..p] == split;
  }

  /** One element of a metadata value against a queried value. */
  ghost predicate ElementMatches(element: string, avalue: string) {
    if '*' in element then Placeable(SplitAt(element, '*'), avalue, 0) else Lower(element) == Lower(avalue)
  }

  method MatchesElement(element: string, avalue: string) returns (found: bool)
    ensures found <==> ElementMatches(element, avalue)
    ensures '*' in element ==> (found <==> exists positions :: Places(positions, SplitAt(element, '*'), avalue, 0))
    ensures '*' !in element ==>
              (found <==> |element| == |avalue| && forall i | 0 <= i < |element| :: ToLower(element[i]) == ToLower(avalue[i]))
  {
    if '*' in element {
      found := StarMatch(element, avalue);
      PlaceableExactly(SplitAt(element, '*'), avalue, 0);
    } else {
      var a, b := Lower(element), Lower(avalue);
      CompareTotal(a, b);
      found := Compare(a, b) == 0;
      assert |a| == |b| ==> (a == b <==> forall i | 0 <= i < |a| :: a[i] == b[i]);
    }
  }

  datatype Condition = Condition(section: string, name: string, value: string)

  /** Whether some element of the metadata value matches.  There is no answer for a key
      whose value has been removed: the original splits NULL and then reads through the
      NULL that it gets. */
  ghost function Judged(e: Entry, value: string): Option<bool> {
    match e
    case Absent => Some(false)
    case Entry(v, _) =>
      if v.None? then None
      else Some(exists element :: element in Elements(SplitAt(v.value, ',')) && ElementMatches(element, value))
  }

  /** A list of elements with commas between them holds a value exactly when one of the
      elements, without the blanks around it, matches the value; an empty text has no
      elements, and a key that is not there matches nothing. */
  lemma JudgedPieces(pieces: seq<string>, overrides: seq<Option<string>>, value: string)
    requires pieces != [] && forall piece | piece in pieces :: ',' !in piece
    ensures Judged(Entry(Some(JoinWith(pieces, ',')), overrides), value) ==
            Some(pieces != [""] && exists i :: 0 <= i < |pieces| && ElementMatches(Strip(pieces[i]), value))
    ensures Judged(Absent, value) == Some(false)
  {
    JoinPieces(pieces, ',');
    assert SplitAt(JoinWith(pieces, ','), ',') == if pieces == [""] then [] else pieces;
    if element :| element in Elements(pieces) && ElementMatches(element, value) {
      ElementsAre(pieces, element);
    }
    forall i | 0 <= i < |pieces| && ElementMatches(Strip(pieces[i]), value)
      ensures Strip(pieces[i]) in Elements(pieces)
    {
      ElementsAre(pieces, Strip(pieces[i]));
    }
  }

  method MatchesCondition(plugin: PluginHandle, c: Condition) returns (found: Option<bool>)
    ensures found == Judged(Lookup(plugin.description.sections, c.section, c.name), c.value)
  {
    var known, val := plugin.description.GetRaw(c.section, c.name);
    if !known {
      return Some(false);
    }
    if val.None? {
      return None;
    }
    var vals := PropertyToList(val.value);
    var matched := false;
    var i := 0;
    while i < |vals|
      invariant 0 <= i <= |vals|
      invariant matched <==> exists element :: element in vals[..i] && ElementMatches(element, c.value)
    {
      var matches := MatchesElement(vals[i], c.value);
      assert vals[..i + 1] == vals[..i] + [vals[i]];
      if matches {
        matched := true;
      }
      i := i + 1;
    }
    assert vals[..i] == vals;
    found := Some(matched);
  }

  /** The conditions from the first on, up to one that does not hold or has no answer. */
  ghost function Verdict(sections: seq<Section>, conditions: seq<Condition>): Option<bool> {
    if conditions == [] then Some(true)
    else
      var first := Judged(Lookup(sections, conditions[0].section, conditions[0].name), conditions[0].value);
      if first == Some(true) then Verdict(sections, conditions[1..]) else first
  }

  ghost function JudgedAt(sections: seq<Section>, conditions: seq<Condition>, i: nat): Option<bool>
    requires i < |conditions|
  {
    Judged(Lookup(sections, conditions[i].section, conditions[i].name), conditions[i].value)
  }

  /** The first k conditions hold. */
  ghost predicate HoldUpTo(sections: seq<Section>, conditions: seq<Condition>, k: nat)
    requires k <= |conditions|
  {
    forall i | 0 <= i < k :: JudgedAt(sections, conditions, i) == Some(true)
  }

  lemma HoldFirst(sections: seq<Section>, conditions: seq<Condition>, k: nat)
    requires 0 < k <= |conditions|
    ensures HoldUpTo(sections, conditions, k) <==>
            JudgedAt(sections, conditions, 0) == Some(true) && HoldUpTo(sections, conditions[1..], k - 1)
  {
    assert forall i | 0 <= i < k - 1 :: JudgedAt(sections, conditions[1..], i) == JudgedAt(sections, conditions, i + 1);
    if HoldUpTo(sections, conditions[1..], k - 1) {
      assert forall i | 0 < i < k :: JudgedAt(sections, conditions, i) == JudgedAt(sections, conditions[1..], i - 1);
    }
  }

  /** The verdict is that of the first condition that does not hold, if there is one. */
  lemma {:induction false} VerdictAt(sections: seq<Section>, conditions: seq<Condition>) returns (k: nat)
    ensures k <= |conditions| && HoldUpTo(sections, conditions, k)
    ensures k < |conditions| ==> JudgedAt(sections, conditions, k) != Some(true)
    ensures Verdict(sections, conditions) == if k < |conditions| then JudgedAt(sections, conditions, k) else Some(true)
  {
    k := 0;
    if conditions != [] && JudgedAt(sections, conditions, 0) == Some(true) {
      var j := VerdictAt(sections, conditions[1..]);
      k := j + 1;
      HoldFirst(sections, conditions, k);
    }
  }

  /** A plugin is selected when all conditions hold; there is no answer when the first
      condition that does not hold has none. */
  lemma VerdictOf(sections: seq<Section>, conditions: seq<Condition>)
    ensures Verdict(sections, conditions) == Some(true) <==> HoldUpTo(sections, conditions, |conditions|)
    ensures Verdict(sections, conditions) == None <==>
            exists k | 0 <= k < |conditions| :: JudgedAt(sections, conditions, k) == None && HoldUpTo(sections, conditions, k)
  {
    var k := VerdictAt(sections, conditions);
    assert k < |conditions| ==>
             forall j {:trigger HoldUpTo(sections, conditions, j)} | 0 <= j < |conditions| && HoldUpTo(sections, conditions, j) :: j <= k;
    assert forall j | 0 <= j < k :: JudgedAt(sections, conditions, j) == Some(true);
  }

  /** After a profile has set keys and taken its settings back, a query has no answer for
      exactly the keys that had no value before and those that the profile had added. */
  lemma SettingsBreakQueries(e: Entry, changes: seq<Change>, d: PluginDescription, group: string, key: string, value: string)
    ensures Judged(Removed(Overridden(e, changes, d, group, key), UndoAll(changes), d, group, key), value) == None <==>
            if e.Absent? then Touches(changes, d, group, key) else e.value == None
  {
    UndoLeaves(e, changes, d, group, key);
  }

  /** Setting a key that is not there and taking the setting back breaks every query for it. */
  lemma AddedKeyBreaksQueries(h: PluginHandle, setting: Setting, value: string)
    ensures var changes, d := [Change(h, setting)], h.description;
            Judged(Removed(Overridden(Absent, changes, d, setting.group, setting.key), UndoAll(changes),
                           d, setting.group, setting.key), value) == None
  {
    SettingsBreakQueries(Absent, [Change(h, setting)], h.description, setting.group, setting.key, value);
  }

  method Satisfies(plugin: PluginHandle, conditions: seq<Condition>) returns (satisfied: Option<bool>)
    ensures satisfied == Verdict(plugin.description.sections, conditions)
  {
    var i := 0;
    assert conditions[0..] == conditions;
    while i < |conditions|
      invariant 0 <= i <= |conditions|
      invariant Verdict(plugin.description.sections, conditions) == Verdict(plugin.description.sections, conditions[i..])
    {
      assert conditions[i..][1..] == conditions[i + 1..];
      var found := MatchesCondition(plugin, conditions[i]);
      if found != Some(true) {
        return found;
      }
      i := i + 1;
    }
    satisfied := Some(true);
  }

  /** The plugins that satisfy the conditions and are not disabled, unless they are
      active all the same. */
  ghost function Answer(available: seq<PluginHandle>, disabled: set<PluginHandle>, activated: set<PluginHandle>,
                        conditions: seq<Condition>): Option<seq<PluginHandle>>
    reads set h | h in available :: h.description
    decreases |available|
  {
    if available == [] then Some([])
    else
      var n := |available| - 1;
      var before := Answer(available[..n], disabled, activated, conditions);
      if before.None? || (available[n] in disabled && available[n] !in activated) then before
      else
        match Verdict(available[n].description.sections, conditions)
        case None => None
        case Some(satisfied) => if satisfied then Some(before.value + [available[n]]) else before
  }

  predicate Offered(h: PluginHandle, disabled: set<PluginHandle>, activated: set<PluginHandle>) {
    h in disabled ==> h in activated
  }

  /** The answer holds exactly the available plugins that are offered and satisfy every
      condition, and there is one exactly when no plugin that is offered breaks it off. */
  lemma {:induction false} AnswerHolds(available: seq<PluginHandle>, disabled: set<PluginHandle>, activated: set<PluginHandle>,
                                       conditions: seq<Condition>)
    ensures var answer := Answer(available, disabled, activated, conditions);
            && (answer == None <==> exists h :: && h in available && Offered(h, disabled, activated)
                                                && Verdict(h.description.sections, conditions) == None)
            && (answer.Some? ==> forall h :: h in answer.value <==>
                  h in available && Offered(h, disabled, activated) && HoldUpTo(h.description.sections, conditions, |conditions|))
    decreases |available|
  {
    if available != [] {
      var n := |available| - 1;
      AnswerHolds(available[..n], disabled, activated, conditions);
      VerdictOf(available[n].description.sections, conditions);
      assert forall h :: h in available <==> h in available[..n] || h == available[n];
    }
  }

  /** In the order of the available plugins: a longer list only adds at the end. */
  lemma {:induction false} AnswerInOrder(available: seq<PluginHandle>, disabled: set<PluginHandle>, activated: set<PluginHandle>,
                                         conditions: seq<Condition>, k: nat)
    requires k <= |available| && Answer(available, disabled, activated, conditions).Some?
    ensures Answer(available[..k], disabled, activated, conditions).Some?
    ensures Answer(available[..k], disabled, activated, conditions).value <= Answer(available, disabled, activated, conditions).value
    decreases |available|
  {
    if k == |available| {
      assert available[..k] == available;
    } else {
      var t := available[..|available| - 1];
      assert t[..k] == available[..k];
      AnswerInOrder(t, disabled, activated, conditions, k);
    }
  }

  lemma {:induction false} NoAnswer(available: seq<PluginHandle>, disabled: set<PluginHandle>, activated: set<PluginHandle>,
                                    conditions: seq<Condition>, i: nat)
    requires i <= |available| && Answer(available[..i], disabled, activated, conditions) == None
    ensures Answer(available, disabled, activated, conditions) == None
    decreases |available| - i
  {
    if i < |available| {
      assert available[..i + 1][..i] == available[..i];
      NoAnswer(available, disabled, activated, conditions, i + 1);
    } else {
      assert available[..i] == available;
    }
  }

  /** anjuta_plugin_manager_list_query: those of the available plugins that are
      selected, in order; without conditions, all that are offered.  Nothing is returned
      if a condition has no answer for an offered plugin that satisfies the ones before. */
  method ListQuery(available: seq<PluginHandle>, disabled: set<PluginHandle>, activated: set<PluginHandle>,
                   conditions: seq<Condition>)
    returns (selectedPlugins: Option<seq<PluginHandle>>)
    ensures selectedPlugins == Answer(available, disabled, activated, conditions)
  {
    var selected := [];
    var i := 0;
    while i < |available|
      invariant 0 <= i <= |available|
      invariant Answer(available[..i], disabled, activated, conditions) == Some(selected)
    {
      assert available[..i + 1][..i] == available[..i];
      var plugin := available[i];
      if plugin !in disabled || plugin in activated {
        var satisfied := Satisfies(plugin, conditions);
        if satisfied.None? {
          NoAnswer(available, disabled, activated, conditions, i + 1);
          return None;
        }
        if satisfied.value {
          selected := selected + [plugin];
        }
      }
      i := i + 1;
    }
    assert available[..i] == available;
    selectedPlugins := Some(selected);
  }
}
