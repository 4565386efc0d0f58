/** The objects of libanjuta/anjuta-plugin-description.c: a description whose lines
    can be overridden in place, the cursor-moving parser, and the buffer-filling
    escape routines, each against the functions of `DescriptionText`. */
module PluginDescriptions {
  import opened DescriptionText
  import opened Options
  import opened Sequences

  function PrependAll(s: string, t: Option<string>): Option<string> {
    if t.Some? then Some(s + t.value) else None
  }

  lemma PrependNothing(t: Option<string>)
    ensures PrependAll("", t) == t
  {
    if t.Some? { assert "" + t.value == t.value; }
  }

  lemma PrependAllStep(s: string, c: char, t: Option<string>)
    ensures PrependAll(s, Prepend(c, t)) == PrependAll(s + [c], t)
  {
    if t.Some? { assert s + ([c] + t.value) == (s + [c]) + t.value; }
  }

  method UnescapeString(str: string) returns (r: Option<string>)
    ensures r == Unescape(str)
  {
    var res, p := "", 0;
    assert str[0..] == str;
    PrependNothing(Unescape(str));
    while p < |str|
      invariant 0 <= p <= |str|
      invariant Unescape(str) == PrependAll(res, Unescape(str[p..]))
    {
      ghost var rest := str[p..];
      if str[p] == '\0' {
        return None;
      }
      if str[p] == '\\' {
        p := p + 1;
        if p >= |str| {
          return None;
        }
        assert rest[1] == str[p] && rest[2..] == str[p + 1..];
        match UnescapeCode(str[p]) {
          case None => return None;
          case Some(c) =>
            PrependAllStep(res, c, Unescape(str[p + 1..]));
            res := res + [c];
        }
        p := p + 1;
      } else {
        assert rest[1..] == str[p + 1..];
        PrependAllStep(res, str[p], Unescape(str[p + 1..]));
        res := res + [str[p]];
        p := p + 1;
      }
    }
    assert str[p..] == "" && res + "" == res;
    return Some(res);
  }

  /** What the loop at `p` has still to write. */
  function EscapeFrom(str: string, first: bool, p: nat): string
    requires p <= |str|
  {
    Escape(str[p..], first && p == 0)
  }

  lemma EscapeFromStep(before: string, after: string, str: string, first: bool, p: nat)
    requires p < |str|
    requires after == before + if first && p == 0 && str[p] == ' ' then "\\s" else EscapeChar(str[p])
    ensures before + EscapeFrom(str, first, p) == after + EscapeFrom(str, first, p + 1)
  {
    assert str[p..][1..] == str[p + 1..];
    assert EscapeFrom(str, first, p + 1) == EscapeRest(str[p + 1..]);
  }

  method EscapeString(str: string, escapeFirstSpace: bool) returns (r: string)
    ensures r == Escape(str, escapeFirstSpace)
  {
    r := "";
    var p := 0;
    assert str[0..] == str;
    while p < |str|
      invariant 0 <= p <= |str|
      invariant Escape(str, escapeFirstSpace) == r + EscapeFrom(str, escapeFirstSpace, p)
    {
      ghost var before := r;
      if str[p] == ' ' {
        if escapeFirstSpace && p == 0 {
          r := r + "\\s";
        } else {
          r := r + " ";
        }
      } else if str[p] == '\\' {
        r := r + "\\\\";
      } else if str[p] == '\t' {
        r := r + "\\t";
      } else if str[p] == '\n' {
        r := r + "\\n";
      } else if str[p] == '\r' {
        r := r + "\\r";
      } else {
        r := r + [str[p]];
      }
      EscapeFromStep(before, r, str, escapeFirstSpace, p);
      p := p + 1;
    }
    assert str[p..] == "";
  }

  /** The first entry of `lines` for a key, localized or not. */
  function FindLine(lines: seq<Line>, key: string, locale: Option<string>): (i: nat)
    ensures i <= |lines|
    ensures i < |lines| ==> lines[i].key == Some(key) && lines[i].locale == locale
    ensures forall j | 0 <= j < i :: !(lines[j].key == Some(key) && lines[j].locale == locale)
  {
    if lines == [] || (lines[0].key == Some(key) && lines[0].locale == locale) then 0
    else 1 + FindLine(lines[1..], key, locale)
  }

  function FindSection(sections: seq<Section>, name: string): (i: nat)
    ensures i <= |sections|
    ensures i < |sections| ==> sections[i].name == Some(name)
    ensures forall j | 0 <= j < i :: sections[j].name != Some(name)
  {
    if sections == [] || sections[0].name == Some(name) then 0
    else 1 + FindSection(sections[1..], name)
  }

  /** What a description says of an unlocalized key: its line's value and the values
      that it overrides, or nothing when there is no such line. */
  datatype Entry = Absent | Entry(value: Option<string>, overrides: seq<Option<string>>)

  function EntryIn(lines: seq<Line>, key: string): Entry {
    var i := FindLine(lines, key, None);
    if i == |lines| then Absent else Entry(lines[i].value, lines[i].overrides)
  }

  function Lookup(sections: seq<Section>, name: string, key: string): Entry {
    var n := FindSection(sections, name);
    if n == |sections| then Absent else EntryIn(sections[n].lines, key)
  }

  function OverrideEntry(e: Entry, value: string): Entry {
    if e.Absent? then Entry(Some(value), []) else Entry(Some(value), [e.value] + e.overrides)
  }

  function RemoveEntry(e: Entry): Entry {
    if e.Absent? then Absent
    else if e.overrides == [] then Entry(None, [])
    else Entry(e.overrides[0], e.overrides[1..])
  }

  /** Only the entry of one key changes. */
  ghost predicate OnlyChanges(before: seq<Section>, after: seq<Section>, name: string, key: string) {
    forall n: string, k: string | n != name || k != key :: Lookup(after, n, k) == Lookup(before, n, k)
  }

  lemma {:induction false} FindLineIs(lines: seq<Line>, key: string, locale: Option<string>, i: nat)
    requires i <= |lines| && (i < |lines| ==> lines[i].key == Some(key) && lines[i].locale == locale)
    requires forall j | 0 <= j < i :: !(lines[j].key == Some(key) && lines[j].locale == locale)
    ensures FindLine(lines, key, locale) == i
  {
    var f := FindLine(lines, key, locale);
    assert !(f < i) && !(i < f);
  }

  lemma FindSectionIs(sections: seq<Section>, name: string, i: nat)
    requires i <= |sections| && (i < |sections| ==> sections[i].name == Some(name))
    requires forall j | 0 <= j < i :: sections[j].name != Some(name)
    ensures FindSection(sections, name) == i
  {
    var f := FindSection(sections, name);
    assert !(f < i) && !(i < f);
  }

  /** The first unlocalized line of a key in the first section of a name. */
  predicate FirstOf(sections: seq<Section>, name: string, key: string, n: nat, i: nat) {
    && n < |sections| && sections[n].name == Some(name) && (forall m | 0 <= m < n :: sections[m].name != Some(name))
    && i < |sections[n].lines| && sections[n].lines[i].key == Some(key) && sections[n].lines[i].locale == None
    && forall j | 0 <= j < i :: !(sections[n].lines[j].key == Some(key) && sections[n].lines[j].locale == None)
  }

  /** That line gives the entry of the key, and without it there is none. */
  lemma LookupExactly(sections: seq<Section>, name: string, key: string)
    ensures forall n: nat, i: nat | FirstOf(sections, name, key, n, i) ::
              var l := sections[n].lines[i]; Lookup(sections, name, key) == Entry(l.value, l.overrides)
    ensures Lookup(sections, name, key) == Absent <==> forall n: nat, i: nat :: !FirstOf(sections, name, key, n, i)
  {
    var n := FindSection(sections, name);
    if n < |sections| {
      var i := FindLine(sections[n].lines, key, None);
      assert i < |sections[n].lines| ==> FirstOf(sections, name, key, n, i);
    }
    forall m: nat, j: nat | FirstOf(sections, name, key, m, j)
      ensures m == n && j == FindLine(sections[m].lines, key, None)
    {
      FindSectionIs(sections, name, m);
      FindLineIs(sections[m].lines, key, None, j);
    }
  }

  /** Nothing but one line changes: the line of the key, or one that is added for it behind
      the other lines of its section, in a section that is added if it is missing. */
  ghost predicate OnlyLine(before: seq<Section>, after: seq<Section>, name: string, key: string) {
    var n := FindSection(before, name);
    && (forall m | 0 <= m < |before| && m != n :: m < |after| && after[m] == before[m])
    && if n == |before| then |after| == n + 1 && after[n].name == Some(name) && |after[n].lines| == 1
       else
         var i := FindLine(before[n].lines, key, None);
         && |after| == |before| && after[n].name == before[n].name
         && (forall j | 0 <= j < |before[n].lines| && j != i ::
               j < |after[n].lines| && after[n].lines[j] == before[n].lines[j])
         && |after[n].lines| == if i == |before[n].lines| then i + 1 else |before[n].lines|
  }

  /** Rewriting the line of `key` changes the entry of `key` alone. */
  lemma ChangedLine(lines: seq<Line>, key: string, l: Line, k: string)
    requires FindLine(lines, key, None) < |lines| && l.key == Some(key) && l.locale == None
    ensures var after := lines[FindLine(lines, key, None) := l];
            EntryIn(after, k) == if k == key then Entry(l.value, l.overrides) else EntryIn(lines, k)
  {
    var i := FindLine(lines, key, None);
    FindLineIs(lines[i := l], k, None, FindLine(lines, k, None));
  }

  lemma AddedLine(lines: seq<Line>, key: string, l: Line, k: string)
    requires FindLine(lines, key, None) == |lines| && l.key == Some(key) && l.locale == None
    ensures EntryIn(lines + [l], k) == if k == key then Entry(l.value, l.overrides) else EntryIn(lines, k)
  {
    var f := FindLine(lines, k, None);
    FindLineIs(lines + [l], k, None, if f == |lines| && k != key then f + 1 else f);
  }

  /** Rewriting the lines of the section that a name finds changes what that name
      finds, and nothing else. */
  lemma ChangedSection(sections: seq<Section>, name: string, lines: seq<Line>, m: string, k: string)
    requires FindSection(sections, name) < |sections|
    ensures var n := FindSection(sections, name);
            Lookup(sections[n := sections[n].(lines := lines)], m, k) ==
            if m == name then EntryIn(lines, k) else Lookup(sections, m, k)
  {
    var n := FindSection(sections, name);
    FindSectionIs(sections[n := sections[n].(lines := lines)], m, FindSection(sections, m));
  }

  lemma AddedSection(sections: seq<Section>, name: string, m: string, k: string)
    requires FindSection(sections, name) == |sections|
    ensures FindSection(sections + [Section(Some(name), [])], name) == |sections|
    ensures Lookup(sections + [Section(Some(name), [])], m, k) == Lookup(sections, m, k)
  {
    var after := sections + [Section(Some(name), [])];
    var f := FindSection(sections, m);
    FindSectionIs(after, name, |sections|);
    FindSectionIs(after, m, if f == |sections| && m != name then f + 1 else f);
  }

  method HeaderToString(name: Option<string>) returns (str: string)
    ensures str == PrintHeader(name)
  {
    str := "";
    if name.Some? {
      var s := EscapeString(name.value, false);
      str := "[" + s + "]" + "\n";
    }
  }

  method LineToString(line: Line) returns (str: string)
    requires line.value.Some?
    ensures str == PrintLine(line)
  {
    if line.key.None? {
      return line.value.value + "\n";
    }
    var locale := "";
    if line.locale.Some? {
      locale := "[" + line.locale.value + "]";
    }
    var s := EscapeString(line.value.value, true);
    str := line.key.value + locale + "=" + s + "\n";
  }

  method LinesToString(lines: seq<Line>) returns (str: string)
    requires forall l | l in lines :: l.value.Some?
    ensures str == PrintLines(lines)
  {
    str := "";
    var j := 0;
    while j < |lines|
      invariant 0 <= j <= |lines|
      invariant forall l | l in lines[j..] :: l.value.Some?
      invariant str + PrintLines(lines[j..]) == PrintLines(lines)
    {
      assert lines[j..][1..] == lines[j + 1..];
      ghost var before := str;
      var s := LineToString(lines[j]);
      str := str + s;
      assert before + (s + PrintLines(lines[j + 1..])) == str + PrintLines(lines[j + 1..]);
      j := j + 1;
    }
  }

  class PluginDescription {
    var sections: seq<Section>

    constructor ()
      ensures sections == []
    {
      sections := [];
    }

    method CreateSection(name: Option<string>, first: bool) returns (n: nat)
      requires first ==> sections != [] && name.Some?
      modifies this
      ensures sections == if first && old(sections)[0] == Section(None, [])
                          then old(sections)[0 := Section(name, [])]
                          else old(sections) + [Section(name, [])]
      ensures n == if first && old(sections)[0] == Section(None, []) then 0 else |old(sections)|
    {
      if first && sections[0].name == None && |sections[0].lines| == 0 {
        // Nothing was collected before the first header: reuse its section.
        sections := sections[0 := sections[0].(name := name)];
        return 0;
      }
      n := |sections|;
      sections := sections + [Section(name, [])];
    }

    method NewLine(n: nat, line: Line)
      requires n < |sections|
      modifies this
      ensures sections == old(sections)[n := old(sections)[n].(lines := old(sections)[n].lines + [line])]
    {
      sections := sections[n := sections[n].(lines := sections[n].lines + [line])];
    }

    method LookupSection(name: string) returns (n: Option<nat>)
      ensures n == if FindSection(sections, name) < |sections| then Some(FindSection(sections, name)) else None
    {
      var i := 0;
      while i < |sections|
        invariant 0 <= i <= |sections|
        invariant FindSection(sections, name) == i + FindSection(sections[i..], name)
      {
        if sections[i].name == Some(name) {
          return Some(i);
        }
        assert sections[i..][1..] == sections[i + 1..];
        i := i + 1;
      }
      return None;
    }

    method LookupLine(n: nat, key: string, locale: Option<string>) returns (l: Option<nat>)
      requires n < |sections|
      ensures var lines := sections[n].lines;
              l == if FindLine(lines, key, locale) < |lines| then Some(FindLine(lines, key, locale)) else None
    {
      var lines := sections[n].lines;
      var i := 0;
      while i < |lines|
        invariant 0 <= i <= |lines|
        invariant FindLine(lines, key, locale) == i + FindLine(lines[i..], key, locale)
      {
        if lines[i].key == Some(key) && lines[i].locale == locale {
          return Some(i);
        }
        assert lines[i..][1..] == lines[i + 1..];
        i := i + 1;
      }
      return None;
    }

    /** anjuta_plugin_description_get_raw, for an unlocalized key. */
    method GetRaw(name: string, key: string) returns (found: bool, val: Option<string>)
      ensures var e := Lookup(sections, name, key);
              found == e.Entry? && val == if e.Entry? then e.value else None
    {
      var section := LookupSection(name);
      if section.None? {
        return false, None;
      }
      var line := LookupLine(section.value, key, None);
      if line.None? {
        return false, None;
      }
      return true, sections[section.value].lines[line.value].value;
    }

    /** anjuta_plugin_description_to_string */
    method ToString() returns (str: string)
      requires Printable(sections)
      ensures str == Print(sections)
    {
      str := "";
      var i := 0;
      while i < |sections|
        invariant 0 <= i <= |sections|
        invariant Printable(sections[i..])
        invariant str + Print(sections[i..]) == Print(sections)
      {
        ghost var before := str;
        assert sections[i..][1..] == sections[i + 1..];
        PrintFirst(sections[i..]);
        var header := HeaderToString(sections[i].name);
        var lines := LinesToString(sections[i].lines);
        str := str + header + lines;
        Associative(before, header + lines, Print(sections[i + 1..]));
        Associative(before, header, lines);
        i := i + 1;
      }
    }

    /** Pushes a value on a key; the section and the line are made when missing. */
    method Override(name: string, key: string, val: string) returns (ok: bool)
      modifies this
      ensures ok == (old(sections) != [])
      ensures Lookup(sections, name, key) == if ok then OverrideEntry(old(Lookup(sections, name, key)), val) else Absent
      ensures OnlyChanges(old(sections), sections, name, key) && sections != []
      ensures ok ==> OnlyLine(old(sections), sections, name, key)
    {
      var section := LookupSection(name);
      var n;
      if section.None? {
        n := CreateSection(Some(name), false);
        forall m, k
          ensures Lookup(sections, m, k) == Lookup(old(sections), m, k) && FindSection(sections, name) == |old(sections)|
        {
          AddedSection(old(sections), name, m, k);
        }
        if n == 0 {
          return false;
        }
      } else {
        n := section.value;
      }
      ghost var before := sections;
      var line := LookupLine(n, key, None);
      var l := Line(Some(key), None, Some(val), []);
      if line.Some? {
        var current := sections[n].lines[line.value];
        l := current.(overrides := [current.value] + current.overrides, value := Some(val));
        sections := sections[n := sections[n].(lines := sections[n].lines[line.value := l])];
      } else {
        NewLine(n, l);
      }
      forall m, k
        ensures Lookup(sections, m, k) ==
                if m == name && k == key then Entry(l.value, l.overrides) else Lookup(before, m, k)
      {
        ChangedSection(before, name, sections[n].lines, m, k);
        if line.Some? {
          ChangedLine(before[n].lines, key, l, k);
        } else {
          AddedLine(before[n].lines, key, l, k);
        }
      }
      return true;
    }

    /** Pops the value of a key; the last one leaves a line without value. */
    method Remove(name: string, key: string) returns (ok: bool)
      modifies this
      ensures ok == old(Lookup(sections, name, key)).Entry?
      ensures Lookup(sections, name, key) == RemoveEntry(old(Lookup(sections, name, key)))
      ensures OnlyChanges(old(sections), sections, name, key)
      ensures if ok then OnlyLine(old(sections), sections, name, key) && |sections| == |old(sections)| else sections == old(sections)
    {
      var section := LookupSection(name);
      if section.None? {
        return false;
      }
      var n := section.value;
      var line := LookupLine(n, key, None);
      if line.None? {
        return false;
      }
      var current := sections[n].lines[line.value];
      var l := if current.overrides == [] then current.(value := None)
               else current.(value := current.overrides[0], overrides := current.overrides[1..]);
      sections := sections[n := sections[n].(lines := sections[n].lines[line.value := l])];
      forall m, k
        ensures Lookup(sections, m, k) ==
                if m == name && k == key then Entry(l.value, l.overrides) else Lookup(old(sections), m, k)
      {
        ChangedSection(old(sections), name, sections[n].lines, m, k);
        ChangedLine(old(sections)[n].lines, key, l, k);
      }
      return true;
    }
  }
}
