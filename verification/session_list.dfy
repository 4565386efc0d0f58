/** String lists in a session, libanjuta/anjuta-session.c: stored as one text with
    "%%%" between the elements.  The key file is a map from section and key to text. */
module SessionLists {
  import opened Options

  const SEPARATOR := "%%%"

  /** An occurrence of the separator. */
  predicate SeparatorAt(t: string, i: int) {
    0 <= i && i + 3 <= |t| && t[i] == '%' && t[i + 1] == '%' && t[i + 2] == '%'
  }

  ghost predicate Clear(t: string) {
    forall i {:trigger SeparatorAt(t, i)} :: !SeparatorAt(t, i)
  }

  /** Where the first separator is, from a position on. */
  function FindFrom(t: string, from: nat): (r: Option<nat>)
    requires from <= |t|
    ensures r.Some? ==> from <= r.value && SeparatorAt(t, r.value) && forall i | from <= i < r.value :: !SeparatorAt(t, i)
    ensures r.None? ==> forall i | from <= i :: !SeparatorAt(t, i)
    decreases |t| - from
  {
    if SeparatorAt(t, from) then Some(from) else if from == |t| then None else FindFrom(t, from + 1)
  }

  function Pieces(t: string): (r: seq<string>)
    ensures r != []
    decreases |t|
  {
    var i := FindFrom(t, 0);
    if i.None? then [t] else [t[..i.value]] + Pieces(t[i.value + 3..])
  }

  /** g_strsplit, which gives no pieces for an empty text. */
  function Split(t: string): seq<string> {
    if t == "" then [] else Pieces(t)
  }

  function Join(list: seq<string>): string {
    if list == [] then ""
    else if |list| == 1 then list[0]
    else list[0] + SEPARATOR + Join(list[1..])
  }

  /** The strings of a list; NULL elements are skipped. */
  function Strings(list: seq<Option<string>>): seq<string>
    decreases |list|
  {
    if list == [] then []
    else
      var n := |list| - 1;
      Strings(list[..n]) + if list[n].Some? then [list[n].value] else []
  }

  /** No element contains the separator, and none but the last runs into it. */
  ghost predicate Separable(list: seq<string>) {
    forall i {:trigger list[i]} :: 0 <= i < |list| ==>
      Clear(list[i]) && (i + 1 < |list| && list[i] != [] ==> list[i][|list[i]| - 1] != '%')
  }

  lemma {:induction false} SeparableTail(list: seq<string>)
    requires list != []
    ensures Separable(list) <==>
            Separable(list[1..]) && Clear(list[0]) && (|list| > 1 && list[0] != [] ==> list[0][|list[0]| - 1] != '%')
  {
    forall i | 0 < i < |list|
      ensures list[i] == list[1..][i - 1]
    {
    }
    if Separable(list[1..]) && Clear(list[0]) && (|list| > 1 && list[0] != [] ==> list[0][|list[0]| - 1] != '%') {
      forall i | 0 <= i < |list|
        ensures Clear(list[i]) && (i + 1 < |list| && list[i] != [] ==> list[i][|list[i]| - 1] != '%')
      {
        if i > 0 { assert list[i] == list[1..][i - 1]; }
      }
    }
  }

  /** The first separator of a joined text is the one behind the first element,
      exactly when that element neither contains a separator nor ends in '%'. */
  lemma FirstSeparator(s: string, rest: string)
    ensures FindFrom(s + SEPARATOR + rest, 0) == Some(|s|) <==> Clear(s) && (s != [] ==> s[|s| - 1] != '%')
  {
    var t := s + SEPARATOR + rest;
    assert SeparatorAt(t, |s|);
    forall i | 0 <= i < |s|
      ensures SeparatorAt(t, i) ==> SeparatorAt(s, i) || s[|s| - 1] == '%'
      ensures SeparatorAt(s, i) ==> SeparatorAt(t, i)
    {
    }
    if s != [] && s[|s| - 1] == '%' {
      assert SeparatorAt(t, |s| - 1);
    }
  }

  lemma PiecesJoined(s: string, rest: string)
    requires Clear(s) && (s != [] ==> s[|s| - 1] != '%')
    ensures Pieces(s + SEPARATOR + rest) == [s] + Pieces(rest)
  {
    FirstSeparator(s, rest);
    var t := s + SEPARATOR + rest;
    assert t[..|s|] == s && t[|s| + 3..] == rest;
  }

  lemma {:induction false} JoinThenPieces(list: seq<string>)
    requires list != [] && Separable(list)
    ensures Pieces(Join(list)) == list
  {
    SeparableTail(list);
    if |list| > 1 {
      JoinThenPieces(list[1..]);
      PiecesJoined(list[0], Join(list[1..]));
    }
  }

  lemma {:induction false} PiecesSeparable(t: string)
    ensures Separable(Pieces(t))
    decreases |t|
  {
    var i := FindFrom(t, 0);
    if i.Some? {
      var s, rest := t[..i.value], t[i.value + 3..];
      PiecesSeparable(rest);
      assert t == s + SEPARATOR + rest;
      FirstSeparator(s, rest);
      assert Pieces(t)[1..] == Pieces(rest);
      SeparableTail(Pieces(t));
    }
  }

  lemma {:induction false} PiecesThenJoin(t: string)
    ensures Join(Pieces(t)) == t
    decreases |t|
  {
    var i := FindFrom(t, 0);
    if i.Some? {
      var s, rest := t[..i.value], t[i.value + 3..];
      PiecesThenJoin(rest);
      assert t == s + SEPARATOR + rest;
      assert Pieces(t)[1..] == Pieces(rest);
    }
  }

  /** Storing the list that was read reproduces the text. */
  lemma {:induction false} SplitThenJoin(t: string)
    ensures Join(Split(t)) == t
  {
    PiecesThenJoin(t);
  }

  lemma {:induction false} JoinEmpty(list: seq<string>)
    ensures Join(list) == "" <==> list == [] || list == [""]
  {
    if |list| > 1 {
      assert |Join(list)| >= 3;
    }
  }

  /** A stored list reads back as it was exactly when it is not a single empty
      string, contains no separator, and no element but the last ends in '%'. */
  lemma JoinThenSplit(list: seq<string>)
    ensures Split(Join(list)) == list <==> list != [""] && Separable(list)
  {
    if list != [] && Separable(list) {
      JoinThenPieces(list);
    }
    if Split(Join(list)) == list && list != [] {
      PiecesSeparable(Join(list));
    }
    JoinEmpty(list);
  }

  lemma StringsMore(value: seq<Option<string>>, i: nat)
    requires i < |value|
    ensures Strings(value[..i + 1]) == if value[i].Some? then Strings(value[..i]) + [value[i].value] else Strings(value[..i])
  {
    assert value[..i + 1][..i] == value[..i];
  }

  lemma {:induction false} StringsAppended(a: seq<Option<string>>, b: seq<Option<string>>)
    ensures Strings(a + b) == Strings(a) + Strings(b)
    decreases |b|
  {
    if b == [] {
      assert a + b == a;
    } else {
      var n := |b| - 1;
      assert (a + b)[..|a| + n] == a + b[..n];
      StringsAppended(a, b[..n]);
    }
  }

  /** A NULL element does not matter. */
  lemma NullSkipped(a: seq<Option<string>>, b: seq<Option<string>>)
    ensures Strings(a + [None] + b) == Strings(a + b)
  {
    StringsAppended(a + [None], b);
    StringsAppended(a, b);
    StringsMore(a + [None], |a|);
    assert (a + [None])[..|a|] == a && (a + [None])[..|a| + 1] == a + [None];
  }

  /** A list without NULL elements. */
  function Given(list: seq<string>): seq<Option<string>> {
    seq(|list|, i requires 0 <= i < |list| => Some(list[i]))
  }

  lemma {:induction false} StringsGiven(list: seq<string>)
    ensures Strings(Given(list)) == list
    decreases |list|
  {
    if list != [] {
      var n := |list| - 1;
      assert Given(list)[..n] == Given(list[..n]);
      StringsGiven(list[..n]);
    }
  }

  /** What is read from a key under which a list without NULL elements was stored: an
      empty list has removed the key, and any other list is read as it was exactly when it
      is not a single empty string, no element contains the separator and none but the
      last ends in '%'. */
  lemma StoredIsRead(list: seq<string>)
    ensures list == [] <==> Given(list) == []
    ensures Split(Join(Strings(Given(list)))) == list <==> list != [""] && Separable(list)
  {
    StringsGiven(list);
    JoinThenSplit(list);
  }

  lemma {:induction false} JoinMore(list: seq<string>, s: string)
    ensures Join(list + [s]) == if list == [] then s else Join(list) + "%%%" + s
  {
    if list != [] {
      assert (list + [s])[1..] == list[1..] + [s];
      JoinMore(list[1..], s);
      if |list| > 1 {
        assert list[0] + SEPARATOR + (Join(list[1..]) + SEPARATOR + s) == (list[0] + SEPARATOR + Join(list[1..])) + SEPARATOR + s;
      } else {
        assert list[1..] == [];
      }
    }
  }

  class Session {
    var values: map<(string, string), string>

    constructor ()
      ensures values == map[]
    {
      values := map[];
    }

    /** anjuta_session_set_string_list */
    method SetStringList(section: string, key: string, value: seq<Option<string>>)
      modifies this
      ensures values == if value == [] then old(values) - {(section, key)} else old(values)[(section, key) := Join(Strings(value))]
    {
      if value == [] {
        values := values - {(section, key)};
        return;
      }
      var str := "";
      var firstItem := true;
      var i := 0;
      while i < |value|
        invariant 0 <= i <= |value|
        invariant firstItem <==> Strings(value[..i]) == []
        invariant str == Join(Strings(value[..i])) && values == old(values)
      {
        ghost var done := Strings(value[..i]);
        StringsMore(value, i);
        if value[i].Some? {
          JoinMore(done, value[i].value);
          if firstItem {
            firstItem := false;
          } else {
            str := str + SEPARATOR;
          }
          str := str + value[i].value;
        }
        i := i + 1;
      }
      assert value[..i] == value;
      values := values[(section, key) := str];
    }

    /** anjuta_session_get_string_list */
    method GetStringList(section: string, key: string) returns (value: seq<string>)
      ensures value == if (section, key) in values then Split(values[(section, key)]) else []
    {
      value := [];
      if (section, key) in values {
        var str := Split(values[(section, key)]);
        var i := 0;
        while i < |str|
          invariant 0 <= i <= |str| && value == str[..i]
        {
          value := value + [str[i]];
          i := i + 1;
        }
      }
    }
  }
}
