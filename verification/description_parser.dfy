/** The cursor-moving parser of libanjuta/anjuta-plugin-description.c, proved to
    compute `DescriptionText.Parse`. */
module DescriptionParser {
  import opened DescriptionText
  import opened Options
  import opened PluginDescriptions

  /** The line of `text` that starts at `p`. */
  function LineAt(text: string, p: nat): string
    requires p <= |text|
  {
    text[p..p + LineEnd(text[p..])]
  }

  lemma Slice(s: string, a: nat, b: nat, c: nat, d: nat)
    requires a <= b <= |s| && c <= d <= b - a
    ensures s[a..b][c..d] == s[a + c..a + d]
  {
    var t := s[a..b];
    assert |t[c..d]| == |s[a + c..a + d]|;
    forall i | 0 <= i < d - c
      ensures t[c..d][i] == s[a + c..a + d][i]
    {
      assert t[c..d][i] == t[c + i];
    }
  }

  lemma SliceAt(s: string, a: nat, b: nat, c: nat)
    requires a <= b <= c <= |s|
    ensures s[a..c][..b - a] == s[a..b] && s[a..c][b - a..] == s[b..c]
  {
  }

  /** A locale in a text, by the end that the scan for its bracket finds. */
  lemma LocaleAt(s: string, a: nat, b: nat, c: nat)
    requires a < b <= c <= |s| && s[a] == '[' && b - (a + 1) == Span(NOT_BRACKET, s[a + 1..c])
    ensures ParseLocale(s[a..c]) == if b == c then Err(InvalidSyntax) else Ok((Some(s[a + 1..b]), s[b + 1..c]))
  {
    SliceAt(s, a, a + 1, c);
    Slice(s, a, c, 1, b - a);
    if b < c {
      SliceAt(s, a, b + 1, c);
    }
  }

  lemma NoLocaleAt(s: string, a: nat, c: nat)
    requires a <= c <= |s| && (a == c || s[a] != '[')
    ensures ParseLocale(s[a..c]) == Ok((None, s[a..c]))
  {
  }

  lemma BlanksAt(s: string, a: nat, b: nat, c: nat)
    requires a <= b <= c <= |s| && b - a == Span(IS_BLANK, s[a..c])
    ensures SkipBlanks(s[a..c]) == s[b..c]
  {
    SliceAt(s, a, b, c);
  }

  /** A value in a text, by the end of the blanks before it. */
  lemma ValueAt(s: string, a: nat, b: nat, c: nat)
    requires a <= b <= c <= |s| && b - a == Span(IS_BLANK, s[a..c])
    ensures b == c ==> ParseValue(s[a..c]) == Err(InvalidSyntax)
    ensures b < c && s[b] != '=' ==> ParseValue(s[a..c]) == Err(InvalidChars)
    ensures b < c && s[b] == '=' ==>
              ParseValue(s[a..c]) == match Unescape(SkipBlanks(s[b + 1..c]))
                                     case None => Err(InvalidEscapes)
                                     case Some(value) => Ok(value)
  {
    BlanksAt(s, a, b, c);
    if b < c {
      SliceAt(s, b, b + 1, c);
    }
  }

  /** What reading one line means, by the kind of the line. */
  lemma KindOfLine(sections: seq<Section>, content: string)
    requires sections != []
    ensures HeaderText(content) ==>
              READ_LINE(sections, content) == match ParseHeader(content)
                                             case Err(code) => Err(code)
                                             case Ok(name) => Ok(AddSection(sections, name, |sections| == 1))
    ensures !HeaderText(content) && CommentText(content) ==>
              READ_LINE(sections, content) == Ok(AddLine(sections, Line(None, None, Some(content), [])))
    ensures !HeaderText(content) && !CommentText(content) ==>
              READ_LINE(sections, content) == match DescriptionText.ParseKeyValue(content)
                                             case Err(code) => Err(code)
                                             case Ok(l) => Ok(AddLine(sections, l))
    ensures KeyedText(content) <==> !HeaderText(content) && !CommentText(content)
  {
  }

  /** Where the cursor goes behind a line: a key line may end the text. */
  function After(text: string, at: nat, content: string): Option<nat> {
    if at + |content| == |text| && KeyedText(content) then None else Some(at + |content| + 1)
  }

  /** The cursor tells how the text has still to be parsed. */
  ghost predicate Progress(read: Reader, goal: Outcome, text: string, sections: seq<Section>, line: Option<nat>, lineNr: nat) {
    match line
    case None => goal == Parsed(sections)
    case Some(at) =>
      at <= |text| + 1 &&
      goal == if at <= |text| then ParseFrom(read, sections, text[at..], lineNr) else Overrun
  }

  lemma LineAtIs(text: string, at: nat)
    requires at < |text|
    ensures var rest := text[at..];
            var content := LineAt(text, at);
            && content == rest[..LineEnd(rest)] && |content| == LineEnd(rest) && at + |content| <= |text|
            && (|content| < |rest| ==> rest[|content| + 1..] == text[at + |content| + 1..])
            && (|content| == |rest| ==> rest == content)
  {
  }

  lemma ProgressStep(read: Reader, goal: Outcome, text: string, sections: seq<Section>, at: nat, lineNr: nat,
                     content: string, parsed: Result<seq<Section>>)
    requires at < |text| && Progress(read, goal, text, sections, Some(at), lineNr)
    requires content == LineAt(text, at) && parsed == read(sections, content)
    ensures match parsed
            case Err(code) => goal == Failed(code, CurrentName(sections), lineNr)
            case Ok(more) => Progress(read, goal, text, more, After(text, at, content), lineNr + 1)
  {
    LineAtIs(text, at);
  }

  /** The first character of a line decides what kind of line it is. */
  lemma FirstCharacter(text: string, at: nat, content: string)
    requires at < |text| && content == LineAt(text, at)
    ensures at + |content| <= |text|
    ensures HeaderText(content) <==> text[at] == '['
    ensures CommentText(content) <==> BlankText(content) || text[at] == '#'
  {
    var s := text[at..];
    SpanStops(NOT_NEWLINE, s);
    assert content == s[..LineEnd(s)];
    assert NOT_NEWLINE('[') && NOT_NEWLINE('#');
  }

  /** What comes of a line, by what the parser looks at. */
  lemma NextLine(text: string, at: nat, sections: seq<Section>, content: string)
    requires at < |text| && content == LineAt(text, at) && sections != []
    ensures text[at] == '[' ==>
              && After(text, at, content) == Some(at + |content| + 1)
              && READ_LINE(sections, content) == match ParseHeader(content)
                                                 case Err(code) => Err(code)
                                                 case Ok(name) => Ok(AddSection(sections, name, |sections| == 1))
    ensures text[at] != '[' && (BlankText(content) || text[at] == '#') ==>
              && After(text, at, content) == Some(at + |content| + 1)
              && READ_LINE(sections, content) == Ok(AddLine(sections, Line(None, None, Some(content), [])))
    ensures text[at] != '[' && !BlankText(content) && text[at] != '#' ==>
              && After(text, at, content) == (if at + |content| < |text| then Some(at + |content| + 1) else None)
              && READ_LINE(sections, content) == match DescriptionText.ParseKeyValue(content)
                                                 case Err(code) => Err(code)
                                                 case Ok(l) => Ok(AddLine(sections, l))
  {
    FirstCharacter(text, at, content);
    KindOfLine(sections, content);
  }

  class Parser {
    const text: string
    const df: PluginDescription
    var currentSection: nat
    var lineNr: nat
    var line: Option<nat>  // the cursor; None is NULL

    ghost predicate Valid()
      reads this, df
    {
      df.sections != [] && currentSection == |df.sections| - 1
    }

    /** The cursor is at the beginning of a line of the text. */
    ghost predicate OnLine(content: string)
      reads this
    {
      line.Some? && line.value < |text| && content == LineAt(text, line.value)
    }

    constructor (text: string)
      ensures this.text == text && fresh(df) && Valid()
      ensures df.sections == [Section(None, [])] && lineNr == 1 && line == Some(0)
    {
      this.text := text;
      df := new PluginDescription();
      currentSection, lineNr, line := 0, 1, Some(0);
      new;
      // What precedes the first header belongs to a section without a name.
      currentSection := df.CreateSection(None, false);
    }

    /** Moves from `start` over the characters that satisfy `p`, up to `end`. */
    method Skip(start: nat, end: nat, p: char -> bool) returns (q: nat)
      requires start <= end <= |text|
      ensures start <= q <= end && q == start + Span(p, text[start..end])
    {
      q := start;
      while q < end && p(text[q])
        invariant start <= q <= end
        invariant Span(p, text[start..end]) == (q - start) + Span(p, text[q..end])
      {
        assert text[q..end][1..] == text[q + 1..end];
        q := q + 1;
      }
    }

    method FindLineEnd(ghost content: string) returns (end: nat)
      requires OnLine(content)
      ensures line.value <= end <= |text| && end == line.value + |content|
      ensures text[line.value..end] == content
    {
      end := Skip(line.value, |text|, NOT_NEWLINE);
      assert text[line.value..|text|] == text[line.value..];
    }

    method IsBlankLine(ghost content: string) returns (blank: bool)
      requires OnLine(content)
      ensures blank == BlankText(content)
    {
      ghost var end := line.value + LineEnd(text[line.value..]);
      SpanStops(NOT_NEWLINE, text[line.value..]);
      assert end < |text| ==> !NOT_NEWLINE(text[line.value..][end - line.value]);
      assert forall i | line.value <= i < end :: NOT_NEWLINE(text[line.value..][i - line.value]) && text[i] != '\n';
      var p := line.value;
      while p < |text| && text[p] != '\n'
        invariant line.value <= p <= end
        invariant forall i | line.value <= i < p :: IsSpace(text[i])
      {
        if !IsSpace(text[p]) {
          assert LineAt(text, line.value)[p - line.value] == text[p];
          return false;
        }
        p := p + 1;
      }
      return true;
    }

    method AppendLine(l: Line)
      requires Valid()
      modifies df
      ensures Valid() && df.sections == AddLine(old(df.sections), l)
    {
      df.NewLine(currentSection, l);
    }

    method ParseCommentOrBlank(ghost content: string)
      requires Valid() && OnLine(content)
      modifies this`line, this`lineNr, df
      ensures Valid()
      ensures df.sections == AddLine(old(df.sections), Line(None, None, Some(content), []))
      ensures line == Some(old(line.value) + |content| + 1) && lineNr == old(lineNr) + 1
    {
      var lineEnd := FindLineEnd(content);
      AppendLine(Line(None, None, Some(text[line.value..lineEnd]), []));
      line := Some(lineEnd + 1);
      lineNr := lineNr + 1;
    }

    method ParseSectionStart(ghost content: string) returns (error: Option<ErrorCode>)
      requires Valid() && OnLine(content)
      modifies this, df
      ensures Valid()
      ensures match ParseHeader(content)
              case Err(code) => error == Some(code) && df.sections == old(df.sections) && lineNr == old(lineNr)
              case Ok(name) =>
                && error == None
                && df.sections == AddSection(old(df.sections), name, |old(df.sections)| == 1)
                && line == Some(old(line.value) + |content| + 1) && lineNr == old(lineNr) + 1
    {
      var lineEnd := FindLineEnd(content);
      if lineEnd - line.value <= 2 || text[lineEnd - 1] != ']' {
        return Some(InvalidSyntax);
      }
      var sectionName := UnescapeString(text[line.value + 1..lineEnd - 1]);
      Slice(text, line.value, lineEnd, 1, lineEnd - line.value - 1);
      if sectionName.None? {
        return Some(InvalidEscapes);
      }
      currentSection := df.CreateSection(sectionName, currentSection == 0);
      line := Some(lineEnd + 1);
      lineNr := lineNr + 1;
      return None;
    }

    /** The locale of a key, from `[` to `]`, if there is one at `start`. */
    method ScanLocale(start: nat, lineEnd: nat) returns (error: Option<ErrorCode>, locale: Option<string>, p: nat)
      requires start <= lineEnd <= |text|
      ensures start <= p <= lineEnd
      ensures match ParseLocale(text[start..lineEnd])
              case Err(code) => error == Some(code)
              case Ok((l, rest)) => error == None && locale == l && rest == text[p..lineEnd]
    {
      error, locale, p := None, None, start;
      if p == lineEnd || text[p] != '[' {
        NoLocaleAt(text, start, lineEnd);
        return;
      }
      p := Skip(p + 1, lineEnd, NOT_BRACKET);
      LocaleAt(text, start, p, lineEnd);
      if p == lineEnd {
        return Some(InvalidSyntax), None, p;
      }
      locale := Some(text[start + 1..p]);
      p := p + 1;
    }

    /** The value of a key, after blanks, an equals sign and more blanks. */
    method ScanValue(start: nat, lineEnd: nat) returns (error: Option<ErrorCode>, value: string)
      requires start <= lineEnd <= |text|
      ensures match ParseValue(text[start..lineEnd])
              case Err(code) => error == Some(code)
              case Ok(v) => error == None && value == v
    {
      // Blanks in front of the equals sign do not count,
      var p := Skip(start, lineEnd, IS_BLANK);
      ValueAt(text, start, p, lineEnd);
      if p < lineEnd && text[p] != '=' {
        return Some(InvalidChars), "";
      }
      if p == lineEnd {
        return Some(InvalidSyntax), "";
      }
      // nor do blanks behind it.
      var q := Skip(p + 1, lineEnd, IS_BLANK);
      BlanksAt(text, p + 1, q, lineEnd);
      var unescaped := UnescapeString(text[q..lineEnd]);
      if unescaped.None? {
        return Some(InvalidEscapes), "";
      }
      return None, unescaped.value;
    }

    method ScanAfterKey(key: string, keyEnd: nat, lineEnd: nat) returns (r: Result<Line>)
      requires keyEnd <= lineEnd <= |text|
      ensures r == ParseAfterKey(key, text[keyEnd..lineEnd])
    {
      var error, locale, p := ScanLocale(keyEnd, lineEnd);
      if error.Some? {
        return Err(error.value);
      }
      var value;
      error, value := ScanValue(p, lineEnd);
      if error.Some? {
        return Err(error.value);
      }
      return Ok(Line(Some(key), locale, Some(value), []));
    }

    /** A key, its locale and its value. */
    method ScanKeyValue(start: nat, lineEnd: nat) returns (r: Result<Line>)
      requires start <= lineEnd <= |text|
      ensures r == DescriptionText.ParseKeyValue(text[start..lineEnd])
    {
      var keyEnd := Skip(start, lineEnd, ValidKeyChar);
      SliceAt(text, start, keyEnd, lineEnd);
      if start == keyEnd {
        return Err(InvalidSyntax);
      }
      r := ScanAfterKey(text[start..keyEnd], keyEnd, lineEnd);
    }

    method ParseKeyValue(ghost content: string) returns (error: Option<ErrorCode>)
      requires Valid() && OnLine(content)
      modifies this`line, this`lineNr, df
      ensures Valid()
      ensures match DescriptionText.ParseKeyValue(content)
              case Err(code) => error == Some(code) && df.sections == old(df.sections) && lineNr == old(lineNr)
              case Ok(l) =>
                && error == None
                && df.sections == AddLine(old(df.sections), l)
                && (var end := old(line.value) + |content|;
                    line == if end < |text| then Some(end + 1) else None)
                && lineNr == old(lineNr) + 1
    {
      var lineEnd := FindLineEnd(content);
      var scanned := ScanKeyValue(line.value, lineEnd);
      match scanned {
        case Err(code) =>
          error := Some(code);
        case Ok(l) =>
          AppendLine(l);
          line := if lineEnd < |text| then Some(lineEnd + 1) else None;
          lineNr := lineNr + 1;
          error := None;
      }
    }

    method ParseNext(ghost content: string, ghost parsed: Result<seq<Section>>) returns (error: Option<ErrorCode>)
      requires Valid() && OnLine(content)
      requires parsed == READ_LINE(df.sections, content)
      modifies this, df
      ensures Valid()
      ensures match parsed
              case Err(code) => error == Some(code) && df.sections == old(df.sections) && lineNr == old(lineNr)
              case Ok(more) =>
                error == None && df.sections == more && lineNr == old(lineNr) + 1
                && line == After(text, old(line.value), content)
    {
      NextLine(text, line.value, df.sections, content);
      error := None;
      if text[line.value] == '[' {
        error := ParseSectionStart(content);
      } else {
        var blank := IsBlankLine(content);
        if blank || text[line.value] == '#' {
          ParseCommentOrBlank(content);
        } else {
          error := ParseKeyValue(content);
        }
      }
    }

    /** One turn of the parsing loop.  That the reader is `READ_LINE` matters for this
        line alone. */
    method Advance(ghost read: Reader, ghost goal: Outcome) returns (error: Option<ErrorCode>)
      requires Valid() && line.Some? && line.value < |text|
      requires Progress(read, goal, text, df.sections, line, lineNr)
      requires read(df.sections, LineAt(text, line.value)) == READ_LINE(df.sections, LineAt(text, line.value))
      modifies this, df
      ensures Valid()
      ensures error.None? ==> Progress(read, goal, text, df.sections, line, lineNr)
      ensures error.None? && line.Some? ==> line.value > old(line.value)
      ensures error.Some? ==> goal == Failed(error.value, df.sections[currentSection].name, lineNr)
    {
      ghost var content := LineAt(text, line.value);
      ghost var parsed := read(df.sections, content);
      ProgressStep(read, goal, text, df.sections, line.value, lineNr, content, parsed);
      error := ParseNext(content, parsed);
    }
  }

  /** anjuta_plugin_description_new_from_string */
  method NewFromString(data: string) returns (outcome: Outcome)
    ensures outcome == Parse(data)
  {
    var parser := new Parser(data);
    var df := parser.df;
    assert data[0..] == data;
    while parser.line.Some? && parser.line.value < |data|
      invariant parser.text == data && parser.df == df && fresh(parser) && fresh(df) && parser.Valid()
      invariant Progress(READ_LINE, Parse(data), data, df.sections, parser.line, parser.lineNr)
      decreases if parser.line.Some? then |data| + 2 - parser.line.value else 0
    {
      var error := parser.Advance(READ_LINE, Parse(data));
      if error.Some? {
        return Failed(error.value, df.sections[parser.currentSection].name, parser.lineNr);
      }
    }
    if parser.line == Some(|data| + 1) {
      return Overrun;
    }
    assert parser.line.Some? ==> data[parser.line.value..] == "";
    return Parsed(df.sections);
  }
}
