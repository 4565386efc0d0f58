/** Plugin descriptions, libanjuta/anjuta-plugin-description.c: the text format, as
    functions, and the laws that the parser and the printer satisfy.

    A C string is the sequence of its characters before the terminator. */
module DescriptionText {
  import opened Options

  datatype Line = Line(
    key: Option<string>,             // None: a comment or a blank line, kept in `value`
    locale: Option<string>,
    value: Option<string>,           // None after the removal of an overriding value
    overrides: seq<Option<string>>)  // previous values, latest first

  datatype Section = Section(name: Option<string>, lines: seq<Line>)

  datatype ErrorCode = InvalidSyntax | InvalidEscapes | InvalidChars

  datatype Outcome =
    | Parsed(sections: seq<Section>)
    | Failed(code: ErrorCode, section: Option<string>, lineNr: nat)
    | Overrun  // the cursor has left the text

  // ---------- characters ----------

  predicate ValidKeyChar(c: char) {
    c == '-' || '0' <= c <= '9' || 'A' <= c <= 'Z' || 'a' <= c <= 'z'
  }

  /** g_ascii_isspace */
  predicate IsSpace(c: char) {
    c == ' ' || c == '\t' || c == '\n' || c == '\U{0C}' || c == '\r'
  }

  ghost predicate NulFree(s: string) {
    '\0' !in s
  }

  // ---------- escapes ----------

  function EscapeChar(c: char): string {
    if c == '\\' then "\\\\"
    else if c == '\t' then "\\t"
    else if c == '\n' then "\\n"
    else if c == '\r' then "\\r"
    else [c]
  }

  function EscapeRest(s: string): string {
    if s == "" then "" else EscapeChar(s[0]) + EscapeRest(s[1..])
  }

  function Escape(s: string, escapeFirstSpace: bool): string {
    if escapeFirstSpace && s != "" && s[0] == ' ' then "\\s" + EscapeRest(s[1..]) else EscapeRest(s)
  }

  function UnescapeCode(c: char): Option<char> {
    match c
    case 's' => Some(' ')
    case 't' => Some('\t')
    case 'n' => Some('\n')
    case 'r' => Some('\r')
    case '\\' => Some('\\')
    case _ => None
  }

  function Prepend(c: char, s: Option<string>): Option<string> {
    if s.Some? then Some([c] + s.value) else None
  }

  function Unescape(s: string): Option<string> {
    if s == "" then Some("")
    else if s[0] == '\0' then None
    else if s[0] == '\\' then
      if |s| == 1 || UnescapeCode(s[1]).None? then None
      else Prepend(UnescapeCode(s[1]).value, Unescape(s[2..]))
    else Prepend(s[0], Unescape(s[1..]))
  }

  lemma UnescapeOne(c: char, rest: string)
    requires c != '\0'
    ensures Unescape(EscapeChar(c) + rest) == Prepend(c, Unescape(rest))
  {
    var e := EscapeChar(c);
    assert (e + rest)[|e|..] == rest;
  }

  lemma {:induction false} UnescapeEscapeRest(s: string)
    requires NulFree(s)
    ensures Unescape(EscapeRest(s)) == Some(s)
  {
    if s != "" {
      UnescapeEscapeRest(s[1..]);
      UnescapeOne(s[0], EscapeRest(s[1..]));
      assert s == [s[0]] + s[1..];
    }
  }

  /** Unescaping undoes escaping. */
  lemma UnescapeEscape(s: string, first: bool)
    requires NulFree(s)
    ensures Unescape(Escape(s, first)) == Some(s)
  {
    UnescapeEscapeRest(s);
    if first && s != "" && s[0] == ' ' {
      UnescapeEscapeRest(s[1..]);
      assert ("\\s" + EscapeRest(s[1..]))[2..] == EscapeRest(s[1..]);
      assert s == [s[0]] + s[1..];
    }
  }

  lemma {:induction false} EscapeRestSafe(s: string)
    requires NulFree(s)
    ensures '\n' !in EscapeRest(s) && NulFree(EscapeRest(s))
    ensures s != "" ==> EscapeRest(s) != "" && (EscapeRest(s)[0] == ' ' <==> s[0] == ' ')
  {
    if s != "" { EscapeRestSafe(s[1..]); }
  }

  /** An escaped text fits on a line, and a value does not begin with a space. */
  lemma EscapeSafe(s: string, first: bool)
    requires NulFree(s)
    ensures '\n' !in Escape(s, first) && NulFree(Escape(s, first))
    ensures s != "" ==> Escape(s, first) != ""
    ensures first ==> Escape(s, first) == "" || Escape(s, first)[0] != ' '
  {
    EscapeRestSafe(s);
    if s != "" { EscapeRestSafe(s[1..]); }
  }

  lemma {:induction false} UnescapeNulFree(s: string)
    requires Unescape(s).Some?
    ensures NulFree(Unescape(s).value) && |Unescape(s).value| <= |s|
    ensures s != "" ==> Unescape(s).value != ""
  {
    if s != "" {
      if s[0] == '\\' { UnescapeNulFree(s[2..]); } else { UnescapeNulFree(s[1..]); }
    }
  }

  // ---------- scanning ----------

  /** The length of the longest prefix of `s` whose characters all satisfy `p`. */
  function Span(p: char -> bool, s: string): (n: nat)
    ensures n <= |s|
  {
    if s == "" || !p(s[0]) then 0 else 1 + Span(p, s[1..])
  }

  lemma {:induction false} SpanStops(p: char -> bool, s: string)
    ensures var n := Span(p, s); (forall i | 0 <= i < n :: p(s[i])) && (n < |s| ==> !p(s[n]))
  {
    if s != "" && p(s[0]) { SpanStops(p, s[1..]); }
  }

  /** The prefix of `s` before the first character that does not satisfy `p`. */
  lemma SpanIs(p: char -> bool, s: string, n: nat)
    requires n <= |s| && (forall i | 0 <= i < n :: p(s[i])) && (n < |s| ==> !p(s[n]))
    ensures Span(p, s) == n
  {
    SpanStops(p, s);
    var m := Span(p, s);
    assert !(m < n) && !(n < m);
  }

  const NOT_NEWLINE: char -> bool := c => c != '\n'
  const NOT_BRACKET: char -> bool := c => c != ']'
  const IS_BLANK: char -> bool := c => c == ' '

  function LineEnd(s: string): nat {
    Span(NOT_NEWLINE, s)
  }

  // ---------- lines ----------

  predicate BlankText(line: string) {
    forall c | c in line :: IsSpace(c)
  }

  predicate CommentText(line: string) {
    BlankText(line) || (line != "" && line[0] == '#')
  }

  predicate HeaderText(line: string) {
    line != "" && line[0] == '['
  }

  predicate KeyedText(line: string) {
    !HeaderText(line) && !CommentText(line)
  }

  datatype Result<+T> = Ok(value: T) | Err(code: ErrorCode)

  function ParseHeader(line: string): Result<string> {
    if |line| <= 2 || line[|line| - 1] != ']' then Err(InvalidSyntax)
    else match Unescape(line[1..|line| - 1])
      case None => Err(InvalidEscapes)
      case Some(name) => Ok(name)
  }

  /** The part of a key line after the key: an optional locale, then the rest. */
  function ParseLocale(s: string): Result<(Option<string>, string)> {
    if s != "" && s[0] == '[' then
      var l := Span(NOT_BRACKET, s[1..]);
      if 1 + l == |s| then Err(InvalidSyntax) else Ok((Some(s[1..1 + l]), s[2 + l..]))
    else Ok((None, s))
  }

  function SkipBlanks(s: string): string {
    s[Span(IS_BLANK, s)..]
  }

  function ParseValue(s: string): Result<string> {
    var t := SkipBlanks(s);
    if t != "" && t[0] != '=' then Err(InvalidChars)
    else if t == "" then Err(InvalidSyntax)
    else match Unescape(SkipBlanks(t[1..]))
      case None => Err(InvalidEscapes)
      case Some(value) => Ok(value)
  }

  /** What follows a key on its line. */
  function ParseAfterKey(key: string, s: string): Result<Line> {
    match ParseLocale(s)
    case Err(code) => Err(code)
    case Ok((locale, rest)) =>
      match ParseValue(rest)
      case Err(code) => Err(code)
      case Ok(value) => Ok(Line(Some(key), locale, Some(value), []))
  }

  function ParseKeyValue(line: string): Result<Line> {
    var k := Span(ValidKeyChar, line);
    if k == 0 then Err(InvalidSyntax) else ParseAfterKey(line[..k], line[k..])
  }

  // ---------- the parser ----------

  function AddLine(sections: seq<Section>, line: Line): (r: seq<Section>)
    requires sections != []
  {
    var n := |sections| - 1;
    sections[n := sections[n].(lines := sections[n].lines + [line])]
  }

  /** create_section: an empty first section is renamed, else a section is added. */
  function AddSection(sections: seq<Section>, name: string, first: bool): seq<Section>
    requires first ==> sections != []
  {
    if first && sections[0] == Section(None, []) then sections[0 := Section(Some(name), [])]
    else sections + [Section(Some(name), [])]
  }

  function ParseLine(sections: seq<Section>, line: string): Result<seq<Section>>
    requires sections != []
  {
    if HeaderText(line) then
      match ParseHeader(line)
      case Err(code) => Err(code)
      case Ok(name) => Ok(AddSection(sections, name, |sections| == 1))
    else if CommentText(line) then
      Ok(AddLine(sections, Line(None, None, Some(line), [])))
    else
      match ParseKeyValue(line)
      case Err(code) => Err(code)
      case Ok(l) => Ok(AddLine(sections, l))
  }

  /** How one line continues the sections read so far.  The text is parsed for any
      such reader, so that laws about whole texts need not look into a line. */
  type Reader = (seq<Section>, string) -> Result<seq<Section>>

  const READ_LINE: Reader :=
    (sections, line) => if sections == [] then Err(InvalidSyntax) else ParseLine(sections, line)

  function CurrentName(sections: seq<Section>): Option<string> {
    if sections == [] then None else sections[|sections| - 1].name
  }

  /** Parsing the text `s` from its beginning, with `sections` read before it. */
  function ParseFrom(read: Reader, sections: seq<Section>, s: string, lineNr: nat): Outcome
    decreases |s|
  {
    if s == "" then Parsed(sections)
    else
      var e := LineEnd(s);
      match read(sections, s[..e])
      case Err(code) => Failed(code, CurrentName(sections), lineNr)
      case Ok(more) =>
        if e < |s| then ParseFrom(read, more, s[e + 1..], lineNr + 1)
        else if KeyedText(s) then Parsed(more)
        else Overrun
  }

  function Parse(text: string): Outcome {
    ParseFrom(READ_LINE, [Section(None, [])], text, 1)
  }

  // ---------- the printer ----------

  /** The printer takes the value of every line to be there. */
  predicate Printable(sections: seq<Section>) {
    forall s | s in sections :: forall l | l in s.lines :: l.value.Some?
  }

  function PrintLocale(locale: Option<string>): string {
    if locale.Some? then "[" + locale.value + "]" else ""
  }

  function PrintLine(l: Line): string
    requires l.value.Some?
  {
    (if l.key.None? then l.value.value
     else l.key.value +
          PrintLocale(l.locale) +
          "=" + Escape(l.value.value, true)) + "\n"
  }

  function PrintLines(lines: seq<Line>): string
    requires forall l | l in lines :: l.value.Some?
  {
    if lines == [] then "" else PrintLine(lines[0]) + PrintLines(lines[1..])
  }

  function HeaderLine(name: string): string {
    "[" + Escape(name, false) + "]"
  }

  function PrintHeader(name: Option<string>): string {
    if name.Some? then HeaderLine(name.value) + "\n" else ""
  }

  function Print(sections: seq<Section>): string
    requires Printable(sections)
  {
    if sections == [] then ""
    else
      assert sections[0] in sections;
      PrintHeader(sections[0].name) + PrintLines(sections[0].lines) + Print(sections[1..])
  }

  lemma PrintFirst(sections: seq<Section>)
    requires sections != [] && Printable(sections)
    ensures (forall l | l in sections[0].lines :: l.value.Some?) && Printable(sections[1..])
    ensures Print(sections) == PrintHeader(sections[0].name) + PrintLines(sections[0].lines) + Print(sections[1..])
  {
    assert sections[0] in sections;
  }

  // ---------- what the parser produces ----------

  predicate WellFormedLine(l: Line) {
    && l.overrides == [] && l.value.Some? && '\0' !in l.value.value
    && match l.key
       case None => l.locale.None? && '\n' !in l.value.value && CommentText(l.value.value)
       case Some(k) =>
         && k != "" && (forall c | c in k :: ValidKeyChar(c))
         && (l.locale.Some? ==> forall c | c in l.locale.value :: c != ']' && c != '\n' && c != '\0')
  }

  predicate WellFormedSection(s: Section) {
    && (s.name.Some? ==> s.name.value != "" && '\0' !in s.name.value)
    && (forall l | l in s.lines :: WellFormedLine(l))
  }

  predicate WellFormed(sections: seq<Section>) {
    && sections != []
    && (forall i | 0 < i < |sections| :: sections[i].name.Some?)
    && (sections[0] == Section(None, []) ==> |sections| == 1)
    && (forall s | s in sections :: WellFormedSection(s))
  }

  // ---------- parsing yields well-formed descriptions ----------

  lemma ParsedKeyValue(line: string)
    requires NulFree(line) && '\n' !in line && ParseKeyValue(line).Ok?
    ensures WellFormedLine(ParseKeyValue(line).value) && ParseKeyValue(line).value.key.Some?
  {
    var k := Span(ValidKeyChar, line);
    var rest := line[k..];
    var value := ParseLocale(rest).value.1;
    var t := SkipBlanks(value);
    UnescapeNulFree(SkipBlanks(t[1..]));
    SpanStops(ValidKeyChar, line);
    if rest != "" && rest[0] == '[' {
      var l := Span(NOT_BRACKET, rest[1..]);
      var tail := rest[1..];
      var locale := rest[1..1 + l];
      SpanStops(NOT_BRACKET, tail);
      forall c | c in locale
        ensures c != ']' && c != '\n' && c != '\0'
      {
        var i :| 0 <= i < l && locale[i] == c;
        assert NOT_BRACKET(tail[i]);
        assert c in line;
      }
    }
    forall c | c in line[..k]
      ensures ValidKeyChar(c)
    {
    }
  }

  lemma ParsedLine(sections: seq<Section>, line: string)
    requires WellFormed(sections) && NulFree(line) && '\n' !in line && ParseLine(sections, line).Ok?
    ensures WellFormed(ParseLine(sections, line).value)
  {
    if HeaderText(line) {
      var inner := line[1..|line| - 1];
      UnescapeNulFree(inner);
      assert inner != "";
      var name := ParseHeader(line).value;
      var more := AddSection(sections, name, |sections| == 1);
      assert forall s | s in more :: s in sections || s == Section(Some(name), []);
    } else {
      var l := if CommentText(line) then Line(None, None, Some(line), []) else ParseKeyValue(line).value;
      if !CommentText(line) { ParsedKeyValue(line); }
      var n := |sections| - 1;
      var last := sections[n].(lines := sections[n].lines + [l]);
      assert sections[n] in sections;
      assert WellFormedSection(last);
      assert forall s | s in AddLine(sections, l) :: s in sections || s == last;
    }
  }

  lemma LineEndNoNewline(s: string)
    requires NulFree(s)
    ensures '\n' !in s[..LineEnd(s)] && NulFree(s[..LineEnd(s)])
    ensures LineEnd(s) < |s| ==> s[LineEnd(s)] == '\n' && NulFree(s[LineEnd(s) + 1..])
  {
    var e := LineEnd(s);
    SpanStops(NOT_NEWLINE, s);
    forall c | c in s[..e]
      ensures c != '\n' && c != '\0'
    {
      var i :| 0 <= i < e && s[i] == c;
      assert NOT_NEWLINE(s[i]);
    }
    assert e < |s| ==> !NOT_NEWLINE(s[e]);
  }

  ghost predicate KeepsWellFormed(read: Reader) {
    forall sections: seq<Section>, line: string
      | WellFormed(sections) && NulFree(line) && '\n' !in line && read(sections, line).Ok? ::
      WellFormed(read(sections, line).value)
  }

  lemma {:induction false} ParsedFromWellFormed(read: Reader, sections: seq<Section>, s: string, lineNr: nat)
    requires KeepsWellFormed(read)
    requires WellFormed(sections) && NulFree(s) && ParseFrom(read, sections, s, lineNr).Parsed?
    ensures WellFormed(ParseFrom(read, sections, s, lineNr).sections)
    decreases |s|
  {
    if s != "" {
      var e := LineEnd(s);
      LineEndNoNewline(s);
      if e < |s| { ParsedFromWellFormed(read, read(sections, s[..e]).value, s[e + 1..], lineNr + 1); }
    }
  }

  /** Whatever the parser accepts is well formed. */
  lemma ParsedIsWellFormed(text: string)
    requires NulFree(text) && Parse(text).Parsed?
    ensures WellFormed(Parse(text).sections)
  {
    forall sections: seq<Section>, line: string
      | WellFormed(sections) && NulFree(line) && '\n' !in line && READ_LINE(sections, line).Ok?
      ensures WellFormed(READ_LINE(sections, line).value)
    {
      ParsedLine(sections, line);
    }
    ParsedFromWellFormed(READ_LINE, [Section(None, [])], text, 1);
  }

  // ---------- printing, then parsing ----------

  /** A printed line without its newline. */
  function LineBody(l: Line): string
    requires l.value.Some?
  {
    PrintLine(l)[..|PrintLine(l)| - 1]
  }

  /** Where the first line of a text ends. */
  lemma LineCut(line: string, rest: string)
    requires '\n' !in line
    ensures var s := line + "\n" + rest; LineEnd(s) == |line| && s[..|line|] == line && s[|line| + 1..] == rest
  {
    var s := line + "\n" + rest;
    assert forall i | 0 <= i < |line| :: s[i] == line[i] && NOT_NEWLINE(s[i]);
    assert s[|line|] == '\n' && !NOT_NEWLINE(s[|line|]);
    SpanIs(NOT_NEWLINE, s, |line|);
  }

  lemma ParseFromLine(read: Reader, sections: seq<Section>, body: string, rest: string, lineNr: nat)
    requires '\n' !in body && read(sections, body).Ok?
    ensures ParseFrom(read, sections, body + "\n" + rest, lineNr) == ParseFrom(read, read(sections, body).value, rest, lineNr + 1)
  {
    LineCut(body, rest);
  }

  lemma PrintedValue(v: string)
    requires NulFree(v)
    ensures ParseValue("=" + Escape(v, true)) == Ok(v)
    ensures '\n' !in Escape(v, true)
  {
    EscapeSafe(v, true);
    UnescapeEscape(v, true);
    var e := Escape(v, true);
    var s := "=" + e;
    SpanIs(IS_BLANK, s, 0);
    SpanIs(IS_BLANK, e, 0);
    assert SkipBlanks(s) == s && s[1..] == e && SkipBlanks(e) == e;
  }

  lemma PrintedLocale(locale: Option<string>, rest: string)
    requires locale.Some? ==> forall c | c in locale.value :: c != ']'
    requires rest != "" && rest[0] == '='
    ensures ParseLocale(PrintLocale(locale) + rest) == Ok((locale, rest))
  {
    if locale.Some? {
      var l := locale.value;
      var s := "[" + l + "]" + rest;
      var t := s[1..];
      assert t == l + "]" + rest;
      forall i | 0 <= i < |l|
        ensures NOT_BRACKET(t[i])
      {
        assert t[i] == l[i] && l[i] in l;
      }
      assert t[|l|] == ']' && !NOT_BRACKET(t[|l|]);
      SpanIs(NOT_BRACKET, t, |l|);
      assert s[1..1 + |l|] == l && s[2 + |l|..] == rest;
    } else {
      assert "" + rest == rest;
    }
  }

  /** The key ends where a character that no key contains follows. */
  lemma PrintedKey(k: string, tail: string)
    requires k != "" && (forall c | c in k :: ValidKeyChar(c))
    requires tail != "" && (tail[0] == '[' || tail[0] == '=')
    ensures Span(ValidKeyChar, k + tail) == |k| && KeyedText(k + tail)
  {
    var body := k + tail;
    forall i | 0 <= i < |k|
      ensures ValidKeyChar(body[i])
    {
      assert body[i] == k[i] && k[i] in k;
    }
    assert body[|k|] == tail[0];
    SpanIs(ValidKeyChar, body, |k|);
    assert ValidKeyChar(body[0]) && body[0] in body;
  }

  lemma LineBodyParts(l: Line)
    requires l.value.Some? && l.key.Some?
    ensures LineBody(l) == l.key.value + (PrintLocale(l.locale) + ("=" + Escape(l.value.value, true)))
  {
  }

  /** A printed key line reads back as the line. */
  lemma PrintedKeyValue(l: Line)
    requires WellFormedLine(l) && l.key.Some?
    ensures KeyedText(LineBody(l)) && ParseKeyValue(LineBody(l)) == Ok(l)
  {
    var k := l.key.value;
    var rest := "=" + Escape(l.value.value, true);
    var tail := PrintLocale(l.locale) + rest;
    var body := LineBody(l);
    LineBodyParts(l);
    PrintedValue(l.value.value);
    PrintedKey(k, tail);
    PrintedLocale(l.locale, rest);
    assert body[..|k|] == k && body[|k|..] == tail;
  }

  lemma PrintedLineFits(l: Line)
    requires WellFormedLine(l)
    ensures '\n' !in LineBody(l) && NulFree(LineBody(l)) && PrintLine(l) == LineBody(l) + "\n"
  {
    if l.key.Some? {
      LineBodyParts(l);
      EscapeSafe(l.value.value, true);
      assert !ValidKeyChar('\n') && !ValidKeyChar('\0');
    }
  }

  lemma PrintedLine(sections: seq<Section>, l: Line)
    requires sections != [] && WellFormedLine(l)
    ensures ParseLine(sections, LineBody(l)) == Ok(AddLine(sections, l))
  {
    if l.key.Some? {
      PrintedKeyValue(l);
    } else {
      var v := l.value.value;
      assert LineBody(l) == v;
      assert v != "" ==> v[0] in v;
      assert l == Line(None, None, Some(v), []);
    }
  }

  // The text as a sequence of lines.

  function JoinLines(bodies: seq<string>): string {
    if bodies == [] then "" else bodies[0] + "\n" + JoinLines(bodies[1..])
  }

  lemma {:induction false} JoinLinesAppend(a: seq<string>, b: seq<string>)
    ensures JoinLines(a + b) == JoinLines(a) + JoinLines(b)
  {
    if a == [] {
      assert a + b == b;
    } else {
      JoinLinesAppend(a[1..], b);
      assert (a + b)[1..] == a[1..] + b;
    }
  }

  // What a reader of printed lines must do; the proofs about whole descriptions only
  // use these two properties of it.

  ghost predicate ReadsLines(read: Reader) {
    forall sections: seq<Section>, l: Line | sections != [] && WellFormedLine(l) && l.value.Some? ::
      read(sections, LineBody(l)) == Ok(AddLine(sections, l))
  }

  ghost predicate ReadsHeaders(read: Reader) {
    forall sections: seq<Section>, name: string | sections != [] && name != "" && NulFree(name) ::
      read(sections, HeaderLine(name)) == Ok(AddSection(sections, name, |sections| == 1))
  }

  lemma PrintedHeader(sections: seq<Section>, name: string)
    requires sections != [] && name != "" && NulFree(name)
    ensures ParseLine(sections, HeaderLine(name)) == Ok(AddSection(sections, name, |sections| == 1))
  {
    EscapeSafe(name, false);
    UnescapeEscape(name, false);
    var body := HeaderLine(name);
    assert body[1..|body| - 1] == Escape(name, false);
  }

  lemma ReadLineReads()
    ensures ReadsLines(READ_LINE) && ReadsHeaders(READ_LINE)
  {
    forall sections: seq<Section>, l: Line | sections != [] && WellFormedLine(l) && l.value.Some?
      ensures READ_LINE(sections, LineBody(l)) == Ok(AddLine(sections, l))
    {
      PrintedLine(sections, l);
    }
    forall sections: seq<Section>, name: string | sections != [] && name != "" && NulFree(name)
      ensures READ_LINE(sections, HeaderLine(name)) == Ok(AddSection(sections, name, |sections| == 1))
    {
      PrintedHeader(sections, name);
    }
  }

  function ReadAll(read: Reader, sections: seq<Section>, bodies: seq<string>): Option<seq<Section>>
    decreases bodies
  {
    if bodies == [] then Some(sections)
    else match read(sections, bodies[0])
      case Err(_) => None
      case Ok(more) => ReadAll(read, more, bodies[1..])
  }

  lemma {:induction false} ReadAllAppend(read: Reader, sections: seq<Section>, a: seq<string>, b: seq<string>)
    requires ReadAll(read, sections, a).Some?
    ensures ReadAll(read, sections, a + b) == ReadAll(read, ReadAll(read, sections, a).value, b)
    decreases a
  {
    if a == [] {
      assert a + b == b;
    } else {
      ReadAllAppend(read, read(sections, a[0]).value, a[1..], b);
      assert (a + b)[1..] == a[1..] + b;
    }
  }

  lemma {:induction false} ParseJoined(read: Reader, sections: seq<Section>, bodies: seq<string>, lineNr: nat)
    requires (forall b | b in bodies :: '\n' !in b) && ReadAll(read, sections, bodies).Some?
    ensures ParseFrom(read, sections, JoinLines(bodies), lineNr) == Parsed(ReadAll(read, sections, bodies).value)
    decreases bodies
  {
    if bodies != [] {
      var rest := JoinLines(bodies[1..]);
      ParseFromLine(read, sections, bodies[0], rest, lineNr);
      ParseJoined(read, read(sections, bodies[0]).value, bodies[1..], lineNr + 1);
    }
  }

  function HeaderBody(name: Option<string>): seq<string> {
    if name.Some? then [HeaderLine(name.value)] else []
  }

  function LineBodies(lines: seq<Line>): seq<string>
    requires forall l | l in lines :: l.value.Some?
  {
    if lines == [] then [] else [LineBody(lines[0])] + LineBodies(lines[1..])
  }

  function Bodies(sections: seq<Section>): seq<string>
    requires Printable(sections)
  {
    if sections == [] then []
    else
      assert sections[0] in sections;
      HeaderBody(sections[0].name) + LineBodies(sections[0].lines) + Bodies(sections[1..])
  }

  lemma {:induction false} PrintLinesJoined(lines: seq<Line>)
    requires forall l | l in lines :: l.value.Some? && WellFormedLine(l)
    ensures PrintLines(lines) == JoinLines(LineBodies(lines))
    ensures forall b | b in LineBodies(lines) :: '\n' !in b && NulFree(b)
  {
    if lines != [] {
      PrintLinesJoined(lines[1..]);
      PrintedLineFits(lines[0]);
    }
  }

  lemma PrintHeaderJoined(name: Option<string>)
    requires name.Some? ==> NulFree(name.value)
    ensures PrintHeader(name) == JoinLines(HeaderBody(name))
    ensures forall b | b in HeaderBody(name) :: '\n' !in b && NulFree(b)
  {
    if name.Some? {
      EscapeSafe(name.value, false);
      assert JoinLines([]) == "";
    }
  }

  lemma {:induction false} PrintJoined(sections: seq<Section>)
    requires Printable(sections) && forall s | s in sections :: WellFormedSection(s)
    ensures Print(sections) == JoinLines(Bodies(sections))
    ensures forall b | b in Bodies(sections) :: '\n' !in b && NulFree(b)
  {
    if sections != [] {
      var s := sections[0];
      assert s in sections;
      PrintHeaderJoined(s.name);
      PrintLinesJoined(s.lines);
      PrintJoined(sections[1..]);
      JoinLinesAppend(HeaderBody(s.name) + LineBodies(s.lines), Bodies(sections[1..]));
      JoinLinesAppend(HeaderBody(s.name), LineBodies(s.lines));
    }
  }

  lemma {:induction false} JoinLinesNulFree(bodies: seq<string>)
    requires forall b | b in bodies :: NulFree(b)
    ensures NulFree(JoinLines(bodies))
  {
    if bodies != [] {
      JoinLinesNulFree(bodies[1..]);
      assert bodies[0] in bodies;
    }
  }

  function AddLines(sections: seq<Section>, lines: seq<Line>): seq<Section>
    requires sections != []
  {
    var n := |sections| - 1;
    sections[n := sections[n].(lines := sections[n].lines + lines)]
  }

  lemma AddLinesFirst(sections: seq<Section>, lines: seq<Line>)
    requires sections != [] && lines != []
    ensures AddLines(AddLine(sections, lines[0]), lines[1..]) == AddLines(sections, lines)
  {
    var n := |sections| - 1;
    assert (sections[n].lines + [lines[0]]) + lines[1..] == sections[n].lines + lines;
  }

  lemma {:induction false} PrintedLines(read: Reader, sections: seq<Section>, lines: seq<Line>)
    requires ReadsLines(read)
    requires sections != [] && forall l | l in lines :: l.value.Some? && WellFormedLine(l)
    ensures ReadAll(read, sections, LineBodies(lines)) == Some(AddLines(sections, lines))
    decreases lines
  {
    var n := |sections| - 1;
    if lines == [] {
      assert sections[n].lines + lines == sections[n].lines;
      assert AddLines(sections, lines) == sections;
    } else {
      var next := AddLine(sections, lines[0]);
      var bodies := LineBodies(lines);
      assert bodies[0] == LineBody(lines[0]) && bodies[1..] == LineBodies(lines[1..]);
      assert read(sections, bodies[0]) == Ok(next);
      PrintedLines(read, next, lines[1..]);
      AddLinesFirst(sections, lines);
    }
  }

  /** Two runs of lines, one after the other. */
  lemma ReadInTurn(read: Reader, s0: seq<Section>, a: seq<string>, s1: seq<Section>, b: seq<string>, s2: seq<Section>)
    requires ReadAll(read, s0, a) == Some(s1) && ReadAll(read, s1, b) == Some(s2)
    ensures ReadAll(read, s0, a + b) == Some(s2)
  {
    ReadAllAppend(read, s0, a, b);
  }

  lemma ReadOne(read: Reader, s0: seq<Section>, line: string, s1: seq<Section>)
    requires read(s0, line) == Ok(s1)
    ensures ReadAll(read, s0, [line]) == Some(s1)
  {
    assert [line][1..] == [];
  }

  function AddWhole(sections: seq<Section>, s: Section): seq<Section> {
    if sections == [Section(None, [])] then [s] else sections + [s]
  }

  lemma SectionComplete(sections: seq<Section>, s: Section)
    requires sections != [] && s.name.Some?
    ensures var start := AddSection(sections, s.name.value, |sections| == 1);
            start != [] && AddLines(start, s.lines) == AddWhole(sections, s)
  {
    assert [] + s.lines == s.lines;
  }

  function SectionBodies(s: Section): seq<string>
    requires forall l | l in s.lines :: l.value.Some?
  {
    HeaderBody(s.name) + LineBodies(s.lines)
  }

  /** The lines of a section with a name read back as that section. */
  lemma PrintedSection(read: Reader, sections: seq<Section>, s: Section)
    requires ReadsLines(read) && ReadsHeaders(read)
    requires sections != [] && WellFormedSection(s) && s.name.Some?
    requires forall l | l in s.lines :: l.value.Some?
    ensures ReadAll(read, sections, SectionBodies(s)) == Some(AddWhole(sections, s))
  {
    var start := AddSection(sections, s.name.value, |sections| == 1);
    SectionComplete(sections, s);
    ReadOne(read, sections, HeaderLine(s.name.value), start);
    PrintedLines(read, start, s.lines);
    ReadInTurn(read, sections, HeaderBody(s.name), start, LineBodies(s.lines), AddWhole(sections, s));
  }

  lemma BodiesFirst(sections: seq<Section>)
    requires sections != [] && Printable(sections)
    ensures Printable(sections[1..]) && (forall l | l in sections[0].lines :: l.value.Some?)
    ensures Bodies(sections) == SectionBodies(sections[0]) + Bodies(sections[1..])
  {
    assert sections[0] in sections;
  }

  lemma FirstAndRest<T>(a: seq<T>, r: seq<T>)
    requires r != []
    ensures a + [r[0]] + r[1..] == a + r && [r[0]] + r[1..] == r
  {
  }

  /** The lines of sections with names read back as these sections. */
  lemma {:induction false} PrintedSections(read: Reader, sections: seq<Section>, rest: seq<Section>)
    requires ReadsLines(read) && ReadsHeaders(read)
    requires sections != [] && sections[0] != Section(None, [])
    requires Printable(rest) && forall s | s in rest :: WellFormedSection(s) && s.name.Some?
    ensures ReadAll(read, sections, Bodies(rest)) == Some(sections + rest)
    decreases rest
  {
    if rest == [] {
      assert sections + rest == sections;
    } else {
      var s := rest[0];
      assert s in rest;
      BodiesFirst(rest);
      PrintedSection(read, sections, s);
      PrintedSections(read, sections + [s], rest[1..]);
      FirstAndRest(sections, rest);
      ReadInTurn(read, sections, SectionBodies(s), sections + [s], Bodies(rest[1..]), sections + rest);
    }
  }

  lemma WellFormedIsPrintable(sections: seq<Section>)
    requires WellFormed(sections)
    ensures Printable(sections)
  {
    forall s | s in sections
      ensures forall l | l in s.lines :: l.value.Some?
    {
      assert WellFormedSection(s);
      forall l | l in s.lines
        ensures l.value.Some?
      {
        assert WellFormedLine(l);
      }
    }
  }

  /** The first section may be without a name. */
  lemma PrintedFirst(read: Reader, first: Section)
    requires ReadsLines(read) && ReadsHeaders(read)
    requires WellFormedSection(first) && forall l | l in first.lines :: l.value.Some?
    ensures ReadAll(read, [Section(None, [])], SectionBodies(first)) == Some([first])
  {
    var empty := [Section(None, [])];
    if first.name.Some? {
      PrintedSection(read, empty, first);
    } else {
      PrintedLines(read, empty, first.lines);
      assert [] + first.lines == first.lines;
      assert AddLines(empty, first.lines) == [first];
      assert [] + LineBodies(first.lines) == LineBodies(first.lines);
    }
  }

  /** The lines of a well-formed description read back as the description. */
  lemma PrintedAll(read: Reader, sections: seq<Section>)
    requires ReadsLines(read) && ReadsHeaders(read)
    requires WellFormed(sections) && Printable(sections)
    ensures ReadAll(read, [Section(None, [])], Bodies(sections)) == Some(sections)
  {
    var empty := [Section(None, [])];
    var first, rest := sections[0], sections[1..];
    assert first in sections && WellFormedSection(first);
    forall s | s in rest
      ensures s in sections && s.name.Some?
    {
      var i :| 1 <= i < |sections| && sections[i] == s;
    }
    BodiesFirst(sections);
    FirstAndRest([], sections);
    PrintedFirst(read, first);
    if first == Section(None, []) {
      assert rest == [] && Bodies(rest) == [];
      assert Bodies(sections) == SectionBodies(first) && sections == [first];
    } else {
      PrintedSections(read, [first], rest);
      ReadInTurn(read, empty, SectionBodies(first), [first], Bodies(rest), [first] + rest);
    }
  }

  /** Parsing a printed description gives it back. */
  lemma RoundTrip(sections: seq<Section>)
    requires WellFormed(sections)
    ensures Printable(sections) && NulFree(Print(sections)) && Parse(Print(sections)) == Parsed(sections)
  {
    WellFormedIsPrintable(sections);
    PrintJoined(sections);
    ReadLineReads();
    PrintedAll(READ_LINE, sections);
    ParseJoined(READ_LINE, [Section(None, [])], Bodies(sections), 1);
    JoinLinesNulFree(Bodies(sections));
  }

  /** Printing and parsing is the identity on exactly the descriptions that some
      text parses to. */
  lemma RoundTripExactly(sections: seq<Section>)
    requires Printable(sections) && NulFree(Print(sections))
    ensures Parse(Print(sections)) == Parsed(sections) <==> WellFormed(sections)
  {
    if WellFormed(sections) { RoundTrip(sections); }
    if Parse(Print(sections)) == Parsed(sections) { ParsedIsWellFormed(Print(sections)); }
  }

  /** Printing after parsing is idempotent. */
  lemma PrintIdempotent(text: string)
    requires NulFree(text) && Parse(text).Parsed?
    ensures var d := Parse(text).sections;
            Printable(d) && Parse(Print(d)) == Parsed(d)
  {
    ParsedIsWellFormed(text);
    RoundTrip(Parse(text).sections);
  }

  // ---------- the last line ----------

  /** The text after its last newline. */
  function LastLine(text: string): string {
    var e := LineEnd(text);
    if e < |text| then LastLine(text[e + 1..]) else text
  }

  lemma DropAppend(a: string, b: string, n: nat)
    requires n <= |a|
    ensures (a + b)[n..] == a[n..] + b
  {
  }

  lemma {:induction false} MissingFinalNewlineFrom(read: Reader, sections: seq<Section>, s: string, lineNr: nat)
    requires LastLine(s) != ""
    ensures var full := ParseFrom(read, sections, s + "\n", lineNr);
            ParseFrom(read, sections, s, lineNr) == if full.Parsed? && !KeyedText(LastLine(s)) then Overrun else full
    decreases |s|
  {
    var e := LineEnd(s);
    var t := s + "\n";
    SpanStops(NOT_NEWLINE, s);
    assert forall i | 0 <= i < e :: t[i] == s[i] && NOT_NEWLINE(t[i]);
    assert t[e] == '\n' && !NOT_NEWLINE(t[e]);
    SpanIs(NOT_NEWLINE, t, e);
    assert t[..e] == s[..e];
    if e < |s| {
      DropAppend(s, "\n", e + 1);
      if read(sections, s[..e]).Ok? {
        MissingFinalNewlineFrom(read, read(sections, s[..e]).value, s[e + 1..], lineNr + 1);
      }
    } else {
      assert s[..e] == s && t[e + 1..] == "";
    }
  }

  /** A text whose last line lacks its newline is parsed as if the newline were
      there, except that the cursor leaves the text after a comment, a blank line or
      a section header. */
  lemma MissingFinalNewline(text: string)
    requires LastLine(text) != ""
    ensures Parse(text) == if Parse(text + "\n").Parsed? && !KeyedText(LastLine(text)) then Overrun else Parse(text + "\n")
  {
    MissingFinalNewlineFrom(READ_LINE, [Section(None, [])], text, 1);
  }

  lemma {:induction false} NoOverrunFrom(read: Reader, sections: seq<Section>, s: string, lineNr: nat)
    requires LastLine(s) == ""
    ensures !ParseFrom(read, sections, s, lineNr).Overrun?
    decreases |s|
  {
    var e := LineEnd(s);
    if e < |s| && read(sections, s[..e]).Ok? {
      NoOverrunFrom(read, read(sections, s[..e]).value, s[e + 1..], lineNr + 1);
    }
  }

  /** A text that ends in a newline, or is empty, never drives the cursor out. */
  lemma NoOverrun(text: string)
    requires LastLine(text) == ""
    ensures !Parse(text).Overrun?
  {
    NoOverrunFrom(READ_LINE, [Section(None, [])], text, 1);
  }

  /** The shortest text that is overrun: a comment of one character, without newline. */
  lemma CommentOverrun()
    ensures Parse("#") == Overrun
  {
    SpanIs(NOT_NEWLINE, "#", 1);
    assert LastLine("#") == "#" && CommentText("#");
  }
}
