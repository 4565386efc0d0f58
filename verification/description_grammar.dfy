/** The text format of plugin descriptions as a grammar, and that the parser of
    libanjuta/anjuta-plugin-description.c accepts exactly what the grammar describes.
    Nothing here is said in terms of how a line is scanned. */
module DescriptionGrammar {
  import opened DescriptionText
  import opened Options
  import opened Sequences
  import opened StringComparison

  // ---------- characters and escapes ----------

  /** The characters of a blank line. */
  const SPACES := " \t\n\r\U{0C}"

  /** The characters that the table marks as those of a key. */
  predicate IsKeyCharacter(c: char) {
    c == '-' || c in DIGITS || c in CAPITALS || c in SMALL_LETTERS
  }

  predicate IsKey(k: string) {
    k != "" && forall c | c in k :: IsKeyCharacter(c)
  }

  predicate IsBlank(b: string) {
    forall c | c in b :: c == ' '
  }

  lemma KeyCharacter(c: char)
    ensures ValidKeyChar(c) <==> IsKeyCharacter(c)
  {
    Digits(c);
    Capitals(c);
    SmallLetters(c);
  }

  /** Where a key ends. */
  lemma KeyEnds(k: string, tail: string)
    requires IsKey(k) && (tail == "" || !IsKeyCharacter(tail[0]))
    ensures Span(ValidKeyChar, k + tail) == |k|
  {
    forall i | 0 <= i < |k|
      ensures ValidKeyChar((k + tail)[i])
    {
      assert (k + tail)[i] == k[i] && k[i] in k;
      KeyCharacter(k[i]);
    }
    if tail != "" {
      KeyCharacter(tail[0]);
    }
    SpanIs(ValidKeyChar, k + tail, |k|);
  }

  /** What the scan for a key finds. */
  lemma KeyFound(line: string)
    ensures var k := Span(ValidKeyChar, line); k > 0 ==> IsKey(line[..k])
    ensures Span(ValidKeyChar, line) == 0 <==> line == "" || !IsKeyCharacter(line[0])
  {
    var k := Span(ValidKeyChar, line);
    SpanStops(ValidKeyChar, line);
    forall c | c in line[..k]
      ensures IsKeyCharacter(c)
    {
      KeyCharacter(c);
    }
    if line != "" {
      KeyCharacter(line[0]);
    }
  }

  lemma BlanksEnd(b: string, tail: string)
    requires IsBlank(b) && (tail == "" || tail[0] != ' ')
    ensures SkipBlanks(b + tail) == tail
  {
    forall i | 0 <= i < |b|
      ensures IS_BLANK((b + tail)[i])
    {
      assert (b + tail)[i] == b[i] && b[i] in b;
    }
    assert tail != "" ==> !IS_BLANK((b + tail)[|b|]);
    SpanIs(IS_BLANK, b + tail, |b|);
  }

  /** What is skipped is blank. */
  lemma BlanksFound(s: string)
    ensures var n := Span(IS_BLANK, s);
            IsBlank(s[..n]) && s == s[..n] + SkipBlanks(s) && (SkipBlanks(s) == "" || SkipBlanks(s)[0] != ' ')
  {
    var n := Span(IS_BLANK, s);
    SpanStops(IS_BLANK, s);
    forall c | c in s[..n]
      ensures c == ' '
    {
      var i :| 0 <= i < n && s[..n][i] == c;
      assert IS_BLANK(s[i]);
    }
    assert n < |s| ==> !IS_BLANK(s[n]);
  }

  /** A way to write a character: itself, unless it is a backslash or the terminator, or
      its escape. */
  predicate Writes(u: string, c: char) {
    || (u == [c] && c != '\\' && c != '\0')
    || (u == "\\s" && c == ' ') || (u == "\\t" && c == '\t') || (u == "\\n" && c == '\n')
    || (u == "\\r" && c == '\r') || (u == "\\\\" && c == '\\')
  }

  /** The characters of a value, each written in some way. */
  predicate Spells(s: string, v: string) {
    if v == "" then s == ""
    else
      || (|s| >= 1 && Writes(s[..1], v[0]) && Spells(s[1..], v[1..]))
      || (|s| >= 2 && Writes(s[..2], v[0]) && Spells(s[2..], v[1..]))
  }

  /** A character is written by an escape, or by itself. */
  lemma WritesOne(c: char, d: char)
    ensures Writes([c], d) <==> c == d && c != '\\' && c != '\0'
    ensures forall e :: Writes([c, e], d) <==> c == '\\' && UnescapeCode(e) == Some(d)
  {
  }

  /** Unescaping finds the value that a text spells, and there is at most one. */
  lemma {:induction false} UnescapeExactly(s: string, v: string)
    ensures Unescape(s) == Some(v) <==> Spells(s, v)
  {
    if s != "" && v != "" {
      assert v == [v[0]] + v[1..] && s[..1] == [s[0]];
      WritesOne(s[0], v[0]);
      if s[0] != '\\' {
        UnescapeExactly(s[1..], v[1..]);
        assert |s| > 1 ==> s[..2] == [s[0], s[1]];
      } else if |s| > 1 {
        UnescapeExactly(s[2..], v[1..]);
        assert s[..2] == [s[0], s[1]];
      }
    }
  }

  /** How one character more is escaped. */
  lemma {:induction false} EscapedRest(s: string, c: char)
    ensures EscapeRest(s + [c]) == EscapeRest(s) + EscapeChar(c)
  {
    if s == "" {
      assert (s + [c])[1..] == "" && EscapeRest("") == "";
    } else {
      assert (s + [c])[1..] == s[1..] + [c];
      EscapedRest(s[1..], c);
      Associative(EscapeChar(s[0]), EscapeRest(s[1..]), EscapeChar(c));
    }
  }

  /** A tab, a newline, a carriage return and a backslash are escaped, and a space at the
      beginning if that is asked for; everything else is written as it is. */
  lemma EscapedExactly(s: string, c: char, first: bool)
    ensures Escape("", first) == ""
    ensures Escape(s + [c], first) == Escape(s, first) + if c == '\t' then "\\t" else if c == '\n' then "\\n"
                                                       else if c == '\r' then "\\r" else if c == '\\' then "\\\\"
                                                       else if c == ' ' && s == "" && first then "\\s" else [c]
  {
    EscapedRest(s, c);
    if s == "" {
      assert s + [c] == [c] && [c][1..] == "";
    } else if first && s[0] == ' ' {
      EscapedRest(s[1..], c);
      assert (s + [c])[1..] == s[1..] + [c];
      Associative("\\s", EscapeRest(s[1..]), EscapeChar(c));
    }
  }

  // ---------- key lines ----------

  /** A locale in brackets, or nothing. */
  function LocalePart(locale: Option<string>): string {
    if locale.Some? then "[" + locale.value + "]" else ""
  }

  predicate IsLocale(locale: Option<string>) {
    locale.Some? ==> ']' !in locale.value
  }

  /** What stands behind the key and the locale: a sign between blanks, then a value. */
  ghost predicate ValuePart(s: string, text: string) {
    && (text == "" || text[0] != ' ')
    && exists before, after :: IsBlank(before) && IsBlank(after) && s == before + ("=" + (after + text))
  }

  /** A key line of the format. */
  ghost predicate KeyLine(line: string, key: string, locale: Option<string>, value: string) {
    && IsKey(key) && IsLocale(locale)
    && exists s, text :: ValuePart(s, text) && Spells(text, value) && line == key + (LocalePart(locale) + s)
  }

  /** The value of a line is what its text spells. */
  lemma ValueOf(s: string, text: string)
    requires ValuePart(s, text)
    ensures ParseValue(s) == match Unescape(text)
                             case None => Err(InvalidEscapes)
                             case Some(value) => Ok(value)
  {
    var before, after :| IsBlank(before) && IsBlank(after) && s == before + ("=" + (after + text));
    BlanksEnd(before, "=" + (after + text));
    BlanksEnd(after, text);
    assert ("=" + (after + text))[1..] == after + text;
  }

  lemma NoSignFound(s: string)
    requires IsBlank(s)
    ensures ParseValue(s) == Err(InvalidSyntax)
  {
    BlanksEnd(s, "");
    assert s + "" == s;
  }

  lemma LocaleEnds(locale: Option<string>, rest: string)
    requires IsLocale(locale) && (locale.None? ==> rest == "" || rest[0] != '[')
    ensures ParseLocale(LocalePart(locale) + rest) == Ok((locale, rest))
  {
    if locale.Some? {
      var l := locale.value;
      var t := l + ("]" + rest);
      assert ("[" + l + "]") + rest == "[" + t;
      forall i | 0 <= i < |l|
        ensures NOT_BRACKET(t[i])
      {
        assert t[i] == l[i] && l[i] in l;
      }
      assert t[|l|] == ']' && !NOT_BRACKET(t[|l|]);
      SpanIs(NOT_BRACKET, t, |l|);
      assert ("[" + t)[1..] == t && ("[" + t)[1..1 + |l|] == l && ("[" + t)[2 + |l|..] == rest;
    } else {
      assert "" + rest == rest;
    }
  }

  lemma BracketFound(t: string)
    requires Span(NOT_BRACKET, t) < |t|
    ensures var l := Span(NOT_BRACKET, t); ']' !in t[..l] && t == t[..l] + ("]" + t[l + 1..])
  {
    var l := Span(NOT_BRACKET, t);
    SpanStops(NOT_BRACKET, t);
    forall c | c in t[..l]
      ensures c != ']'
    {
      var i :| 0 <= i < l && t[..l][i] == c;
      assert NOT_BRACKET(t[i]);
    }
    assert !NOT_BRACKET(t[l]);
    AroundElement(t, l);
  }

  lemma Bracketed(l: string, rest: string)
    ensures "[" + (l + ("]" + rest)) == ("[" + l + "]") + rest
  {
  }

  lemma LocaleFound(s: string)
    requires ParseLocale(s).Ok?
    ensures var (locale, rest) := ParseLocale(s).value; IsLocale(locale) && s == LocalePart(locale) + rest
  {
    if s != "" && s[0] == '[' {
      var t := s[1..];
      var l := Span(NOT_BRACKET, t);
      BracketFound(t);
      Bracketed(t[..l], t[l + 1..]);
      assert s == "[" + t && s[1..1 + l] == t[..l] && s[2 + l..] == t[l + 1..];
    }
  }

  lemma NoKeyCharacter(c: char)
    requires c == ' ' || c == '=' || c == '['
    ensures !IsKeyCharacter(c)
  {
    KeyCharacter(c);
  }

  /** What follows the key on its line. */
  lemma AfterKey(key: string, locale: Option<string>, s: string)
    requires IsKey(key) && IsLocale(locale) && (locale.None? ==> s == "" || (!IsKeyCharacter(s[0]) && s[0] != '['))
    ensures ParseKeyValue(key + (LocalePart(locale) + s)) == match ParseValue(s)
                                                             case Err(code) => Err(code)
                                                             case Ok(value) => Ok(Line(Some(key), locale, Some(value), []))
  {
    var tail := LocalePart(locale) + s;
    assert locale.None? ==> tail == s;
    NoKeyCharacter('[');
    KeyEnds(key, tail);
    LocaleEnds(locale, s);
    assert (key + tail)[..|key|] == key && (key + tail)[|key|..] == tail;
  }

  lemma ValueStarts(s: string, text: string)
    requires ValuePart(s, text)
    ensures s != "" && !IsKeyCharacter(s[0]) && s[0] != '['
  {
    var before, after :| IsBlank(before) && IsBlank(after) && s == before + ("=" + (after + text));
    if before != "" {
      assert before[0] in before;
    }
    NoKeyCharacter(s[0]);
  }

  lemma ValueFound(s: string) returns (text: string)
    requires ParseValue(s).Ok?
    ensures ValuePart(s, text) && Spells(text, ParseValue(s).value)
  {
    var t := SkipBlanks(s);
    text := SkipBlanks(t[1..]);
    BlanksFound(s);
    BlanksFound(t[1..]);
    var before, after := s[..Span(IS_BLANK, s)], t[1..][..Span(IS_BLANK, t[1..])];
    assert t == "=" + t[1..] == "=" + (after + text);
    UnescapeExactly(text, ParseValue(s).value);
  }

  lemma KeyLineOf(key: string, locale: Option<string>, s: string, text: string, value: string)
    requires IsKey(key) && IsLocale(locale) && ValuePart(s, text) && Spells(text, value)
    ensures KeyLine(key + (LocalePart(locale) + s), key, locale, value)
  {
  }

  lemma AcceptedParts(line: string) returns (key: string, locale: Option<string>, s: string)
    requires ParseKeyValue(line).Ok?
    ensures IsKey(key) && IsLocale(locale) && ParseValue(s).Ok? && line == key + (LocalePart(locale) + s)
    ensures ParseKeyValue(line) == Ok(Line(Some(key), locale, Some(ParseValue(s).value), []))
  {
    var k := Span(ValidKeyChar, line);
    var tail := line[k..];
    key := line[..k];
    locale, s := ParseLocale(tail).value.0, ParseLocale(tail).value.1;
    KeyFound(line);
    LocaleFound(tail);
    Halves(line, k);
  }

  /** Whatever is accepted is a key line. */
  lemma AcceptedKeyLine(line: string)
    requires ParseKeyValue(line).Ok?
    ensures var l := ParseKeyValue(line).value;
            l.key.Some? && l.value.Some? && l.overrides == [] && KeyLine(line, l.key.value, l.locale, l.value.value)
  {
    var key, locale, s := AcceptedParts(line);
    var text := ValueFound(s);
    KeyLineOf(key, locale, s, text, ParseValue(s).value);
  }

  /** Exactly the key lines are accepted, each with its key, its locale and the value that
      it spells. */
  lemma KeyLinesAccepted(line: string, key: string, locale: Option<string>, value: string)
    ensures ParseKeyValue(line) == Ok(Line(Some(key), locale, Some(value), [])) <==> KeyLine(line, key, locale, value)
  {
    if KeyLine(line, key, locale, value) {
      var s, text :| ValuePart(s, text) && Spells(text, value) && line == key + (LocalePart(locale) + s);
      ValueStarts(s, text);
      AfterKey(key, locale, s);
      ValueOf(s, text);
      UnescapeExactly(text, value);
    }
    if ParseKeyValue(line) == Ok(Line(Some(key), locale, Some(value), [])) {
      AcceptedKeyLine(line);
    }
  }

  /** Whatever stands in the value, and however many blanks stand around the sign. */
  lemma EscapedValueAccepted(key: string, locale: Option<string>, before: string, after: string, value: string)
    requires IsKey(key) && IsLocale(locale) && IsBlank(before) && IsBlank(after) && NulFree(value)
    ensures ParseKeyValue(key + (LocalePart(locale) + (before + ("=" + (after + Escape(value, true)))))) ==
            Ok(Line(Some(key), locale, Some(value), []))
  {
    var text := Escape(value, true);
    var s := before + ("=" + (after + text));
    EscapeSafe(value, true);
    UnescapeEscape(value, true);
    UnescapeExactly(text, value);
    assert ValuePart(s, text);
    KeyLineOf(key, locale, s, text, value);
    KeyLinesAccepted(key + (LocalePart(locale) + s), key, locale, value);
  }

  // ---------- other lines without a header or a comment ----------

  predicate NoKey(line: string) {
    line == "" || !IsKeyCharacter(line[0])
  }

  ghost predicate OpenLocale(line: string) {
    exists key, rest :: IsKey(key) && ']' !in rest && line == key + ("[" + rest)
  }

  ghost predicate NoSign(line: string) {
    exists key, locale, blanks :: IsKey(key) && IsLocale(locale) && IsBlank(blanks) && line == key + (LocalePart(locale) + blanks)
  }

  /** Something else than blanks stands before the sign. */
  predicate Disturbs(locale: Option<string>, blanks: string, rest: string) {
    && rest != "" && rest[0] != ' ' && rest[0] != '='
    && (locale.None? && blanks == "" ==> !IsKeyCharacter(rest[0]) && rest[0] != '[')
  }

  ghost predicate OtherCharacter(line: string) {
    exists key, locale, blanks, rest ::
      && IsKey(key) && IsLocale(locale) && IsBlank(blanks) && Disturbs(locale, blanks, rest)
      && line == key + (LocalePart(locale) + (blanks + rest))
  }

  ghost predicate BadEscape(line: string) {
    exists key, locale, s, text ::
      && IsKey(key) && IsLocale(locale) && ValuePart(s, text) && (forall value :: !Spells(text, value))
      && line == key + (LocalePart(locale) + s)
  }

  /** What is wrong with a line. */
  ghost predicate Rejected(line: string, code: ErrorCode) {
    match code
    case InvalidSyntax => NoKey(line) || OpenLocale(line) || NoSign(line)
    case InvalidChars => OtherCharacter(line)
    case InvalidEscapes => BadEscape(line)
  }

  lemma OpenLocaleRejected(key: string, rest: string)
    requires IsKey(key) && ']' !in rest
    ensures ParseKeyValue(key + ("[" + rest)) == Err(InvalidSyntax)
  {
    var tail := "[" + rest;
    NoKeyCharacter('[');
    KeyEnds(key, tail);
    assert (key + tail)[|key|..] == tail && tail[1..] == rest;
    forall i | 0 <= i < |rest|
      ensures NOT_BRACKET(rest[i])
    {
      assert rest[i] in rest;
    }
    SpanIs(NOT_BRACKET, rest, |rest|);
  }

  lemma NoSignRejected(key: string, locale: Option<string>, blanks: string)
    requires IsKey(key) && IsLocale(locale) && IsBlank(blanks)
    ensures ParseKeyValue(key + (LocalePart(locale) + blanks)) == Err(InvalidSyntax)
  {
    if blanks != "" {
      assert blanks[0] in blanks;
      NoKeyCharacter(' ');
    }
    AfterKey(key, locale, blanks);
    NoSignFound(blanks);
  }

  lemma OtherCharacterRejected(key: string, locale: Option<string>, blanks: string, rest: string)
    requires IsKey(key) && IsLocale(locale) && IsBlank(blanks) && Disturbs(locale, blanks, rest)
    ensures ParseKeyValue(key + (LocalePart(locale) + (blanks + rest))) == Err(InvalidChars)
  {
    if blanks != "" {
      assert blanks[0] in blanks;
      NoKeyCharacter(' ');
    }
    AfterKey(key, locale, blanks + rest);
    BlanksEnd(blanks, rest);
  }

  lemma BadEscapeRejected(key: string, locale: Option<string>, s: string, text: string)
    requires IsKey(key) && IsLocale(locale) && ValuePart(s, text) && forall value :: !Spells(text, value)
    ensures ParseKeyValue(key + (LocalePart(locale) + s)) == Err(InvalidEscapes)
  {
    ValueStarts(s, text);
    AfterKey(key, locale, s);
    ValueOf(s, text);
    if Unescape(text).Some? {
      UnescapeExactly(text, Unescape(text).value);
    }
  }

  /** What is wrong is reported. */
  lemma RejectedIsReported(line: string, code: ErrorCode)
    requires Rejected(line, code)
    ensures ParseKeyValue(line) == Err(code)
  {
    match code {
      case InvalidSyntax =>
        if NoKey(line) {
          KeyFound(line);
        } else if OpenLocale(line) {
          var key, rest :| IsKey(key) && ']' !in rest && line == key + ("[" + rest);
          OpenLocaleRejected(key, rest);
        } else {
          var key, locale, blanks :| && IsKey(key) && IsLocale(locale) && IsBlank(blanks)
                                     && line == key + (LocalePart(locale) + blanks);
          NoSignRejected(key, locale, blanks);
        }
      case InvalidChars =>
        var key, locale, blanks, rest :| && IsKey(key) && IsLocale(locale) && IsBlank(blanks) && Disturbs(locale, blanks, rest)
                                         && line == key + (LocalePart(locale) + (blanks + rest));
        OtherCharacterRejected(key, locale, blanks, rest);
      case InvalidEscapes =>
        var key, locale, s, text :| && IsKey(key) && IsLocale(locale) && ValuePart(s, text) && (forall value :: !Spells(text, value))
                                    && line == key + (LocalePart(locale) + s);
        BadEscapeRejected(key, locale, s, text);
    }
  }

  /** Where the scan for a key stops. */
  lemma KeyScanned(line: string, k: nat)
    requires !NoKey(line) && k == Span(ValidKeyChar, line)
    ensures IsKey(line[..k]) && line == line[..k] + line[k..]
    ensures line[k..] == "" || !IsKeyCharacter(line[k..][0])
  {
    KeyFound(line);
    SpanStops(ValidKeyChar, line);
    Halves(line, k);
    if k < |line| {
      KeyCharacter(line[k]);
    }
  }

  lemma OpenLocaleFound(key: string, tail: string)
    requires IsKey(key) && ParseLocale(tail).Err?
    ensures OpenLocale(key + tail) && ParseLocale(tail) == Err(InvalidSyntax)
  {
    var rest := tail[1..];
    SpanStops(NOT_BRACKET, rest);
    assert forall i | 0 <= i < |rest| :: NOT_BRACKET(rest[i]) && rest[i] != ']';
    assert tail == "[" + rest;
  }

  lemma WrongEscape(key: string, locale: Option<string>, s: string)
    requires IsKey(key) && IsLocale(locale)
    requires var t := SkipBlanks(s); t != "" && t[0] == '=' && Unescape(SkipBlanks(t[1..])).None?
    ensures BadEscape(key + (LocalePart(locale) + s))
  {
    var t := SkipBlanks(s);
    var text := SkipBlanks(t[1..]);
    BlanksFound(s);
    BlanksFound(t[1..]);
    var before, after := s[..Span(IS_BLANK, s)], t[1..][..Span(IS_BLANK, t[1..])];
    assert t == "=" + t[1..] == "=" + (after + text);
    assert ValuePart(s, text);
    forall value
      ensures !Spells(text, value)
    {
      UnescapeExactly(text, value);
    }
  }

  lemma OtherCharacterFound(key: string, locale: Option<string>, s: string)
    requires IsKey(key) && IsLocale(locale) && (locale.None? ==> s == "" || (!IsKeyCharacter(s[0]) && s[0] != '['))
    requires SkipBlanks(s) != "" && SkipBlanks(s)[0] != '='
    ensures OtherCharacter(key + (LocalePart(locale) + s))
  {
    var blanks, t := s[..Span(IS_BLANK, s)], SkipBlanks(s);
    BlanksFound(s);
    assert blanks == "" ==> t == s;
    assert OtherCharacter(key + (LocalePart(locale) + (blanks + t)));
  }

  lemma WrongValue(key: string, locale: Option<string>, s: string, code: ErrorCode)
    requires IsKey(key) && IsLocale(locale) && (locale.None? ==> s == "" || (!IsKeyCharacter(s[0]) && s[0] != '['))
    requires ParseValue(s) == Err(code)
    ensures Rejected(key + (LocalePart(locale) + s), code)
  {
    var t := SkipBlanks(s);
    if t == "" {
      BlanksFound(s);
      assert s[..Span(IS_BLANK, s)] == s;
    } else if t[0] != '=' {
      OtherCharacterFound(key, locale, s);
    } else {
      WrongEscape(key, locale, s);
    }
  }

  /** Every line that is not accepted is wrong in one of these ways, and the way determines
      the error. */
  lemma KeyLinesRejected(line: string, code: ErrorCode)
    ensures ParseKeyValue(line) == Err(code) <==> Rejected(line, code)
  {
    if Rejected(line, code) {
      RejectedIsReported(line, code);
    } else if ParseKeyValue(line) == Err(code) {
      KeyFound(line);
      var k := Span(ValidKeyChar, line);
      var key, tail := line[..k], line[k..];
      KeyScanned(line, k);
      if ParseLocale(tail).Err? {
        OpenLocaleFound(key, tail);
      } else {
        LocaleFound(tail);
        var (locale, s) := ParseLocale(tail).value;
        assert locale.None? ==> s == tail;
        WrongValue(key, locale, s, code);
      }
    }
  }

  // ---------- lines and whole texts ----------

  /** What a line says. */
  datatype Item =
    | Header(name: string)
    | Entry(key: string, locale: Option<string>, value: string)
    | Remark(text: string)  // a comment or a blank line

  predicate IsRemark(line: string) {
    (line != "" && line[0] == '#') || forall c | c in line :: c in SPACES
  }

  predicate InBrackets(line: string, text: string) {
    text != "" && line == "[" + (text + "]")
  }

  ghost predicate HeaderLineOf(line: string, name: string) {
    exists text :: InBrackets(line, text) && Spells(text, name)
  }

  ghost predicate Means(line: string, item: Item) {
    match item
    case Header(name) => HeaderLineOf(line, name)
    case Entry(key, locale, value) => KeyLine(line, key, locale, value)
    case Remark(text) => text == line && IsRemark(line)
  }

  lemma RemarkExactly(line: string)
    ensures CommentText(line) <==> IsRemark(line)
  {
    assert forall c | c in line :: IsSpace(c) <==> c in SPACES;
  }

  lemma HeaderBetween(line: string)
    requires HeaderText(line)
    ensures forall text | InBrackets(line, text) :: |line| > 2 && line[|line| - 1] == ']' && text == line[1..|line| - 1]
    ensures |line| > 2 && line[|line| - 1] == ']' ==> InBrackets(line, line[1..|line| - 1])
  {
  }

  /** Exactly the names in brackets are accepted as headers. */
  lemma HeadersAccepted(line: string, name: string)
    requires HeaderText(line)
    ensures ParseHeader(line) == Ok(name) <==> HeaderLineOf(line, name)
  {
    HeaderBetween(line);
    if |line| > 2 {
      UnescapeExactly(line[1..|line| - 1], name);
    }
  }

  /** A line that begins with a bracket: what is wrong with it. */
  ghost predicate HeaderRejected(line: string, code: ErrorCode) {
    match code
    case InvalidSyntax => forall text :: !InBrackets(line, text)
    case InvalidEscapes => exists text :: InBrackets(line, text) && forall name :: !Spells(text, name)
    case InvalidChars => false
  }

  lemma HeadersRejected(line: string, code: ErrorCode)
    requires HeaderText(line)
    ensures ParseHeader(line) == Err(code) <==> HeaderRejected(line, code)
  {
    HeaderBetween(line);
    if |line| > 2 {
      var text := line[1..|line| - 1];
      forall name
        ensures Unescape(text) == Some(name) <==> Spells(text, name)
      {
        UnescapeExactly(text, name);
      }
    }
  }

  function Added(sections: seq<Section>, item: Item): seq<Section>
    requires sections != []
  {
    match item
    case Header(name) => AddSection(sections, name, |sections| == 1)
    case Entry(key, locale, value) => AddLine(sections, Line(Some(key), locale, Some(value), []))
    case Remark(text) => AddLine(sections, Line(None, None, Some(text), []))
  }

  lemma KeyedStarts(line: string, key: string, locale: Option<string>, value: string)
    requires KeyLine(line, key, locale, value)
    ensures KeyedText(line)
  {
    assert line[0] == key[0] && key[0] in key;
    KeyCharacter(line[0]);
    assert line[0] in line && !IsSpace(line[0]);
  }

  /** A line adds what it says. */
  lemma MeaningIsAdded(sections: seq<Section>, line: string, item: Item)
    requires sections != [] && Means(line, item)
    ensures ParseLine(sections, line) == Ok(Added(sections, item))
  {
    match item {
      case Header(name) => HeadersAccepted(line, name);
      case Entry(key, locale, value) =>
        KeyedStarts(line, key, locale, value);
        KeyLinesAccepted(line, key, locale, value);
      case Remark(_) =>
        RemarkExactly(line);
        assert line != "" ==> line[0] in line;
    }
  }

  /** What is wrong with a line. */
  ghost predicate Wrong(line: string, code: ErrorCode) {
    if line != "" && line[0] == '[' then HeaderRejected(line, code) else !IsRemark(line) && Rejected(line, code)
  }

  /** Every line says something or is wrong, and what is wrong is reported. */
  lemma WrongIsReported(sections: seq<Section>, line: string, code: ErrorCode)
    requires sections != []
    ensures ParseLine(sections, line) == Err(code) <==> Wrong(line, code)
  {
    RemarkExactly(line);
    if HeaderText(line) {
      HeadersRejected(line, code);
    } else {
      KeyLinesRejected(line, code);
    }
  }

  function ItemOf(l: Line): Item
    requires l.value.Some?
  {
    if l.key.None? then Remark(l.value.value) else Entry(l.key.value, l.locale, l.value.value)
  }

  function LineItems(lines: seq<Line>): seq<Item>
    requires forall l | l in lines :: l.value.Some?
  {
    seq(|lines|, i requires 0 <= i < |lines| => ItemOf(lines[i]))
  }

  function HeaderItem(name: Option<string>): seq<Item> {
    if name.Some? then [Header(name.value)] else []
  }

  function SectionItems(s: Section): seq<Item>
    requires forall l | l in s.lines :: l.value.Some?
  {
    HeaderItem(s.name) + LineItems(s.lines)
  }

  /** What a description says, in order. */
  function Items(sections: seq<Section>): seq<Item>
    requires Printable(sections)
  {
    if sections == [] then []
    else
      var n := |sections| - 1;
      assert sections[n] in sections;
      Items(sections[..n]) + SectionItems(sections[n])
  }

  /** One line more at the end. */
  lemma AddLineItems(sections: seq<Section>, l: Line)
    requires sections != [] && Printable(sections) && l.value.Some?
    ensures var r := AddLine(sections, l);
            Printable(r) && Items(r) == Items(sections) + [ItemOf(l)] && CurrentName(r) == CurrentName(sections)
  {
    var n := |sections| - 1;
    var r := AddLine(sections, l);
    assert sections[n] in sections && r[..n] == sections[..n];
    assert forall s | s in r :: s in sections || s == r[n];
    assert LineItems(r[n].lines) == LineItems(sections[n].lines) + [ItemOf(l)];
  }

  /** One section more at the end. */
  lemma AddSectionItems(sections: seq<Section>, name: string)
    requires sections != [] && Printable(sections)
    ensures var r := AddSection(sections, name, |sections| == 1);
            Printable(r) && Items(r) == Items(sections) + [Header(name)] && CurrentName(r) == Some(name)
  {
    var r := AddSection(sections, name, |sections| == 1);
    var n := |r| - 1;
    assert forall s | s in r :: s in sections || s == Section(Some(name), []);
    assert r[..n] == sections || (r[..n] == [] && Items(sections) == []);
  }

  lemma AddedItems(sections: seq<Section>, item: Item)
    requires sections != [] && Printable(sections)
    ensures var r := Added(sections, item);
            && r != [] && Printable(r) && Items(r) == Items(sections) + [item]
            && CurrentName(r) == if item.Header? then Some(item.name) else CurrentName(sections)
  {
    match item {
      case Header(name) => AddSectionItems(sections, name);
      case Entry(key, locale, value) => AddLineItems(sections, Line(Some(key), locale, Some(value), []));
      case Remark(text) => AddLineItems(sections, Line(None, None, Some(text), []));
    }
  }

  /** The lines say the items, one each. */
  ghost predicate AllMean(lines: seq<string>, items: seq<Item>) {
    |lines| == |items| && forall i | 0 <= i < |lines| :: '\n' !in lines[i] && Means(lines[i], items[i])
  }

  /** The name of the last header. */
  function LastHeader(items: seq<Item>, before: Option<string>): Option<string>
    decreases |items|
  {
    if items == [] then before else LastHeader(items[1..], if items[0].Header? then Some(items[0].name) else before)
  }

  /** A text of complete lines that all say something is accepted, and the description says
      the same in the same order. */
  lemma {:induction false} LinesParsed(sections: seq<Section>, lines: seq<string>, items: seq<Item>, lineNr: nat)
    requires sections != [] && Printable(sections) && AllMean(lines, items)
    ensures var r := ParseFrom(READ_LINE, sections, JoinLines(lines), lineNr);
            r.Parsed? && Printable(r.sections) && Items(r.sections) == Items(sections) + items
    decreases |lines|
  {
    if lines == [] {
      assert Items(sections) + items == Items(sections);
    } else {
      var next := Added(sections, items[0]);
      MeaningIsAdded(sections, lines[0], items[0]);
      AddedItems(sections, items[0]);
      ParseFromLine(READ_LINE, sections, lines[0], JoinLines(lines[1..]), lineNr);
      LinesParsed(next, lines[1..], items[1..], lineNr + 1);
      Associative(Items(sections), [items[0]], items[1..]);
      assert [items[0]] + items[1..] == items;
    }
  }

  /** The first line that is wrong ends the parsing. */
  lemma {:induction false} LinesFail(sections: seq<Section>, lines: seq<string>, items: seq<Item>, wrong: string, rest: string,
                                     code: ErrorCode, lineNr: nat)
    requires sections != [] && Printable(sections) && AllMean(lines, items)
    requires '\n' !in wrong && Wrong(wrong, code)
    ensures ParseFrom(READ_LINE, sections, JoinLines(lines) + (wrong + "\n" + rest), lineNr) ==
            Failed(code, LastHeader(items, CurrentName(sections)), lineNr + |lines|)
    decreases |lines|
  {
    var tail := wrong + "\n" + rest;
    if lines == [] {
      WrongIsReported(sections, wrong, code);
      assert JoinLines(lines) + tail == tail;
      LineCut(wrong, rest);
    } else {
      MeaningIsAdded(sections, lines[0], items[0]);
      AddedItems(sections, items[0]);
      ParseFromLine(READ_LINE, sections, lines[0], JoinLines(lines[1..]) + tail, lineNr);
      LinesFail(Added(sections, items[0]), lines[1..], items[1..], wrong, rest, code, lineNr + 1);
      Associative(lines[0] + "\n", JoinLines(lines[1..]), tail);
    }
  }

  /** A line that is not wrong says something. */
  lemma RightLineSays(sections: seq<Section>, line: string) returns (item: Item)
    requires sections != [] && ParseLine(sections, line).Ok?
    ensures Means(line, item) && ParseLine(sections, line) == Ok(Added(sections, item))
  {
    if HeaderText(line) {
      item := Header(ParseHeader(line).value);
      HeadersAccepted(line, ParseHeader(line).value);
    } else if CommentText(line) {
      item := Remark(line);
      RemarkExactly(line);
    } else {
      var l := ParseKeyValue(line).value;
      AcceptedKeyLine(line);
      item := Entry(l.key.value, l.locale, l.value.value);
      assert l == Line(l.key, l.locale, l.value, []);
    }
  }

  lemma {:induction false} ParsedLinesSay(sections: seq<Section>, lines: seq<string>, lineNr: nat) returns (items: seq<Item>)
    requires sections != [] && (forall line | line in lines :: '\n' !in line)
    requires ParseFrom(READ_LINE, sections, JoinLines(lines), lineNr).Parsed?
    ensures AllMean(lines, items)
    decreases |lines|
  {
    if lines == [] {
      items := [];
    } else {
      LineCut(lines[0], JoinLines(lines[1..]));
      assert lines[0] in lines;
      var first := RightLineSays(sections, lines[0]);
      var others := ParsedLinesSay(Added(sections, first), lines[1..], lineNr + 1);
      items := [first] + others;
    }
  }

  /** A text of complete lines is accepted exactly when each line says something, and the
      description says the same in the same order. */
  lemma TextAccepted(lines: seq<string>, items: seq<Item>)
    requires forall line | line in lines :: '\n' !in line
    ensures var r := Parse(JoinLines(lines));
            AllMean(lines, items) <==> r.Parsed? && Printable(r.sections) && Items(r.sections) == items
  {
    var empty := [Section(None, [])];
    assert Items(empty) == [] by {
      assert Items(empty[..0]) == [];
    }
    if AllMean(lines, items) {
      LinesParsed(empty, lines, items, 1);
    }
    if Parse(JoinLines(lines)).Parsed? {
      var found := ParsedLinesSay(empty, lines, 1);
      LinesParsed(empty, lines, found, 1);
    }
  }

  /** The error of a text is that of its first line that is wrong, with the number of that
      line, counted from one, and the section that the line is in. */
  lemma TextRejected(lines: seq<string>, items: seq<Item>, wrong: string, rest: string, code: ErrorCode)
    requires AllMean(lines, items) && '\n' !in wrong && Wrong(wrong, code)
    ensures Parse(JoinLines(lines) + (wrong + "\n" + rest)) == Failed(code, LastHeader(items, None), |lines| + 1)
  {
    LinesFail([Section(None, [])], lines, items, wrong, rest, code, 1);
  }

  // ---------- the printer ----------

  /** How the printer writes an item. */
  function TextOf(item: Item): string {
    match item
    case Header(name) => "[" + Escape(name, false) + "]"
    case Entry(key, locale, value) => key + LocalePart(locale) + "=" + Escape(value, true)
    case Remark(text) => text
  }

  function Texts(items: seq<Item>): seq<string> {
    if items == [] then [] else [TextOf(items[0])] + Texts(items[1..])
  }

  lemma {:induction false} TextsAppended(a: seq<Item>, b: seq<Item>)
    ensures Texts(a + b) == Texts(a) + Texts(b)
  {
    if a == [] {
      assert a + b == b;
    } else {
      assert (a + b)[1..] == a[1..] + b;
      TextsAppended(a[1..], b);
    }
  }

  lemma TextsJoined(a: seq<Item>, b: seq<Item>)
    ensures JoinLines(Texts(a + b)) == JoinLines(Texts(a)) + JoinLines(Texts(b))
  {
    TextsAppended(a, b);
    JoinLinesAppend(Texts(a), Texts(b));
  }

  lemma OneText(item: Item)
    ensures JoinLines(Texts([item])) == TextOf(item) + "\n"
  {
    assert [item][1..] == [] && Texts([item]) == [TextOf(item)];
    assert JoinLines([TextOf(item)][1..]) == "";
  }

  lemma {:induction false} LinesPrinted(lines: seq<Line>)
    requires forall l | l in lines :: l.value.Some?
    ensures PrintLines(lines) == JoinLines(Texts(LineItems(lines)))
  {
    if lines != [] {
      LinesPrinted(lines[1..]);
      assert LineItems(lines) == [ItemOf(lines[0])] + LineItems(lines[1..]);
      TextsJoined([ItemOf(lines[0])], LineItems(lines[1..]));
      OneText(ItemOf(lines[0]));
    }
  }

  lemma PrintableFront(sections: seq<Section>, n: nat)
    requires Printable(sections) && n <= |sections|
    ensures Printable(sections[..n]) && forall i | 0 <= i < |sections| :: forall l | l in sections[i].lines :: l.value.Some?
  {
    forall i | 0 <= i < |sections|
      ensures forall l | l in sections[i].lines :: l.value.Some?
    {
      assert sections[i] in sections;
    }
  }

  lemma {:induction false} ItemsFirst(s: Section, rest: seq<Section>)
    requires Printable([s] + rest) && Printable(rest) && forall l | l in s.lines :: l.value.Some?
    ensures Items([s] + rest) == SectionItems(s) + Items(rest)
  {
    if rest == [] {
      assert [s] + rest == [s] && Items([s][..0]) == [];
    } else {
      var n := |rest| - 1;
      var front := rest[..n];
      assert ([s] + rest)[..n + 1] == [s] + front;
      PrintableFront([s] + rest, n + 1);
      PrintableFront(rest, n);
      ItemsFirst(s, front);
      Associative(SectionItems(s), Items(front), SectionItems(rest[n]));
    }
  }

  /** The printer writes what the description says, one item on each line, with no blank
      that is not in it. */
  lemma {:induction false} Printed(sections: seq<Section>)
    requires Printable(sections)
    ensures Print(sections) == JoinLines(Texts(Items(sections)))
  {
    if sections != [] {
      var s, rest := sections[0], sections[1..];
      PrintFirst(sections);
      assert [s] + rest == sections;
      ItemsFirst(s, rest);
      Printed(rest);
      LinesPrinted(s.lines);
      TextsJoined(SectionItems(s), Items(rest));
      TextsJoined(HeaderItem(s.name), LineItems(s.lines));
      if s.name.Some? {
        OneText(Header(s.name.value));
      }
    }
  }
}
