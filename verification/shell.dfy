/**
 Escaping for man pages and shell scripts (src/shell.rs), each printer against the reader that undoes it.
 */
module Shell {
  import opened Json
  import opened Text

  // ----- roff -----

  /** Three replacements, one after the other. */
  function RoffEscape(s: string): string {
    Replace(Replace(Replace(s, "\\", "\\\\"), "-", "\\-"), "'", "\\(aq")
  }

  function EscapeChar(c: char): string {
    match c
    case '\\' => "\\\\"
    case '-' => "\\-"
    case '\'' => "\\(aq"
    case _ => [c]
  }

  /** The same in one pass. */
  function EscapeMap(s: string): string {
    if s == [] then [] else EscapeChar(s[0]) + EscapeMap(s[1..])
  }

  /** How roff reads the escapes: `\&` prints nothing. */
  function RoffRead(s: string): string {
    if s == [] then []
    else if "\\(aq" <= s then "'" + RoffRead(s[4..])
    else if "\\&" <= s then RoffRead(s[2..])
    else if s[0] == '\\' && |s| > 1 then [s[1]] + RoffRead(s[2..])
    else [s[0]] + RoffRead(s[1..])
  }

  lemma OneCharPrefix(c: char, s: string)
    ensures [c] <= s <==> s != [] && s[0] == c
  {
    if s != [] {
      assert s[..1] == [s[0]];
    }
  }

  lemma {:induction false} ReplaceCharAppend(a: string, b: string, c: char, to: string)
    ensures Replace(a + b, [c], to) == Replace(a, [c], to) + Replace(b, [c], to)
  {
    if a == [] {
      assert a + b == b;
    } else {
      assert (a + b)[1..] == a[1..] + b;
      ReplaceCharAppend(a[1..], b, c, to);
      OneCharPrefix(c, a + b);
      OneCharPrefix(c, a);
    }
  }

  lemma {:induction false} ReplaceCharAbsent(s: string, c: char, to: string)
    requires c !in s
    ensures Replace(s, [c], to) == s
  {
    if s != [] {
      OneCharPrefix(c, s);
      ReplaceCharAbsent(s[1..], c, to);
    }
  }

  lemma ReplaceCharOnly(c: char, to: string)
    ensures Replace([c], [c], to) == to
  {
    assert [c][1..] == [];
  }

  lemma EscapeOneChar(c: char)
    ensures RoffEscape([c]) == EscapeChar(c)
  {
    hide Replace;
    if c == '\\' {
      ReplaceCharOnly(c, "\\\\");
      ReplaceCharAbsent("\\\\", '-', "\\-");
      ReplaceCharAbsent("\\\\", '\'', "\\(aq");
    } else {
      ReplaceCharAbsent([c], '\\', "\\\\");
      if c == '-' {
        ReplaceCharOnly(c, "\\-");
        ReplaceCharAbsent("\\-", '\'', "\\(aq");
      } else {
        ReplaceCharAbsent([c], '-', "\\-");
        if c == '\'' {
          ReplaceCharOnly(c, "\\(aq");
        } else {
          ReplaceCharAbsent([c], '\'', "\\(aq");
        }
      }
    }
  }

  /** What each character becomes. */
  lemma EscapedAs(c: char)
    ensures RoffEscape([c]) ==
            if c == '\\' then "\\\\" else if c == '-' then "\\-" else if c == '\'' then "\\(aq" else [c]
  {
    hide RoffEscape;
    EscapeOneChar(c);
  }

  lemma RoffEscapeAppend(a: string, b: string)
    ensures RoffEscape(a + b) == RoffEscape(a) + RoffEscape(b)
  {
    hide Replace;
    ReplaceCharAppend(a, b, '\\', "\\\\");
    var a1, b1 := Replace(a, "\\", "\\\\"), Replace(b, "\\", "\\\\");
    ReplaceCharAppend(a1, b1, '-', "\\-");
    ReplaceCharAppend(Replace(a1, "-", "\\-"), Replace(b1, "-", "\\-"), '\'', "\\(aq");
  }

  /** No replacement touches what an earlier one produced. */
  lemma {:induction false} RoffEscapeIsMap(s: string)
    ensures RoffEscape(s) == EscapeMap(s)
  {
    hide RoffEscape, EscapeChar;
    if s == [] {
      EscapeNothing();
    } else {
      RoffEscapeIsMap(s[1..]);
      EscapeOneChar(s[0]);
      RoffEscapeAppend([s[0]], s[1..]);
      assert [s[0]] + s[1..] == s;
    }
  }

  lemma EscapeNothing()
    ensures RoffEscape([]) == []
  {
  }

  lemma ReadChar(c: char, rest: string)
    ensures RoffRead(EscapeChar(c) + rest) == [c] + RoffRead(rest)
  {
    var s := EscapeChar(c) + rest;
    assert s[|EscapeChar(c)|..] == rest;
    if c != '\'' && c != '-' && c != '\\' {
      assert s[0] != '\\';
    } else if c != '\'' {
      assert s[0] == '\\' && s[1] == c;
    }
  }

  lemma {:induction false} ReadEscaped(s: string, rest: string)
    ensures RoffRead(EscapeMap(s) + rest) == s + RoffRead(rest)
  {
    hide EscapeChar, RoffRead;
    if s == [] {
      assert EscapeMap(s) + rest == rest;
    } else {
      ReadEscaped(s[1..], rest);
      ReadChar(s[0], EscapeMap(s[1..]) + rest);
      assert EscapeMap(s) + rest == EscapeChar(s[0]) + (EscapeMap(s[1..]) + rest);
    }
  }

  lemma RoffReadsBack(s: string)
    ensures RoffRead(RoffEscape(s)) == s
  {
    RoffEscapeIsMap(s);
    ReadEscaped(s, []);
    assert EscapeMap(s) + [] == EscapeMap(s);
  }

  // ----- multi-line text -----

  function StripCr(line: string): string {
    if line != [] && line[|line| - 1] == '\r' then line[..|line| - 1] else line
  }

  function StripAll(lines: seq<string>): seq<string> {
    seq(|lines|, i requires 0 <= i < |lines| => StripCr(lines[i]))
  }

  /** `str::lines`: a line ends at LF or CRLF, and an empty rest after the last ending is no line. */
  function Lines(s: string): seq<string> {
    var parts := Split(s, '\n');
    var last := parts[|parts| - 1];
    StripAll(parts[..|parts| - 1]) + (if last == [] then [] else [last])
  }

  function Protect(line: string): string {
    if line != [] && line[0] == '.' then "\\&" + line else line
  }

  function ProtectAll(lines: seq<string>): seq<string> {
    seq(|lines|, i requires 0 <= i < |lines| => Protect(lines[i]))
  }

  function RoffEscapeBlock(s: string): string {
    Join(ProtectAll(Lines(RoffEscape(s))), "\n")
  }

  function EscapeAll(lines: seq<string>): seq<string> {
    seq(|lines|, i requires 0 <= i < |lines| => EscapeMap(lines[i]))
  }

  lemma {:induction false} EscapeMapAppend(a: string, b: string)
    ensures EscapeMap(a + b) == EscapeMap(a) + EscapeMap(b)
  {
    if a == [] {
      assert a + b == b;
    } else {
      assert (a + b)[1..] == a[1..] + b;
      EscapeMapAppend(a[1..], b);
    }
  }

  lemma EscapedChar(c: char)
    ensures var e := EscapeChar(c);
            && e != [] && '\'' !in e && ('\n' in e ==> c == '\n') && (e[|e| - 1] == '\r' <==> c == '\r')
  {
  }

  /** Characters of escaped text: no quote, and a line feed or carriage return only from itself. */
  lemma {:induction false} EscapedCharacters(s: string)
    ensures '\'' !in EscapeMap(s)
    ensures '\n' !in s ==> '\n' !in EscapeMap(s)
    ensures EscapeMap(s) == [] <==> s == []
    ensures s != [] ==> (EscapeMap(s)[|EscapeMap(s)| - 1] == '\r' <==> s[|s| - 1] == '\r')
  {
    hide EscapeChar;
    if s != [] {
      EscapedCharacters(s[1..]);
      EscapedChar(s[0]);
    }
  }

  lemma EscapeStripCr(line: string)
    ensures StripCr(EscapeMap(line)) == EscapeMap(StripCr(line))
  {
    hide EscapeMap;
    EscapedCharacters(line);
    if line != [] && line[|line| - 1] == '\r' {
      var init := line[..|line| - 1];
      EscapeMapAppend(init, "\r");
      assert line == init + "\r";
      EscapeUnchanged('\r');
      assert (EscapeMap(init) + "\r")[..|EscapeMap(init)|] == EscapeMap(init);
    }
  }

  lemma EscapeUnchanged(c: char)
    requires EscapeChar(c) == [c]
    ensures EscapeMap([c]) == [c]
  {
    assert [c][1..] == [];
  }

  lemma StripAllEscaped(lines: seq<string>)
    ensures StripAll(EscapeAll(lines)) == EscapeAll(StripAll(lines))
  {
    hide EscapeMap, StripCr;
    forall i | 0 <= i < |lines|
      ensures StripCr(EscapeMap(lines[i])) == EscapeMap(StripCr(lines[i]))
    {
      EscapeStripCr(lines[i]);
    }
  }

  lemma {:induction false} SplitEscaped(s: string)
    ensures Split(EscapeMap(s), '\n') == EscapeAll(Split(s, '\n'))
  {
    var parts := Split(s, '\n');
    JoinSplit(s, '\n');
    JoinEscaped(parts);
    forall p | p in EscapeAll(parts)
      ensures '\n' !in p
    {
      var i :| 0 <= i < |parts| && EscapeAll(parts)[i] == p;
      assert parts[i] in parts;
      EscapedCharacters(parts[i]);
    }
    SplitJoin(EscapeAll(parts), '\n');
  }

  lemma {:induction false} JoinEscaped(parts: seq<string>)
    requires parts != []
    ensures EscapeMap(Join(parts, "\n")) == Join(EscapeAll(parts), "\n")
  {
    if |parts| > 1 {
      JoinEscaped(parts[1..]);
      assert EscapeAll(parts)[1..] == EscapeAll(parts[1..]);
      EscapeMapAppend(parts[0] + "\n", Join(parts[1..], "\n"));
      EscapeMapAppend(parts[0], "\n");
      assert EscapeMap("\n") == "\n" by { assert "\n"[1..] == []; }
    }
  }

  lemma LinesEscaped(s: string)
    ensures Lines(RoffEscape(s)) == EscapeAll(Lines(s))
  {
    hide RoffEscape, EscapeMap, StripCr;
    RoffEscapeIsMap(s);
    SplitEscaped(s);
    var parts := Split(s, '\n');
    EscapedCharacters(parts[|parts| - 1]);
    StripAllEscaped(parts[..|parts| - 1]);
    assert EscapeAll(parts)[..|parts| - 1] == EscapeAll(parts[..|parts| - 1]);
  }

  lemma NoLineFeed(s: string)
    ensures forall line | line in Lines(s) :: '\n' !in line
  {
    var parts := Split(s, '\n');
    forall line | line in Lines(s)
      ensures '\n' !in line
    {
      var i :| 0 <= i < |Lines(s)| && Lines(s)[i] == line;
      assert parts[i] in parts;
    }
  }

  lemma StripFirst(line: string, lines: seq<string>)
    ensures StripAll([line] + lines) == [StripCr(line)] + StripAll(lines)
    ensures StripCr(line) == if line != [] && line[|line| - 1] == '\r' then line[..|line| - 1] else line
    ensures StripAll([]) == []
  {
  }

  /** A line ends at a line feed, with a carriage return before it dropped; an empty rest is no line. */
  lemma LineByLine(line: string, rest: string)
    requires '\n' !in line
    ensures Lines(line + "\n" + rest) ==
            [if line != [] && line[|line| - 1] == '\r' then line[..|line| - 1] else line] + Lines(rest)
    ensures Lines(line) == if line == [] then [] else [line]
  {
    hide Split, StripAll, StripCr;
    SplitAt(line, rest, '\n', true);
    SplitAt(line, [], '\n', false);
    assert line + "\n" + rest == line + (['\n'] + rest);
    var parts, whole := Split(rest, '\n'), Split(line + "\n" + rest, '\n');
    assert whole == [line] + parts;
    assert whole[..|whole| - 1] == [line] + parts[..|parts| - 1];
    StripFirst(line, parts[..|parts| - 1]);
    assert [line][..0] == [];
  }

  /** No line of the result can be taken for a roff request. */
  lemma BlockHasNoRequest(s: string)
    ensures forall line | line in Split(RoffEscapeBlock(s), '\n') :: line == [] || (line[0] != '.' && line[0] != '\'')
  {
    hide RoffEscape, EscapeMap, Lines;
    var lines := EscapeAll(Lines(s));
    LinesEscaped(s);
    NoLineFeed(s);
    if lines != [] {
      forall p | p in ProtectAll(lines)
        ensures '\n' !in p && (p == [] || (p[0] != '.' && p[0] != '\''))
      {
        var i :| 0 <= i < |lines| && ProtectAll(lines)[i] == p;
        assert Lines(s)[i] in Lines(s);
        EscapedCharacters(Lines(s)[i]);
      }
      SplitJoin(ProtectAll(lines), '\n');
    }
  }

  lemma ReadProtected(line: string, rest: string)
    ensures RoffRead(Protect(EscapeMap(line)) + rest) == line + RoffRead(rest)
  {
    hide EscapeMap, RoffRead;
    ReadEscaped(line, rest);
    var s := EscapeMap(line) + rest;
    ReadZeroWidth(s);
    assert ("\\&" + EscapeMap(line)) + rest == "\\&" + s;
  }

  lemma ReadZeroWidth(s: string)
    ensures RoffRead("\\&" + s) == RoffRead(s)
  {
    var t := "\\&" + s;
    assert t[2..] == s && t[1] == '&';
  }

  lemma {:induction false} ReadLines(lines: seq<string>)
    ensures RoffRead(Join(ProtectAll(EscapeAll(lines)), "\n")) == Join(lines, "\n")
  {
    hide Protect, EscapeMap, RoffRead;
    var printed := ProtectAll(EscapeAll(lines));
    if lines == [] {
      ReadNothing();
    } else if |lines| == 1 {
      ReadProtected(lines[0], []);
      ReadNothing();
      assert Protect(EscapeMap(lines[0])) + [] == Protect(EscapeMap(lines[0]));
    } else {
      ReadLines(lines[1..]);
      assert printed[1..] == ProtectAll(EscapeAll(lines[1..]));
      var rest := Join(printed[1..], "\n");
      assert Join(printed, "\n") == Protect(EscapeMap(lines[0])) + ("\n" + rest);
      ReadProtected(lines[0], "\n" + rest);
      ReadChar('\n', rest);
    }
  }

  lemma ReadNothing()
    ensures RoffRead([]) == []
  {
  }

  /** Reading the escaped block gives back the lines of the text; the added `\&` print nothing. */
  lemma BlockReadsBack(s: string)
    ensures RoffRead(RoffEscapeBlock(s)) == Join(Lines(s), "\n")
  {
    LinesEscaped(s);
    ReadLines(Lines(s));
  }

  // ----- shell quoting -----

  predicate NeedsNoQuotes(c: char) {
    IsAlnum(c) || c == '-' || c == '_'
  }

  function ShellQuote(s: string): string {
    if forall c | c in s :: NeedsNoQuotes(c) then s
    else "'" + Replace(s, "'", "'\\''") + "'"
  }

  datatype Mode = Between | InWord | InQuotes

  predicate IsBlank(c: char) {
    c == ' ' || c == '\t' || c == '\n'
  }

  /** Characters the shell gives a meaning of its own when they are not quoted. */
  predicate IsSpecial(c: char) {
    c in "|&;<>()$`\"*?[]#~=%{}!"
  }

  /**
   Word splitting with the quoting of sections 2.2.1 (backslash) and 2.2.2 (single quotes) of the POSIX
   Shell Command Language. None: an open quote, a trailing backslash, or an unquoted special character.
   */
  function ReadWords(s: string, mode: Mode, word: string): Option<seq<string>>
    decreases |s|
  {
    if s == [] then
      match mode
      case Between => Some([])
      case InWord => Some([word])
      case InQuotes => None
    else
      var c, rest := s[0], s[1..];
      if mode.InQuotes? then
        if c == '\'' then ReadWords(rest, InWord, word) else ReadWords(rest, InQuotes, word + [c])
      else if c == '\'' then ReadWords(rest, InQuotes, word)
      else if c == '\\' then
        if rest == [] then None
        else if rest[0] == '\n' then ReadWords(rest[1..], mode, word)
        else ReadWords(rest[1..], InWord, word + [rest[0]])
      else if IsBlank(c) then
        var more := ReadWords(rest, Between, []);
        if mode.Between? then more else if more.Some? then Some([word] + more.value) else None
      else if IsSpecial(c) then None
      else ReadWords(rest, InWord, word + [c])
  }

  lemma PlainIsOrdinary(c: char)
    requires NeedsNoQuotes(c)
    ensures c != '\'' && c != '\\' && !IsBlank(c) && !IsSpecial(c)
  {
  }

  lemma {:induction false} ReadPlain(s: string, mode: Mode, word: string)
    requires forall c | c in s :: NeedsNoQuotes(c)
    requires !mode.InQuotes? && (s == [] ==> mode.InWord?)
    ensures ReadWords(s, mode, word) == Some([word + s])
  {
    hide NeedsNoQuotes, IsSpecial, IsBlank;
    if s != [] {
      assert NeedsNoQuotes(s[0]);
      PlainIsOrdinary(s[0]);
      ReadPlain(s[1..], InWord, word + [s[0]]);
      assert word + [s[0]] + s[1..] == word + s;
    } else {
      assert word + s == word;
    }
  }

  lemma {:induction false} ReadQuoted(s: string, word: string)
    ensures ReadWords(Replace(s, "'", "'\\''") + "'", InQuotes, word) == Some([word + s])
    decreases |s|
  {
    var text := Replace(s, "'", "'\\''") + "'";
    if s == [] {
      assert text == "'" && text[1..] == [];
      assert word + s == word;
    } else {
      var rest := Replace(s[1..], "'", "'\\''") + "'";
      assert "'" <= s <==> s[0] == '\'';
      ReadQuoted(s[1..], word + [s[0]]);
      assert word + [s[0]] + s[1..] == word + s;
      if s[0] == '\'' {
        ReadQuoteMark(rest, word);
        assert text == "'\\''" + rest;
      } else {
        assert text == [s[0]] + rest && text[1..] == rest;
      }
    }
  }

  /** Close the quotes, an escaped quote, open them again. */
  lemma ReadQuoteMark(rest: string, word: string)
    ensures ReadWords("'\\''" + rest, InQuotes, word) == ReadWords(rest, InQuotes, word + "'")
  {
    var s := "'\\''" + rest;
    assert s[1..] == "\\''" + rest && s[1..][1..] == "''" + rest;
    assert s[1..][1..][1..] == "'" + rest && s[1..][1..][1..][1..] == rest;
    assert ReadWords(s, InQuotes, word) == ReadWords(s[1..], InWord, word);
    assert ReadWords(s[1..], InWord, word) == ReadWords(s[1..][1..][1..], InWord, word + "'");
  }

  /** Only texts of letters, digits, dashes and underscores are printed bare. */
  lemma QuotedWhenNeeded(s: string)
    ensures ShellQuote(s) == s <==>
            forall c | c in s :: 'a' <= c <= 'z' || 'A' <= c <= 'Z' || '0' <= c <= '9' || c == '-' || c == '_'
    ensures ShellQuote(s) != s ==> ShellQuote(s) == "'" + Replace(s, "'", "'\\''") + "'"
  {
    if ShellQuote(s) != s {
      assert exists c :: c in s && !NeedsNoQuotes(c);
    } else if exists c :: c in s && !NeedsNoQuotes(c) {
      QuotedIsLonger(s);
    }
  }

  lemma {:induction false} QuotedIsLonger(s: string)
    ensures |Replace(s, "'", "'\\''")| >= |s|
  {
    if s != [] {
      QuotedIsLonger(s[1..]);
    }
  }

  /** A quoted text is read as one word, the text itself, except that the empty text is no word at all. */
  lemma ShellReadsBack(s: string)
    ensures ReadWords(ShellQuote(s), Between, []) == Some([s]) <==> s != ""
    ensures s == "" ==> ReadWords(ShellQuote(s), Between, []) == Some([])
  {
    if s != [] {
      if forall c | c in s :: NeedsNoQuotes(c) {
        ReadPlain(s, Between, []);
      } else {
        ReadQuoted(s, []);
        var text := Replace(s, "'", "'\\''") + "'";
        assert ShellQuote(s) == "'" + text;
        assert ("'" + text)[1..] == text;
      }
      assert [] + s == s;
    }
  }
}
