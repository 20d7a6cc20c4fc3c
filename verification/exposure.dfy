/**
 Glob patterns compiled to regular expressions by string rewriting (src/exposure.rs), proved to be
 one left-to-right scan of the pattern, and the exposure filter built on them.
 */
module Exposure {
  import opened Text

  /** What a pattern is made of; the regex fragment it compiles to is made of the same three things. */
  datatype Token = Lit(c: char) | Segment | Any

  // ----- the pipeline: replace, split, restore, escape, join, replace -----

  const SENTINEL: string := "\U{0}GLOB\U{0}"

  predicate IsMeta(c: char) {
    c in "\\.+*?()|[]{}^$#&-~"
  }

  /** `regex::escape`: a backslash before every metacharacter. */
  function Escape(s: string): string {
    if s == [] then []
    else (if IsMeta(s[0]) then ['\\', s[0]] else [s[0]]) + Escape(s[1..])
  }

  function EscapePart(part: string): string {
    Escape(Replace(part, SENTINEL, "**"))
  }

  function EscapeParts(parts: seq<string>): seq<string> {
    seq(|parts|, i requires 0 <= i < |parts| => EscapePart(parts[i]))
  }

  /** The regex text between `^` and `$` that `compile_pattern` builds. */
  function CompilePattern(pattern: string): string {
    var parts := Split(Replace(pattern, "**", SENTINEL), '*');
    Replace(Join(EscapeParts(parts), "[^.]*"), "\\*\\*", ".+")
  }

  // ----- the meaning: one scan, `**` before `*` -----

  function Scan(pattern: string): seq<Token> {
    if pattern == [] then []
    else if "**" <= pattern then [Any] + Scan(pattern[2..])
    else if pattern[0] == '*' then [Segment] + Scan(pattern[1..])
    else [Lit(pattern[0])] + Scan(pattern[1..])
  }

  function RegexOf(t: Token): string {
    match t
    case Lit(c) => if IsMeta(c) then ['\\', c] else [c]
    case Segment => "[^.]*"
    case Any => ".+"
  }

  function RegexText(ts: seq<Token>): string {
    if ts == [] then [] else RegexOf(ts[0]) + RegexText(ts[1..])
  }

  /** The text after the first replacement, token by token. */
  function MarkedOf(t: Token): string {
    match t
    case Lit(c) => [c]
    case Segment => "*"
    case Any => SENTINEL
  }

  function Marked(ts: seq<Token>): string {
    if ts == [] then [] else MarkedOf(ts[0]) + Marked(ts[1..])
  }

  /** The text before the last replacement, token by token. */
  function EscapedOf(t: Token): string {
    if t.Any? then "\\*\\*" else RegexOf(t)
  }

  function Escaped(ts: seq<Token>): string {
    if ts == [] then [] else EscapedOf(ts[0]) + Escaped(ts[1..])
  }

  /** What the later steps make of a marked text: any sentinel, also one the pattern itself spells out. */
  function Reread(text: string): seq<Token> {
    if text == [] then []
    else if SENTINEL <= text then [Any] + Reread(text[|SENTINEL|..])
    else if text[0] == '*' then [Segment] + Reread(text[1..])
    else [Lit(text[0])] + Reread(text[1..])
  }

  predicate NoStars(ts: seq<Token>) {
    forall t | t in ts :: t.Lit? ==> t.c != '*'
  }

  /** No literal is a star or starts a sentinel. */
  predicate Settled(ts: seq<Token>) {
    ts != [] ==>
      && (ts[0].Lit? ==> ts[0].c != '*' && !(SENTINEL <= Marked(ts)))
      && Settled(ts[1..])
  }

  lemma {:induction false} SettledNoStars(ts: seq<Token>)
    requires Settled(ts)
    ensures NoStars(ts)
  {
    if ts != [] {
      SettledNoStars(ts[1..]);
      assert ts == [ts[0]] + ts[1..];
    }
  }

  /** Marking undoes the rereading, and what is reread is settled. */
  lemma {:induction false} RereadIsSettled(text: string)
    ensures Settled(Reread(text)) && Marked(Reread(text)) == text
  {
    if text != [] {
      var n := if SENTINEL <= text then |SENTINEL| else 1;
      RereadIsSettled(text[n..]);
      assert text == text[..n] + text[n..];
    }
  }

  /** Settled tokens, and only those, survive marking and rereading. */
  lemma {:induction false} SettledIsReread(ts: seq<Token>)
    requires Settled(ts)
    ensures Reread(Marked(ts)) == ts
  {
    if ts != [] {
      SettledIsReread(ts[1..]);
      assert Marked(ts)[|MarkedOf(ts[0])|..] == Marked(ts[1..]);
      if ts[0].Segment? {
        NotPrefix(SENTINEL, Marked(ts), 0);
      }
    }
  }

  lemma {:induction false} SettledPrefix(a: seq<Token>, b: seq<Token>)
    requires Settled(a + b)
    ensures Settled(a) && Settled(b)
  {
    if a == [] {
      assert a + b == b;
    } else {
      assert (a + b)[1..] == a[1..] + b;
      SettledPrefix(a[1..], b);
      EscapedAppend(a, b);
    }
  }

  lemma NotPrefix(p: string, s: string, i: nat)
    requires i < |p| && (i < |s| ==> s[i] != p[i])
    ensures !(p <= s)
  {
  }

  /** A replacement that matches nothing at the front copies the front. */
  lemma {:induction false} ReplaceSkips(front: string, rest: string, from: string, to: string)
    requires from != []
    requires forall i | 0 <= i < |front| :: !(from <= front[i..] + rest)
    ensures Replace(front + rest, from, to) == front + Replace(rest, from, to)
  {
    if front == [] {
      assert front + rest == rest;
    } else {
      assert front[0..] + rest == front + rest;
      assert (front + rest)[1..] == front[1..] + rest;
      forall i | 0 <= i < |front[1..]|
        ensures !(from <= front[1..][i..] + rest)
      {
        assert front[1..][i..] == front[i + 1..];
      }
      ReplaceSkips(front[1..], rest, from, to);
    }
  }

  lemma ReplaceHits(rest: string, from: string, to: string)
    requires from != []
    ensures Replace(from + rest, from, to) == to + Replace(rest, from, to)
  {
    assert (from + rest)[|from|..] == rest;
  }

  // ----- first replacement: stars to the sentinel -----

  lemma {:induction false} FirstReplace(pattern: string)
    ensures Replace(pattern, "**", SENTINEL) == Marked(Scan(pattern))
  {
    if pattern != [] {
      FirstReplace(pattern[(if "**" <= pattern then 2 else 1)..]);
    }
  }

  // ----- split, restore, escape, join -----

  lemma {:induction false} EscapeAppend(a: string, b: string)
    ensures Escape(a + b) == Escape(a) + Escape(b)
  {
    if a == [] {
      assert a + b == b;
    } else {
      assert (a + b)[1..] == a[1..] + b;
      EscapeAppend(a[1..], b);
    }
  }

  /** Exactly the characters that mean something in a regex get a backslash. */
  lemma EscapedCharacter(c: char)
    ensures Escape([c]) ==
            if c in {'\\', '.', '+', '*', '?', '(', ')', '|', '[', ']', '{', '}', '^', '$', '#', '&', '-', '~'}
            then ['\\', c] else [c]
  {
    assert [c][1..] == [];
  }

  lemma EscapeStars()
    ensures Escape("**") == "\\*\\*"
  {
    assert "**"[1..] == "*" && "*"[1..] == [];
  }

  /** Restoring and escaping one token at the front of a part. */
  lemma RestoreOne(t: Token, rest: string)
    requires !t.Segment? && (t.Lit? ==> !(SENTINEL <= [t.c] + rest))
    ensures EscapePart(MarkedOf(t) + rest) == EscapedOf(t) + EscapePart(rest)
  {
    var restored := Replace(rest, SENTINEL, "**");
    if t.Any? {
      ReplaceHits(rest, SENTINEL, "**");
      EscapeAppend("**", restored);
      EscapeStars();
    } else {
      var front := [t.c];
      assert front[0..] == front;
      ReplaceSkips(front, rest, SENTINEL, "**");
      EscapeAppend(front, restored);
      assert Escape(front) == EscapedOf(t) by { assert front[1..] == []; }
    }
  }

  lemma {:induction false} RestorePart(ts: seq<Token>)
    requires Settled(ts) && Segment !in ts
    ensures EscapePart(Marked(ts)) == Escaped(ts) && '*' !in Marked(ts)
  {
    hide EscapePart, EscapedOf;
    if ts == [] {
      NothingToRestore();
    } else {
      RestorePart(ts[1..]);
      RestoreOne(ts[0], Marked(ts[1..]));
    }
  }

  lemma NothingToRestore()
    ensures EscapePart([]) == []
  {
  }

  lemma {:induction false} EscapedAppend(a: seq<Token>, b: seq<Token>)
    ensures Escaped(a + b) == Escaped(a) + Escaped(b)
    ensures Marked(a + b) == Marked(a) + Marked(b)
  {
    hide EscapedOf, MarkedOf;
    if a == [] {
      assert a + b == b;
    } else {
      assert (a + b)[1..] == a[1..] + b;
      EscapedAppend(a[1..], b);
    }
  }

  lemma FirstSegment(ts: seq<Token>)
    requires ts != [] && ts[0].Segment?
    ensures Marked(ts) == ['*'] + Marked(ts[1..]) && Escaped(ts) == "[^.]*" + Escaped(ts[1..])
  {
  }

  lemma SplitAtStar(done: seq<Token>, ts: seq<Token>)
    requires Settled(done) && Segment !in done && ts != [] && ts[0].Segment?
    ensures Split(Marked(done + ts), '*') == [Marked(done)] + Split(Marked(ts[1..]), '*')
    ensures Escaped(done + ts) == Escaped(done) + "[^.]*" + Escaped(ts[1..])
  {
    hide Settled, EscapePart, Split, Marked, Escaped;
    RestorePart(done);
    EscapedAppend(done, ts);
    FirstSegment(ts);
    assert Marked(done + ts) == Marked(done) + (['*'] + Marked(ts[1..]));
    SplitAt(Marked(done), Marked(ts[1..]), '*', true);
  }

  /** Works through the parts from the left; `done` are the tokens of the current part passed so far. */
  lemma {:induction false} SplitEscapeJoin(done: seq<Token>, ts: seq<Token>)
    requires Settled(done + ts) && Segment !in done
    ensures Join(EscapeParts(Split(Marked(done + ts), '*')), "[^.]*") == Escaped(done + ts)
    decreases |ts|
  {
    hide EscapePart, Escaped, Marked, Split, Settled;
    SettledPrefix(done, ts);
    if ts == [] {
      assert done + ts == done;
      RestorePart(done);
      SplitAt(Marked(done), [], '*', false);
      assert EscapeParts([Marked(done)]) == [Escaped(done)];
    } else if ts[0].Segment? {
      SplitAtStar(done, ts);
      RestorePart(done);
      var tail := EscapeParts(Split(Marked(ts[1..]), '*'));
      assert EscapeParts(Split(Marked(done + ts), '*')) == [Escaped(done)] + tail;
      assert ([Escaped(done)] + tail)[1..] == tail;
      assert [] + ts[1..] == ts[1..] && done + ts == (done + [ts[0]]) + ts[1..];
      SettledPrefix(done + [ts[0]], ts[1..]);
      SplitEscapeJoin([], ts[1..]);
    } else {
      assert done + ts == (done + [ts[0]]) + ts[1..];
      SplitEscapeJoin(done + [ts[0]], ts[1..]);
    }
  }

  // ----- last replacement: escaped double stars to `.+` -----

  lemma EscapedStart(ts: seq<Token>)
    requires NoStars(ts) && ts != []
    ensures Escaped(ts) != [] && Escaped(ts)[0] != '*'
  {
  }

  /** Matches of the escaped double star fall on token boundaries only. */
  lemma {:induction false} LastReplace(ts: seq<Token>)
    requires NoStars(ts)
    ensures Replace(Escaped(ts), "\\*\\*", ".+") == RegexText(ts)
  {
    if ts != [] {
      var front, rest := EscapedOf(ts[0]), Escaped(ts[1..]);
      LastReplace(ts[1..]);
      if ts[0].Any? {
        ReplaceHits(rest, "\\*\\*", ".+");
      } else {
        if ts[1..] != [] {
          EscapedStart(ts[1..]);
        }
        forall i | 0 <= i < |front|
          ensures !("\\*\\*" <= front[i..] + rest)
        {
          NoMatchInside(ts[0], i, rest);
        }
        ReplaceSkips(front, rest, "\\*\\*", ".+");
      }
    }
  }

  lemma NoMatchInside(t: Token, i: nat, rest: string)
    requires !t.Any? && (t.Lit? ==> t.c != '*') && i < |EscapedOf(t)|
    requires rest != [] ==> rest[0] != '*'
    ensures !("\\*\\*" <= EscapedOf(t)[i..] + rest)
  {
    var s := EscapedOf(t)[i..] + rest;
    if s[0] == '\\' {
      NotPrefix("\\*\\*", s, 1);
    } else {
      NotPrefix("\\*\\*", s, 0);
    }
  }

  /** The rewriting pipeline, for every pattern: the marked text, reread. */
  lemma CompileIsReread(pattern: string)
    ensures CompilePattern(pattern) == RegexText(Reread(Marked(Scan(pattern))))
  {
    var text := Marked(Scan(pattern));
    var ts := Reread(text);
    FirstReplace(pattern);
    RereadIsSettled(text);
    SettledNoStars(ts);
    assert [] + ts == ts;
    SplitEscapeJoin([], ts);
    LastReplace(ts);
  }

  // ----- reading the regex back -----

  /** The tokens of a regex text in this fragment: escapes, `[^.]*`, `.+`, plain characters. */
  function ReadRegex(r: string): seq<Token> {
    if r == [] then []
    else if "[^.]*" <= r then [Segment] + ReadRegex(r[5..])
    else if ".+" <= r then [Any] + ReadRegex(r[2..])
    else if r[0] == '\\' && |r| > 1 then [Lit(r[1])] + ReadRegex(r[2..])
    else [Lit(r[0])] + ReadRegex(r[1..])
  }

  lemma ReadOne(t: Token, rest: string)
    ensures ReadRegex(RegexOf(t) + rest) == [t] + ReadRegex(rest)
  {
    var r := RegexOf(t) + rest;
    assert r[|RegexOf(t)|..] == rest;
    assert "[^.]*" <= r ==> r[0] == '[';
    assert ".+" <= r ==> r[0] == '.';
  }

  lemma {:induction false} ReadBack(ts: seq<Token>)
    ensures ReadRegex(RegexText(ts)) == ts
  {
    hide RegexOf;
    if ts != [] {
      ReadBack(ts[1..]);
      ReadOne(ts[0], RegexText(ts[1..]));
    }
  }

  // ----- the pattern can spell the sentinel -----

  /** The sentinel, or its start before a double star, occurs in the pattern. */
  predicate MimicsSentinel(pattern: string) {
    pattern != [] && (SENTINEL <= pattern || "\U{0}GLOB**" <= pattern || MimicsSentinel(pattern[1..]))
  }

  lemma {:induction false} WithoutNul(pattern: string)
    requires '\U{0}' !in pattern
    ensures !MimicsSentinel(pattern)
  {
    if pattern != [] {
      NotPrefix(SENTINEL, pattern, 0);
      NotPrefix("\U{0}GLOB**", pattern, 0);
      WithoutNul(pattern[1..]);
    }
  }

  lemma FirstMarked(pattern: string)
    ensures Marked(Scan([])) == []
    ensures pattern != [] && pattern[0] != '*' ==> Marked(Scan(pattern)) == [pattern[0]] + Marked(Scan(pattern[1..]))
    ensures "**" <= pattern ==> Marked(Scan(pattern)) == SENTINEL + Marked(Scan(pattern[2..]))
    ensures pattern != [] && pattern[0] == '*' && !("**" <= pattern) ==> Marked(Scan(pattern))[0] == '*'
  {
    if pattern != [] && pattern[0] != '*' {
      NotPrefix("**", pattern, 0);
    }
  }

  /** A plain character at the front of the marked text is one of the pattern. */
  lemma PeelLetter(c: char, more: string, pattern: string)
    requires c != '*' && c != '\U{0}'
    ensures [c] + more <= Marked(Scan(pattern)) <==>
            pattern != [] && pattern[0] == c && more <= Marked(Scan(pattern[1..]))
  {
    hide Marked, Scan;
    FirstMarked(pattern);
    var text := Marked(Scan(pattern));
    if [c] + more <= text {
      assert text[0] == c && text[1..|more| + 1] == more;
    }
  }

  lemma PeelNul(pattern: string)
    ensures "\U{0}" <= Marked(Scan(pattern)) <==> "\U{0}" <= pattern || "**" <= pattern
  {
    FirstMarked(pattern);
  }

  lemma PeelWord(pattern: string)
    ensures "GLOB\U{0}" <= Marked(Scan(pattern)) <==> "GLOB\U{0}" <= pattern || "GLOB**" <= pattern
  {
    hide Marked, Scan;
    PeelLetter('G', "LOB\U{0}", pattern);
    if "G" <= pattern {
      PeelLetter('L', "OB\U{0}", pattern[1..]);
      if "GL" <= pattern {
        PeelLetter('O', "B\U{0}", pattern[2..]);
        if "GLO" <= pattern {
          PeelLetter('B', "\U{0}", pattern[3..]);
          if "GLOB" <= pattern {
            PeelNul(pattern[4..]);
          }
        }
      }
    }
  }

  /** Where a sentinel seems to start at a literal of the pattern. */
  lemma SeemingSentinel(pattern: string)
    requires pattern != [] && pattern[0] != '*'
    ensures SENTINEL <= Marked(Scan(pattern)) <==> SENTINEL <= pattern || "\U{0}GLOB**" <= pattern
  {
    hide Marked, Scan;
    FirstMarked(pattern);
    PeelWord(pattern[1..]);
    assert SENTINEL <= Marked(Scan(pattern)) <==>
           pattern[0] == '\U{0}' && "GLOB\U{0}" <= Marked(Scan(pattern))[1..];
    assert SENTINEL <= pattern <==> pattern[0] == '\U{0}' && "GLOB\U{0}" <= pattern[1..];
    assert "\U{0}GLOB**" <= pattern <==> pattern[0] == '\U{0}' && "GLOB**" <= pattern[1..];
  }

  /** The scanned pattern is settled exactly when it does not spell the sentinel. */
  lemma {:induction false} SettledScan(pattern: string)
    ensures Settled(Scan(pattern)) <==> !MimicsSentinel(pattern)
  {
    if pattern != [] {
      if pattern[0] == '*' {
        NotPrefix(SENTINEL, pattern, 0);
        NotPrefix("\U{0}GLOB**", pattern, 0);
        if "**" <= pattern {
          NotPrefix(SENTINEL, pattern[1..], 0);
          NotPrefix("\U{0}GLOB**", pattern[1..], 0);
          assert pattern[1..][1..] == pattern[2..];
          SettledScan(pattern[2..]);
        } else {
          SettledScan(pattern[1..]);
        }
      } else {
        SettledScan(pattern[1..]);
        SeemingSentinel(pattern);
        NotPrefix("**", pattern, 0);
      }
    }
  }

  /** The pipeline compiles what one left-to-right scan reads exactly when the pattern does not spell the sentinel. */
  lemma CompileIsScan(pattern: string)
    ensures CompilePattern(pattern) == RegexText(Scan(pattern)) <==> !MimicsSentinel(pattern)
    ensures ReadRegex(CompilePattern(pattern)) == Scan(pattern) <==> !MimicsSentinel(pattern)
  {
    hide Settled, Marked, Scan, Reread, RegexText, ReadRegex, MimicsSentinel, CompilePattern;
    var ts := Scan(pattern);
    CompileIsReread(pattern);
    ReadBack(ts);
    ReadBack(Reread(Marked(ts)));
    SettledScan(pattern);
    RereadIsSettled(Marked(ts));
    if Settled(ts) {
      SettledIsReread(ts);
    }
  }

  lemma {:induction false} MarkedWithoutStars(pattern: string)
    requires '*' !in pattern
    ensures Marked(Scan(pattern)) == pattern
  {
    hide Scan, Marked;
    FirstMarked(pattern);
    if pattern != [] {
      MarkedWithoutStars(pattern[1..]);
    }
  }

  /** A pattern that is the sentinel itself is taken for a double star. */
  lemma SentinelAsPattern(moduleId: string)
    ensures MimicsSentinel(SENTINEL)
    ensures GlobMatch(moduleId, SENTINEL) <==> moduleId != [] && '\n' !in moduleId
  {
    hide ReadRegex, CompilePattern;
    CompileIsReread(SENTINEL);
    MarkedWithoutStars(SENTINEL);
    assert Reread(SENTINEL) == [Any] by { assert SENTINEL[|SENTINEL|..] == []; }
    ReadBack([Any]);
    if moduleId != [] {
      assert moduleId[..|moduleId|] == moduleId && [Any][1..] == [];
      assert Matches([], moduleId[|moduleId|..]);
    }
  }

  // ----- matching -----

  /** Anchored matching of the fragment; `.` does not match a line feed. */
  predicate Matches(ts: seq<Token>, s: string)
    decreases |ts|
  {
    if ts == [] then s == []
    else
      match ts[0]
      case Lit(c) => s != [] && s[0] == c && Matches(ts[1..], s[1..])
      case Segment => exists n :: 0 <= n <= |s| && '.' !in s[..n] && Matches(ts[1..], s[n..])
      case Any => exists n :: 1 <= n <= |s| && '\n' !in s[..n] && Matches(ts[1..], s[n..])
  }

  predicate GlobMatch(moduleId: string, pattern: string) {
    Matches(ReadRegex(CompilePattern(pattern)), moduleId)
  }

  lemma ScanLiteral(pattern: string)
    requires pattern != [] && pattern[0] != '*'
    ensures Scan(pattern) == [Lit(pattern[0])] + Scan(pattern[1..])
  {
    NotPrefix("**", pattern, 0);
  }

  lemma {:induction false} ScanAppend(prefix: string, rest: string)
    requires '*' !in prefix
    ensures Scan(prefix + rest) == Scan(prefix) + Scan(rest)
  {
    hide Scan;
    if prefix == [] {
      assert prefix + rest == rest;
      ScanNothing();
    } else {
      assert (prefix + rest)[1..] == prefix[1..] + rest;
      ScanLiteral(prefix);
      ScanLiteral(prefix + rest);
      ScanAppend(prefix[1..], rest);
    }
  }

  lemma ScanStars()
    ensures Scan("*") == [Segment] && Scan("**") == [Any]
  {
    assert "*"[1..] == [] && "**"[2..] == [];
  }

  lemma ScanNothing()
    ensures Scan([]) == []
  {
  }

  lemma MatchLiteral(c: char, ts: seq<Token>, s: string)
    ensures Matches([Lit(c)] + ts, s) <==> s != [] && s[0] == c && Matches(ts, s[1..])
  {
    assert ([Lit(c)] + ts)[1..] == ts;
  }

  lemma {:induction false} LiteralPrefix(prefix: string, ts: seq<Token>, s: string)
    requires '*' !in prefix
    ensures Matches(Scan(prefix) + ts, s) <==> prefix <= s && Matches(ts, s[|prefix|..])
  {
    hide Scan, Matches;
    if prefix == [] {
      ScanNothing();
      assert [] + ts == ts && s[0..] == s;
    } else {
      ScanLiteral(prefix);
      assert Scan(prefix) + ts == [Lit(prefix[0])] + (Scan(prefix[1..]) + ts);
      MatchLiteral(prefix[0], Scan(prefix[1..]) + ts, s);
      if s != [] && s[0] == prefix[0] {
        LiteralPrefix(prefix[1..], ts, s[1..]);
        assert prefix <= s <==> prefix[1..] <= s[1..];
        assert prefix <= s ==> s[1..][|prefix| - 1..] == s[|prefix|..];
      }
    }
  }

  /** A pattern without stars matches itself and nothing else, whatever metacharacters it contains. */
  lemma LiteralPattern(pattern: string, s: string)
    requires !MimicsSentinel(pattern) && '*' !in pattern
    ensures GlobMatch(s, pattern) <==> s == pattern
  {
    hide MimicsSentinel, CompilePattern, ReadRegex, RegexText;
    CompileIsScan(pattern);
    assert Scan(pattern) + [] == Scan(pattern);
    LiteralPrefix(pattern, [], s);
  }

  /** `prefix.*`: the prefix, a dot, and text without dots. */
  lemma SegmentPattern(prefix: string, s: string)
    requires !MimicsSentinel(prefix + ".*") && '*' !in prefix
    ensures GlobMatch(s, prefix + ".*") <==> prefix + "." <= s && '.' !in s[|prefix| + 1..]
  {
    hide MimicsSentinel, CompilePattern, ReadRegex, RegexText, Scan;
    CompileIsScan(prefix + ".*");
    var p := prefix + ".";
    assert prefix + ".*" == p + "*";
    ScanAppend(p, "*");
    ScanStars();
    LiteralPrefix(p, [Segment], s);
    if p <= s {
      var t := s[|p|..];
      assert [Segment][1..] == [];
      assert t[..|t|] == t;
      assert Matches([], t[|t|..]);
    }
  }

  /** `prefix.**`: the prefix, a dot, and at least one more character, dots included but no line feed. */
  lemma AnyPattern(prefix: string, s: string)
    requires !MimicsSentinel(prefix + ".**") && '*' !in prefix
    ensures GlobMatch(s, prefix + ".**") <==>
            prefix + "." <= s && |s| > |prefix| + 1 && '\n' !in s[|prefix| + 1..]
  {
    hide MimicsSentinel, CompilePattern, ReadRegex, RegexText, Scan;
    CompileIsScan(prefix + ".**");
    var p := prefix + ".";
    assert prefix + ".**" == p + "**";
    ScanAppend(p, "**");
    ScanStars();
    LiteralPrefix(p, [Any], s);
    if p <= s {
      var t := s[|p|..];
      assert [Any][1..] == [];
      assert t[..|t|] == t;
      assert Matches([], t[|t|..]);
    }
  }

  // ----- the exposure filter -----

  datatype ExposureFilter = ExposureFilter(mode: string, included: seq<string>, excluded: seq<string>)

  predicate AnyMatch(moduleId: string, patterns: seq<string>) {
    exists p | p in patterns :: GlobMatch(moduleId, p)
  }

  /** `is_exposed`. */
  predicate IsExposed(f: ExposureFilter, moduleId: string) {
    match f.mode
    case "all" => true
    case "include" => AnyMatch(moduleId, f.included)
    case "exclude" => !AnyMatch(moduleId, f.excluded)
    case _ => false
  }

  /** Keeps the first occurrence of every pattern. */
  method Dedup(patterns: seq<string>) returns (r: seq<string>)
    ensures forall p :: p in r <==> p in patterns
    ensures forall i, j :: 0 <= i < j < |r| ==> r[i] != r[j]
  {
    r := [];
    var seen: set<string> := {};
    for i := 0 to |patterns|
      invariant forall p :: p in r <==> p in patterns[..i]
      invariant forall p :: p in seen <==> p in r
      invariant forall j, k :: 0 <= j < k < |r| ==> r[j] != r[k]
    {
      if patterns[i] !in seen {
        seen := seen + {patterns[i]};
        r := r + [patterns[i]];
      }
    }
  }

  /** An unknown mode hides every module; removing repeated patterns changes no decision. */
  method NewFilter(mode: string, included: seq<string>, excluded: seq<string>) returns (f: ExposureFilter)
    ensures forall id :: IsExposed(f, id) <==>
              || mode == "all"
              || (mode == "include" && exists p :: p in included && GlobMatch(id, p))
              || (mode == "exclude" && !exists p :: p in excluded && GlobMatch(id, p))
  {
    var resolved := if mode in {"all", "include", "exclude", "none"} then mode else "none";
    var inc := Dedup(included);
    var exc := Dedup(excluded);
    f := ExposureFilter(resolved, inc, exc);
  }

  function Select(f: ExposureFilter, ids: seq<string>, exposed: bool): seq<string> {
    if ids == [] then []
    else
      var last := ids[|ids| - 1];
      Select(f, ids[..|ids| - 1], exposed) + (if IsExposed(f, last) == exposed then [last] else [])
  }

  method FilterModules(f: ExposureFilter, ids: seq<string>) returns (exposed: seq<string>, hidden: seq<string>)
    ensures exposed == Select(f, ids, true) && hidden == Select(f, ids, false)
  {
    exposed, hidden := [], [];
    for i := 0 to |ids|
      invariant exposed == Select(f, ids[..i], true) && hidden == Select(f, ids[..i], false)
    {
      assert ids[..i + 1][..i] == ids[..i];
      if IsExposed(f, ids[i]) {
        exposed := exposed + [ids[i]];
      } else {
        hidden := hidden + [ids[i]];
      }
    }
    assert ids[..|ids|] == ids;
  }

  /** The two lists partition the modules, repetitions included, and each holds only its own kind. */
  lemma {:induction false} FilterPartitions(f: ExposureFilter, ids: seq<string>)
    ensures multiset(Select(f, ids, true)) + multiset(Select(f, ids, false)) == multiset(ids)
    ensures forall id | id in Select(f, ids, true) :: IsExposed(f, id)
    ensures forall id | id in Select(f, ids, false) :: !IsExposed(f, id)
  {
    hide IsExposed;
    if ids != [] {
      FilterPartitions(f, ids[..|ids| - 1]);
      assert ids == ids[..|ids| - 1] + [ids[|ids| - 1]];
    }
  }
}
