/** The module-id validator (src/cli.rs) against its grammar, and what the common patterns match on valid ids. */
module ModuleId {
  import opened Sequences
  import opened Text
  import Exposure
  import Truncation

  const MODULE_ID_MAX_LEN: nat := 192

  predicate IsWord(c: char) {
    IsLower(c) || IsDigit(c) || c == '_'
  }

  /** `[a-z][a-z0-9_]*` */
  predicate Identifier(s: string) {
    s != [] && IsLower(s[0]) && forall i :: 1 <= i < |s| ==> IsWord(s[i])
  }

  predicate Identifiers(parts: seq<string>) {
    parts != [] && forall p | p in parts :: Identifier(p)
  }

  /** `[a-z][a-z0-9_]*(\.[a-z][a-z0-9_]*)*`: identifiers joined by dots. */
  ghost predicate InGrammar(s: string) {
    exists parts :: Identifiers(parts) && Join(parts, ".") == s
  }

  lemma GrammarBySplitting(s: string)
    ensures InGrammar(s) <==> Identifiers(Split(s, '.'))
  {
    JoinSplit(s, '.');
    if InGrammar(s) {
      var parts :| Identifiers(parts) && Join(parts, ".") == s;
      assert forall p | p in parts :: '.' !in p;
      SplitJoin(parts, '.');
    }
  }

  lemma OnePart(s: string)
    requires '.' !in s
    ensures InGrammar(s) <==> Identifier(s)
  {
    hide InGrammar, Identifier, Split;
    GrammarBySplitting(s);
    SplitAt(s, [], '.', false);
    assert s in [s] && forall p | p in [s] :: p == s;
  }

  lemma EmptyPart(parts: seq<string>)
    requires [] in parts
    ensures !Identifiers(parts)
  {
  }

  /** Which characters an identifier may start and go on with. */
  lemma ShortIds(c: char)
    ensures InGrammar([c]) <==> 'a' <= c <= 'z'
    ensures InGrammar(['a', c]) <==> 'a' <= c <= 'z' || '0' <= c <= '9' || c == '_'
  {
    hide InGrammar;
    if c == '.' {
      GrammarBySplitting([c]);
      GrammarBySplitting(['a', c]);
      SplitAt([], [], '.', true);
      SplitAt("a", [], '.', true);
      assert [] + (['.'] + []) == [c] && "a" + (['.'] + []) == ['a', c];
      EmptyPart(Split([c], '.'));
      EmptyPart(Split(['a', c], '.'));
    } else {
      OnePart([c]);
      OnePart(['a', c]);
      assert ['a', c][1] == c;
    }
  }

  method IsValidModuleId(s: string) returns (valid: bool)
    ensures valid <==> InGrammar(s)
  {
    GrammarBySplitting(s);
    if s == [] {
      assert [] in Split(s, '.');
      return false;
    }
    var segments := Split(s, '.');
    for i := 0 to |segments|
      invariant forall j :: 0 <= j < i ==> Identifier(segments[j])
    {
      var segment := segments[i];
      assert segment in segments;
      if segment == [] || !IsLower(segment[0]) {
        return false;
      }
      for k := 1 to |segment|
        invariant forall j :: 1 <= j < k ==> IsWord(segment[j])
      {
        if !IsLower(segment[k]) && !IsDigit(segment[k]) && segment[k] != '_' {
          return false;
        }
      }
    }
    valid := true;
  }

  /** The length limit counts bytes, which for an id of the grammar are characters. */
  method ValidateModuleId(s: string) returns (valid: bool)
    ensures valid <==> InGrammar(s) && |s| <= 192
  {
    var inGrammar := IsValidModuleId(s);
    if inGrammar {
      GrammarIsAscii(s);
    }
    valid := |Truncation.Utf8(s)| <= MODULE_ID_MAX_LEN && inGrammar;
  }

  lemma GrammarIsAscii(s: string)
    requires InGrammar(s)
    ensures |Truncation.Utf8(s)| == |s|
  {
    var parts :| Identifiers(parts) && Join(parts, ".") == s;
    ValidCharacters(parts);
    forall i | 0 <= i < |s|
      ensures s[i] as int < 0x80
    {
      assert s[i] in s;
    }
    Truncation.AsciiBytes(s);
  }

  /** Every character of a valid id is a lower-case letter, a digit, an underscore or a dot. */
  lemma {:induction false} ValidCharacters(parts: seq<string>)
    requires Identifiers(parts)
    ensures forall c | c in Join(parts, ".") :: IsWord(c) || c == '.'
  {
    assert Identifier(parts[0]);
    forall c | c in parts[0]
      ensures IsWord(c)
    {
      var i :| 0 <= i < |parts[0]| && parts[0][i] == c;
    }
    if |parts| > 1 {
      ValidCharacters(parts[1..]);
    }
  }

  lemma PlainPrefix(prefix: string)
    requires InGrammar(prefix)
    ensures '*' !in prefix && '\U{0}' !in prefix && '\n' !in prefix
  {
    var parts :| Identifiers(parts) && Join(parts, ".") == prefix;
    ValidCharacters(parts);
  }

  /** On valid ids `P.*` matches exactly the ids one segment below P. */
  lemma OneSegmentBelow(m: string, prefix: string)
    requires InGrammar(m) && InGrammar(prefix)
    ensures Exposure.GlobMatch(m, prefix + ".*") <==>
            exists last :: Split(m, '.') == Split(prefix, '.') + [last]
  {
    PlainPrefix(prefix);
    hide Exposure.GlobMatch, InGrammar, Split, Join;
    Exposure.WithoutNul(prefix + ".*");
    Exposure.SegmentPattern(prefix, m);
    if prefix + "." <= m && '.' !in m[|prefix| + 1..] {
      var t := m[|prefix| + 1..];
      assert m == prefix + (['.'] + t);
      SplitMiddle(prefix, t, '.');
      SplitAt(t, [], '.', false);
    }
    if last :| Split(m, '.') == Split(prefix, '.') + [last] {
      BelowPrefix(m, prefix, [last]);
      assert last in Split(m, '.');
    }
  }

  lemma BelowPrefix(m: string, prefix: string, rest: seq<string>)
    requires Split(m, '.') == Split(prefix, '.') + rest && rest != []
    ensures m == prefix + "." + Join(rest, ".")
  {
    JoinSplit(m, '.');
    JoinSplit(prefix, '.');
    JoinAppend(Split(prefix, '.'), rest, ".");
  }

  lemma JoinNotEmpty(parts: seq<string>)
    requires parts != [] && Identifier(parts[0])
    ensures |Join(parts, ".")| >= 1
  {
  }

  lemma BelowBySplitting(m: string, prefix: string)
    requires prefix + "." <= m
    ensures Split(prefix, '.') < Split(m, '.')
  {
    hide Split;
    var t := m[|prefix| + 1..];
    assert m == prefix + (['.'] + t);
    SplitMiddle(prefix, t, '.');
  }

  lemma BelowByJoining(m: string, prefix: string, rest: seq<string>)
    requires Identifiers(Split(m, '.')) && Split(m, '.') == Split(prefix, '.') + rest && rest != []
    ensures prefix + "." <= m && |m| > |prefix| + 1
  {
    hide Split, Join, Identifier;
    BelowPrefix(m, prefix, rest);
    FirstIsIdentifier(Split(prefix, '.'), rest);
    JoinNotEmpty(rest);
    LongerThan(m, prefix + ".", Join(rest, "."));
  }

  lemma FirstIsIdentifier(above: seq<string>, rest: seq<string>)
    requires Identifiers(above + rest) && rest != []
    ensures Identifier(rest[0])
  {
    hide Identifier;
    assert (above + rest)[|above|] == rest[0];
  }

  lemma LongerThan(m: string, a: string, b: string)
    requires m == a + b && |b| >= 1
    ensures a <= m && |m| > |a|
  {
  }

  /** And `P.**` exactly the ids any number of segments below P. */
  lemma AnyDepthBelow(m: string, prefix: string)
    requires InGrammar(m) && InGrammar(prefix)
    ensures Exposure.GlobMatch(m, prefix + ".**") <==> Split(prefix, '.') < Split(m, '.')
  {
    hide Exposure.GlobMatch, InGrammar, Split;
    PlainPrefix(prefix);
    PlainPrefix(m);
    GrammarBySplitting(m);
    Exposure.WithoutNul(prefix + ".**");
    Exposure.AnyPattern(prefix, m);
    if Split(prefix, '.') < Split(m, '.') {
      var rest := AfterPrefix(Split(prefix, '.'), Split(m, '.'));
      BelowByJoining(m, prefix, rest);
    }
    if prefix + "." <= m {
      BelowBySplitting(m, prefix);
    }
  }
}
