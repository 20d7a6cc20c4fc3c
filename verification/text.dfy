/** String operations of the Rust standard library that several components use. */
module Text {

  // ----- split and join -----

  /** `s.split(sep)` for a single character: always at least one piece. */
  function Split(s: string, sep: char): (r: seq<string>)
    ensures |r| >= 1
    ensures forall p :: p in r ==> sep !in p
  {
    if s == [] then [[]]
    else
      var rest := Split(s[1..], sep);
      if s[0] == sep then [[]] + rest else [[s[0]] + rest[0]] + rest[1..]
  }

  function Join(parts: seq<string>, sep: string): string {
    if parts == [] then []
    else if |parts| == 1 then parts[0]
    else parts[0] + sep + Join(parts[1..], sep)
  }

  function LastSegment(path: string): string {
    var parts := Split(path, '/');
    parts[|parts| - 1]
  }

  lemma {:induction false} JoinSplit(s: string, sep: char)
    ensures Join(Split(s, sep), [sep]) == s
  {
    if s != [] {
      var rest := Split(s[1..], sep);
      JoinSplit(s[1..], sep);
      assert s == [s[0]] + s[1..];
      if s[0] == sep {
        assert (([[]] + rest)[1..]) == rest;
      } else {
        var first := [s[0]] + rest[0];
        assert ([first] + rest[1..])[1..] == rest[1..];
      }
    }
  }

  /** Splitting undoes joining when no piece contains the separator. */
  lemma {:induction false} SplitJoin(parts: seq<string>, sep: char)
    requires |parts| >= 1 && forall p :: p in parts ==> sep !in p
    ensures Split(Join(parts, [sep]), sep) == parts
  {
    if |parts| == 1 {
      SplitAt(parts[0], [], sep, false);
      assert parts[0] + [] == parts[0];
    } else {
      SplitJoin(parts[1..], sep);
      SplitAt(parts[0], Join(parts[1..], [sep]), sep, true);
      assert Join(parts, [sep]) == parts[0] + ([sep] + Join(parts[1..], [sep]));
    }
  }

  /** A separator-free prefix becomes the first piece. */
  lemma {:induction false} SplitAt(p: string, rest: string, sep: char, more: bool)
    requires sep !in p
    requires !more ==> rest == []
    ensures more ==> Split(p + ([sep] + rest), sep) == [p] + Split(rest, sep)
    ensures !more ==> Split(p, sep) == [p]
  {
    if p == [] {
      assert [] + ([sep] + rest) == [sep] + rest;
      assert ([sep] + rest)[1..] == rest;
    } else {
      SplitAt(p[1..], rest, sep, more);
      var t := p + ([sep] + rest);
      assert t[1..] == p[1..] + ([sep] + rest);
      assert p == [p[0]] + p[1..];
    }
  }

  lemma {:induction false} JoinAppend(a: seq<string>, b: seq<string>, sep: string)
    requires a != [] && b != []
    ensures Join(a + b, sep) == Join(a, sep) + sep + Join(b, sep)
  {
    if |a| == 1 {
      assert (a + b)[1..] == b;
    } else {
      assert (a + b)[1..] == a[1..] + b;
      JoinAppend(a[1..], b, sep);
    }
  }

  /** Splitting at a separator in the middle splits the two sides separately. */
  lemma SplitMiddle(s: string, t: string, sep: char)
    ensures Split(s + ([sep] + t), sep) == Split(s, sep) + Split(t, sep)
  {
    hide Split, Join;
    var parts := Split(s, sep) + Split(t, sep);
    JoinSplit(s, sep);
    JoinSplit(t, sep);
    JoinAppend(Split(s, sep), Split(t, sep), [sep]);
    SplitJoin(parts, sep);
    assert s + ([sep] + t) == s + [sep] + t;
  }

  // ----- replace -----

  /** `s.replace(from, to)`: leftmost matches, never overlapping. */
  function Replace(s: string, from: string, to: string): string
    requires from != []
  {
    if s == [] then []
    else if from <= s then to + Replace(s[|from|..], from, to)
    else [s[0]] + Replace(s[1..], from, to)
  }

  // ----- characters -----

  predicate IsLower(c: char) { 'a' <= c <= 'z' }

  predicate IsDigit(c: char) { '0' <= c <= '9' }

  predicate IsAlnum(c: char) { IsLower(c) || 'A' <= c <= 'Z' || IsDigit(c) }

  // ----- decimal numbers -----

  /** The decimal text of a number, as `format!("{}")` prints it. */
  function Decimal(n: nat): (s: string)
    ensures |s| >= 1
  {
    (if n < 10 then "" else Decimal(n / 10)) + [('0' as int + n % 10) as char]
  }

  /** Reads a string of digits from the left. */
  function Value(digits: string): int {
    if digits == [] then 0
    else 10 * Value(digits[..|digits| - 1]) + (digits[|digits| - 1] as int - '0' as int)
  }

  /** Decimal text has digits only and no leading zero. */
  lemma {:induction false} DecimalIsPlain(n: nat)
    ensures forall c | c in Decimal(n) :: '0' <= c <= '9'
    ensures n > 0 ==> Decimal(n)[0] != '0'
    ensures n == 0 ==> Decimal(n) == "0"
  {
    if n >= 10 {
      DecimalIsPlain(n / 10);
    }
  }

  lemma {:induction false} ValueOfDecimal(n: nat)
    ensures Value(Decimal(n)) == n
  {
    var s := Decimal(n);
    assert s[..|s| - 1] == if n < 10 then "" else Decimal(n / 10);
    if n >= 10 {
      ValueOfDecimal(n / 10);
    }
  }
}
