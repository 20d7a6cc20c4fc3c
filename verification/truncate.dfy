/**
 Two truncations that must not cut through a UTF-8 character: `truncate` (src/output.rs) rounds down to
 a character boundary, `extract_help_with_limit` (src/schema_parser.rs) rounds up.
 */
module Truncation {

  // ----- UTF-8, as in RFC 3629, section 3 -----

  function Encode(c: char): (bytes: seq<int>)
    ensures 1 <= |bytes| <= 4
  {
    var n := c as int;
    if n < 0x80 then [n]
    else if n < 0x800 then [0xC0 + n / 0x40, 0x80 + n % 0x40]
    else if n < 0x1_0000 then [0xE0 + n / 0x1000, 0x80 + n / 0x40 % 0x40, 0x80 + n % 0x40]
    else [0xF0 + n / 0x4_0000, 0x80 + n / 0x1000 % 0x40, 0x80 + n / 0x40 % 0x40, 0x80 + n % 0x40]
  }

  /** The code point of an encoded character. */
  function Decode(bytes: seq<int>): int
    requires 1 <= |bytes| <= 4
  {
    if |bytes| == 1 then bytes[0]
    else if |bytes| == 2 then (bytes[0] - 0xC0) * 0x40 + (bytes[1] - 0x80)
    else if |bytes| == 3 then (bytes[0] - 0xE0) * 0x1000 + (bytes[1] - 0x80) * 0x40 + (bytes[2] - 0x80)
    else (bytes[0] - 0xF0) * 0x4_0000 + (bytes[1] - 0x80) * 0x1000 + (bytes[2] - 0x80) * 0x40 + (bytes[3] - 0x80)
  }

  lemma DecodeEncoded(c: char)
    ensures Decode(Encode(c)) == c as int
  {
    var n := c as int;
    assert n / 0x40 / 0x40 == n / 0x1000 && n / 0x1000 / 0x40 == n / 0x4_0000;
  }

  function Utf8(s: string): seq<int> {
    if s == [] then [] else Utf8(s[..|s| - 1]) + Encode(s[|s| - 1])
  }

  predicate IsContinuation(b: int) {
    0x80 <= b < 0xC0
  }

  /** `is_char_boundary` */
  predicate IsBoundary(bytes: seq<int>, k: nat) {
    k == 0 || k == |bytes| || (k < |bytes| && !IsContinuation(bytes[k]))
  }

  lemma EncodeBytes(c: char)
    ensures !IsContinuation(Encode(c)[0])
    ensures forall i :: 1 <= i < |Encode(c)| ==> IsContinuation(Encode(c)[i])
    ensures forall b :: IsContinuation(b) <==> 0x80 <= b <= 0xBF
    ensures var lead := Encode(c)[0];
            match |Encode(c)|
            case 1 => lead == c as int < 0x80
            case 2 => 0x80 <= c as int < 0x800 && 0xC2 <= lead <= 0xDF
            case 3 => 0x800 <= c as int < 0x1_0000 && 0xE0 <= lead <= 0xEF
            case _ => 0x1_0000 <= c as int && 0xF0 <= lead <= 0xF4
  {
  }

  /** The bytes before a boundary are the bytes of a prefix of the text. */
  lemma {:induction false} BoundaryIsPrefix(s: string, k: nat)
    requires k <= |Utf8(s)|
    ensures IsBoundary(Utf8(s), k) <==> exists i :: 0 <= i <= |s| && |Utf8(s[..i])| == k
  {
    hide Encode;
    if s == [] {
      assert s[..0] == [];
    } else {
      var n := |s| - 1;
      var init := s[..n];
      EncodeBytes(s[n]);
      assert s[..|s|] == s && s[..0] == [];
      if k <= |Utf8(init)| {
        BoundaryIsPrefix(init, k);
        assert forall i :: 0 <= i <= n ==> s[..i] == init[..i];
      } else {
        forall i | 0 <= i <= n
          ensures |Utf8(s[..i])| < k
        {
          assert s[..i] == init[..i];
          PrefixIsShorter(init, i);
        }
      }
    }
  }

  lemma {:induction false} PrefixIsShorter(s: string, i: nat)
    requires i <= |s|
    ensures |Utf8(s[..i])| + |s| - i <= |Utf8(s)| <= |Utf8(s[..i])| + 4 * (|s| - i)
  {
    hide Encode;
    if i == |s| {
      assert s[..i] == s;
    } else {
      PrefixIsShorter(s[..|s| - 1], i);
      assert s[..|s| - 1][..i] == s[..i];
    }
  }

  /** `&text[..k]` */
  function PrefixAt(s: string, k: nat): (p: string)
    requires k <= |Utf8(s)| && IsBoundary(Utf8(s), k)
    ensures p <= s && |Utf8(p)| == k
  {
    BoundaryIsPrefix(s, k);
    if |Utf8(s)| == k then s
    else
      var i :| 0 <= i <= |s| && |Utf8(s[..i])| == k;
      PrefixOfInit(s, i, k);
      PrefixAt(s[..|s| - 1], k)
  }

  lemma PrefixOfInit(s: string, i: nat, k: nat)
    requires i <= |s| && |Utf8(s[..i])| == k && |Utf8(s)| != k
    ensures s != [] && k <= |Utf8(s[..|s| - 1])| && IsBoundary(Utf8(s[..|s| - 1]), k)
  {
    hide Encode;
    assert s[..|s|] == s;
    var init := s[..|s| - 1];
    assert s[..i] == init[..i];
    PrefixIsShorter(init, i);
    BoundaryIsPrefix(init, k);
  }

  // ----- what the two cuts keep -----

  /** The longest prefix of at most `limit` bytes. */
  ghost predicate LongestWithin(s: string, p: string, limit: nat) {
    p <= s && |Utf8(p)| <= limit && forall q: string | p < q && q <= s :: |Utf8(q)| > limit
  }

  /** The shortest prefix of at least `limit` bytes. */
  ghost predicate ShortestCovering(s: string, p: string, limit: nat) {
    p <= s && |Utf8(p)| >= limit && forall q: string | q < p :: |Utf8(q)| < limit
  }

  lemma LongerHasMore(p: string, q: string)
    requires p < q
    ensures |Utf8(p)| < |Utf8(q)|
  {
    assert q[..|p|] == p;
    PrefixIsShorter(q, |p|);
  }

  /** The text itself if it fits in bytes, else its longest prefix that leaves room for the dots. */
  ghost predicate IsTruncation(text: string, maxLength: nat, r: string) {
    if |Utf8(text)| <= maxLength then r == text
    else exists p :: r == p + "..." && LongestWithin(text, p, if maxLength < 3 then 0 else maxLength - 3)
  }

  method Truncate(text: string, maxLength: nat) returns (r: string)
    ensures IsTruncation(text, maxLength, r)
  {
    var bytes := Utf8(text);
    if |bytes| <= maxLength {
      return text;
    }
    var cutoff := if maxLength < 3 then 0 else maxLength - 3;
    var end := cutoff;
    while end > 0 && !IsBoundary(bytes, end)
      invariant 0 <= end <= cutoff
      invariant forall k :: end < k <= cutoff ==> !IsBoundary(bytes, k)
    {
      end := end - 1;
    }
    var p := PrefixAt(text, end);
    forall q: string | p < q && q <= text
      ensures |Utf8(q)| > cutoff
    {
      LongerHasMore(p, q);
      assert text[..|q|] == q;
      PrefixIsShorter(text, |q|);
      BoundaryIsPrefix(text, |Utf8(q)|);
    }
    assert LongestWithin(text, p, cutoff);
    r := p + "...";
  }

  /** The end of the last character that starts before `target`: `char_indices().take_while(..).last()`. */
  function CutAfter(s: string, target: nat): (p: string)
    ensures p <= s
  {
    if s == [] then []
    else if |Utf8(s[..|s| - 1])| < target then s
    else CutAfter(s[..|s| - 1], target)
  }

  /** `text` is the first non-empty one of the two description fields; a limit of 0 means no limit. */
  function HelpWithLimit(text: string, maxLen: nat): string
    requires maxLen == 0 || maxLen >= 3
  {
    if maxLen > 0 && |Utf8(text)| > maxLen then CutAfter(text, maxLen - 3) + "..." else text
  }

  /** A text that fits in bytes, or any text without a limit, is kept as it is. */
  lemma HelpKept(text: string, maxLen: nat)
    requires maxLen == 0 || (maxLen >= 3 && |Utf8(text)| <= maxLen)
    ensures HelpWithLimit(text, maxLen) == text
  {
  }

  lemma {:induction false} CutCovers(s: string, target: nat)
    requires |Utf8(s)| >= target
    ensures ShortestCovering(s, CutAfter(s, target), target)
  {
    hide Encode;
    if s != [] {
      var init := s[..|s| - 1];
      if |Utf8(init)| < target {
        forall q: string | q < s
          ensures |Utf8(q)| < target
        {
          assert init[..|q|] == q;
          PrefixIsShorter(init, |q|);
        }
      } else {
        CutCovers(init, target);
      }
    }
  }

  // ----- comparing them -----

  lemma LongestIsClose(s: string, p: string, limit: nat)
    requires LongestWithin(s, p, limit) && |Utf8(s)| > limit
    ensures |Utf8(p)| + 3 >= limit
  {
    hide Encode;
    assert p != s;
    var q := s[..|p| + 1];
    assert q[..|p|] == p && p < q;
    PrefixIsShorter(q, |p|);
  }

  lemma ShortestIsClose(s: string, p: string, limit: nat)
    requires ShortestCovering(s, p, limit)
    ensures |Utf8(p)| <= limit + 3
  {
    hide Encode;
    if p != [] {
      PrefixIsShorter(p, |p| - 1);
      assert p[..|p| - 1] < p;
    }
  }

  lemma AppendDots(p: string)
    ensures |Utf8(p + "...")| == |Utf8(p)| + 3
  {
    hide Utf8;
    OneMoreChar(p, '.');
    OneMoreChar(p + ".", '.');
    OneMoreChar(p + "..", '.');
    assert p + "." + "." == p + ".." && p + ".." + "." == p + "...";
  }

  lemma OneMoreChar(p: string, c: char)
    ensures Utf8(p + [c]) == Utf8(p) + Encode(c)
  {
    assert (p + [c])[..|p|] == p;
  }

  /** Both cuts of a text longer than the limit, side by side. */
  ghost predicate Cuts(text: string, n: nat, down: string, up: string) {
    n >= 3 && |Utf8(text)| > n && LongestWithin(text, down, n - 3) && HelpWithLimit(text, n) == up + "..."
  }

  /**
   `truncate` gives n-3 to n bytes and the help text n to n+3; they agree exactly when byte n-3 starts a
   character, and then both give n bytes.
   */
  lemma CutsCompared(text: string, n: nat, down: string, up: string)
    requires Cuts(text, n, down, up)
    ensures n - 3 <= |Utf8(down + "...")| <= n <= |Utf8(up + "...")| <= n + 3
    ensures down == up <==> IsBoundary(Utf8(text), n - 3)
    ensures |Utf8(down + "...")| == n <==> IsBoundary(Utf8(text), n - 3)
    ensures |Utf8(up + "...")| == n <==> IsBoundary(Utf8(text), n - 3)
  {
    var limit := n - 3;
    assert (up + "...")[..|up|] == up;
    assert (CutAfter(text, limit) + "...")[..|up|] == CutAfter(text, limit);
    CutCovers(text, limit);
    AppendDots(down);
    AppendDots(up);
    LongestIsClose(text, down, limit);
    ShortestIsClose(text, up, limit);
    BoundaryIsPrefix(text, limit);
    assert text[..|down|] == down && text[..|up|] == up;
    if IsBoundary(Utf8(text), limit) {
      var i :| 0 <= i <= |text| && |Utf8(text[..i])| == limit;
      SameLengthSamePrefix(text, text[..i], down, limit);
      SameLengthSamePrefix(text, text[..i], up, limit);
    }
  }

  /** A prefix of exactly `limit` bytes is both the longest within and the shortest covering. */
  lemma SameLengthSamePrefix(text: string, p: string, q: string, limit: nat)
    requires p <= text && |Utf8(p)| == limit
    requires LongestWithin(text, q, limit) || ShortestCovering(text, q, limit)
    ensures p == q
  {
    if |p| < |q| {
      assert text[..|q|] == q && text[..|p|] == p && p < q;
      LongerHasMore(p, q);
    } else if |q| < |p| {
      assert text[..|q|] == q && text[..|p|] == p && q < p;
      LongerHasMore(q, p);
    }
  }

  lemma {:induction false} AsciiBytes(s: string)
    requires forall i :: 0 <= i < |s| ==> s[i] as int < 0x80
    ensures |Utf8(s)| == |s| && forall k :: 0 <= k < |s| ==> Utf8(s)[k] == s[k] as int
  {
    if s != [] {
      AsciiBytes(s[..|s| - 1]);
    }
  }

  /** On ASCII both give exactly n bytes. */
  lemma AsciiCutsAgree(text: string, n: nat, down: string, up: string)
    requires Cuts(text, n, down, up) && forall i :: 0 <= i < |text| ==> text[i] as int < 0x80
    ensures down == up && |Utf8(down + "...")| == n
  {
    AsciiBytes(text);
    CutsCompared(text, n, down, up);
  }

  // ----- the limits, in characters -----

  lemma CharsWithinBytes(s: string)
    ensures |s| <= |Utf8(s)|
  {
    PrefixIsShorter(s, 0);
  }

  /** `truncate` keeps its limit, counted in characters, exactly when the text fits in bytes or the dots fit. */
  lemma TruncateWithinLimit(text: string, maxLength: nat, r: string)
    requires IsTruncation(text, maxLength, r)
    ensures |r| <= maxLength <==> |Utf8(text)| <= maxLength || maxLength >= 3
  {
    if |Utf8(text)| <= maxLength {
      CharsWithinBytes(text);
    } else {
      var p :| r == p + "..." && LongestWithin(text, p, if maxLength < 3 then 0 else maxLength - 3);
      CharsWithinBytes(p);
    }
  }

  lemma {:induction false} CutIsShort(s: string, target: nat)
    ensures |CutAfter(s, target)| <= target
  {
    if s != [] {
      if |Utf8(s[..|s| - 1])| < target {
        CharsWithinBytes(s[..|s| - 1]);
      } else {
        CutIsShort(s[..|s| - 1], target);
      }
    }
  }

  /** The help text keeps its limit in characters, whatever the text. */
  lemma HelpWithinLimit(text: string, maxLen: nat)
    requires maxLen >= 3
    ensures |HelpWithLimit(text, maxLen)| <= maxLen
  {
    CharsWithinBytes(text);
    CutIsShort(text, maxLen - 3);
  }

  /** It cuts by bytes, though: a text with few enough characters is changed when its bytes exceed the limit. */
  lemma TruncateCountsBytes(text: string, maxLength: nat, r: string)
    requires maxLength >= 3 && IsTruncation(text, maxLength, r)
    ensures r == text <==> |Utf8(text)| <= maxLength
  {
    if |Utf8(text)| > maxLength {
      var p :| r == p + "..." && LongestWithin(text, p, maxLength - 3);
      AppendDots(p);
    }
  }
}
