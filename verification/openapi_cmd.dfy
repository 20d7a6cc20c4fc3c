/**
 File names for generated bindings (src/openapi_cmd.rs): sanitizing a module id, allocating a
 distinct name for every module of a batch, and skipping the files that already exist.
 */
module OpenapiCmd {
  import opened Text

  const BINDING_SUFFIX: string := ".binding.yaml"

  // ----- sanitizing -----

  predicate IsNameChar(c: char) {
    IsAlnum(c) || c == '.' || c == '_' || c == '-'
  }

  function MapChar(c: char): char {
    if IsNameChar(c) then c else '_'
  }

  function MapChars(s: string): string {
    seq(|s|, i requires 0 <= i < |s| => MapChar(s[i]))
  }

  /** What a run of dots becomes. */
  function DotRun(run: nat): string {
    if run == 0 then "" else if run == 1 then "." else "_"
  }

  /** The dots at the end of the text. */
  function TrailingDots(s: string): nat {
    if s != [] && s[|s| - 1] == '.' then TrailingDots(s[..|s| - 1]) + 1 else 0
  }

  /** The text with every run of dots but the trailing one replaced. */
  function Flushed(s: string): string {
    if s == [] then []
    else if s[|s| - 1] == '.' then Flushed(s[..|s| - 1])
    else Flushed(s[..|s| - 1]) + DotRun(TrailingDots(s[..|s| - 1])) + [s[|s| - 1]]
  }

  function CollapseDots(s: string): string {
    Flushed(s) + DotRun(TrailingDots(s))
  }

  function Sanitize(moduleId: string): string {
    CollapseDots(MapChars(moduleId))
  }

  method SanitizeBindingFilename(moduleId: string) returns (out: string)
    ensures out == Sanitize(moduleId)
  {
    var safe := MapChars(moduleId);
    out := [];
    var dotRun := 0;
    assert safe[..0] == [];
    for i := 0 to |safe|
      invariant out == Flushed(safe[..i]) && dotRun == TrailingDots(safe[..i])
    {
      assert safe[..i + 1][..i] == safe[..i];
      if safe[i] == '.' {
        dotRun := dotRun + 1;
      } else {
        out := out + DotRun(dotRun) + [safe[i]];
        dotRun := 0;
      }
    }
    assert safe[..|safe|] == safe;
    out := out + DotRun(dotRun);
  }

  /** A file name that sanitizing accepts as it is. */
  predicate IsClean(s: string) {
    && (forall c | c in s :: IsNameChar(c))
    && forall i :: 0 <= i < |s| - 1 ==> !(s[i] == '.' && s[i + 1] == '.')
  }

  lemma {:induction false} FlushedIsClean(s: string)
    requires forall c | c in s :: IsNameChar(c)
    ensures IsClean(Flushed(s))
    ensures Flushed(s) == [] || Flushed(s)[|Flushed(s)| - 1] != '.'
  {
    hide IsNameChar, DotRun;
    if s != [] {
      var init, last := s[..|s| - 1], s[|s| - 1];
      FlushedIsClean(init);
      if last != '.' {
        RunIsClean(TrailingDots(init));
        AppendClean(Flushed(init), DotRun(TrailingDots(init)), last);
      }
    }
  }

  lemma RunIsClean(run: nat)
    ensures |DotRun(run)| <= 1 && forall c | c in DotRun(run) :: IsNameChar(c)
  {
  }

  lemma AppendClean(a: string, run: string, c: char)
    requires IsClean(a) && (a == [] || a[|a| - 1] != '.')
    requires |run| <= 1 && (forall d | d in run :: IsNameChar(d)) && IsNameChar(c) && c != '.'
    ensures IsClean(a + run + [c])
  {
    hide IsNameChar;
  }

  lemma {:induction false} CleanIsKept(s: string)
    requires IsClean(s)
    ensures CollapseDots(s) == s
    ensures TrailingDots(s) == if s != [] && s[|s| - 1] == '.' then 1 else 0
  {
    if s != [] {
      CleanIsKept(s[..|s| - 1]);
      assert s == s[..|s| - 1] + [s[|s| - 1]];
    }
  }

  /**
   Only `[A-Za-z0-9._-]` without `..` comes out, and exactly such names are left alone; so sanitizing twice
   is sanitizing once.
   */
  lemma SanitizeIsClean(s: string)
    ensures IsClean(Sanitize(s))
    ensures Sanitize(s) == s <==> IsClean(s)
    ensures Sanitize(Sanitize(s)) == Sanitize(s)
  {
    FlushedIsClean(MapChars(s));
    CleanUnchanged(Sanitize(s));
    if IsClean(s) {
      CleanUnchanged(s);
    }
  }

  lemma CleanUnchanged(s: string)
    requires IsClean(s)
    ensures Sanitize(s) == s
  {
    assert MapChars(s) == s;
    CleanIsKept(s);
  }

  lemma FlushedOneMore(s: string, c: char)
    ensures Flushed(s + [c]) == if c == '.' then Flushed(s) else Flushed(s) + DotRun(TrailingDots(s)) + [c]
    ensures TrailingDots(s + [c]) == if c == '.' then TrailingDots(s) + 1 else 0
  {
    assert (s + [c])[..|s|] == s;
  }

  lemma {:induction false} FlushedAppend(a: string, c: char, b: string)
    requires c != '.'
    ensures Flushed(a + [c] + b) == Flushed(a) + DotRun(TrailingDots(a)) + [c] + Flushed(b)
    ensures TrailingDots(a + [c] + b) == TrailingDots(b)
  {
    hide Flushed, TrailingDots, DotRun;
    if b == [] {
      assert a + [c] + b == a + [c];
      FlushedOneMore(a, c);
      NothingToFlush();
    } else {
      var init, last := b[..|b| - 1], b[|b| - 1];
      assert b == init + [last];
      assert a + [c] + b == a + [c] + init + [last];
      FlushedAppend(a, c, init);
      FlushedOneMore(a + [c] + init, last);
      FlushedOneMore(init, last);
    }
  }

  lemma NothingToFlush()
    ensures Flushed([]) == [] && TrailingDots([]) == 0
  {
  }

  /** Runs of dots are replaced independently of each other: any other character separates the work. */
  lemma SanitizeAroundCharacter(a: string, c: char, b: string)
    requires c != '.'
    ensures Sanitize(a + [c] + b) ==
            Sanitize(a) +
            [if 'a' <= c <= 'z' || 'A' <= c <= 'Z' || '0' <= c <= '9' || c == '_' || c == '-' then c else '_'] +
            Sanitize(b)
  {
    assert MapChars(a + [c] + b) == MapChars(a) + [MapChar(c)] + MapChars(b);
    FlushedAppend(MapChars(a), MapChar(c), MapChars(b));
  }

  lemma {:induction false} SanitizeDots(s: string)
    requires forall i :: 0 <= i < |s| ==> s[i] == '.'
    ensures Sanitize(s) == if |s| <= 1 then s else "_"
  {
    assert MapChars(s) == s;
    AllDots(s);
  }

  lemma {:induction false} AllDots(s: string)
    requires forall i :: 0 <= i < |s| ==> s[i] == '.'
    ensures Flushed(s) == [] && TrailingDots(s) == |s|
  {
    if s != [] {
      AllDots(s[..|s| - 1]);
    }
  }

  // ----- allocating names -----

  /** `safe.binding.yaml`, then `safe_1.binding.yaml`, `safe_2.binding.yaml`, ... */
  function Name(safe: string, counter: nat): string {
    (if counter == 0 then safe else safe + "_" + Decimal(counter)) + BINDING_SUFFIX
  }

  lemma NameInjective(safe: string, a: nat, b: nat)
    requires Name(safe, a) == Name(safe, b)
    ensures a == b
  {
    var x, y := Name(safe, a), Name(safe, b);
    assert x[..|x| - |BINDING_SUFFIX|] == y[..|y| - |BINDING_SUFFIX|];
    if a > 0 && b > 0 {
      assert (safe + "_" + Decimal(a))[|safe| + 1..] == Decimal(a);
      assert (safe + "_" + Decimal(b))[|safe| + 1..] == Decimal(b);
      ValueOfDecimal(a);
      ValueOfDecimal(b);
    }
  }

  /** The first `n` candidate names. */
  function Candidates(safe: string, n: nat): set<string> {
    if n == 0 then {} else Candidates(safe, n - 1) + {Name(safe, n - 1)}
  }

  lemma {:induction false} CandidatesAreDistinct(safe: string, n: nat)
    ensures |Candidates(safe, n)| == n
    ensures forall x :: x in Candidates(safe, n) <==> exists d: nat :: d < n && x == Name(safe, d)
  {
    hide Name;
    if n > 0 {
      CandidatesAreDistinct(safe, n - 1);
      if Name(safe, n - 1) in Candidates(safe, n - 1) {
        var d: nat :| d < n - 1 && Name(safe, n - 1) == Name(safe, d);
        NameInjective(safe, n - 1, d);
      }
    }
  }

  /** Pigeonhole: no more candidates can be taken than there are names taken at all. */
  lemma TakenIsBounded(safe: string, seen: set<string>, n: nat)
    requires forall d: nat | d < n :: Name(safe, d) in seen
    ensures n <= |seen|
  {
    CandidatesAreDistinct(safe, n);
    SubsetIsSmaller(Candidates(safe, n), seen);
  }

  lemma {:induction false} SubsetIsSmaller(a: set<string>, b: set<string>)
    requires a <= b
    ensures |a| <= |b|
  {
    if a != {} {
      var x :| x in a;
      SubsetIsSmaller(a - {x}, b - {x});
    }
  }

  /** The least counter whose name is free, searching from `counter`. */
  function FirstFree(safe: string, seen: set<string>, counter: nat): (r: nat)
    requires forall d: nat | d < counter :: Name(safe, d) in seen
    ensures Name(safe, r) !in seen && forall d: nat | d < r :: Name(safe, d) in seen
    decreases |seen| + 1 - counter
  {
    TakenIsBounded(safe, seen, counter);
    if Name(safe, counter) in seen then FirstFree(safe, seen, counter + 1) else counter
  }

  function Names(names: seq<string>): set<string> {
    set n | n in names
  }

  /** The name given to a module after the earlier ones. */
  function NextName(earlier: seq<string>, id: string): string {
    Name(Sanitize(id), FirstFree(Sanitize(id), Names(earlier), 0))
  }

  function PlanNames(ids: seq<string>): (names: seq<string>)
    ensures |names| == |ids|
  {
    if ids == [] then []
    else
      var earlier := PlanNames(ids[..|ids| - 1]);
      earlier + [NextName(earlier, ids[|ids| - 1])]
  }

  datatype Path = Path(dir: string, file: string)

  method FreeName(safe: string, seen: set<string>) returns (name: string)
    ensures name == Name(safe, FirstFree(safe, seen, 0))
  {
    var counter: nat := 0;
    name := safe + BINDING_SUFFIX;
    while name in seen
      invariant name == Name(safe, counter)
      invariant forall d: nat | d < counter :: Name(safe, d) in seen
      decreases |seen| + 1 - counter
    {
      TakenIsBounded(safe, seen, counter + 1);
      counter := counter + 1;
      name := safe + "_" + Decimal(counter) + BINDING_SUFFIX;
    }
    LeastIsFirstFree(safe, seen, counter);
  }

  method PlannedPaths(ids: seq<string>, outputDir: string) returns (paths: seq<Path>)
    ensures |paths| == |ids|
    ensures forall i :: 0 <= i < |ids| ==> paths[i] == Path(outputDir, PlanNames(ids)[i])
  {
    hide PlanNames, Sanitize, Name;
    paths := [];
    var seen := {};
    for i := 0 to |ids|
      invariant |paths| == i
      invariant forall j :: 0 <= j < i ==> paths[j] == Path(outputDir, PlanNames(ids[..i])[j])
      invariant seen == Names(PlanNames(ids[..i]))
    {
      PlanOneMore(ids, i);
      var safe := SanitizeBindingFilename(ids[i]);
      var name := FreeName(safe, seen);
      seen := seen + {name};
      paths := paths + [Path(outputDir, name)];
    }
    assert ids[..|ids|] == ids;
  }

  lemma PlanOneMore(ids: seq<string>, i: nat)
    requires i < |ids|
    ensures PlanNames(ids[..i + 1]) == PlanNames(ids[..i]) + [NextName(PlanNames(ids[..i]), ids[i])]
  {
    assert ids[..i + 1][..i] == ids[..i];
  }

  lemma LeastIsFirstFree(safe: string, seen: set<string>, counter: nat)
    requires Name(safe, counter) !in seen && forall d: nat | d < counter :: Name(safe, d) in seen
    ensures FirstFree(safe, seen, 0) == counter
  {
    var r := FirstFree(safe, seen, 0);
  }

  /** The plan of a batch starts with the plans of its prefixes. */
  lemma {:induction false} PlanOfPrefix(ids: seq<string>, n: nat)
    requires n <= |ids|
    ensures PlanNames(ids)[..n] == PlanNames(ids[..n])
  {
    hide NextName;
    if n == |ids| {
      assert ids[..n] == ids;
    } else {
      var init := ids[..|ids| - 1];
      PlanOfPrefix(init, n);
      assert init[..n] == ids[..n];
      assert PlanNames(ids)[..n] == PlanNames(init)[..n];
    }
  }

  lemma PlannedName(ids: seq<string>, j: nat)
    requires j < |ids|
    ensures PlanNames(ids)[j] == NextName(PlanNames(ids)[..j], ids[j])
  {
    hide NextName;
    PlanOfPrefix(ids, j + 1);
    PlanOfPrefix(ids, j);
    PlanOneMore(ids, j);
    assert PlanNames(ids)[j] == PlanNames(ids)[..j + 1][j];
  }

  /** Every module gets its own path. */
  lemma PlansAreDistinct(ids: seq<string>, i: nat, j: nat)
    requires i < j < |ids|
    ensures PlanNames(ids)[i] != PlanNames(ids)[j]
  {
    hide PlanNames, Sanitize, Name;
    var earlier := PlanNames(ids)[..j];
    PlannedName(ids, j);
    assert earlier[i] in Names(earlier);
  }

  /** A suffix counter is the least free one and never exceeds the number of paths planned before. */
  lemma CounterIsBounded(ids: seq<string>, j: nat) returns (counter: nat)
    requires j < |ids|
    ensures counter <= j && PlanNames(ids)[j] == Name(Sanitize(ids[j]), counter)
    ensures PlanNames(ids)[j] ==
            if counter == 0 then Sanitize(ids[j]) + ".binding.yaml"
            else Sanitize(ids[j]) + "_" + Decimal(counter) + ".binding.yaml"
    ensures forall d: nat | d < counter :: Name(Sanitize(ids[j]), d) in PlanNames(ids)[..j]
  {
    hide PlanNames, Sanitize;
    var earlier := PlanNames(ids)[..j];
    counter := FirstFree(Sanitize(ids[j]), Names(earlier), 0);
    PlannedName(ids, j);
    TakenIsBounded(Sanitize(ids[j]), Names(earlier), counter);
    NamesAreFew(earlier);
  }

  lemma {:induction false} NamesAreFew(names: seq<string>)
    ensures |Names(names)| <= |names|
  {
    if names != [] {
      var init, last := names[..|names| - 1], names[|names| - 1];
      NamesAreFew(init);
      assert names == init + [last];
      assert Names(names) == Names(init) + {last};
    }
  }

  // ----- skipping existing files -----

  /** The elements whose mark is set, in order. */
  function Pick(xs: seq<string>, keep: seq<bool>): seq<string>
    requires |xs| == |keep|
  {
    if xs == [] then []
    else
      var n := |xs| - 1;
      Pick(xs[..n], keep[..n]) + (if keep[n] then [xs[n]] else [])
  }

  /** Which modules of a batch are written when `existing` files are skipped. */
  function Absent(names: seq<string>, existing: set<string>): seq<bool> {
    seq(|names|, i requires 0 <= i < |names| => names[i] !in existing)
  }

  /** The loop of `generate` between planning and writing; `existing` are the files in the output directory. */
  method SkipExisting(ids: seq<string>, planned: seq<string>, existing: set<string>, force: bool)
    returns (toWrite: seq<string>, skipped: nat)
    requires |planned| == |ids|
    ensures toWrite == if force then ids else Pick(ids, Absent(planned, existing))
    ensures skipped + |toWrite| == |ids|
  {
    toWrite, skipped := [], 0;
    var keep := Absent(planned, existing);
    for i := 0 to |ids|
      invariant toWrite == if force then ids[..i] else Pick(ids[..i], keep[..i])
      invariant skipped + |toWrite| == i
    {
      assert ids[..i + 1][..i] == ids[..i] && keep[..i + 1][..i] == keep[..i];
      if !force && planned[i] in existing {
        skipped := skipped + 1;
      } else {
        toWrite := toWrite + [ids[i]];
      }
    }
    assert ids[..|ids|] == ids && keep[..|ids|] == keep;
  }

  /** The writer names the files it is given the way `PlannedPaths` does; it must not hit an existing one. */
  ghost predicate NeverOverwrites(ids: seq<string>) {
    forall existing: set<string> ::
      forall n | n in PlanNames(Pick(ids, Absent(PlanNames(ids), existing))) :: n !in existing
  }

  ghost predicate DistinctNames(ids: seq<string>) {
    forall i, j :: 0 <= i < j < |ids| ==> Sanitize(ids[i]) != Sanitize(ids[j])
  }

  lemma PlainNameInjective(a: string, b: string)
    requires Name(a, 0) == Name(b, 0)
    ensures a == b
  {
    assert a == Name(a, 0)[..|Name(a, 0)| - |BINDING_SUFFIX|];
    assert b == Name(b, 0)[..|Name(b, 0)| - |BINDING_SUFFIX|];
  }

  /** Without a collision no name carries a suffix. */
  lemma {:induction false} DistinctNamesArePlain(ids: seq<string>)
    requires DistinctNames(ids)
    ensures forall i :: 0 <= i < |ids| ==> PlanNames(ids)[i] == Name(Sanitize(ids[i]), 0)
  {
    hide Sanitize, Name;
    if ids != [] {
      var init, last := ids[..|ids| - 1], ids[|ids| - 1];
      DistinctNamesArePlain(init);
      var earlier := PlanNames(init);
      var safe := Sanitize(last);
      if Name(safe, 0) in earlier {
        var i :| 0 <= i < |earlier| && earlier[i] == Name(safe, 0);
        PlainNameInjective(Sanitize(ids[i]), safe);
      }
      LeastIsFirstFree(safe, Names(earlier), 0);
    }
  }

  /** Picking commutes with planning when the sanitized names are distinct. */
  lemma {:induction false} PlanOfSublist(ids: seq<string>, keep: seq<bool>)
    requires DistinctNames(ids) && |keep| == |ids|
    ensures DistinctNames(Pick(ids, keep))
    ensures forall x | x in Pick(ids, keep) :: x in ids
    ensures PlanNames(Pick(ids, keep)) == Pick(PlanNames(ids), keep)
  {
    hide Sanitize, Name, NextName, DistinctNames;
    if ids != [] {
      var n := |ids| - 1;
      DistinctPrefix(ids, n);
      PlanOfSublist(ids[..n], keep[..n]);
      DistinctAfterPick(ids, keep);
      DistinctNamesArePlain(ids);
      DistinctNamesArePlain(Pick(ids, keep));
      PlanOfPrefix(ids, n);
      var some := Pick(ids[..n], keep[..n]);
      if !keep[n] {
        assert Pick(ids, keep) == some;
        assert Pick(PlanNames(ids), keep) == Pick(PlanNames(ids)[..n], keep[..n]);
      } else {
        assert Pick(ids, keep) == some + [ids[n]];
        assert Pick(ids, keep)[..|some|] == some;
        PlanOfPrefix(Pick(ids, keep), |some|);
        var names := PlanNames(Pick(ids, keep));
        assert names == names[..|some|] + [names[|some|]];
      }
    }
  }

  lemma DistinctPrefix(ids: seq<string>, n: nat)
    requires n <= |ids| && DistinctNames(ids)
    ensures DistinctNames(ids[..n])
  {
    hide Sanitize;
  }

  lemma DistinctAfterPick(ids: seq<string>, keep: seq<bool>)
    requires DistinctNames(ids) && |keep| == |ids| && ids != []
    requires var n := |ids| - 1;
             DistinctNames(Pick(ids[..n], keep[..n])) && forall x | x in Pick(ids[..n], keep[..n]) :: x in ids[..n]
    ensures DistinctNames(Pick(ids, keep)) && forall x | x in Pick(ids, keep) :: x in ids
  {
    hide Sanitize;
    var n := |ids| - 1;
    var some := Pick(ids[..n], keep[..n]);
    forall i | 0 <= i < |some|
      ensures Sanitize(some[i]) != Sanitize(ids[n])
    {
      assert some[i] in some;
      var k :| 0 <= k < n && ids[..n][k] == some[i];
      assert ids[k] == some[i];
    }
  }

  lemma {:induction false} PickedIsAbsent(names: seq<string>, existing: set<string>)
    ensures forall x | x in Pick(names, Absent(names, existing)) :: x !in existing
  {
    if names != [] {
      var n := |names| - 1;
      PickedIsAbsent(names[..n], existing);
      assert Absent(names, existing)[..n] == Absent(names[..n], existing);
    }
  }

  lemma {:induction false} PickAllButOne(xs: seq<string>, names: seq<string>, i: nat)
    requires |names| == |xs| && i < |xs|
    requires forall a, b :: 0 <= a < b < |names| ==> names[a] != names[b]
    ensures Pick(xs, Absent(names, {names[i]})) == xs[..i] + xs[i + 1..]
  {
    var n := |xs| - 1;
    var keep := Absent(names, {names[i]});
    assert keep[..n] == Absent(names[..n], {names[i]});
    if i == n {
      PickAll(xs[..n], keep[..n]);
      assert xs[i + 1..] == [];
    } else {
      PickAllButOne(xs[..n], names[..n], i);
      assert xs[..n][..i] + xs[..n][i + 1..] + [xs[n]] == xs[..i] + xs[i + 1..];
    }
  }

  lemma {:induction false} PickAll(xs: seq<string>, keep: seq<bool>)
    requires |xs| == |keep| && forall i :: 0 <= i < |keep| ==> keep[i]
    ensures Pick(xs, keep) == xs
  {
    if xs != [] {
      var n := |xs| - 1;
      PickAll(xs[..n], keep[..n]);
      assert xs == xs[..n] + [xs[n]];
    }
  }

  /** The first collision in a batch. */
  lemma {:induction false} FirstCollision(ids: seq<string>) returns (i: nat, j: nat)
    requires !DistinctNames(ids)
    ensures i < j < |ids| && Sanitize(ids[i]) == Sanitize(ids[j]) && DistinctNames(ids[..j])
  {
    hide Sanitize;
    var n := |ids| - 1;
    if DistinctNames(ids[..n]) {
      j := n;
      var a, b :| 0 <= a < b < |ids| && Sanitize(ids[a]) == Sanitize(ids[b]);
      if b < n {
        DifferBefore(ids, n, a, b);
      }
      i := a;
    } else {
      i, j := FirstCollision(ids[..n]);
      assert ids[..n][..j] == ids[..j];
    }
  }

  lemma DifferBefore(ids: seq<string>, n: nat, a: nat, b: nat)
    requires n <= |ids| && DistinctNames(ids[..n]) && a < n && b < n && a != b
    ensures Sanitize(ids[a]) != Sanitize(ids[b])
  {
    hide Sanitize;
    assert ids[..n][a] == ids[a] && ids[..n][b] == ids[b];
  }

  /** Without the first of two colliding modules the other one comes next with the plain name. */
  lemma CollisionMovesUp(ids: seq<string>, i: nat, j: nat)
    requires i < j < |ids| && Sanitize(ids[i]) == Sanitize(ids[j]) && DistinctNames(ids[..j])
    ensures PlanNames(ids[..i] + ids[i + 1..])[j - 1] == Name(Sanitize(ids[i]), 0)
  {
    hide Sanitize, Name, PlanNames;
    var rest := ids[..i] + ids[i + 1..];
    var upto := rest[..j];
    assert upto[j - 1] == ids[j];
    forall a, b | 0 <= a < b < j
      ensures Sanitize(upto[a]) != Sanitize(upto[b])
    {
      var a', b' := if a < i then a else a + 1, if b < i then b else b + 1;
      assert upto[a] == ids[a'] && upto[b] == ids[b'];
      if b' < j {
        DifferBefore(ids, j, a', b');
      } else {
        DifferBefore(ids, j, a', i);
      }
    }
    DistinctNamesArePlain(upto);
    PlanOfPrefix(rest, j);
    assert PlanNames(rest)[..j][j - 1] == PlanNames(rest)[j - 1];
  }

  lemma FirstIsPlain(ids: seq<string>, i: nat, j: nat)
    requires i < j <= |ids| && DistinctNames(ids[..j])
    ensures PlanNames(ids)[i] == Name(Sanitize(ids[i]), 0)
  {
    hide Sanitize, Name, PlanNames;
    DistinctNamesArePlain(ids[..j]);
    PlanOfPrefix(ids, j);
    assert PlanNames(ids)[..j][i] == PlanNames(ids)[i] && ids[..j][i] == ids[i];
  }

  /** Skipping the first of two colliding modules makes the writer give its file to the second. */
  lemma CollisionOverwrites(ids: seq<string>, i: nat, j: nat)
    requires i < j < |ids| && Sanitize(ids[i]) == Sanitize(ids[j]) && DistinctNames(ids[..j])
    ensures !NeverOverwrites(ids)
  {
    hide Sanitize, Name, PlanNames;
    var names := PlanNames(ids);
    var existing := {names[i]};
    forall a, b | 0 <= a < b < |names|
      ensures names[a] != names[b]
    {
      PlansAreDistinct(ids, a, b);
    }
    PickAllButOne(ids, names, i);
    CollisionMovesUp(ids, i, j);
    FirstIsPlain(ids, i, j);
    var written := PlanNames(Pick(ids, Absent(names, existing)));
    assert written[j - 1] in written && written[j - 1] in existing;
  }

  /** Skipping without `--force` protects every existing file exactly when the batch's sanitized names are distinct. */
  lemma SkipIsSafeIffDistinct(ids: seq<string>)
    ensures NeverOverwrites(ids) <==> DistinctNames(ids)
  {
    hide Sanitize, Name, PlanNames;
    if DistinctNames(ids) {
      forall existing: set<string>
        ensures forall n | n in PlanNames(Pick(ids, Absent(PlanNames(ids), existing))) :: n !in existing
      {
        PlanOfSublist(ids, Absent(PlanNames(ids), existing));
        PickedIsAbsent(PlanNames(ids), existing);
      }
    } else {
      var i, j := FirstCollision(ids);
      CollisionOverwrites(ids, i, j);
    }
  }
}
