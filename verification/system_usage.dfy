/** Usage statistics from the audit log (src/system_usage.rs): the per-module summary and the sort that uses it. */
module SystemUsage {
  import opened Json
  import opened Sequences

  /** A log line that parsed; a missing module id reads as the empty one. Timestamps are comparable numbers. */
  datatype Entry = Entry(timestamp: int, moduleId: string, isError: bool, durationMs: nat)

  datatype Metric = Calls | Errors | Latency

  datatype UsageSummary = UsageSummary(moduleId: string, calls: nat, errors: nat, latencyMs: real)

  predicate Accepted(e: Entry, cutoff: int) {
    e.timestamp >= cutoff && e.moduleId != ""
  }

  function Weight(e: Entry, metric: Metric): nat {
    match metric
    case Calls => 1
    case Errors => if e.isError then 1 else 0
    case Latency => e.durationMs
  }

  /** What the accepted lines of one module add up to. */
  function Tally(log: seq<Entry>, cutoff: int, id: string, metric: Metric): nat {
    if log == [] then 0
    else
      var last := log[|log| - 1];
      Tally(log[..|log| - 1], cutoff, id, metric) +
      if Accepted(last, cutoff) && last.moduleId == id then Weight(last, metric) else 0
  }

  function SummaryOf(log: seq<Entry>, cutoff: int, id: string): UsageSummary
    requires Tally(log, cutoff, id, Calls) > 0
  {
    var calls := Tally(log, cutoff, id, Calls);
    UsageSummary(id, calls, Tally(log, cutoff, id, Errors),
                 Tally(log, cutoff, id, Latency) as real / calls as real)
  }

  function GetOrZero(m: map<string, nat>, id: string): nat {
    if id in m then m[id] else 0
  }

  /** Exactly the modules with an accepted line have a summary; averages are exact fractions here. */
  method ComputeSummary(log: seq<Entry>, cutoff: int) returns (out: map<string, UsageSummary>)
    ensures forall id :: id in out <==> Tally(log, cutoff, id, Calls) > 0
    ensures forall id | id in out :: out[id] == SummaryOf(log, cutoff, id)
  {
    var counts: map<string, nat>, errors: map<string, nat>, latencySum: map<string, nat> := map[], map[], map[];
    for i := 0 to |log|
      invariant forall id | id in counts :: counts[id] > 0
      invariant forall id :: GetOrZero(counts, id) == Tally(log[..i], cutoff, id, Calls)
      invariant forall id :: GetOrZero(errors, id) == Tally(log[..i], cutoff, id, Errors)
      invariant forall id :: GetOrZero(latencySum, id) == Tally(log[..i], cutoff, id, Latency)
    {
      assert log[..i + 1][..i] == log[..i];
      var e := log[i];
      if e.timestamp < cutoff || e.moduleId == "" {
        continue;
      }
      counts := counts[e.moduleId := GetOrZero(counts, e.moduleId) + 1];
      if e.isError {
        errors := errors[e.moduleId := GetOrZero(errors, e.moduleId) + 1];
      }
      latencySum := latencySum[e.moduleId := GetOrZero(latencySum, e.moduleId) + e.durationMs];
    }
    assert log[..|log|] == log;
    out := Summaries(counts, errors, latencySum);
  }

  method Summaries(counts: map<string, nat>, errors: map<string, nat>, latencySum: map<string, nat>)
    returns (out: map<string, UsageSummary>)
    requires forall id | id in counts :: counts[id] > 0
    ensures out.Keys == counts.Keys
    ensures forall id | id in out ::
              out[id] == UsageSummary(id, counts[id], GetOrZero(errors, id),
                                      GetOrZero(latencySum, id) as real / counts[id] as real)
  {
    out := map[];
    var todo := counts.Keys;
    while todo != {}
      invariant todo <= counts.Keys && out.Keys == counts.Keys - todo
      invariant forall id | id in out ::
                  out[id] == UsageSummary(id, counts[id], GetOrZero(errors, id),
                                          GetOrZero(latencySum, id) as real / counts[id] as real)
      decreases |todo|
    {
      var id :| id in todo;
      todo := todo - {id};
      out := out[id := UsageSummary(id, counts[id], GetOrZero(errors, id),
                                    GetOrZero(latencySum, id) as real / counts[id] as real)];
    }
  }

  // ----- the summary of a log -----

  lemma SummaryFields(log: seq<Entry>, cutoff: int, id: string)
    requires Tally(log, cutoff, id, Calls) > 0
    ensures var s := SummaryOf(log, cutoff, id);
            && s.moduleId == id && s.calls == Tally(log, cutoff, id, Calls)
            && s.errors == Tally(log, cutoff, id, Errors)
            && s.latencyMs * s.calls as real == Tally(log, cutoff, id, Latency) as real
  {
    hide Tally;
  }

  /** What one line adds: with `TallyConcat` this fixes every summary. */
  lemma OneLine(e: Entry, cutoff: int, id: string)
    ensures var counted := e.timestamp >= cutoff && e.moduleId == id && id != "";
            && Tally([e], cutoff, id, Calls) == (if counted then 1 else 0)
            && Tally([e], cutoff, id, Errors) == (if counted && e.isError then 1 else 0)
            && Tally([e], cutoff, id, Latency) == (if counted then e.durationMs else 0)
            && Tally([], cutoff, id, Calls) == Tally([], cutoff, id, Errors) == Tally([], cutoff, id, Latency) == 0
  {
    assert [e][..0] == [];
  }

  /** Two logs read one after the other add up, module by module and metric by metric. */
  lemma {:induction false} TallyConcat(a: seq<Entry>, b: seq<Entry>, cutoff: int, id: string, metric: Metric)
    ensures Tally(a + b, cutoff, id, metric) == Tally(a, cutoff, id, metric) + Tally(b, cutoff, id, metric)
  {
    if b == [] {
      assert a + b == a;
    } else {
      TallyConcat(a, b[..|b| - 1], cutoff, id, metric);
      assert (a + b)[..|a + b| - 1] == a + b[..|b| - 1];
    }
  }

  /** So the order of the lines is irrelevant. */
  lemma {:induction false} TallyIgnoresOrder(a: seq<Entry>, b: seq<Entry>, cutoff: int, id: string, metric: Metric)
    requires multiset(a) == multiset(b)
    ensures Tally(a, cutoff, id, metric) == Tally(b, cutoff, id, metric)
    decreases |a|
  {
    hide Accepted, Weight;
    if a == [] {
      assert |multiset(b)| == 0;
    } else {
      var init, e := a[..|a| - 1], a[|a| - 1];
      assert a == init + [e];
      var before, after := SplitPermutation(init, e, b);
      TallyIgnoresOrder(init, before + after, cutoff, id, metric);
      TallyConcat(init, [e], cutoff, id, metric);
      TallyConcat(before, after, cutoff, id, metric);
      TallyConcat(before, [e], cutoff, id, metric);
      TallyConcat(before + [e], after, cutoff, id, metric);
    }
  }

  lemma {:induction false} ErrorsWithinCalls(log: seq<Entry>, cutoff: int, id: string)
    ensures Tally(log, cutoff, id, Errors) <= Tally(log, cutoff, id, Calls)
  {
    if log != [] {
      ErrorsWithinCalls(log[..|log| - 1], cutoff, id);
    }
  }

  /** A longer period can only add. */
  lemma {:induction false} LongerPeriodAdds(log: seq<Entry>, earlier: int, later: int, id: string, metric: Metric)
    requires earlier <= later
    ensures Tally(log, earlier, id, metric) >= Tally(log, later, id, metric)
  {
    if log != [] {
      LongerPeriodAdds(log[..|log| - 1], earlier, later, id, metric);
    }
  }

  function AcceptedLines(log: seq<Entry>, cutoff: int): nat {
    if log == [] then 0
    else AcceptedLines(log[..|log| - 1], cutoff) + if Accepted(log[|log| - 1], cutoff) then 1 else 0
  }

  function TotalCalls(log: seq<Entry>, cutoff: int, ids: seq<string>): nat {
    if ids == [] then 0
    else TotalCalls(log, cutoff, ids[..|ids| - 1]) + Tally(log, cutoff, ids[|ids| - 1], Calls)
  }

  lemma {:induction false} OneMoreCall(log: seq<Entry>, e: Entry, cutoff: int, ids: seq<string>)
    requires NoRepeats(ids)
    ensures TotalCalls(log + [e], cutoff, ids) ==
            TotalCalls(log, cutoff, ids) + if Accepted(e, cutoff) && e.moduleId in ids then 1 else 0
  {
    assert (log + [e])[..|log|] == log;
    if ids != [] {
      OneMoreCall(log, e, cutoff, ids[..|ids| - 1]);
      assert ids == ids[..|ids| - 1] + [ids[|ids| - 1]];
    }
  }

  /** Every accepted line is one call of one module: the calls of all modules together are the accepted lines. */
  lemma {:induction false} CallsAreAcceptedLines(log: seq<Entry>, cutoff: int, ids: seq<string>)
    requires NoRepeats(ids)
    requires forall e | e in log && Accepted(e, cutoff) :: e.moduleId in ids
    ensures TotalCalls(log, cutoff, ids) == AcceptedLines(log, cutoff)
  {
    if log == [] {
      NoCalls(cutoff, ids);
    } else {
      var init, last := log[..|log| - 1], log[|log| - 1];
      assert log == init + [last];
      CallsAreAcceptedLines(init, cutoff, ids);
      OneMoreCall(init, last, cutoff, ids);
    }
  }

  lemma {:induction false} NoCalls(cutoff: int, ids: seq<string>)
    ensures TotalCalls([], cutoff, ids) == 0
  {
    if ids != [] {
      NoCalls(cutoff, ids[..|ids| - 1]);
    }
  }

  // ----- sorting modules -----

  datatype Module = Module(id: string, descriptor: Json)

  /** Lexicographic order by character, the order of UTF-8 text. */
  predicate LexLe(a: string, b: string) {
    a == [] || (b != [] && (a[0] < b[0] || (a[0] == b[0] && LexLe(a[1..], b[1..]))))
  }

  /** The order of a dictionary: a prefix comes first, else the first difference decides. */
  lemma {:induction false} LexIsDictionary(a: string, b: string)
    ensures LexLe(a, b) <==>
            || a <= b
            || exists i :: 0 <= i < |a| && i < |b| && a[..i] == b[..i] && a[i] < b[i]
  {
    if a != [] && b != [] {
      if a[0] == b[0] {
        LexIsDictionary(a[1..], b[1..]);
        assert a <= b <==> a[1..] <= b[1..];
        forall i | 0 <= i < |a[1..]| && i < |b[1..]|
          ensures a[1..][..i] == b[1..][..i] && a[1..][i] < b[1..][i] <==>
                  a[..i + 1] == b[..i + 1] && a[i + 1] < b[i + 1]
        {
          assert a[..i + 1] == [a[0]] + a[1..][..i] && b[..i + 1] == [b[0]] + b[1..][..i];
        }
        if i :| 0 <= i < |a| && i < |b| && a[..i] == b[..i] && a[i] < b[i] {
          assert i > 0 && a[1..][..i - 1] == a[..i][1..] && b[1..][..i - 1] == b[..i][1..];
          assert a[1..][i - 1] == a[i];
        }
      } else {
        assert a[..0] == b[..0];
        forall i | 1 <= i < |a| && i < |b|
          ensures a[..i] != b[..i]
        {
          assert a[..i][0] == a[0] && b[..i][0] == b[0];
        }
      }
    }
  }

  lemma {:induction false} LexTotal(a: string, b: string)
    ensures LexLe(a, b) || LexLe(b, a)
    ensures LexLe(a, b) && LexLe(b, a) ==> a == b
  {
    if a != [] && b != [] && a[0] == b[0] {
      LexTotal(a[1..], b[1..]);
      assert a == [a[0]] + a[1..] && b == [b[0]] + b[1..];
    }
  }

  lemma {:induction false} LexTransitive(a: string, b: string, c: string)
    requires LexLe(a, b) && LexLe(b, c)
    ensures LexLe(a, c)
  {
    if a != [] && b != [] && c != [] && a[0] == b[0] == c[0] {
      LexTransitive(a[1..], b[1..], c[1..]);
    }
  }

  function SortKey(summary: map<string, UsageSummary>, field: string, m: Module): real {
    if m.id !in summary then 0.0
    else
      match field
      case "calls" => summary[m.id].calls as real
      case "errors" => summary[m.id].errors as real
      case "latency" => summary[m.id].latencyMs
      case _ => 0.0
  }

  /** The comparison of `sort_by`: usage first, reversed on request, and ids ascending in either direction. */
  datatype Order = ById | ByUsage(summary: map<string, UsageSummary>, field: string, reverse: bool)

  predicate Le(o: Order, a: Module, b: Module) {
    match o
    case ById => LexLe(a.id, b.id)
    case ByUsage(summary, field, reverse) =>
      var ka, kb := SortKey(summary, field, a), SortKey(summary, field, b);
      if ka == kb then LexLe(a.id, b.id) else if reverse then ka > kb else ka < kb
  }

  /** Places a module before the first one it does not have to follow. */
  function Insert(o: Order, m: Module, sorted: seq<Module>): seq<Module> {
    if sorted == [] then [m]
    else if Le(o, m, sorted[0]) then [m] + sorted
    else [sorted[0]] + Insert(o, m, sorted[1..])
  }

  /** The one result a stable sort can have: see `StableSortIsUnique`. */
  function StableSort(o: Order, ms: seq<Module>): seq<Module> {
    if ms == [] then [] else Insert(o, ms[0], StableSort(o, ms[1..]))
  }

  function Reversed(ms: seq<Module>): seq<Module> {
    seq(|ms|, i requires 0 <= i < |ms| => ms[|ms| - 1 - i])
  }

  function SortedByUsage(summary: map<string, UsageSummary>, field: string, reverse: bool, ms: seq<Module>)
    : seq<Module>
  {
    if summary == map[] then
      (if reverse then Reversed(StableSort(ById, ms)) else StableSort(ById, ms))
    else StableSort(ByUsage(summary, field, reverse), ms)
  }

  lemma {:induction false} InsertAddsOne(o: Order, m: Module, sorted: seq<Module>)
    ensures multiset(Insert(o, m, sorted)) == multiset(sorted) + multiset{m}
    ensures |Insert(o, m, sorted)| == |sorted| + 1
  {
    hide Le;
    if sorted != [] {
      var first, rest := [sorted[0]], sorted[1..];
      InsertAddsOne(o, m, rest);
      assert sorted == first + rest;
      assert multiset(first + Insert(o, m, rest)) == multiset(first) + multiset(Insert(o, m, rest));
      assert multiset([m] + sorted) == multiset{m} + multiset(sorted);
    }
  }

  /** Sorting permutes. */
  lemma {:induction false} SortPermutes(o: Order, ms: seq<Module>)
    ensures multiset(StableSort(o, ms)) == multiset(ms) && |StableSort(o, ms)| == |ms|
  {
    hide Insert;
    if ms != [] {
      SortPermutes(o, ms[1..]);
      InsertAddsOne(o, ms[0], StableSort(o, ms[1..]));
      assert ms == [ms[0]] + ms[1..];
    }
  }

  lemma LeTotal(o: Order, a: Module, b: Module)
    ensures Le(o, a, b) || Le(o, b, a)
  {
    LexTotal(a.id, b.id);
  }

  lemma LeTransitive(o: Order, a: Module, b: Module, c: Module)
    requires Le(o, a, b) && Le(o, b, c)
    ensures Le(o, a, c)
  {
    if LexLe(a.id, b.id) && LexLe(b.id, c.id) {
      LexTransitive(a.id, b.id, c.id);
    }
  }

  predicate InOrder(o: Order, ms: seq<Module>) {
    forall i, j :: 0 <= i < j < |ms| ==> Le(o, ms[i], ms[j])
  }

  lemma {:induction false} InsertKeepsOrder(o: Order, m: Module, sorted: seq<Module>)
    requires InOrder(o, sorted)
    ensures InOrder(o, Insert(o, m, sorted))
  {
    hide Le;
    if sorted != [] {
      var rest := sorted[1..];
      if Le(o, m, sorted[0]) {
        forall j | 0 <= j < |sorted|
          ensures Le(o, m, sorted[j])
        {
          if j > 0 {
            LeTransitive(o, m, sorted[0], sorted[j]);
          }
        }
      } else {
        LeTotal(o, m, sorted[0]);
        InsertKeepsOrder(o, m, rest);
        InsertAddsOne(o, m, rest);
        forall x | x in Insert(o, m, rest)
          ensures Le(o, sorted[0], x)
        {
          assert x in multiset(Insert(o, m, rest));
          if x != m {
            var k :| 0 <= k < |rest| && rest[k] == x;
            assert sorted[k + 1] == x;
          }
        }
      }
    }
  }

  /** The result is in usage order, ascending or descending, with equal usage ordered by ascending id. */
  lemma {:induction false} SortOrders(o: Order, ms: seq<Module>)
    ensures InOrder(o, StableSort(o, ms))
  {
    hide Le;
    if ms != [] {
      SortOrders(o, ms[1..]);
      InsertKeepsOrder(o, ms[0], StableSort(o, ms[1..]));
    }
  }

  /**
   With usage data the modules come in usage order, in either direction, and modules of equal usage in
   ascending order of id in both; without data, by id, and then a reversed listing reverses the ids too.
   */
  lemma UsageOrder(summary: map<string, UsageSummary>, field: string, reverse: bool, ms: seq<Module>, i: nat, j: nat)
    requires i < j < |ms|
    ensures var out := SortedByUsage(summary, field, reverse, ms);
            && |out| == |ms| && multiset(out) == multiset(ms)
            && var a, b := out[i], out[j];
               var ka, kb := SortKey(summary, field, a), SortKey(summary, field, b);
               if summary == map[] then (if reverse then LexLe(b.id, a.id) else LexLe(a.id, b.id))
               else (if reverse then ka >= kb else ka <= kb) && (ka == kb ==> LexLe(a.id, b.id))
  {
    hide SortKey, StableSort, LexLe;
    var o := if summary == map[] then ById else ByUsage(summary, field, reverse);
    SortPermutes(o, ms);
    SortOrders(o, ms);
    ReversedPermutes(StableSort(o, ms));
  }

  lemma {:induction false} ReversedPermutes(ms: seq<Module>)
    ensures multiset(Reversed(ms)) == multiset(ms)
  {
    if ms != [] {
      var init, last := ms[..|ms| - 1], ms[|ms| - 1];
      ReversedPermutes(init);
      assert Reversed(ms) == [last] + Reversed(init);
      assert ms == init + [last];
    }
  }

  function IfAlike(o: Order, m: Module, x: Module): seq<Module> {
    if Le(o, m, x) && Le(o, x, m) then [x] else []
  }

  /** The modules that compare equal to `m`, in order. */
  function Alike(o: Order, m: Module, ms: seq<Module>): seq<Module> {
    if ms == [] then [] else IfAlike(o, m, ms[0]) + Alike(o, m, ms[1..])
  }

  lemma NotBothAlike(o: Order, m: Module, x: Module, y: Module)
    requires !Le(o, x, y)
    ensures IfAlike(o, m, x) == [] || IfAlike(o, m, y) == []
  {
    hide Le;
    if Le(o, x, m) && Le(o, m, y) {
      LeTransitive(o, x, m, y);
    }
  }

  lemma {:induction false} AlikeInsert(o: Order, m: Module, x: Module, sorted: seq<Module>)
    ensures Alike(o, m, Insert(o, x, sorted)) == IfAlike(o, m, x) + Alike(o, m, sorted)
  {
    hide Le, IfAlike;
    var out := Insert(o, x, sorted);
    if sorted != [] {
      if Le(o, x, sorted[0]) {
        assert out[1..] == sorted;
      } else {
        assert out[1..] == Insert(o, x, sorted[1..]);
        AlikeInsert(o, m, x, sorted[1..]);
        NotBothAlike(o, m, x, sorted[0]);
      }
    } else {
      assert out[1..] == [];
    }
  }

  /** Modules that compare equal keep their relative order. */
  lemma {:induction false} SortIsStable(o: Order, ms: seq<Module>, m: Module)
    ensures Alike(o, m, StableSort(o, ms)) == Alike(o, m, ms)
  {
    hide Le, IfAlike;
    if ms != [] {
      SortIsStable(o, ms[1..], m);
      AlikeInsert(o, m, ms[0], StableSort(o, ms[1..]));
    }
  }

  lemma {:induction false} AlikeHas(o: Order, m: Module, ms: seq<Module>)
    ensures Alike(o, m, ms) != [] <==> exists x :: x in ms && Le(o, m, x) && Le(o, x, m)
  {
    hide Le;
    if ms != [] {
      AlikeHas(o, m, ms[1..]);
      assert ms == [ms[0]] + ms[1..];
    }
  }

  /** The first modules of two ordered lists with the same groups compare equal. */
  lemma FirstAlike(o: Order, a: seq<Module>, b: seq<Module>)
    requires a != [] && InOrder(o, a) && forall m :: Alike(o, m, a) == Alike(o, m, b)
    ensures b != [] && (InOrder(o, b) ==> Le(o, b[0], a[0]))
  {
    hide Le, Alike;
    LeTotal(o, a[0], a[0]);
    AlikeHas(o, a[0], a);
    AlikeHas(o, a[0], b);
    var x :| x in b && Le(o, a[0], x) && Le(o, x, a[0]);
    var k :| 0 <= k < |b| && b[k] == x;
    if InOrder(o, b) && k > 0 {
      LeTransitive(o, b[0], x, a[0]);
    }
  }

  /** Order and the groups of modules that compare equal determine the list. */
  lemma {:induction false} SameGroupsSameList(o: Order, a: seq<Module>, b: seq<Module>)
    requires InOrder(o, a) && InOrder(o, b) && forall m :: Alike(o, m, a) == Alike(o, m, b)
    ensures a == b
    decreases |a|
  {
    hide Le;
    if a == [] {
      if b != [] {
        FirstAlike(o, b, a);
      }
    } else {
      FirstAlike(o, a, b);
      FirstAlike(o, b, a);
      LeTotal(o, a[0], a[0]);
      LeTotal(o, b[0], b[0]);
      assert Alike(o, a[0], a)[0] == a[0] && Alike(o, a[0], b)[0] == b[0];
      forall m
        ensures Alike(o, m, a[1..]) == Alike(o, m, b[1..])
      {
        var n := |IfAlike(o, m, a[0])|;
        assert Alike(o, m, a)[n..] == Alike(o, m, a[1..]) && Alike(o, m, b)[n..] == Alike(o, m, b[1..]);
      }
      SameGroupsSameList(o, a[1..], b[1..]);
      assert a == [a[0]] + a[1..] && b == [b[0]] + b[1..];
    }
  }

  /** Any algorithm that orders the modules and keeps those comparing equal as they were gives `StableSort`. */
  lemma StableSortIsUnique(o: Order, ms: seq<Module>, out: seq<Module>)
    requires InOrder(o, out) && forall m :: Alike(o, m, out) == Alike(o, m, ms)
    ensures out == StableSort(o, ms)
  {
    hide Le, Alike, StableSort;
    SortOrders(o, ms);
    forall m { SortIsStable(o, ms, m); }
    SameGroupsSameList(o, out, StableSort(o, ms));
  }

  // ----- sorting in place -----

  /** Inserting puts the module after the first `n` if it has to follow exactly those. */
  lemma {:induction false} InsertAt(o: Order, m: Module, rest: seq<Module>, n: nat)
    requires n <= |rest| && (forall j :: 0 <= j < n ==> !Le(o, m, rest[j])) && (n < |rest| ==> Le(o, m, rest[n]))
    ensures Insert(o, m, rest) == rest[..n] + [m] + rest[n..]
    decreases n
  {
    hide Le;
    if n > 0 {
      InsertAt(o, m, rest[1..], n - 1);
      assert rest[..n] == [rest[0]] + rest[1..][..n - 1] && rest[1..][n - 1..] == rest[n..];
    }
  }

  /** Positions `i` to `k` moved down by one, and the module put at `k`. */
  lemma Shifted(o: Order, before: seq<Module>, after: seq<Module>, i: nat, k: nat)
    requires i <= k < |before| == |after| && after[k] == before[i]
    requires forall j :: i <= j < k ==> after[j] == before[j + 1]
    requires forall j :: k < j < |after| ==> after[j] == before[j]
    requires forall j :: i < j <= k ==> !Le(o, before[i], before[j])
    requires k + 1 < |before| ==> Le(o, before[i], before[k + 1])
    ensures after[i..] == Insert(o, before[i], before[i + 1..])
  {
    hide Le, Insert;
    var rest := before[i + 1..];
    InsertAt(o, before[i], rest, k - i);
    assert after[i..] == rest[..k - i] + [before[i]] + rest[k - i..];
  }

  /** Moves module `i` behind those of the sorted rest that it has to follow. */
  method InsertInPlace(o: Order, modules: array<Module>, i: nat)
    requires i < modules.Length
    modifies modules
    ensures modules[..i] == old(modules[..i])
    ensures modules[i..] == Insert(o, old(modules[i]), old(modules[i + 1..]))
  {
    hide Le, Insert;
    var m, k := modules[i], i;
    ghost var before := modules[..];
    while k + 1 < modules.Length && !Le(o, m, modules[k + 1])
      invariant i <= k < modules.Length
      invariant forall j :: 0 <= j < i ==> modules[j] == before[j]
      invariant forall j :: i <= j < k ==> modules[j] == before[j + 1]
      invariant forall j :: k < j < modules.Length ==> modules[j] == before[j]
      invariant forall j :: i < j <= k ==> !Le(o, m, before[j])
    {
      modules[k] := modules[k + 1];
      k := k + 1;
    }
    modules[k] := m;
    Shifted(o, before, modules[..], i, k);
    assert modules[..][i..] == modules[i..] && modules[..i] == before[..i] && before[i + 1..] == old(modules[i + 1..]);
  }

  /** `sort_by` may use any stable algorithm; this one inserts from the right. */
  method StableSortInPlace(o: Order, modules: array<Module>)
    modifies modules
    ensures modules[..] == StableSort(o, old(modules[..]))
  {
    hide Le, Insert;
    for i := modules.Length downto 0
      invariant modules[..i] == old(modules[..i])
      invariant modules[i..] == StableSort(o, old(modules[i..]))
    {
      InsertInPlace(o, modules, i);
    }
  }

  method ReverseInPlace(modules: array<Module>)
    modifies modules
    ensures modules[..] == Reversed(old(modules[..]))
  {
    var lo, hi := 0, modules.Length;
    while lo + 1 < hi
      invariant 0 <= lo <= hi <= modules.Length && lo + hi == modules.Length
      invariant forall k | lo <= k < hi :: modules[k] == old(modules[k])
      invariant forall k | 0 <= k < lo || hi <= k < modules.Length :: modules[k] == old(modules[modules.Length - 1 - k])
    {
      hi := hi - 1;
      modules[lo], modules[hi] := modules[hi], modules[lo];
      lo := lo + 1;
    }
  }

  // ----- the sort over a log -----

  function Ids(log: seq<Entry>): set<string> {
    set e | e in log :: e.moduleId
  }

  /** The summary of a log as a value. */
  function SummaryMap(log: seq<Entry>, cutoff: int): map<string, UsageSummary> {
    map id | id in Ids(log) && Tally(log, cutoff, id, Calls) > 0 :: SummaryOf(log, cutoff, id)
  }

  /** A module is called by the log exactly when one of its lines is accepted. */
  lemma {:induction false} CalledIffAccepted(log: seq<Entry>, cutoff: int, id: string)
    ensures Tally(log, cutoff, id, Calls) > 0 <==> exists e :: e in log && Accepted(e, cutoff) && e.moduleId == id
  {
    hide Accepted;
    if log != [] {
      CalledIffAccepted(log[..|log| - 1], cutoff, id);
      assert log == log[..|log| - 1] + [log[|log| - 1]];
    }
  }

  /** What the sort compares are the counts of the log, and for latency their quotient. */
  lemma SortKeyIsTally(log: seq<Entry>, cutoff: int, m: Module)
    ensures SortKey(SummaryMap(log, cutoff), "calls", m) == Tally(log, cutoff, m.id, Calls) as real
    ensures SortKey(SummaryMap(log, cutoff), "errors", m) == Tally(log, cutoff, m.id, Errors) as real
    ensures var calls := Tally(log, cutoff, m.id, Calls);
            SortKey(SummaryMap(log, cutoff), "latency", m) ==
            if calls == 0 then 0.0 else Tally(log, cutoff, m.id, Latency) as real / calls as real
    ensures forall field | field !in {"calls", "errors", "latency"} ::
              SortKey(SummaryMap(log, cutoff), field, m) == 0.0
  {
    hide Tally, Accepted;
    CalledIffAccepted(log, cutoff, m.id);
    ErrorsWithinCalls(log, cutoff, m.id);
  }

  /** Sorts the slice by the log; without any accepted line it falls back to sorting by id. */
  method SortModulesByUsage(modules: array<Module>, log: seq<Entry>, cutoff: int, field: string, reverse: bool)
    returns (used: bool)
    modifies modules
    ensures used <==> exists e :: e in log && Accepted(e, cutoff)
    ensures modules[..] == SortedByUsage(SummaryMap(log, cutoff), field, reverse, old(modules[..]))
  {
    hide Tally, Accepted, SummaryOf, StableSort;
    var summary := ComputeSummary(log, cutoff);
    forall id { CalledIffAccepted(log, cutoff, id); }
    assert summary == SummaryMap(log, cutoff);
    assert forall e | e in log && Accepted(e, cutoff) :: e.moduleId in summary;
    used := summary != map[];
    if used {
      ghost var id :| id in summary;
      StableSortInPlace(ByUsage(summary, field, reverse), modules);
    } else {
      StableSortInPlace(ById, modules);
      if reverse {
        ReverseInPlace(modules);
      }
    }
  }
}
