/** Aggregating a benchmark run (internal/bench/bench.go). */
module Bench {
  import opened Wrappers

  /** One request: it failed, or it streamed an answer. Times are in nanoseconds. */
  datatype Sample = Failed | Succeeded(ttft: int, chunks: int, tokens: int, speculator: string)

  datatype Report = Report(requests: nat, errors: nat, chunks: int, tokens: int, speculator: string,
                           p50: Option<int>, p95: Option<int>)

  datatype BenchError = SpeculatorChanged(was: string, now: string)

  // ----- what the totals mean -----

  function SumBy(f: Sample -> int, samples: seq<Sample>): int {
    if samples == [] then 0 else SumBy(f, samples[..|samples| - 1]) + f(samples[|samples| - 1])
  }

  function FailureOf(s: Sample): int { if s.Failed? then 1 else 0 }

  function ChunksOf(s: Sample): int { if s.Failed? then 0 else s.chunks }

  function TokensOf(s: Sample): int { if s.Failed? then 0 else s.tokens }

  function Ttfts(samples: seq<Sample>): seq<int> {
    if samples == [] then []
    else Ttfts(samples[..|samples| - 1]) + if samples[|samples| - 1].Failed? then [] else [samples[|samples| - 1].ttft]
  }

  /** The sample is a successful answer that names a speculator. */
  predicate States(s: Sample) { s.Succeeded? && s.speculator != "" }

  ghost predicate Disagree(samples: seq<Sample>) {
    exists a, b | a in samples && b in samples :: States(a) && States(b) && a.speculator != b.speculator
  }

  /** The name every successful sample that states one agrees on, "" when none does. */
  ghost predicate Agreed(samples: seq<Sample>, speculator: string) {
    && (forall s | s in samples && States(s) :: s.speculator == speculator)
    && (speculator != "" ==> exists s | s in samples :: States(s) && s.speculator == speculator)
  }

  // ----- sorting and percentiles -----

  predicate IsSorted(s: seq<int>) { forall i, j | 0 <= i <= j < |s| :: s[i] <= s[j] }

  lemma ConsSorted(x: int, s: seq<int>)
    requires IsSorted(s) && (s == [] || x <= s[0])
    ensures IsSorted([x] + s)
  {
  }

  function Insert(x: int, s: seq<int>): (r: seq<int>)
    requires IsSorted(s)
    ensures IsSorted(r) && r != [] && (r[0] == x || (s != [] && r[0] == s[0]))
  {
    if s == [] || x <= s[0] then
      ConsSorted(x, s);
      [x] + s
    else
      ConsSorted(s[0], Insert(x, s[1..]));
      [s[0]] + Insert(x, s[1..])
  }

  lemma {:induction false} InsertKeeps(x: int, s: seq<int>)
    requires IsSorted(s)
    ensures multiset(Insert(x, s)) == multiset{x} + multiset(s)
  {
    if s != [] && x > s[0] {
      InsertKeeps(x, s[1..]);
      assert s == [s[0]] + s[1..];
    }
  }

  /** slices.Sort. */
  function Sort(s: seq<int>): (r: seq<int>)
    ensures IsSorted(r)
  {
    if s == [] then [] else Insert(s[0], Sort(s[1..]))
  }

  lemma {:induction false} SortKeeps(s: seq<int>)
    ensures multiset(Sort(s)) == multiset(s) && |Sort(s)| == |s|
  {
    if s != [] {
      SortKeeps(s[1..]);
      InsertKeeps(s[0], Sort(s[1..]));
      assert s == [s[0]] + s[1..];
    }
    assert |multiset(Sort(s))| == |multiset(s)|;
  }

  lemma SameLeast(a: seq<int>, b: seq<int>)
    requires IsSorted(a) && IsSorted(b) && a != [] && b != [] && multiset(a) == multiset(b)
    ensures a[0] == b[0]
  {
    assert a[0] in multiset(b);
    assert b[0] in multiset(a);
  }

  lemma TailMultiset(a: seq<int>)
    requires a != []
    ensures multiset(a[1..]) == multiset(a) - multiset{a[0]}
  {
    assert a == [a[0]] + a[1..];
  }

  lemma {:induction false} SortedIsUnique(a: seq<int>, b: seq<int>)
    requires IsSorted(a) && IsSorted(b) && multiset(a) == multiset(b)
    ensures a == b
  {
    assert |a| == |multiset(a)| == |multiset(b)| == |b|;
    if a != [] {
      SameLeast(a, b);
      TailMultiset(a);
      TailMultiset(b);
      SortedIsUnique(a[1..], b[1..]);
      assert a == [a[0]] + a[1..] && b == [b[0]] + b[1..];
    }
  }

  /** ceil(p/100 * n) - 1, in integers. */
  function Rank(n: nat, p: nat): nat {
    var idx := (p * n + 99) / 100;
    if idx > 0 then idx - 1 else idx
  }

  lemma RankInRange(n: nat, p: nat)
    requires n > 0 && 1 <= p <= 100
    ensures Rank(n, p) < n
    ensures 100 * Rank(n, p) < p * n <= 100 * (Rank(n, p) + 1)
  {
    assert p * n >= n;
    assert p * n <= 100 * n;
  }

  function Percentile(sorted: seq<int>, p: nat): int
    requires sorted != [] && 1 <= p <= 100
  {
    RankInRange(|sorted|, p);
    sorted[Rank(|sorted|, p)]
  }

  function AtOrBelow(s: seq<int>, v: int): nat {
    if s == [] then 0 else AtOrBelow(s[..|s| - 1], v) + if s[|s| - 1] <= v then 1 else 0
  }

  function StrictlyBelow(s: seq<int>, v: int): nat {
    if s == [] then 0 else StrictlyBelow(s[..|s| - 1], v) + if s[|s| - 1] < v then 1 else 0
  }

  lemma {:induction false} CountsAtIndex(s: seq<int>, k: nat)
    requires IsSorted(s) && k < |s|
    ensures AtOrBelow(s, s[k]) >= k + 1 && StrictlyBelow(s, s[k]) <= k
    decreases |s|
  {
    var n := |s| - 1;
    if k < n {
      CountsAtIndex(s[..n], k);
      assert s[..n][k] == s[k];
    } else {
      AllAtOrBelow(s, s[k]);
      CountBound(s[..n], s[k]);
    }
  }

  lemma {:induction false} AllAtOrBelow(s: seq<int>, v: int)
    requires forall i | 0 <= i < |s| :: s[i] <= v
    ensures AtOrBelow(s, v) == |s|
  {
    if s != [] {
      AllAtOrBelow(s[..|s| - 1], v);
    }
  }

  lemma {:induction false} CountBound(s: seq<int>, v: int)
    ensures StrictlyBelow(s, v) <= |s|
  {
    if s != [] {
      CountBound(s[..|s| - 1], v);
    }
  }

  /** Nearest rank: at least p% of the samples are at or below the result and fewer than p% below it. */
  lemma PercentileIsNearestRank(sorted: seq<int>, p: nat)
    requires IsSorted(sorted) && sorted != [] && 1 <= p <= 100
    ensures var v := Percentile(sorted, p);
            && v in sorted
            && 100 * AtOrBelow(sorted, v) >= p * |sorted|
            && 100 * StrictlyBelow(sorted, v) < p * |sorted|
  {
    RankInRange(|sorted|, p);
    CountsAtIndex(sorted, Rank(|sorted|, p));
  }

  lemma PercentileIsMonotone(sorted: seq<int>, p: nat, q: nat)
    requires IsSorted(sorted) && sorted != [] && 1 <= p <= q <= 100
    ensures Percentile(sorted, p) <= Percentile(sorted, q)
  {
    RankInRange(|sorted|, p);
    RankInRange(|sorted|, q);
    assert p * |sorted| <= q * |sorted|;
    assert (p * |sorted| + 99) / 100 <= (q * |sorted| + 99) / 100;
  }

  // ----- the aggregation loop -----

  /** Exactly what the report says about the samples. */
  ghost predicate Reports(r: Report, samples: seq<Sample>) {
    && r.requests == |samples|
    && r.errors == SumBy(FailureOf, samples)
    && r.chunks == SumBy(ChunksOf, samples)
    && r.tokens == SumBy(TokensOf, samples)
    && Agreed(samples, r.speculator)
    && var sorted := Sort(Ttfts(samples));
       && r.p50 == (if sorted == [] then None else Some(Percentile(sorted, 50)))
       && r.p95 == (if sorted == [] then None else Some(Percentile(sorted, 95)))
  }

  lemma OneMoreSample(samples: seq<Sample>, i: nat)
    requires i < |samples|
    ensures forall f: Sample -> int :: SumBy(f, samples[..i + 1]) == SumBy(f, samples[..i]) + f(samples[i])
    ensures Ttfts(samples[..i + 1]) == Ttfts(samples[..i]) + if samples[i].Failed? then [] else [samples[i].ttft]
  {
    assert samples[..i + 1][..i] == samples[..i];
  }

  /** How one sample bears on the name agreed so far. */
  lemma OneMoreName(samples: seq<Sample>, i: nat, speculator: string)
    requires i < |samples| && Agreed(samples[..i], speculator)
    ensures !States(samples[i]) ==> Agreed(samples[..i + 1], speculator)
    ensures States(samples[i]) && (speculator == "" || samples[i].speculator == speculator) ==>
              Agreed(samples[..i + 1], samples[i].speculator)
    ensures States(samples[i]) && speculator != "" && samples[i].speculator != speculator ==> Disagree(samples)
  {
    var s := samples[i];
    assert samples[..i + 1] == samples[..i] + [s];
    assert s in samples[..i + 1] && s in samples;
    if speculator != "" {
      var a :| a in samples[..i] && States(a) && a.speculator == speculator;
      assert a in samples && a in samples[..i + 1];
    }
  }

  method Aggregate(samples: seq<Sample>) returns (r: Result<Report, BenchError>)
    ensures r.Err? <==> Disagree(samples)
    ensures r.Ok? ==> Reports(r.value, samples)
    ensures r.Ok? ==> r.value.errors + |Ttfts(samples)| == |samples|
  {
    var errors: nat, chunks, tokens, speculator := 0, 0, 0, "";
    var ttfts: seq<int> := [];
    for i := 0 to |samples|
      invariant errors == SumBy(FailureOf, samples[..i])
      invariant chunks == SumBy(ChunksOf, samples[..i])
      invariant tokens == SumBy(TokensOf, samples[..i])
      invariant ttfts == Ttfts(samples[..i])
      invariant errors + |ttfts| == i
      invariant Agreed(samples[..i], speculator)
    {
      var s := samples[i];
      OneMoreSample(samples, i);
      OneMoreName(samples, i, speculator);
      if s.Failed? {
        errors := errors + 1;
        continue;
      }
      chunks := chunks + s.chunks;
      tokens := tokens + s.tokens;
      ttfts := ttfts + [s.ttft];
      if speculator == "" {
        speculator := s.speculator;
      } else if s.speculator != "" && s.speculator != speculator {
        return Err(SpeculatorChanged(speculator, s.speculator));
      }
    }
    assert samples[..|samples|] == samples;
    var sorted := Sort(ttfts);
    var p50 := if sorted == [] then None else Some(Percentile(sorted, 50));
    var p95 := if sorted == [] then None else Some(Percentile(sorted, 95));
    r := Ok(Report(|samples|, errors, chunks, tokens, speculator, p50, p95));
  }

  // ----- the order in which workers finish does not matter -----

  lemma {:induction false} SumSplit(f: Sample -> int, a: seq<Sample>, b: seq<Sample>)
    ensures SumBy(f, a + b) == SumBy(f, a) + SumBy(f, b)
  {
    if b == [] {
      assert a + b == a;
    } else {
      var n := |b| - 1;
      assert (a + b)[..|a + b| - 1] == a + b[..n];
      SumSplit(f, a, b[..n]);
    }
  }

  lemma {:induction false} TtftsSplit(a: seq<Sample>, b: seq<Sample>)
    ensures Ttfts(a + b) == Ttfts(a) + Ttfts(b)
  {
    if b == [] {
      assert a + b == a;
    } else {
      var n := |b| - 1;
      assert (a + b)[..|a + b| - 1] == a + b[..n];
      TtftsSplit(a, b[..n]);
    }
  }

  /** Where the last sample of one order sits in the other. */
  lemma FindLast(a: seq<Sample>, b: seq<Sample>) returns (k: nat)
    requires multiset(a) == multiset(b) && a != []
    ensures k < |b| && b[k] == a[|a| - 1] && b == b[..k] + [b[k]] + b[k + 1..]
    ensures multiset(a[..|a| - 1]) == multiset(b[..k] + b[k + 1..])
  {
    var last := a[|a| - 1];
    assert last in multiset(b);
    k :| 0 <= k < |b| && b[k] == last;
    assert b == b[..k] + [b[k]] + b[k + 1..];
    assert a == a[..|a| - 1] + [last];
    assert multiset(a[..|a| - 1]) == multiset(a) - multiset{last};
    assert multiset(b[..k] + b[k + 1..]) == multiset(b) - multiset{last};
  }

  lemma {:induction false} SumIgnoresOrder(f: Sample -> int, a: seq<Sample>, b: seq<Sample>)
    requires multiset(a) == multiset(b)
    ensures SumBy(f, a) == SumBy(f, b)
    decreases |a|
  {
    if a == [] {
      assert |multiset(b)| == 0;
    } else {
      var k := FindLast(a, b);
      SumIgnoresOrder(f, a[..|a| - 1], b[..k] + b[k + 1..]);
      SumSplit(f, b[..k], b[k + 1..]);
      SumSplit(f, b[..k] + [b[k]], b[k + 1..]);
      SumSplit(f, b[..k], [b[k]]);
      assert [b[k]][..0] == [];
    }
  }

  lemma {:induction false} TtftsIgnoreOrder(a: seq<Sample>, b: seq<Sample>)
    requires multiset(a) == multiset(b)
    ensures multiset(Ttfts(a)) == multiset(Ttfts(b))
    decreases |a|
  {
    if a == [] {
      assert |multiset(b)| == 0;
    } else {
      var k := FindLast(a, b);
      TtftsIgnoreOrder(a[..|a| - 1], b[..k] + b[k + 1..]);
      TtftsSplit(b[..k], b[k + 1..]);
      TtftsSplit(b[..k] + [b[k]], b[k + 1..]);
      TtftsSplit(b[..k], [b[k]]);
      assert [b[k]][..0] == [];
    }
  }

  /** Two orders of the same samples are both refused or give the same report. */
  lemma ReportIgnoresOrder(a: seq<Sample>, b: seq<Sample>, ra: Report, rb: Report)
    requires multiset(a) == multiset(b)
    ensures Disagree(a) <==> Disagree(b)
    ensures Reports(ra, a) && Reports(rb, b) ==> ra == rb
  {
    assert forall s :: s in a <==> s in multiset(a);
    assert forall s :: s in b <==> s in multiset(b);
    if Reports(ra, a) && Reports(rb, b) {
      SumIgnoresOrder(FailureOf, a, b);
      SumIgnoresOrder(ChunksOf, a, b);
      SumIgnoresOrder(TokensOf, a, b);
      TtftsIgnoreOrder(a, b);
      SortKeeps(Ttfts(a));
      SortKeeps(Ttfts(b));
      SortedIsUnique(Sort(Ttfts(a)), Sort(Ttfts(b)));
      assert |a| == |multiset(a)| == |multiset(b)| == |b|;
    }
  }

  /** One more answer adds exactly its own chunks and tokens, one more failure exactly one error. */
  lemma OneMoreInTheReport(samples: seq<Sample>, s: Sample, before: Report, after: Report)
    requires Reports(before, samples) && Reports(after, samples + [s])
    ensures after.requests == before.requests + 1
    ensures s.Failed? ==> after.errors == before.errors + 1
                          && (after.chunks, after.tokens, after.p50, after.p95)
                          == (before.chunks, before.tokens, before.p50, before.p95)
    ensures s.Succeeded? ==> after.errors == before.errors
                             && after.chunks == before.chunks + s.chunks && after.tokens == before.tokens + s.tokens
  {
    var all := samples + [s];
    assert all[..|samples|] == samples && all[..|samples| + 1] == all;
    OneMoreSample(all, |samples|);
    if s.Failed? {
      assert Ttfts(all) == Ttfts(samples);
    }
  }

  /** An answer alone is every percentile, in its own time to the first token. */
  lemma OneAnswerAlone(ttft: int, chunks: int, tokens: int, speculator: string, r: Report)
    requires Reports(r, [Succeeded(ttft, chunks, tokens, speculator)])
    ensures r.p50 == Some(ttft) && r.p95 == Some(ttft) && r.speculator == speculator
  {
    var s := Succeeded(ttft, chunks, tokens, speculator);
    OneMoreSample([s], 0);
    assert [s][..0] == [] && [s][..1] == [s];
    assert Ttfts([s]) == [ttft];
    SortKeeps([ttft]);
    assert Sort([ttft]) == [ttft] by {
      assert [ttft][1..] == [];
    }
    assert s in [s];
    if r.speculator != "" {
      var a :| a in [s] && States(a) && a.speculator == r.speculator;
      assert a == s;
    }
  }
}
