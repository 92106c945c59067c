/** Collection health: nearest-rank percentiles and the roll-up of collect runs per cluster. */
module CollectSlo {
  import Sorting
  import opened StringKeys
  import Collector

  // ----- Percentiles -----

  predicate IntLe(a: int, b: int) {
    a <= b
  }

  /** The sorted copy: same length, same values, ascending. */
  lemma SortedInts(values: seq<int>)
    ensures var s := Sorting.Sort(IntLe, values);
      |s| == |values| && (forall v :: v in s <==> v in values) && forall i, j :: 0 <= i < j < |s| ==> s[i] <= s[j]
  {
    var s := Sorting.Sort(IntLe, values);
    assert Sorting.TotalPreorder(IntLe);
    Sorting.SortCorrect(IntLe, values);
    Sorting.SortMembers(IntLe, values);
    forall i, j | 0 <= i < j < |s| ensures s[i] <= s[j] { assert IntLe(s[i], s[j]); }
  }

  /** The nearest-rank percentile; 0 for no values. */
  function Percentile(values: seq<int>, p: int): int {
    if values == [] then 0
    else
      var sorted := Sorting.Sort(IntLe, values);
      SortedInts(values);
      if p <= 0 then sorted[0]
      else if p >= 100 then sorted[|sorted| - 1]
      else
        var rank := (p * |sorted| + 99) / 100;
        sorted[(if rank < 1 then 1 else if rank > |sorted| then |sorted| else rank) - 1]
  }

  function UpTo(x: int): int -> bool {
    v => v <= x
  }

  /** How many values lie at or below `x`. */
  function AtMost(values: seq<int>, x: int): nat {
    Sorting.CountIf(UpTo(x), values)
  }

  /** How many values lie strictly below `x`. */
  function Below(values: seq<int>, x: int): nat {
    AtMost(values, x - 1)
  }

  /** At least `p` percent of the values are at or below `r`, and less than `p` percent are strictly below it. */
  ghost predicate NearestRank(values: seq<int>, p: int, r: int) {
    r in values && 100 * AtMost(values, r) >= p * |values| && 100 * Below(values, r) < p * |values|
  }

  /** When the first `lo` values are at most `x` and those from `hi` on are above, between `lo` and `hi` are at
      most `x`. */
  lemma {:induction false} CountBounds(s: seq<int>, x: int, lo: nat, hi: nat)
    requires lo <= hi <= |s|
    requires forall i :: 0 <= i < lo ==> s[i] <= x
    requires forall i :: hi <= i < |s| ==> s[i] > x
    ensures lo <= AtMost(s, x) <= hi
    decreases |s|
  {
    if s != [] {
      CountBounds(s[1..], x, if lo > 0 then lo - 1 else 0, if hi > 0 then hi - 1 else 0);
    }
  }

  lemma {:induction false} AtMostGrows(s: seq<int>, x: int, y: int)
    requires x <= y
    ensures AtMost(s, x) <= AtMost(s, y)
    decreases |s|
  {
    if s != [] { AtMostGrows(s[1..], x, y); }
  }

  lemma SortedAtMost(values: seq<int>, x: int)
    ensures AtMost(Sorting.Sort(IntLe, values), x) == AtMost(values, x)
  {
    Sorting.SortCounts(IntLe, UpTo(x), values);
  }

  lemma AscendingCounts(s: seq<int>, k: nat)
    requires k < |s| && forall i, j :: 0 <= i < j < |s| ==> s[i] <= s[j]
    ensures AtMost(s, s[k]) >= k + 1 && Below(s, s[k]) <= k
  {
    CountBounds(s, s[k], k + 1, |s|);
    CountBounds(s, s[k] - 1, 0, k);
  }

  /** The value at a position of the sorted sequence: so many values are at most it, so few below it. */
  lemma SortedPosition(values: seq<int>, k: nat)
    requires k < |values|
    ensures |Sorting.Sort(IntLe, values)| == |values|
    ensures var r := Sorting.Sort(IntLe, values)[k];
      r in values && AtMost(values, r) >= k + 1 && Below(values, r) <= k
  {
    var s := Sorting.Sort(IntLe, values);
    SortedInts(values);
    assert s[k] in s;
    AscendingCounts(s, k);
    SortedAtMost(values, s[k]);
    SortedAtMost(values, s[k] - 1);
  }

  lemma {:induction false} MulMonotone(p: int, q: int, n: int)
    requires p <= q && n >= 0
    ensures p * n <= q * n
    decreases n
  {
    if n > 0 { MulMonotone(p, q, n - 1); }
  }

  lemma RankBounds(p: int, n: int)
    requires 0 < p < 100 && n > 0
    ensures var rank := (p * n + 99) / 100; 1 <= rank <= n && 100 * rank >= p * n && 100 * (rank - 1) < p * n
  {
    assert p * n >= n && p * n <= 99 * n by { MulMonotone(1, p, n); MulMonotone(p, 99, n); }
  }

  lemma RankIsNearest(values: seq<int>, x: int, rank: int)
    requires 1 <= rank <= |values| && 100 * rank >= x && 100 * (rank - 1) < x
    ensures |Sorting.Sort(IntLe, values)| == |values|
    ensures var r := Sorting.Sort(IntLe, values)[rank - 1];
      r in values && 100 * AtMost(values, r) >= x && 100 * Below(values, r) < x
  {
    SortedPosition(values, rank - 1);
  }

  lemma PercentileIsNearest(values: seq<int>, p: int)
    requires values != [] && 0 < p < 100
    ensures NearestRank(values, p, Percentile(values, p))
  {
    RankBounds(p, |values|);
    RankIsNearest(values, p * |values|, (p * |values| + 99) / 100);
  }

  lemma OnlyOne(values: seq<int>, x: int, a: int, b: int)
    requires 100 * AtMost(values, a) >= x && 100 * Below(values, b) < x
    ensures b <= a
  {
    if a < b { AtMostGrows(values, a, b - 1); }
  }

  /** Strictly between 0 and 100 the result is the nearest-rank percentile, and the only value that is. */
  lemma PercentileExact(values: seq<int>, p: int, r: int)
    requires values != [] && 0 < p < 100
    ensures NearestRank(values, p, r) <==> r == Percentile(values, p)
  {
    var v := Percentile(values, p);
    PercentileIsNearest(values, p);
    if NearestRank(values, p, r) { OnlyOne(values, p * |values|, r, v); OnlyOne(values, p * |values|, v, r); }
  }

  /** At the ends: the least and the greatest value. */
  lemma PercentileEnds(values: seq<int>, p: int)
    requires values != [] && !(0 < p < 100)
    ensures var r := Percentile(values, p);
      r in values && forall v :: v in values ==> if p <= 0 then r <= v else v <= r
  {
    var s := Sorting.Sort(IntLe, values);
    SortedInts(values);
    var k := if p <= 0 then 0 else |s| - 1;
    assert s[k] in s;
    forall v | v in values ensures if p <= 0 then s[k] <= v else v <= s[k] {
      assert v in s;
      var i :| 0 <= i < |s| && s[i] == v;
    }
  }

  /** A higher percentile is never a lower value; in particular P50 is at most P95. */
  lemma PercentileMonotone(values: seq<int>, p: int, q: int)
    requires p <= q
    ensures Percentile(values, p) <= Percentile(values, q)
  {
    if values != [] {
      var a, b := Percentile(values, p), Percentile(values, q);
      if 0 < p < 100 { PercentileExact(values, p, a); } else { PercentileEnds(values, p); }
      if 0 < q < 100 { PercentileExact(values, q, b); } else { PercentileEnds(values, q); }
      if 0 < p && q < 100 {
        MulMonotone(p, q, |values|);
        OnlyOne(values, p * |values|, b, a);
      }
    }
  }

  // ----- One cluster -----

  /** The zero time stands for a run without a start. */
  const NO_TIME := 0

  datatype Sample = Sample(cluster: string, name: string, ok: bool, category: string, latency: int, startedAt: int)

  datatype Acc = Acc(name: string, attempts: nat, successes: nat, rateLimited: nat, latencies: seq<int>,
                     lastSuccess: int, lastFailure: int, failures: map<string, nat>)

  const EMPTY := Acc("", 0, 0, 0, [], NO_TIME, NO_TIME, map[])

  predicate InWindow(s: Sample, cutoff: int) {
    s.startedAt == NO_TIME || s.startedAt >= cutoff
  }

  function Category(s: Sample): string {
    if s.category == "" then "unknown" else s.category
  }

  function Later(a: int, b: int): int {
    if b > a then b else a
  }

  function Absorb(a: Acc, s: Sample): Acc {
    var b := a.(name := if s.name != "" then s.name else a.name, attempts := a.attempts + 1,
                latencies := if s.latency > 0 then a.latencies + [s.latency] else a.latencies);
    if s.ok then b.(successes := a.successes + 1, lastSuccess := Later(a.lastSuccess, s.startedAt))
    else b.(failures := Collector.Bump(a.failures, Category(s)), lastFailure := Later(a.lastFailure, s.startedAt),
            rateLimited := a.rateLimited + if Category(s) == "ratelimit" then 1 else 0)
  }

  /** The runs of one cluster that count, in order. */
  function Own(samples: seq<Sample>, cluster: string, cutoff: int): seq<Sample> {
    if samples == [] then []
    else
      var n := |samples| - 1;
      Own(samples[..n], cluster, cutoff) + if samples[n].cluster == cluster && InWindow(samples[n], cutoff)
        then [samples[n]] else []
  }

  function Fold(own: seq<Sample>): Acc {
    if own == [] then EMPTY else Absorb(Fold(own[..|own| - 1]), own[|own| - 1])
  }

  predicate AnyRun(s: Sample) {
    true
  }

  predicate Succeeded(s: Sample) {
    s.ok
  }

  predicate Failed(s: Sample) {
    !s.ok
  }

  function FailedAs(category: string): Sample -> bool {
    (s: Sample) => !s.ok && (if s.category == "" then "unknown" else s.category) == category
  }

  lemma CountLast(p: Sample -> bool, own: seq<Sample>)
    requires own != []
    ensures Sorting.CountIf(p, own) == Sorting.CountIf(p, own[..|own| - 1]) + if p(own[|own| - 1]) then 1 else 0
  {
    var front, last := own[..|own| - 1], own[|own| - 1];
    Sorting.CountSnoc(p, front, last);
    assert front + [last] == own;
  }

  /** The counters of an accumulator count runs: all, the successes, and the failures of each category. */
  lemma {:induction false} FoldCounts(own: seq<Sample>, category: string)
    ensures var a := Fold(own);
      && a.attempts == |own| == Sorting.CountIf(AnyRun, own)
      && a.successes == Sorting.CountIf(Succeeded, own)
      && Collector.CountOf(a.failures, category) == Sorting.CountIf(FailedAs(category), own)
    decreases |own|
  {
    if own != [] {
      FoldCounts(own[..|own| - 1], category);
      CountLast(AnyRun, own);
      CountLast(Succeeded, own);
      CountLast(FailedAs(category), own);
    }
  }

  /** Every attempt is a success or a failure of one category, and rate limiting is one of the categories. */
  lemma {:induction false} FoldBalances(own: seq<Sample>)
    ensures var a := Fold(own);
      && a.attempts == |own| == a.successes + Collector.Total(a.failures)
      && Collector.Total(a.failures) == Sorting.CountIf(Failed, own)
      && a.rateLimited == Collector.CountOf(a.failures, "ratelimit")
      && |a.latencies| <= a.attempts && forall l :: l in a.latencies ==> l > 0
    decreases |own|
  {
    if own != [] {
      var front, s := own[..|own| - 1], own[|own| - 1];
      FoldBalances(front);
      CountLast(Failed, own);
      Collector.TotalBump(Fold(front).failures, Category(s));
    }
  }

  function OwnRun(cluster: string, cutoff: int): Sample -> bool {
    (s: Sample) => s.cluster == cluster && (s.startedAt == 0 || s.startedAt >= cutoff)
  }

  predicate SameRun(s: Sample, t: Sample) {
    s == t
  }

  lemma OwnLast(samples: seq<Sample>, cluster: string, cutoff: int)
    requires samples != []
    ensures var n := |samples| - 1;
      Own(samples, cluster, cutoff)
      == Own(samples[..n], cluster, cutoff) + if OwnRun(cluster, cutoff)(samples[n]) then [samples[n]] else []
  {
  }

  lemma OwnPicked(front: seq<Sample>, s: Sample, cluster: string, cutoff: int, own: seq<Sample>)
    requires Sorting.Picks(OwnRun(cluster, cutoff), SameRun, front, own)
    ensures Sorting.Picks(OwnRun(cluster, cutoff), SameRun, front + [s],
                          own + if OwnRun(cluster, cutoff)(s) then [s] else [])
  {
    Sorting.PicksSnoc(OwnRun(cluster, cutoff), SameRun, front, own, s,
      if OwnRun(cluster, cutoff)(s) then [s] else []);
  }

  /** A cluster's own runs are those that name it and start in the window, or at no known time, in order. */
  lemma {:induction false} OwnExact(samples: seq<Sample>, cluster: string, cutoff: int)
    ensures Sorting.Picks(OwnRun(cluster, cutoff), SameRun, samples, Own(samples, cluster, cutoff))
    decreases |samples|
  {
    if samples != [] {
      var n := |samples| - 1;
      OwnExact(samples[..n], cluster, cutoff);
      OwnLast(samples, cluster, cutoff);
      OwnPicked(samples[..n], samples[n], cluster, cutoff, Own(samples[..n], cluster, cutoff));
      assert samples[..n] + [samples[n]] == samples;
    }
  }

  predicate TookTime(s: Sample) {
    s.latency > 0
  }

  predicate LatencyOf(s: Sample, latency: int) {
    latency == s.latency
  }

  /** The positive latencies, in order. */
  lemma {:induction false} FoldLatencies(own: seq<Sample>)
    ensures Sorting.Picks(TookTime, LatencyOf, own, Fold(own).latencies)
    decreases |own|
  {
    if own != [] {
      var front, s := own[..|own| - 1], own[|own| - 1];
      FoldLatencies(front);
      Sorting.PicksSnoc(TookTime, LatencyOf, front, Fold(front).latencies, s, if TookTime(s) then [s.latency] else []);
      assert front + [s] == own;
    }
  }

  /** The latest start of the runs that went well, or of those that failed; no time when there is none. */
  ghost predicate Latest(own: seq<Sample>, ok: bool, t: int) {
    && t >= NO_TIME
    && (forall i :: 0 <= i < |own| && own[i].ok == ok ==> own[i].startedAt <= t)
    && (t > NO_TIME ==> exists i :: 0 <= i < |own| && own[i].ok == ok && own[i].startedAt == t)
  }

  lemma LatestSnoc(front: seq<Sample>, s: Sample, ok: bool, t: int)
    requires Latest(front, ok, t)
    ensures Latest(front + [s], ok, if s.ok == ok && s.startedAt > t then s.startedAt else t)
  {
    var own := front + [s];
    assert own[|front|] == s;
    assert forall i :: 0 <= i < |front| ==> own[i] == front[i];
    if t > NO_TIME {
      var i :| 0 <= i < |front| && front[i].ok == ok && front[i].startedAt == t;
      assert own[i].ok == ok && own[i].startedAt == t;
    }
  }

  /** When the last success and the last failure were. */
  lemma {:induction false} FoldTimes(own: seq<Sample>)
    ensures Latest(own, true, Fold(own).lastSuccess) && Latest(own, false, Fold(own).lastFailure)
    decreases |own|
  {
    if own != [] {
      var front, s := own[..|own| - 1], own[|own| - 1];
      FoldTimes(front);
      LatestSnoc(front, s, true, Fold(front).lastSuccess);
      LatestSnoc(front, s, false, Fold(front).lastFailure);
      assert front + [s] == own;
    }
  }

  /** The run at `i` is the last that gives a name. */
  ghost predicate NamesLast(own: seq<Sample>, i: nat) {
    i < |own| && own[i].name != "" && forall j :: i < j < |own| ==> own[j].name == ""
  }

  ghost predicate NamesNone(own: seq<Sample>) {
    forall i :: 0 <= i < |own| ==> own[i].name == ""
  }

  lemma NamesFront(own: seq<Sample>)
    requires own != [] && own[|own| - 1].name == ""
    ensures forall i: nat :: NamesLast(own, i) ==> NamesLast(own[..|own| - 1], i)
    ensures NamesNone(own) ==> NamesNone(own[..|own| - 1])
  {
  }

  /** The name is the last one given. */
  lemma {:induction false} FoldName(own: seq<Sample>)
    ensures forall i: nat :: NamesLast(own, i) ==> Fold(own).name == own[i].name
    ensures NamesNone(own) ==> Fold(own).name == ""
    decreases |own|
  {
    if own != [] {
      var n := |own| - 1;
      FoldName(own[..n]);
      if own[n].name == "" {
        NamesFront(own);
        assert forall i: nat :: NamesLast(own, i) ==> own[..n][i] == own[i];
      } else {
        assert forall i: nat :: NamesLast(own, i) ==> i == n;
      }
    }
  }

  // ----- The failure that stands out -----

  /** `best` leads the keys seen so far: most frequent, least in string order among equals. */
  ghost predicate Leads(m: map<string, nat>, seen: seq<string>, best: string, bestN: nat) {
    && (forall k :: k in seen ==> k in m)
    && if bestN == 0 then best == "" && forall k :: k in seen ==> m[k] == 0
       else best in seen && m[best] == bestN
            && forall k :: k in seen ==> m[k] < bestN || (m[k] == bestN && Sorting.StringLe(best, k))
  }

  /** The most frequent key, the least of them in string order; empty when nothing occurred. */
  ghost predicate Tops(m: map<string, nat>, best: string) {
    if forall k :: k in m ==> m[k] == 0 then best == ""
    else best in m && m[best] > 0
         && forall k :: k in m ==> m[k] < m[best] || (m[k] == m[best] && Sorting.StringLe(best, k))
  }

  lemma LeadsStep(m: map<string, nat>, seen: seq<string>, k: string, best: string, bestN: nat)
    requires Leads(m, seen, best, bestN) && k in m
    requires forall j :: j in seen ==> Sorting.StringLe(j, k)
    ensures if m[k] > bestN then Leads(m, seen + [k], k, m[k]) else Leads(m, seen + [k], best, bestN)
  {
    Sorting.StringLeTotal(k, k);
    assert k in seen + [k];
  }

  lemma LeadsNext(m: map<string, nat>, keys: seq<string>, i: nat, best: string, bestN: nat)
    requires i < |keys| && keys[i] in m && Sorting.Sorted(Sorting.StringLe, keys)
    requires Leads(m, keys[..i], best, bestN)
    ensures var k := keys[i];
      if m[k] > bestN then Leads(m, keys[..i + 1], k, m[k]) else Leads(m, keys[..i + 1], best, bestN)
  {
    assert keys[..i + 1] == keys[..i] + [keys[i]];
    LeadsStep(m, keys[..i], keys[i], best, bestN);
  }

  lemma LeadsAll(m: map<string, nat>, keys: seq<string>, best: string, bestN: nat)
    requires Leads(m, keys, best, bestN) && forall k :: k in m ==> k in keys
    ensures Tops(m, best)
  {
  }

  /** At most one key stands out. */
  lemma TopsUnique(m: map<string, nat>, a: string, b: string)
    requires Tops(m, a) && Tops(m, b)
    ensures a == b
  {
    if !(forall k :: k in m ==> m[k] == 0) {
      Sorting.StringLeTotal(a, b);
    }
  }

  method TopKey(m: map<string, nat>) returns (best: string)
    ensures Tops(m, best)
  {
    var keys := OrderedKeys(m.Keys);
    SortedKeysCover(m.Keys);
    SortedKeysAscend(m.Keys);
    best := "";
    var bestN: nat, i := 0, 0;
    while i < |keys|
      invariant 0 <= i <= |keys| && Leads(m, keys[..i], best, bestN)
    {
      LeadsNext(m, keys, i, best, bestN);
      if m[keys[i]] > bestN {
        bestN := m[keys[i]];
        best := keys[i];
      }
      i := i + 1;
    }
    assert keys[..i] == keys;
    LeadsAll(m, keys, best, bestN);
  }

  // ----- Rates and bands -----

  /** The way the floating-point quotient of an exact tie falls: whether the tie just below a hundredth of a
      percent is rounded up to it. */
  type Ties = nat -> bool

  /** A share half up, in hundredths of a percent. */
  function HalfUp(num: nat, den: nat): nat
    requires den > 0
  {
    (20000 * num + den) / (2 * den)
  }

  /** A share rounded to hundredths of a percent; 0 of nothing. */
  function Rate(num: nat, den: nat, up: Ties): nat {
    if den == 0 then 0
    else
      var q := HalfUp(num, den);
      if q > 0 && 20000 * num + den == 2 * den * q && !up(q) then q - 1 else q
  }

  datatype Band = Healthy | Degraded | Failing

  function BandOf(rate: nat, attempts: nat): Band {
    if attempts == 0 then Healthy else if rate >= 9500 then Healthy else if rate >= 7000 then Degraded else Failing
  }

  lemma DivAtLeast(a: nat, d: nat, q: nat)
    requires d > 0
    ensures a / d >= q <==> a >= d * q
  {
    var r := a / d;
    assert a == d * r + a % d;
    if r >= q { MulMonotone(q, r, d); } else { MulMonotone(r + 1, q, d); }
  }

  lemma HalfUpAtLeast(num: nat, den: nat, q: nat)
    requires den > 0
    ensures HalfUp(num, den) >= q <==> 20000 * num + den >= 2 * den * q
  {
    DivAtLeast(20000 * num + den, 2 * den, q);
  }

  /** However ties fall, the rate is within half a hundredth of the share. */
  lemma RateNearest(num: nat, den: nat, up: Ties)
    requires den > 0
    ensures 20000 * num - den <= 2 * den * Rate(num, den, up) <= 20000 * num + den
  {
    var q := HalfUp(num, den);
    HalfUpAtLeast(num, den, q);
    HalfUpAtLeast(num, den, q + 1);
    assert 2 * den * (q + 1) == 2 * den * q + 2 * den;
    if q > 0 { assert 2 * den * (q - 1) == 2 * den * q - 2 * den; }
  }

  /** The band read from the counts, however ties fall. The rate is rounded before it is compared, so anything
      above 94.995 percent is healthy and anything above 69.995 percent at least degraded. */
  ghost predicate BandFor(band: Band, num: nat, den: nat) {
    && (20000 * num > 18999 * den || den == 0 ==> band == Healthy)
    && (20000 * num < 18999 * den ==> band != Healthy)
    && (20000 * num > 13999 * den ==> band != Failing)
    && (20000 * num < 13999 * den ==> band == Failing)
  }

  lemma RateAbove(num: nat, den: nat, rate: nat, bound: nat)
    requires bound > 0 && 20000 * num - den <= 2 * den * rate <= 20000 * num + den
    ensures 20000 * num > (2 * bound - 1) * den ==> rate >= bound
    ensures 20000 * num < (2 * bound - 1) * den ==> rate < bound
  {
    if rate < bound {
      MulMonotone(2 * rate + 1, 2 * bound - 1, den);
    } else {
      MulMonotone(2 * bound - 1, 2 * rate - 1, den);
    }
  }

  lemma BandExact(num: nat, den: nat, up: Ties)
    ensures BandFor(BandOf(Rate(num, den, up), den), num, den)
  {
    if den > 0 {
      RateNearest(num, den, up);
      RateAbove(num, den, Rate(num, den, up), 9500);
      RateAbove(num, den, Rate(num, den, up), 7000);
    }
  }

  lemma CrossMultiply(a: nat, n: nat, b: nat, m: nat, q: nat)
    requires n > 0 && a * m <= b * n && 20000 * a + n >= 2 * n * q
    ensures 20000 * b + m >= 2 * m * q
  {
    MulMonotone(2 * n * q, 20000 * a + n, m);
    assert n * (2 * m * q) <= n * (20000 * b + m) by {
      assert n * (2 * m * q) == 2 * n * q * m;
      assert (20000 * a + n) * m == 20000 * (a * m) + n * m;
      assert n * (20000 * b + m) == 20000 * (b * n) + n * m;
    }
    if 20000 * b + m < 2 * m * q { MulMonotone(20000 * b + m + 1, 2 * m * q, n); }
  }

  lemma CrossMultiplyDown(a: nat, n: nat, b: nat, m: nat, q: nat)
    requires m > 0 && a * m <= b * n && 20000 * b + m <= 2 * m * q
    ensures 20000 * a + n <= 2 * n * q
  {
    MulMonotone(20000 * b + m, 2 * m * q, n);
    assert m * (20000 * a + n) <= m * (2 * n * q) by {
      assert m * (2 * n * q) == 2 * m * q * n;
      assert (20000 * b + m) * n == 20000 * (b * n) + n * m;
      assert m * (20000 * a + n) == 20000 * (a * m) + n * m;
    }
    if 20000 * a + n > 2 * n * q { MulMonotone(2 * n * q + 1, 20000 * a + n, m); }
  }

  lemma HalfUpMonotone(a: nat, n: nat, b: nat, m: nat)
    requires n > 0 && m > 0 && a * m <= b * n
    ensures HalfUp(a, n) <= HalfUp(b, m)
  {
    var q := HalfUp(a, n);
    HalfUpAtLeast(a, n, q);
    HalfUpAtLeast(b, m, q);
    CrossMultiply(a, n, b, m, q);
  }

  /** Rounding keeps the order of the shares, however ties fall. */
  lemma RateMonotone(a: nat, n: nat, b: nat, m: nat, up: Ties)
    requires n > 0 && m > 0 && a * m <= b * n
    ensures Rate(a, n, up) <= Rate(b, m, up)
  {
    var q := HalfUp(b, m);
    HalfUpMonotone(a, n, b, m);
    if HalfUp(a, n) == q && 20000 * b + m == 2 * m * q {
      CrossMultiplyDown(a, n, b, m, q);
      HalfUpAtLeast(a, n, q);
    }
  }

  // ----- One row -----

  datatype Slo = Slo(cluster: string, name: string, attempts: nat, successes: nat, failures: int, rate: nat,
                     rateLimited: nat, p50: int, p95: int, lastSuccess: int, lastFailure: int, topFailure: string,
                     breakdown: map<string, nat>, band: Band)

  /** What a row says of its cluster's runs. */
  ghost predicate RowOf(row: Slo, a: Acc, up: Ties) {
    && row.name == a.name && row.attempts == a.attempts && row.successes == a.successes
    && row.rateLimited == a.rateLimited
    && row.failures == Collector.Total(a.failures) && row.attempts == row.successes + row.failures
    && row.rate == Rate(row.successes, row.attempts, up) && BandFor(row.band, row.successes, row.attempts)
    && row.p50 == Percentile(a.latencies, 50) && row.p95 == Percentile(a.latencies, 95) && row.p50 <= row.p95
    && row.lastSuccess == a.lastSuccess && row.lastFailure == a.lastFailure
    && row.breakdown == a.failures && Tops(a.failures, row.topFailure)
  }

  method BuildRow(id: string, a: Acc, up: Ties, ghost own: seq<Sample>) returns (row: Slo)
    requires a == Fold(own)
    ensures row.cluster == id && RowOf(row, a, up)
  {
    FoldBalances(own);
    PercentileMonotone(a.latencies, 50, 95);
    var top := TopKey(a.failures);
    var rate := Rate(a.successes, a.attempts, up);
    BandExact(a.successes, a.attempts, up);
    row := Slo(id, a.name, a.attempts, a.successes, a.attempts - a.successes, rate, a.rateLimited,
               Percentile(a.latencies, 50), Percentile(a.latencies, 95), a.lastSuccess, a.lastFailure, top,
               a.failures, BandOf(rate, a.attempts));
  }

  ghost predicate RowFor(row: Slo, samples: seq<Sample>, cutoff: int, up: Ties) {
    RowOf(row, Fold(Own(samples, row.cluster, cutoff)), up)
  }

  ghost predicate OwnRows(rows: seq<Slo>, samples: seq<Sample>, cutoff: int, up: Ties) {
    forall row :: row in rows ==> RowFor(row, samples, cutoff, up)
  }

  function Clusters(rows: seq<Slo>): seq<string> {
    seq(|rows|, i requires 0 <= i < |rows| => rows[i].cluster)
  }

  // ----- Counting runs by cluster -----

  function Within(cutoff: int, p: Sample -> bool): Sample -> bool {
    (s: Sample) => InWindow(s, cutoff) && p(s)
  }

  ghost function SumOver(order: seq<string>, samples: seq<Sample>, p: Sample -> bool, cutoff: int): nat {
    if order == [] then 0
    else
      Sorting.CountIf(p, Own(samples, order[|order| - 1], cutoff))
      + SumOver(order[..|order| - 1], samples, p, cutoff)
  }

  lemma OwnSnoc(samples: seq<Sample>, s: Sample, cutoff: int, id: string)
    ensures Own(samples + [s], id, cutoff)
         == if InWindow(s, cutoff) && id == s.cluster then Own(samples, id, cutoff) + [s] else Own(samples, id, cutoff)
  {
    assert (samples + [s])[..|samples|] == samples;
  }

  lemma OwnCountSnoc(samples: seq<Sample>, s: Sample, p: Sample -> bool, cutoff: int, id: string)
    ensures Sorting.CountIf(p, Own(samples + [s], id, cutoff))
         == Sorting.CountIf(p, Own(samples, id, cutoff)) + if Within(cutoff, p)(s) && s.cluster == id then 1 else 0
  {
    OwnSnoc(samples, s, cutoff, id);
    Sorting.CountSnoc(p, Own(samples, id, cutoff), s);
  }

  lemma InFront(order: seq<string>, id: string)
    requires order != [] && Distinct(order)
    ensures var n := |order| - 1;
      Distinct(order[..n]) && (id in order <==> id in order[..n] || id == order[n])
        && (id == order[n] ==> id !in order[..n])
  {
    assert order == order[..|order| - 1] + [order[|order| - 1]];
  }

  lemma {:induction false} SumSnoc(order: seq<string>, samples: seq<Sample>, s: Sample, p: Sample -> bool, cutoff: int)
    requires Distinct(order)
    ensures SumOver(order, samples + [s], p, cutoff)
         == SumOver(order, samples, p, cutoff) + if s.cluster in order && Within(cutoff, p)(s) then 1 else 0
    decreases |order|
  {
    if order != [] {
      var n := |order| - 1;
      SumSnoc(order[..n], samples, s, p, cutoff);
      OwnCountSnoc(samples, s, p, cutoff, order[n]);
      InFront(order, s.cluster);
    }
  }

  lemma {:induction false} NothingOver(order: seq<string>, p: Sample -> bool, cutoff: int)
    ensures SumOver(order, [], p, cutoff) == 0
    decreases |order|
  {
    if order != [] { NothingOver(order[..|order| - 1], p, cutoff); }
  }

  /** No run is lost or counted twice: what is counted cluster by cluster adds up to the runs in the window. */
  lemma {:induction false} RunsAddUp(order: seq<string>, samples: seq<Sample>, p: Sample -> bool, cutoff: int)
    requires Distinct(order)
    requires forall i :: 0 <= i < |samples| && InWindow(samples[i], cutoff) ==> samples[i].cluster in order
    ensures SumOver(order, samples, p, cutoff) == Sorting.CountIf(Within(cutoff, p), samples)
    decreases |samples|
  {
    if samples == [] {
      NothingOver(order, p, cutoff);
    } else {
      var n := |samples| - 1;
      assert samples == samples[..n] + [samples[n]];
      RunsAddUp(order, samples[..n], p, cutoff);
      SumSnoc(order, samples[..n], samples[n], p, cutoff);
      Sorting.CountSnoc(Within(cutoff, p), samples[..n], samples[n]);
    }
  }

  // ----- The accumulation loop -----

  /** The clusters with a run in the window, in order of their first. */
  function FirstSeen(samples: seq<Sample>, cutoff: int): seq<string> {
    if samples == [] then []
    else
      var n := |samples| - 1;
      var before := FirstSeen(samples[..n], cutoff);
      if InWindow(samples[n], cutoff) && samples[n].cluster !in before then before + [samples[n].cluster] else before
  }

  /** Some run of the cluster in the window is among the first `n`. */
  ghost predicate SeenBy(samples: seq<Sample>, cutoff: int, cluster: string, n: int) {
    exists i :: 0 <= i < n && i < |samples| && samples[i].cluster == cluster && InWindow(samples[i], cutoff)
  }

  lemma SeenBySnoc(samples: seq<Sample>, cutoff: int, cluster: string, n: nat)
    requires samples != [] && n < |samples|
    ensures SeenBy(samples[..|samples| - 1], cutoff, cluster, n) <==> SeenBy(samples, cutoff, cluster, n)
    ensures SeenBy(samples, cutoff, cluster, |samples|) <==>
      SeenBy(samples, cutoff, cluster, |samples| - 1)
      || (samples[|samples| - 1].cluster == cluster && InWindow(samples[|samples| - 1], cutoff))
  {
    var front := samples[..|samples| - 1];
    assert forall i :: 0 <= i < |front| ==> front[i] == samples[i];
    if SeenBy(front, cutoff, cluster, n) {
      var i :| 0 <= i < n && i < |front| && front[i].cluster == cluster && InWindow(front[i], cutoff);
      assert samples[i].cluster == cluster;
    }
    if SeenBy(samples, cutoff, cluster, n) {
      var i :| 0 <= i < n && i < |samples| && samples[i].cluster == cluster && InWindow(samples[i], cutoff);
      assert front[i].cluster == cluster;
    }
  }

  /** At some moment the one cluster had a run and the other had none yet. */
  ghost predicate SeenBefore(samples: seq<Sample>, cutoff: int, a: string, b: string) {
    exists n: nat :: n <= |samples| && SeenBy(samples, cutoff, a, n) && !SeenBy(samples, cutoff, b, n)
  }

  lemma SeenBeforeGrows(samples: seq<Sample>, cutoff: int, a: string, b: string)
    requires samples != [] && SeenBefore(samples[..|samples| - 1], cutoff, a, b)
    ensures SeenBefore(samples, cutoff, a, b)
  {
    var front := samples[..|samples| - 1];
    var n: nat :| n <= |front| && SeenBy(front, cutoff, a, n) && !SeenBy(front, cutoff, b, n);
    SeenBySnoc(samples, cutoff, a, n);
    SeenBySnoc(samples, cutoff, b, n);
  }

  ghost predicate InOrderOfRuns(order: seq<string>, samples: seq<Sample>, cutoff: int) {
    forall j, k :: 0 <= j < k < |order| ==> SeenBefore(samples, cutoff, order[j], order[k])
  }

  lemma FirstSeenStep(samples: seq<Sample>, cutoff: int, before: seq<string>)
    requires samples != [] && InOrderOfRuns(before, samples[..|samples| - 1], cutoff)
    requires forall id :: id in before <==> SeenBy(samples[..|samples| - 1], cutoff, id, |samples| - 1)
    ensures InOrderOfRuns(before, samples, cutoff)
    ensures var c := samples[|samples| - 1].cluster;
      c !in before ==> InOrderOfRuns(before + [c], samples, cutoff)
  {
    var n := |samples| - 1;
    var c := samples[n].cluster;
    forall j, k | 0 <= j < k < |before| ensures SeenBefore(samples, cutoff, before[j], before[k]) {
      SeenBeforeGrows(samples, cutoff, before[j], before[k]);
    }
    if c !in before {
      forall j | 0 <= j < |before| ensures SeenBefore(samples, cutoff, before[j], c) {
        assert before[j] in before;
        SeenBySnoc(samples, cutoff, before[j], n);
        SeenBySnoc(samples, cutoff, c, n);
      }
    }
  }

  /** The clusters with a run in the window, in the order of their first one. */
  lemma {:induction false} FirstSeenExact(samples: seq<Sample>, cutoff: int)
    ensures forall id :: id in FirstSeen(samples, cutoff) <==> SeenBy(samples, cutoff, id, |samples|)
    ensures InOrderOfRuns(FirstSeen(samples, cutoff), samples, cutoff)
    decreases |samples|
  {
    if samples != [] {
      var n := |samples| - 1;
      var before := FirstSeen(samples[..n], cutoff);
      FirstSeenExact(samples[..n], cutoff);
      FirstSeenStep(samples, cutoff, before);
      forall id ensures id in FirstSeen(samples, cutoff) <==> SeenBy(samples, cutoff, id, |samples|) {
        SeenBySnoc(samples, cutoff, id, n);
      }
    }
  }

  /** The accumulators when each cluster's runs so far are `own`. */
  ghost predicate Rolled(own: string -> seq<Sample>, order: seq<string>, accs: map<string, Acc>) {
    && Distinct(order)
    && (forall id :: id in accs <==> id in order)
    && (forall id :: id in accs <==> own(id) != [])
    && (forall id :: id in accs ==> accs[id] == Fold(own(id)))
  }

  lemma FoldSnoc(own: seq<Sample>, s: Sample)
    ensures Fold(own + [s]) == Absorb(Fold(own), s)
  {
    assert (own + [s])[..|own|] == own;
  }

  /** One more run of a cluster. */
  lemma RollStep(own: string -> seq<Sample>, own': string -> seq<Sample>, id: string, a: Acc,
                 order: seq<string>, accs: map<string, Acc>)
    requires Rolled(own, order, accs)
    requires forall x :: x != id ==> own'(x) == own(x)
    requires own'(id) != [] && a == Fold(own'(id))
    ensures Rolled(own', if id in accs then order else order + [id], accs[id := a])
  {
  }

  lemma AbsorbStep(own: string -> seq<Sample>, own': string -> seq<Sample>, s: Sample, order: seq<string>,
                   accs: map<string, Acc>)
    requires Rolled(own, order, accs)
    requires forall x :: own'(x) == if x == s.cluster then own(x) + [s] else own(x)
    ensures var id := s.cluster;
      Rolled(own', if id in accs then order else order + [id],
             accs[id := Absorb(if id in accs then accs[id] else EMPTY, s)])
  {
    var id := s.cluster;
    FoldSnoc(own(id), s);
    assert id !in accs ==> own(id) == [];
    RollStep(own, own', id, Fold(own'(id)), order, accs);
  }

  lemma RolledSame(own: string -> seq<Sample>, own': string -> seq<Sample>, order: seq<string>, accs: map<string, Acc>)
    requires Rolled(own, order, accs) && forall x :: own'(x) == own(x)
    ensures Rolled(own', order, accs)
  {
  }

  ghost function OwnBy(samples: seq<Sample>, cutoff: int): string -> seq<Sample> {
    id => Own(samples, id, cutoff)
  }

  lemma NothingRolled(none: seq<Sample>, cutoff: int)
    requires none == []
    ensures Rolled(OwnBy(none, cutoff), FirstSeen(none, cutoff), map[])
  {
  }

  lemma AccumulateStep(samples: seq<Sample>, s: Sample, cutoff: int, order: seq<string>, accs: map<string, Acc>)
    requires Rolled(OwnBy(samples, cutoff), order, accs)
    ensures Rolled(OwnBy(samples + [s], cutoff),
                   if InWindow(s, cutoff) && s.cluster !in accs then order + [s.cluster] else order,
                   if InWindow(s, cutoff)
                     then accs[s.cluster := Absorb(if s.cluster in accs then accs[s.cluster] else EMPTY, s)] else accs)
  {
    var own, own' := OwnBy(samples, cutoff), OwnBy(samples + [s], cutoff);
    forall id ensures own'(id) == if InWindow(s, cutoff) && id == s.cluster then own(id) + [s] else own(id) {
      OwnSnoc(samples, s, cutoff, id);
    }
    if InWindow(s, cutoff) {
      AbsorbStep(own, own', s, order, accs);
    } else {
      RolledSame(own, own', order, accs);
    }
  }

  lemma FirstSeenSnoc(samples: seq<Sample>, s: Sample, cutoff: int, accs: map<string, Acc>)
    requires forall id :: id in accs <==> id in FirstSeen(samples, cutoff)
    ensures FirstSeen(samples + [s], cutoff)
         == if InWindow(s, cutoff) && s.cluster !in accs then FirstSeen(samples, cutoff) + [s.cluster]
           else FirstSeen(samples, cutoff)
  {
    assert (samples + [s])[..|samples|] == samples;
  }

  lemma AccumulateNext(samples: seq<Sample>, i: nat, cutoff: int, order: seq<string>, accs: map<string, Acc>)
    requires i < |samples|
    requires Rolled(OwnBy(samples[..i], cutoff), order, accs) && order == FirstSeen(samples[..i], cutoff)
    ensures var s := samples[i];
      var order' := if InWindow(s, cutoff) && s.cluster !in accs then order + [s.cluster] else order;
      && Rolled(OwnBy(samples[..i + 1], cutoff), order',
                if InWindow(s, cutoff)
                  then accs[s.cluster := Absorb(if s.cluster in accs then accs[s.cluster] else EMPTY, s)] else accs)
      && order' == FirstSeen(samples[..i + 1], cutoff)
  {
    assert samples[..i + 1] == samples[..i] + [samples[i]];
    AccumulateStep(samples[..i], samples[i], cutoff, order, accs);
    FirstSeenSnoc(samples[..i], samples[i], cutoff, accs);
  }

  /** One run added to its cluster's accumulator, which appears with its first run in the window. */
  method AbsorbRun(s: Sample, cutoff: int, accs: map<string, Acc>, order: seq<string>)
    returns (accs': map<string, Acc>, order': seq<string>)
    ensures accs' == if InWindow(s, cutoff)
      then accs[s.cluster := Absorb(if s.cluster in accs then accs[s.cluster] else EMPTY, s)] else accs
    ensures order' == if InWindow(s, cutoff) && s.cluster !in accs then order + [s.cluster] else order
  {
    accs', order' := accs, order;
    if !InWindow(s, cutoff) { return; }
    var a := if s.cluster in accs then accs[s.cluster] else EMPTY;
    if s.cluster !in accs { order' := order + [s.cluster]; }
    accs' := accs[s.cluster := Absorb(a, s)];
  }

  method Accumulate(samples: seq<Sample>, cutoff: int) returns (accs: map<string, Acc>, order: seq<string>)
    ensures Rolled(OwnBy(samples, cutoff), order, accs) && order == FirstSeen(samples, cutoff)
  {
    accs, order := map[], [];
    var i := 0;
    NothingRolled(samples[..0], cutoff);
    while i < |samples|
      invariant 0 <= i <= |samples|
      invariant Rolled(OwnBy(samples[..i], cutoff), order, accs) && order == FirstSeen(samples[..i], cutoff)
    {
      AccumulateNext(samples, i, cutoff, order, accs);
      accs, order := AbsorbRun(samples[i], cutoff, accs, order);
      i := i + 1;
    }
    assert samples[..i] == samples;
  }

  // ----- The loop over the clusters -----

  datatype Summary = Summary(rows: seq<Slo>, attempts: nat, failures: int, overall: nat, healthy: nat,
                             degraded: nat, failing: nat)

  function HasBand(b: Band): Slo -> bool {
    (row: Slo) => row.band == b
  }

  /** The tallies of bands count the rows. */
  predicate Tallied(sum: Summary) {
    && sum.healthy == Sorting.CountIf(HasBand(Healthy), sum.rows)
    && sum.degraded == Sorting.CountIf(HasBand(Degraded), sum.rows)
    && sum.failing == Sorting.CountIf(HasBand(Failing), sum.rows)
  }

  ghost predicate Built(sum: Summary, order: seq<string>, samples: seq<Sample>, cutoff: int, up: Ties) {
    && Clusters(sum.rows) == order
    && OwnRows(sum.rows, samples, cutoff, up)
    && sum.attempts == SumOver(order, samples, AnyRun, cutoff)
    && sum.failures == SumOver(order, samples, Failed, cutoff)
  }

  function AddRow(sum: Summary, row: Slo): Summary {
    sum.(rows := sum.rows + [row], attempts := sum.attempts + row.attempts, failures := sum.failures + row.failures,
         healthy := sum.healthy + if row.band.Healthy? then 1 else 0,
         degraded := sum.degraded + if row.band.Degraded? then 1 else 0,
         failing := sum.failing + if row.band.Failing? then 1 else 0)
  }

  lemma TalliedStep(sum: Summary, row: Slo)
    requires Tallied(sum)
    ensures Tallied(AddRow(sum, row))
  {
    Sorting.CountSnoc(HasBand(Healthy), sum.rows, row);
    Sorting.CountSnoc(HasBand(Degraded), sum.rows, row);
    Sorting.CountSnoc(HasBand(Failing), sum.rows, row);
  }

  lemma ClustersSnoc(rows: seq<Slo>, row: Slo)
    ensures Clusters(rows + [row]) == Clusters(rows) + [row.cluster]
  {
  }

  lemma SumLast(order: seq<string>, id: string, samples: seq<Sample>, p: Sample -> bool, cutoff: int)
    ensures SumOver(order + [id], samples, p, cutoff)
         == SumOver(order, samples, p, cutoff) + Sorting.CountIf(p, Own(samples, id, cutoff))
  {
    assert (order + [id])[..|order|] == order;
  }

  lemma BuiltStep(sum: Summary, row: Slo, order: seq<string>, samples: seq<Sample>, cutoff: int, up: Ties)
    requires Built(sum, order, samples, cutoff, up) && RowFor(row, samples, cutoff, up)
    ensures Built(AddRow(sum, row), order + [row.cluster], samples, cutoff, up)
  {
    var own := Own(samples, row.cluster, cutoff);
    ClustersSnoc(sum.rows, row);
    SumLast(order, row.cluster, samples, AnyRun, cutoff);
    SumLast(order, row.cluster, samples, Failed, cutoff);
    FoldCounts(own, "");
    FoldBalances(own);
  }

  lemma BuiltNext(sum: Summary, row: Slo, order: seq<string>, i: nat, samples: seq<Sample>, cutoff: int, up: Ties)
    requires i < |order| && row.cluster == order[i] && Tallied(sum)
    requires Built(sum, order[..i], samples, cutoff, up) && RowFor(row, samples, cutoff, up)
    ensures Built(AddRow(sum, row), order[..i + 1], samples, cutoff, up) && Tallied(AddRow(sum, row))
  {
    assert order[..i + 1] == order[..i] + [order[i]];
    BuiltStep(sum, row, order[..i], samples, cutoff, up);
    TalliedStep(sum, row);
  }

  /** The loop over the clusters, in order of first appearance. */
  method BuildRows(samples: seq<Sample>, cutoff: int, up: Ties, accs: map<string, Acc>, order: seq<string>)
    returns (sum: Summary)
    requires forall id :: id in order ==> id in accs && accs[id] == Fold(Own(samples, id, cutoff))
    ensures Built(sum, order, samples, cutoff, up) && Tallied(sum)
  {
    sum := Summary([], 0, 0, 0, 0, 0, 0);
    var i := 0;
    while i < |order|
      invariant 0 <= i <= |order|
      invariant Built(sum, order[..i], samples, cutoff, up) && Tallied(sum)
    {
      var id := order[i];
      var row := BuildRow(id, accs[id], up, Own(samples, id, cutoff));
      BuiltNext(sum, row, order, i, samples, cutoff, up);
      sum := AddRow(sum, row);
      i := i + 1;
    }
    assert order[..i] == order;
  }

  // ----- The roll-up -----

  predicate WorseOrEqual(x: Slo, y: Slo) {
    x.rate <= y.rate
  }

  /** The cluster of `x` comes before that of `y` in `order`. */
  ghost predicate Precedes(order: seq<string>, x: string, y: string) {
    exists i, j :: 0 <= i < j < |order| && order[i] == x && order[j] == y
  }

  ghost function RowPrecedes(order: seq<string>): (Slo, Slo) -> bool {
    (x: Slo, y: Slo) => Precedes(order, x.cluster, y.cluster)
  }

  /** Worst first; clusters of the same rate keep their order of first appearance. */
  ghost predicate Ranked(rows: seq<Slo>, order: seq<string>) {
    forall i, j :: 0 <= i < j < |rows| ==>
      var x, y := rows[i], rows[j];
      x.rate < y.rate || (x.rate == y.rate && Precedes(order, x.cluster, y.cluster))
  }

  lemma RowsRank(rows: seq<Slo>, order: seq<string>)
    requires Clusters(rows) == order && Distinct(order)
    ensures Ranked(Sorting.Sort(WorseOrEqual, rows), order) && Distinct(Clusters(Sorting.Sort(WorseOrEqual, rows)))
  {
    var before := RowPrecedes(order);
    forall i, j | 0 <= i < j < |rows| ensures before(rows[i], rows[j]) {
      assert order[i] == rows[i].cluster && order[j] == rows[j].cluster;
    }
    Sorting.SortStable(WorseOrEqual, before, rows);
    var out := Sorting.Sort(WorseOrEqual, rows);
    forall i, j | 0 <= i < j < |out|
      ensures out[i].rate < out[j].rate
        || (out[i].rate == out[j].rate && Precedes(order, out[i].cluster, out[j].cluster))
      ensures out[i].cluster != out[j].cluster
    {
      assert Sorting.Ahead(WorseOrEqual, before, out[i], out[j]);
    }
  }

  /** Ranking keeps the rows. */
  lemma RankedKeeps(rows: seq<Slo>)
    ensures var out := Sorting.Sort(WorseOrEqual, rows);
      (forall row :: row in out <==> row in rows) && multiset(out) == multiset(rows)
  {
    assert Sorting.TotalPreorder(WorseOrEqual);
    Sorting.SortMembers(WorseOrEqual, rows);
    Sorting.SortCorrect(WorseOrEqual, rows);
  }

  lemma RankedTallies(sum: Summary)
    requires Tallied(sum)
    ensures Tallied(sum.(rows := Sorting.Sort(WorseOrEqual, sum.rows)))
  {
    Sorting.SortCounts(WorseOrEqual, HasBand(Healthy), sum.rows);
    Sorting.SortCounts(WorseOrEqual, HasBand(Degraded), sum.rows);
    Sorting.SortCounts(WorseOrEqual, HasBand(Failing), sum.rows);
  }

  lemma {:induction false} OwnHas(samples: seq<Sample>, cutoff: int, i: nat)
    requires i < |samples| && InWindow(samples[i], cutoff)
    ensures Own(samples, samples[i].cluster, cutoff) != []
    decreases |samples|
  {
    if i < |samples| - 1 { OwnHas(samples[..|samples| - 1], cutoff, i); }
  }

  lemma CoveredByOrder(samples: seq<Sample>, cutoff: int, order: seq<string>)
    requires forall id :: id in order <==> Own(samples, id, cutoff) != []
    ensures forall i :: 0 <= i < |samples| && InWindow(samples[i], cutoff) ==> samples[i].cluster in order
  {
    forall i | 0 <= i < |samples| && InWindow(samples[i], cutoff) ensures samples[i].cluster in order {
      OwnHas(samples, cutoff, i);
    }
  }

  lemma FailuresBounded(cutoff: int, samples: seq<Sample>)
    ensures Sorting.CountIf(Within(cutoff, Failed), samples) <= Sorting.CountIf(Within(cutoff, AnyRun), samples)
  {
    forall s: Sample ensures Within(cutoff, Failed)(s) ==> Within(cutoff, AnyRun)(s) {
      assert AnyRun(s);
    }
    Sorting.CountMonotone(Within(cutoff, Failed), Within(cutoff, AnyRun), samples);
  }

  lemma ClustersCover(rows: seq<Slo>, order: seq<string>)
    requires Clusters(rows) == order
    ensures forall id :: (exists row :: row in rows && row.cluster == id) <==> id in order
  {
    forall id ensures (exists row :: row in rows && row.cluster == id) <==> id in order {
      if id in order {
        var i :| 0 <= i < |order| && order[i] == id;
        assert rows[i] in rows && rows[i].cluster == id;
      }
      if row :| row in rows && row.cluster == id {
        var i :| 0 <= i < |rows| && rows[i] == row;
        assert order[i] == id;
      }
    }
  }

  /** The clusters with a run since `cutoff` have a row each, and no other has one. */
  ghost predicate Covers(rows: seq<Slo>, samples: seq<Sample>, cutoff: int) {
    && (forall id :: (exists row :: row in rows && row.cluster == id) <==> Own(samples, id, cutoff) != [])
    && Distinct(Clusters(rows))
  }

  ghost predicate Totalled(sum: Summary, samples: seq<Sample>, cutoff: int) {
    && sum.attempts == Sorting.CountIf(Within(cutoff, AnyRun), samples)
    && sum.failures == Sorting.CountIf(Within(cutoff, Failed), samples)
    && 0 <= sum.failures <= sum.attempts
  }

  /** The roll-up of the runs since `cutoff`: each row computed from its own cluster's runs alone, worst first;
      attempts, failures and bands add up. */
  ghost predicate RollUp(sum: Summary, samples: seq<Sample>, cutoff: int, up: Ties) {
    && Covers(sum.rows, samples, cutoff)
    && OwnRows(sum.rows, samples, cutoff, up)
    && Ranked(sum.rows, FirstSeen(samples, cutoff))
    && Totalled(sum, samples, cutoff)
    && sum.overall == Rate(sum.attempts - sum.failures, sum.attempts, up)
    && Tallied(sum)
  }

  lemma BuiltTotals(sum: Summary, samples: seq<Sample>, cutoff: int, up: Ties, order: seq<string>)
    requires Built(sum, order, samples, cutoff, up) && Distinct(order)
    requires forall id :: id in order <==> Own(samples, id, cutoff) != []
    ensures Totalled(sum, samples, cutoff)
  {
    CoveredByOrder(samples, cutoff, order);
    RunsAddUp(order, samples, AnyRun, cutoff);
    RunsAddUp(order, samples, Failed, cutoff);
    FailuresBounded(cutoff, samples);
  }

  lemma RankedCovers(rows: seq<Slo>, samples: seq<Sample>, cutoff: int, order: seq<string>)
    requires Clusters(rows) == order && Distinct(order)
    requires forall id :: id in order <==> Own(samples, id, cutoff) != []
    ensures Covers(Sorting.Sort(WorseOrEqual, rows), samples, cutoff)
  {
    RowsRank(rows, order);
    RankedKeeps(rows);
    ClustersCover(rows, order);
  }

  lemma RankedOwn(rows: seq<Slo>, samples: seq<Sample>, cutoff: int, up: Ties)
    requires OwnRows(rows, samples, cutoff, up)
    ensures OwnRows(Sorting.Sort(WorseOrEqual, rows), samples, cutoff, up)
  {
    RankedKeeps(rows);
  }

  /** The rows of a cluster-by-cluster build, ranked. */
  lemma RankedRollUp(sum: Summary, out: seq<Slo>, samples: seq<Sample>, cutoff: int, up: Ties, order: seq<string>)
    requires Built(sum, order, samples, cutoff, up) && Tallied(sum) && order == FirstSeen(samples, cutoff)
    requires Distinct(order) && forall id :: id in order <==> Own(samples, id, cutoff) != []
    requires out == Sorting.Sort(WorseOrEqual, sum.rows)
    ensures Covers(out, samples, cutoff) && OwnRows(out, samples, cutoff, up) && Ranked(out, order)
    ensures Totalled(sum, samples, cutoff) && Tallied(sum.(rows := out))
  {
    BuiltTotals(sum, samples, cutoff, up, order);
    RankedCovers(sum.rows, samples, cutoff, order);
    RowsRank(sum.rows, order);
    RankedOwn(sum.rows, samples, cutoff, up);
    RankedTallies(sum);
  }

  lemma RollUpOf(sum: Summary, out: seq<Slo>, samples: seq<Sample>, cutoff: int, up: Ties)
    requires Covers(out, samples, cutoff) && OwnRows(out, samples, cutoff, up)
      && Ranked(out, FirstSeen(samples, cutoff))
    requires Totalled(sum, samples, cutoff) && Tallied(sum.(rows := out))
    ensures RollUp(sum.(overall := Rate(sum.attempts - sum.failures, sum.attempts, up), rows := out), samples,
                   cutoff, up)
  {
  }

  method SummarizeSince(samples: seq<Sample>, cutoff: int, up: Ties) returns (sum: Summary)
    ensures RollUp(sum, samples, cutoff, up)
  {
    var accs, order := Accumulate(samples, cutoff);
    sum := BuildRows(samples, cutoff, up, accs, order);
    var out := Sorting.Sort(WorseOrEqual, sum.rows);
    RankedRollUp(sum, out, samples, cutoff, up, order);
    RollUpOf(sum, out, samples, cutoff, up);
    sum := sum.(overall := Rate(sum.attempts - sum.failures, sum.attempts, up), rows := out);
  }

  /** One hour in nanoseconds. */
  const HOUR := 3_600_000_000_000

  /** The roll-up of the last hours; a window that is not positive is one day. */
  method Summarize(samples: seq<Sample>, windowHours: int, now: int, up: Ties) returns (sum: Summary)
    ensures RollUp(sum, samples, now - (if windowHours <= 0 then 24 else windowHours) * 3_600_000_000_000, up)
  {
    var hours := windowHours;
    if hours <= 0 { hours := 24; }
    sum := SummarizeSince(samples, now - hours * HOUR, up);
  }
}
