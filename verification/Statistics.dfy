/** The five-minute statistics of history_store.rs, kept one upsert at a time, and their reading in http.rs.
    Arithmetic is over the reals. */
module Statistics {
  import opened Text
  import opened History

  datatype Bucket = Bucket(min: real, max: real, mean: real, count: nat)

  datatype Reading = Reading(id: string, ts: nat, value: real)

  type Key = (string, nat)

  function BucketTs(ts: nat): (b: nat)
    ensures b <= ts < b + 300 && b % 300 == 0
  {
    ts - ts % 300
  }

  /** INSERT ... ON CONFLICT DO UPDATE of record_and_aggregate. */
  function Upsert(stats: map<Key, Bucket>, r: Reading): map<Key, Bucket> {
    var key := (r.id, BucketTs(r.ts));
    if key !in stats then stats[key := Bucket(r.value, r.value, r.value, 1)]
    else
      var b := stats[key];
      stats[key := Bucket(Min(b.min, r.value), Max(b.max, r.value),
                          (b.mean * b.count as real + r.value) / (b.count + 1) as real, b.count + 1)]
  }

  /** The table after the upserts have run in the order given. */
  function Table(readings: seq<Reading>): map<Key, Bucket> {
    if readings == [] then map[] else Upsert(Table(readings[..|readings| - 1]), readings[|readings| - 1])
  }

  /** The values read in the window of a key. */
  function Window(readings: seq<Reading>, key: Key): seq<real> {
    if readings == [] then []
    else
      var before, r := Window(readings[..|readings| - 1], key), readings[|readings| - 1];
      if (r.id, BucketTs(r.ts)) == key then before + [r.value] else before
  }

  function Sum(vs: seq<real>): real {
    if vs == [] then 0.0 else Sum(vs[..|vs| - 1]) + vs[|vs| - 1]
  }

  // ---------------------------------------------------------------------------
  // stats_for_slice, the batch computation
  // ---------------------------------------------------------------------------

  /** A running extreme, which starts at an infinity. */
  datatype Extreme = Infinite | Finite(value: real)

  /** What min, mean and max have to be. */
  ghost predicate Summarises(vs: seq<real>, min: real, mean: real, max: real) {
    && vs != []
    && min in vs && (forall v :: v in vs ==> min <= v)
    && max in vs && (forall v :: v in vs ==> v <= max)
    && mean * |vs| as real == Sum(vs)
  }

  function Values(entries: seq<Entry>): (vs: seq<real>)
    ensures |vs| == |entries| && forall k :: 0 <= k < |vs| ==> vs[k] == entries[k].value
  {
    seq(|entries|, k requires 0 <= k < |entries| => entries[k].value)
  }

  /** What the loop knows behind the values vs. */
  predicate SoFar(vs: seq<real>, min: Extreme, max: Extreme, sum: real) {
    && (min == Infinite <==> vs == []) && (max == Infinite <==> vs == [])
    && (vs != [] ==> min.value in vs && forall v :: v in vs ==> min.value <= v)
    && (vs != [] ==> max.value in vs && forall v :: v in vs ==> v <= max.value)
    && sum == Sum(vs)
  }

  lemma OneMoreValue(vs: seq<real>, v: real, min: Extreme, max: Extreme, sum: real)
    requires SoFar(vs, min, max, sum)
    ensures SoFar(vs + [v], if min == Infinite || v < min.value then Finite(v) else min,
                  if max == Infinite || max.value < v then Finite(v) else max, sum + v)
  {
    assert (vs + [v])[..|vs|] == vs;
  }

  method StatsForSlice(entries: seq<Entry>) returns (r: Option<(real, real, real)>)
    ensures r == None <==> entries == []
    ensures r.Some? ==> Summarises(Values(entries), r.value.0, r.value.1, r.value.2)
  {
    if entries == [] {
      return None;
    }
    var min, max, sum := Infinite, Infinite, 0.0;
    ghost var vs := Values(entries);
    var i := 0;
    while i < |entries|
      invariant i <= |entries|
      invariant SoFar(vs[..i], min, max, sum)
    {
      var e := entries[i];
      assert vs[..i + 1] == vs[..i] + [e.value];
      OneMoreValue(vs[..i], e.value, min, max, sum);
      if min == Infinite || e.value < min.value {
        min := Finite(e.value);
      }
      if max == Infinite || max.value < e.value {
        max := Finite(e.value);
      }
      sum := sum + e.value;
      i := i + 1;
    }
    assert vs[..i] == vs;
    var mean := sum / |entries| as real;
    r := Some((min.value, mean, max.value));
  }

  // ---------------------------------------------------------------------------
  // Any completion order
  // ---------------------------------------------------------------------------

  lemma {:induction false} SumOfDropped(vs: seq<real>, k: nat)
    requires k < |vs|
    ensures Sum(vs) == Sum(Dropped(vs, k)) + vs[k]
  {
    var n := |vs| - 1;
    var rest := Dropped(vs, k);
    if k == n {
      assert rest == vs[..n];
    } else {
      SumOfDropped(vs[..n], k);
      assert Dropped(vs[..n], k) == rest[..n - 1];
      assert rest[n - 1] == vs[n];
    }
  }

  /** A sum does not depend on the order of its terms. */
  lemma {:induction false} SumOfPermutation(a: seq<real>, b: seq<real>)
    requires multiset(a) == multiset(b)
    ensures Sum(a) == Sum(b)
    decreases |a|
  {
    SameMembers(a, b);
    if a != [] {
      var k := DropFromBoth(a, b);
      SumOfPermutation(a[..|a| - 1], Dropped(b, k));
      SumOfDropped(b, k);
    }
  }

  /** The summary of a multiset of values is unique. */
  lemma SummaryIsUnique(a: seq<real>, b: seq<real>, s: (real, real, real), t: (real, real, real))
    requires multiset(a) == multiset(b)
    requires Summarises(a, s.0, s.1, s.2) && Summarises(b, t.0, t.1, t.2)
    ensures s == t
  {
    SameMembers(a, b);
    SumOfPermutation(a, b);
    SameQuotient(s.1, t.1, |a|, |b|, Sum(a));
  }

  lemma SameQuotient(x: real, y: real, m: nat, n: nat, sum: real)
    requires 0 < m == n && x * m as real == sum && y * n as real == sum
    ensures x == y
  {
    assert x == sum / m as real && y == sum / n as real;
  }

  lemma SummaryOfOne(v: real)
    ensures Summarises([v], v, v, v)
  {
    assert [v][..0] == [];
    assert Sum([]) == 0.0;
  }

  /** One upsert keeps minimum, maximum and mean exact. */
  lemma SummaryOfOneMore(vs: seq<real>, min: real, mean: real, max: real, v: real)
    requires Summarises(vs, min, mean, max)
    ensures Summarises(vs + [v], Min(min, v), (mean * |vs| as real + v) / (|vs| + 1) as real, Max(max, v))
  {
    assert (vs + [v])[..|vs|] == vs;
    assert v in vs + [v] && min in vs + [v] && max in vs + [v];
    MeanStep(mean, |vs|, v);
  }

  lemma MeanStep(mean: real, n: nat, v: real)
    ensures (mean * n as real + v) / (n + 1) as real * (n + 1) as real == mean * n as real + v
  {
  }

  /** The bucket of a key summarises the values of its window, and is there exactly if there are any. */
  ghost predicate BucketHolds(stats: map<Key, Bucket>, key: Key, vs: seq<real>) {
    && (key in stats <==> vs != [])
    && (key in stats ==>
          var b := stats[key]; Summarises(vs, b.min, b.mean, b.max) && b.count == |vs|)
  }

  lemma UpsertHolds(stats: map<Key, Bucket>, r: Reading, vs: seq<real>)
    requires BucketHolds(stats, (r.id, BucketTs(r.ts)), vs)
    ensures BucketHolds(Upsert(stats, r), (r.id, BucketTs(r.ts)), vs + [r.value])
  {
    var key := (r.id, BucketTs(r.ts));
    if key in stats {
      SummaryOfOneMore(vs, stats[key].min, stats[key].mean, stats[key].max, r.value);
    } else {
      assert vs + [r.value] == [r.value];
      SummaryOfOne(r.value);
    }
  }

  /** Whatever the order of the upserts so far: a key is present exactly if its window has readings, and its
      bucket summarises them. */
  lemma {:induction false} TableSummarises(readings: seq<Reading>, key: Key)
    ensures BucketHolds(Table(readings), key, Window(readings, key))
  {
    if readings != [] {
      var n := |readings| - 1;
      TableSummarises(readings[..n], key);
      if (readings[n].id, BucketTs(readings[n].ts)) == key {
        UpsertHolds(Table(readings[..n]), readings[n], Window(readings[..n], key));
      }
    }
  }

  function InWindow(r: Reading, key: Key): multiset<real> {
    if (r.id, BucketTs(r.ts)) == key then multiset{r.value} else multiset{}
  }

  lemma WindowOneMore(readings: seq<Reading>, key: Key)
    requires readings != []
    ensures var n := |readings| - 1;
      multiset(Window(readings, key)) == multiset(Window(readings[..n], key)) + InWindow(readings[n], key)
  {
  }

  lemma {:induction false} WindowOfDropped(readings: seq<Reading>, k: nat, key: Key)
    requires k < |readings|
    ensures multiset(Window(readings, key))
         == multiset(Window(Dropped(readings, k), key)) + InWindow(readings[k], key)
  {
    var n := |readings| - 1;
    var rest := Dropped(readings, k);
    WindowOneMore(readings, key);
    if k == n {
      assert rest == readings[..n];
    } else {
      WindowOfDropped(readings[..n], k, key);
      WindowOneMore(rest, key);
      assert Dropped(readings[..n], k) == rest[..n - 1];
      assert rest[n - 1] == readings[n];
    }
  }

  /** The window of a key does not depend on the order either, up to order. */
  lemma {:induction false} WindowOfPermutation(a: seq<Reading>, b: seq<Reading>, key: Key)
    requires multiset(a) == multiset(b)
    ensures multiset(Window(a, key)) == multiset(Window(b, key))
    decreases |a|
  {
    SameMembers(a, b);
    if a != [] {
      var k := DropFromBoth(a, b);
      WindowOfPermutation(a[..|a| - 1], Dropped(b, k), key);
      WindowOfDropped(b, k, key);
      WindowOfDropped(a, |a| - 1, key);
      assert Dropped(a, |a| - 1) == a[..|a| - 1];
    }
  }

  /** Incremental statistics equal batch statistics: whatever order the upserts completed in, a bucket equals the
      summary of the entries of its window, taken as one slice in any order. */
  lemma BucketsEqualBatch(completed: seq<Reading>, readings: seq<Reading>, key: Key, slice: seq<Entry>,
                          stats: (real, real, real))
    requires multiset(completed) == multiset(readings)
    requires multiset(Values(slice)) == multiset(Window(readings, key))
    requires Summarises(Values(slice), stats.0, stats.1, stats.2)
    ensures key in Table(completed)
    ensures Table(completed)[key] == Bucket(stats.0, stats.2, stats.1, |slice|)
  {
    TableSummarises(completed, key);
    WindowOfPermutation(completed, readings, key);
    var vs := Window(completed, key);
    SameMembers(vs, Values(slice));
    var b := Table(completed)[key];
    SummaryIsUnique(vs, Values(slice), (b.min, b.mean, b.max), stats);
  }

  // ---------------------------------------------------------------------------
  // The history page: folding the buckets of a long range
  // ---------------------------------------------------------------------------

  /** The readings a page from `since` covers: those whose whole bucket starts at or after it. */
  function Covered(readings: seq<Reading>, id: string, since: nat): seq<real> {
    if readings == [] then []
    else
      var before, r := Covered(readings[..|readings| - 1], id, since), readings[|readings| - 1];
      if r.id == id && BucketTs(r.ts) >= since then before + [r.value] else before
  }

  /** stats_since: the buckets of the entity that start at or after `since`, in order. */
  ghost predicate AnswersStats(keys: seq<nat>, stats: map<Key, Bucket>, id: string, since: nat) {
    && (forall i, j :: 0 <= i < j < |keys| ==> keys[i] < keys[j])
    && (forall b: nat :: b in keys <==> b >= since && (id, b) in stats)
  }

  /** The page folds minima from plus infinity and maxima from minus infinity. */
  function MinFold(bs: seq<Bucket>): Extreme {
    if bs == [] then Infinite
    else match MinFold(bs[..|bs| - 1])
      case Infinite => Finite(bs[|bs| - 1].min)
      case Finite(m) => Finite(Min(m, bs[|bs| - 1].min))
  }

  function MaxFold(bs: seq<Bucket>): Extreme {
    if bs == [] then Infinite
    else match MaxFold(bs[..|bs| - 1])
      case Infinite => Finite(bs[|bs| - 1].max)
      case Finite(m) => Finite(Max(m, bs[|bs| - 1].max))
  }

  lemma {:induction false} FoldsAreExtremes(bs: seq<Bucket>)
    requires bs != []
    ensures MinFold(bs).Finite? && exists k :: 0 <= k < |bs| && bs[k].min == MinFold(bs).value
    ensures MaxFold(bs).Finite? && exists k :: 0 <= k < |bs| && bs[k].max == MaxFold(bs).value
    ensures forall k :: 0 <= k < |bs| ==> MinFold(bs).value <= bs[k].min && bs[k].max <= MaxFold(bs).value
  {
    var n := |bs| - 1;
    if n > 0 {
      FoldsAreExtremes(bs[..n]);
    }
  }

  function BucketsOf(keys: seq<nat>, stats: map<Key, Bucket>, id: string): (r: seq<Bucket>)
    requires forall b :: b in keys ==> (id, b) in stats
    ensures |r| == |keys| && forall i :: 0 <= i < |keys| ==> r[i] == stats[(id, keys[i])]
  {
    seq(|keys|, i requires 0 <= i < |keys| => stats[(id, keys[i])])
  }

  function Means(bs: seq<Bucket>): (r: seq<real>)
    ensures |r| == |bs| && forall i :: 0 <= i < |bs| ==> r[i] == bs[i].mean
  {
    seq(|bs|, i requires 0 <= i < |bs| => bs[i].mean)
  }

  lemma {:induction false} CoveredByWindows(readings: seq<Reading>, id: string, since: nat)
    ensures forall v :: v in Covered(readings, id, since) <==>
      exists b: nat :: b >= since && v in Window(readings, (id, b))
  {
    if readings != [] {
      var n := |readings| - 1;
      CoveredByWindows(readings[..n], id, since);
      var r := readings[n];
      forall v
        ensures v in Covered(readings, id, since) <==> exists b: nat :: b >= since && v in Window(readings, (id, b))
      {
        if v in Covered(readings, id, since) {
          if v in Covered(readings[..n], id, since) {
            var b: nat :| b >= since && v in Window(readings[..n], (id, b));
            assert v in Window(readings, (id, b));
          } else {
            assert v in Window(readings, (id, BucketTs(r.ts)));
          }
        }
        if b: nat :| b >= since && v in Window(readings, (id, b)) {
          assert v in Window(readings[..n], (id, b)) || (v == r.value && (r.id, BucketTs(r.ts)) == (id, b));
        }
      }
    }
  }

  lemma {:induction false} SumBounds(vs: seq<real>, lo: real, hi: real)
    requires forall k :: 0 <= k < |vs| ==> lo <= vs[k] <= hi
    ensures lo * |vs| as real <= Sum(vs) <= hi * |vs| as real
  {
    if vs != [] {
      var n := |vs| - 1;
      SumBounds(vs[..n], lo, hi);
      assert |vs| as real == n as real + 1.0;
      assert lo * |vs| as real == lo * n as real + lo && hi * |vs| as real == hi * n as real + hi;
    }
  }

  lemma AverageBounds(sum: real, n: nat, lo: real, hi: real)
    requires n > 0 && lo * n as real <= sum <= hi * n as real
    ensures lo <= sum / n as real <= hi
  {
    assert sum / n as real * n as real == sum;
    QuotientBetween(lo, sum / n as real, hi, n as real, sum);
  }

  lemma Scale(x: real, y: real, n: real)
    requires n > 0.0 && x * n <= y * n
    ensures x <= y
  {
  }

  lemma QuotientBetween(lo: real, mid: real, hi: real, n: real, sum: real)
    requires n > 0.0 && lo * n <= sum <= hi * n && mid * n == sum
    ensures lo <= mid <= hi
  {
    Scale(lo, mid, n);
    Scale(mid, hi, n);
  }

  /** A mean lies between the extremes of its values. */
  lemma MeanBetween(vs: seq<real>, min: real, mean: real, max: real)
    requires Summarises(vs, min, mean, max)
    ensures min <= mean <= max
  {
    assert forall k :: 0 <= k < |vs| ==> vs[k] in vs;
    SumBounds(vs, min, max);
    QuotientBetween(min, mean, max, |vs| as real, Sum(vs));
  }

  /** One bucket of the page stays within what it covers. */
  lemma BucketWithinCovered(completed: seq<Reading>, id: string, since: nat, b: nat)
    requires b >= since && (id, b) in Table(completed)
    ensures var bucket := Table(completed)[(id, b)];
      && bucket.min in Covered(completed, id, since) && bucket.max in Covered(completed, id, since)
      && bucket.min <= bucket.mean <= bucket.max
      && forall v :: v in Window(completed, (id, b)) ==> bucket.min <= v <= bucket.max
  {
    CoveredByWindows(completed, id, since);
    TableSummarises(completed, (id, b));
    var bucket := Table(completed)[(id, b)];
    MeanBetween(Window(completed, (id, b)), bucket.min, bucket.mean, bucket.max);
  }

  lemma CoveredHasABucket(completed: seq<Reading>, id: string, since: nat, keys: seq<nat>, v: real) returns (i: nat)
    requires AnswersStats(keys, Table(completed), id, since) && v in Covered(completed, id, since)
    ensures i < |keys| && (id, keys[i]) in Table(completed)
    ensures Table(completed)[(id, keys[i])].min <= v <= Table(completed)[(id, keys[i])].max
  {
    CoveredByWindows(completed, id, since);
    var b: nat :| b >= since && v in Window(completed, (id, b));
    TableSummarises(completed, (id, b));
    assert b in keys;
    BucketWithinCovered(completed, id, since, b);
    i :| 0 <= i < |keys| && keys[i] == b;
  }

  /** The buckets shown, between their folds. */
  lemma BucketsWithinCovered(completed: seq<Reading>, id: string, since: nat, keys: seq<nat>)
    requires AnswersStats(keys, Table(completed), id, since)
    ensures forall i :: 0 <= i < |keys| ==>
      var b := BucketsOf(keys, Table(completed), id)[i];
      && b.min in Covered(completed, id, since) && b.max in Covered(completed, id, since)
      && b.min <= b.mean <= b.max
  {
    forall i | 0 <= i < |keys|
      ensures var b := BucketsOf(keys, Table(completed), id)[i];
        && b.min in Covered(completed, id, since) && b.max in Covered(completed, id, since)
        && b.min <= b.mean <= b.max
    {
      assert keys[i] in keys;
      BucketWithinCovered(completed, id, since, keys[i]);
    }
  }

  lemma MeanOfMeansBetween(bs: seq<Bucket>, min: real, max: real)
    requires bs != [] && forall i :: 0 <= i < |bs| ==> min <= bs[i].mean <= max
    ensures min <= Sum(Means(bs)) / |bs| as real <= max
  {
    SumBounds(Means(bs), min, max);
    AverageBounds(Sum(Means(bs)), |bs|, min, max);
  }

  /** From raw readings to the page, in any completion order: the minimum and maximum shown are those of the
      covered readings, and the mean shown, a mean of means, lies between them. */
  lemma PageShowsCoveredReadings(completed: seq<Reading>, id: string, since: nat, keys: seq<nat>)
    requires AnswersStats(keys, Table(completed), id, since) && keys != []
    ensures var buckets := BucketsOf(keys, Table(completed), id);
      var covered := Covered(completed, id, since);
      var min, max := MinFold(buckets), MaxFold(buckets);
      && min.Finite? && min.value in covered && (forall v :: v in covered ==> min.value <= v)
      && max.Finite? && max.value in covered && (forall v :: v in covered ==> v <= max.value)
      && min.value <= Sum(Means(buckets)) / |buckets| as real <= max.value
  {
    var buckets := BucketsOf(keys, Table(completed), id);
    FoldsAreExtremes(buckets);
    BucketsWithinCovered(completed, id, since, keys);
    var min, max := MinFold(buckets).value, MaxFold(buckets).value;
    forall v | v in Covered(completed, id, since)
      ensures min <= v <= max
    {
      var i := CoveredHasABucket(completed, id, since, keys, v);
      assert min <= buckets[i].min && buckets[i].max <= max;
    }
    MeanOfMeansBetween(buckets, min, max);
  }
}
