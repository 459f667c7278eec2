/**
 * The camera-frame analyser: for a scan line of 8-bit luminance samples it
 * picks a threshold from a 32-bucket histogram, cuts the line into runs of
 * light and dark samples, rescales the runs to module widths, and hands
 * them to the decoder when they look like a complete barcode.
 */
module Code128Analyzer {
  import opened Wrappers
  import opened Int32Math
  import opened Code128
  import Int32Bits

  /** An unsigned byte, as `buffer.get().toUByte().toInt()` reads it. */
  type Byte = x: int | 0 <= x < 256

  /** `1 shl BUCKET_BITS` buckets of `1 shl (8 - BUCKET_BITS)` luminance levels each (`BUCKET_BITS` is 5). */
  const BUCKET_COUNT: nat := 32
  const BUCKET_WIDTH: nat := 8

  // ---------------------------------------------------------------------
  // Histogram
  // ---------------------------------------------------------------------

  /** The bucket of a sample: `byte ushr (8 - BUCKET_BITS)`. */
  function BucketOf(x: Byte): (b: nat)
    ensures b < BUCKET_COUNT
    ensures b * BUCKET_WIDTH <= x < b * BUCKET_WIDTH + BUCKET_WIDTH
  {
    x / 8
  }

  /** How many of `samples` fall into bucket `b`. */
  function Count(samples: seq<Byte>, b: int): nat
  {
    if samples == [] then 0
    else Count(samples[..|samples| - 1], b) + if BucketOf(samples[|samples| - 1]) == b then 1 else 0
  }

  /** The 32 bucket counts of `samples`. */
  function Histogram(samples: seq<Byte>): (h: seq<int>)
    ensures |h| == BUCKET_COUNT
  {
    seq(BUCKET_COUNT, b => Count(samples, b))
  }

  lemma {:induction false} SumOfIncrement(s: seq<int>, b: nat)
    requires b < |s|
    ensures Sum(s[b := s[b] + 1]) == Sum(s) + 1
  {
    var n := |s|;
    var t := s[b := s[b] + 1];
    assert t[..n - 1] == if b < n - 1 then s[..n - 1][b := s[b] + 1] else s[..n - 1];
    if b < n - 1 {
      SumOfIncrement(s[..n - 1], b);
    }
  }

  /** Every sample lands in exactly one bucket: the counts add up to the number of samples. */
  lemma {:induction false} HistogramTotal(samples: seq<Byte>)
    ensures Sum(Histogram(samples)) == |samples|
  {
    if samples == [] {
      var h := Histogram(samples);
      assert forall b :: 0 <= b < BUCKET_COUNT ==> h[b] == 0;
      ZeroSum(h);
    } else {
      var n := |samples|;
      var p := samples[..n - 1];
      HistogramTotal(p);
      var b := BucketOf(samples[n - 1]);
      assert Histogram(samples) == Histogram(p)[b := Histogram(p)[b] + 1];
      SumOfIncrement(Histogram(p), b);
    }
  }

  lemma {:induction false} ZeroSum(s: seq<int>)
    requires forall i :: 0 <= i < |s| ==> s[i] == 0
    ensures Sum(s) == 0
  {
    if s != [] {
      ZeroSum(s[..|s| - 1]);
    }
  }

  // ---------------------------------------------------------------------
  // maxBy and minBy over the buckets
  // ---------------------------------------------------------------------

  /**
   * `maxBy { it.value }` over the indices `j < n` with `eligible[j]`: the
   * first index with the largest count, or -1 when no index is eligible
   * (where `maxBy` would throw).
   */
  function MaxBy(h: seq<int>, eligible: seq<bool>, n: nat): (r: int)
    requires n <= |h| == |eligible|
    ensures r >= 0 <==> exists j :: 0 <= j < n && eligible[j]
    ensures r >= 0 ==> r < n && eligible[r]
    ensures r >= 0 ==> forall j :: 0 <= j < n && eligible[j] ==> h[j] <= h[r]
    ensures r >= 0 ==> forall j :: 0 <= j < r && eligible[j] ==> h[j] < h[r]
  {
    if n == 0 then -1
    else
      var best := MaxBy(h, eligible, n - 1);
      if eligible[n - 1] && (best < 0 || h[n - 1] > h[best]) then n - 1 else best
  }

  /** `minBy { it.value }`: the first eligible index with the smallest count, or -1. */
  function MinBy(h: seq<int>, eligible: seq<bool>, n: nat): (r: int)
    requires n <= |h| == |eligible|
    ensures r >= 0 <==> exists j :: 0 <= j < n && eligible[j]
    ensures r >= 0 ==> r < n && eligible[r]
    ensures r >= 0 ==> forall j :: 0 <= j < n && eligible[j] ==> h[r] <= h[j]
    ensures r >= 0 ==> forall j :: 0 <= j < r && eligible[j] ==> h[r] < h[j]
  {
    if n == 0 then -1
    else
      var best := MinBy(h, eligible, n - 1);
      if eligible[n - 1] && (best < 0 || h[n - 1] < h[best]) then n - 1 else best
  }

  function Abs(x: int): nat
  {
    if x < 0 then -x else x
  }

  /** Every bucket. */
  function AllBuckets(): seq<bool>
  {
    seq(BUCKET_COUNT, _ => true)
  }

  /** `filter { (it.index - maxBucket.index).absoluteValue > 2 }`. */
  function FarFrom(m: int): seq<bool>
  {
    seq(BUCKET_COUNT, j => Abs(j - m) > 2)
  }

  /** `filter { it.index in min(a, b)..max(a, b) }`. */
  function Between(a: int, b: int): seq<bool>
  {
    seq(BUCKET_COUNT, j => (if a < b then a else b) <= j <= (if a < b then b else a))
  }

  /** `maxBucket`: the fullest bucket. */
  function Peak(h: seq<int>): (m: nat)
    requires |h| == BUCKET_COUNT
    ensures m < BUCKET_COUNT
  {
    assert AllBuckets()[0];
    MaxBy(h, AllBuckets(), BUCKET_COUNT)
  }

  /** `nextMaxBucket`: the fullest bucket more than two buckets away from the peak. */
  function SecondPeak(h: seq<int>): (m: nat)
    requires |h| == BUCKET_COUNT
    ensures m < BUCKET_COUNT
  {
    var p := Peak(h);
    var far := if p < 16 then 31 else 0;
    assert Abs(far - p) > 2;
    assert FarFrom(p)[far];
    MaxBy(h, FarFrom(p), BUCKET_COUNT)
  }

  /** `valley`: the emptiest bucket between the two peaks, both included. */
  function Valley(h: seq<int>): (v: nat)
    requires |h| == BUCKET_COUNT
    ensures v < BUCKET_COUNT
  {
    var p := Peak(h);
    assert Between(p, SecondPeak(h))[p];
    MinBy(h, Between(p, SecondPeak(h)), BUCKET_COUNT)
  }

  /** The threshold `findThreshold` returns: the valley bucket's lowest luminance, `valley.index shl 3`. */
  function Threshold(samples: seq<Byte>): (t: int)
    ensures 0 <= t < 256 && t % BUCKET_WIDTH == 0
  {
    Valley(Histogram(samples)) * BUCKET_WIDTH
  }

  /** `findThreshold`: fill the buckets in one pass over the samples, then pick the valley. */
  method FindThreshold(samples: seq<Byte>) returns (threshold: int)
    ensures threshold == Threshold(samples)
  {
    var buckets := new int[BUCKET_COUNT](_ => 0);
    var i := 0;
    while i < |samples|
      invariant 0 <= i <= |samples|
      invariant forall b :: 0 <= b < BUCKET_COUNT ==> buckets[b] == Count(samples[..i], b)
    {
      var bucketIdx := samples[i] / 8;
      assert samples[..i + 1][..i] == samples[..i];
      buckets[bucketIdx] := buckets[bucketIdx] + 1;
      i := i + 1;
    }
    assert samples[..i] == samples;
    assert buckets[..] == Histogram(samples);
    var h := buckets[..];
    threshold := Valley(h) * BUCKET_WIDTH;
  }

  /**
   * What the threshold means: it is the lowest level of a bucket that lies
   * between the two peaks (which are more than two buckets apart) and is no
   * fuller than either peak.
   */
  lemma ThresholdBetweenPeaks(samples: seq<Byte>)
    ensures var h := Histogram(samples);
      var t := Threshold(samples);
      var p, q, v := Peak(h), SecondPeak(h), Valley(h);
      t == v * BUCKET_WIDTH && 0 <= t <= 248 &&
      Abs(p - q) > 2 &&
      (p <= v <= q || q <= v <= p) &&
      h[v] <= h[q] <= h[p] &&
      (forall b :: 0 <= b < BUCKET_COUNT ==> h[b] <= h[p])
  {
    var h := Histogram(samples);
    PeakIsFullest(h);
    SecondPeakFar(h);
    ValleyBetween(h);
  }

  lemma PeakIsFullest(h: seq<int>)
    requires |h| == BUCKET_COUNT
    ensures forall b :: 0 <= b < BUCKET_COUNT ==> h[b] <= h[Peak(h)]
  {
    forall b | 0 <= b < BUCKET_COUNT
      ensures h[b] <= h[Peak(h)]
    {
      assert AllBuckets()[b];
    }
  }

  lemma SecondPeakFar(h: seq<int>)
    requires |h| == BUCKET_COUNT
    ensures Abs(Peak(h) - SecondPeak(h)) > 2 && h[SecondPeak(h)] <= h[Peak(h)]
  {
    var p: int, q: int := Peak(h), SecondPeak(h);
    assert FarFrom(p)[q];
    assert Abs(q - p) == Abs(p - q);
    PeakIsFullest(h);
  }

  lemma ValleyBetween(h: seq<int>)
    requires |h| == BUCKET_COUNT
    ensures var p, q, v := Peak(h), SecondPeak(h), Valley(h);
      (p <= v <= q || q <= v <= p) && h[v] <= h[q]
  {
    var p, q, v := Peak(h), SecondPeak(h), Valley(h);
    assert Between(p, q)[v] && Between(p, q)[q];
  }

  // ---------------------------------------------------------------------
  // Segmentation into light and dark runs
  // ---------------------------------------------------------------------

  /**
   * The colour of run `k` (`true` is light): runs alternate, and the first,
   * possibly empty, run is light because the count starts with `last = true`.
   */
  predicate RunColor(k: int)
  {
    k % 2 == 0
  }

  lemma RunColorAlternates(k: int)
    ensures RunColor(k + 1) == !RunColor(k)
  {
  }

  /** What a segment list can be: at least one run, and every run after the first is non-empty. */
  predicate RunsShape(runs: seq<nat>)
  {
    |runs| >= 1 && forall i :: 1 <= i < |runs| ==> runs[i] >= 1
  }

  function Repeat(x: bool, n: nat): (r: seq<bool>)
    ensures |r| == n
  {
    seq(n, _ => x)
  }


  lemma RepeatSucc(x: bool, n: nat)
    ensures Repeat(x, n + 1) == Repeat(x, n) + [x]
  {
  }

  lemma AppendAssoc<T>(a: seq<T>, b: seq<T>, c: seq<T>)
    ensures a + (b + c) == (a + b) + c
  {
  }

  lemma LastSplit<T>(s: seq<T>)
    requires s != []
    ensures s[..|s| - 1] + [s[|s| - 1]] == s
  {
  }

  /** The samples a list of runs stands for: run `k` is `runs[k]` samples of colour `RunColor(k)`. */
  function Expand(runs: seq<nat>): seq<bool>
  {
    if runs == [] then []
    else Expand(runs[..|runs| - 1]) + Repeat(RunColor(|runs| - 1), runs[|runs| - 1])
  }
  lemma ExpandLast(runs: seq<nat>, k: nat)
    ensures Expand(runs + [k]) == Expand(runs) + Repeat(RunColor(|runs|), k)
  {
    assert (runs + [k])[..|runs|] == runs;
  }

  /**
   * One step of the counting loop: a sample of the current run's colour
   * lengthens that run, a sample of the other colour starts a run of one.
   */
  function Extend(runs: seq<nat>, x: bool): (r: seq<nat>)
    requires runs != []
  {
    var n := |runs|;
    if x == RunColor(n - 1) then runs[..n - 1] + [runs[n - 1] + 1] else runs + [1]
  }
  lemma ExtendSameColor(runs: seq<nat>, x: bool)
    requires runs != [] && x == RunColor(|runs| - 1)
    ensures Extend(runs, x) == runs[..|runs| - 1] + [runs[|runs| - 1] + 1]
  {
  }
  lemma ExtendNewColor(runs: seq<nat>, x: bool)
    requires runs != [] && x != RunColor(|runs| - 1)
    ensures Extend(runs, x) == runs + [1]
  {
  }
  lemma ExtendShape(runs: seq<nat>, x: bool)
    requires RunsShape(runs)
    ensures RunsShape(Extend(runs, x))
  {
  }

  /** The runs of the first `i` elements of `c`. */
  function RunsOf(c: seq<bool>, i: nat): (r: seq<nat>)
    requires i <= |c|
    ensures r != []
  {
    if i == 0 then [0] else Extend(RunsOf(c, i - 1), c[i - 1])
  }

  lemma {:induction false} RunsOfShape(c: seq<bool>, i: nat)
    requires i <= |c|
    ensures RunsShape(RunsOf(c, i))
  {
    if i > 0 {
      RunsOfShape(c, i - 1);
      ExtendShape(RunsOf(c, i - 1), c[i - 1]);
    }
  }

  lemma ExtendSame(runs: seq<nat>, x: bool)
    requires runs != []
    requires x == RunColor(|runs| - 1)
    ensures Expand(Extend(runs, x)) == Expand(runs) + [x]
  {
    var n := |runs|;
    var front, m := runs[..n - 1], runs[n - 1];
    ExtendSameColor(runs, x);
    var a, b := Expand(front), Repeat(x, m);
    assert Expand(front + [m + 1]) == a + (b + [x]) by {
      ExpandLast(front, m + 1);
      RepeatSucc(x, m);
    }
    assert Expand(runs) == a + b by {
      LastSplit(runs);
      ExpandLast(front, m);
    }
    AppendAssoc(a, b, [x]);
  }
  lemma ExtendOther(runs: seq<nat>, x: bool)
    requires runs != []
    requires x != RunColor(|runs| - 1)
    ensures Expand(Extend(runs, x)) == Expand(runs) + [x]
  {
    ExtendNewColor(runs, x);
    ExpandLast(runs, 1);
    RunColorAlternates(|runs| - 1);
    assert Repeat(x, 1) == [x];
  }
  lemma ExtendExpand(runs: seq<nat>, x: bool)
    requires runs != []
    ensures Expand(Extend(runs, x)) == Expand(runs) + [x]
  {
    if x == RunColor(|runs| - 1) {
      ExtendSame(runs, x);
    } else {
      ExtendOther(runs, x);
    }
  }

  lemma ExpandEmptyRun()
    ensures Expand([0]) == []
  {
    assert Expand([0]) == Expand([]) + Repeat(true, 0);
  }
  lemma PrefixSnoc<T>(c: seq<T>, i: nat)
    requires 0 < i <= |c|
    ensures c[..i - 1] + [c[i - 1]] == c[..i]
  {
  }
  /** Expanding the runs of a line gives back the line. */
  lemma {:induction false} RunsExpand(c: seq<bool>, i: nat)
    requires i <= |c|
    ensures Expand(RunsOf(c, i)) == c[..i]
  {
    if i > 0 {
      var r := RunsOf(c, i - 1);
      assert Expand(r) == c[..i - 1] by {
        RunsExpand(c, i - 1);
      }
      ExtendExpand(r, c[i - 1]);
      PrefixSnoc(c, i);
    } else {
      ExpandEmptyRun();
    }
  }

  lemma {:induction false} RunsOfAgree(c: seq<bool>, d: seq<bool>, i: nat)
    requires i <= |c| && i <= |d|
    requires c[..i] == d[..i]
    ensures RunsOf(c, i) == RunsOf(d, i)
  {
    if i > 0 {
      assert c[..i - 1] == c[..i][..i - 1] && d[..i - 1] == d[..i][..i - 1];
      assert c[i - 1] == c[..i][i - 1];
      RunsOfAgree(c, d, i - 1);
    }
  }

  /** The run lengths of a whole classified line. */
  function Runs(c: seq<bool>): (r: seq<nat>)
    ensures RunsShape(r)
  {
    RunsOfShape(c, |c|);
    RunsOf(c, |c|)
  }

  /** The runs of `d + [x]` are the runs of `d` extended by `x`. */
  lemma RunsSnoc(d: seq<bool>, x: bool)
    ensures Runs(d + [x]) == Extend(Runs(d), x)
  {
    var c := d + [x];
    assert RunsOf(c, |d|) == RunsOf(d, |d|) by {
      assert c[..|d|] == d[..|d|];
      RunsOfAgree(c, d, |d|);
    }
    assert RunsOf(c, |d| + 1) == Extend(RunsOf(c, |d|), c[|d|]);
  }

  /** A non-empty run list is one sample longer than the run list it extends. */
  lemma Retract(runs: seq<nat>) returns (shorter: seq<nat>)
    requires RunsShape(runs) && runs[|runs| - 1] > 0
    ensures RunsShape(shorter)
    ensures Extend(shorter, RunColor(|runs| - 1)) == runs
  {
    var n := |runs|;
    var k := runs[n - 1];
    if k > 1 || n == 1 {
      shorter := ShortenLast(runs);
    } else {
      shorter := runs[..n - 1];
      RunColorAlternates(n - 2);
      ExtendNewColor(shorter, RunColor(n - 1));
      assert shorter + [runs[n - 1]] == runs;
    }
  }

  /** The run list with its last run one sample shorter. */
  lemma ShortenLast(runs: seq<nat>) returns (shorter: seq<nat>)
    requires RunsShape(runs) && (runs[|runs| - 1] > 1 || |runs| == 1) && runs[|runs| - 1] > 0
    ensures RunsShape(shorter)
    ensures Extend(shorter, RunColor(|runs| - 1)) == runs
  {
    var n := |runs|;
    var front := runs[..n - 1];
    shorter := front + [runs[n - 1] - 1];
    assert |shorter| == n && shorter[..n - 1] == front;
    forall i | 1 <= i < n
      ensures shorter[i] >= 1
    {
      if i < n - 1 {
        assert shorter[i] == runs[i];
      }
    }
    ExtendSameColor(shorter, RunColor(n - 1));
    assert front + [runs[n - 1]] == runs;
  }

  /** Conversely, well-shaped runs are the only runs that expand to their samples. */
  lemma {:induction false} RunsUnique(runs: seq<nat>)
    requires RunsShape(runs)
    ensures Runs(Expand(runs)) == runs
    decreases |Expand(runs)|
  {
    var n := |runs|;
    if runs[n - 1] == 0 {
      EmptyRunOnly(runs);
    } else {
      var col := RunColor(n - 1);
      var shorter := Retract(runs);
      var e := Expand(shorter);
      assert Expand(runs) == e + [col] by {
        ExtendExpand(shorter, col);
      }
      assert Runs(e) == shorter by {
        RunsUnique(shorter);
      }
      RunsSnoc(e, col);
    }
  }

  /** A well-shaped run list that ends in an empty run is the single empty first run, whose line is empty. */
  lemma EmptyRunOnly(runs: seq<nat>)
    requires RunsShape(runs) && runs[|runs| - 1] == 0
    ensures Runs(Expand(runs)) == runs
  {
    assert runs == [0];
    ExpandEmptyRun();
    assert Runs([]) == [0];
  }

  /** `byte > threshold` for every sample: `true` is light, `false` is dark. */
  function Classify(samples: seq<Byte>, threshold: int): (c: seq<bool>)
    ensures |c| == |samples|
  {
    seq(|samples|, i requires 0 <= i < |samples| => samples[i] > threshold)
  }

  /**
   * The counting loop of `analyzeLine`: `count` grows while the colour stays
   * the same and is appended whenever it changes; the last count is
   * appended after the loop.
   */
  method Segment(samples: seq<Byte>, threshold: int) returns (segments: seq<nat>)
    ensures segments == Runs(Classify(samples, threshold))
  {
    ghost var c := Classify(samples, threshold);
    segments := [];
    var count: nat := 0;
    var last := true;
    var i := 0;
    while i < |samples|
      invariant 0 <= i <= |samples|
      invariant segments + [count] == RunsOf(c, i)
      invariant last == RunColor(|segments|)
    {
      var light := samples[i] > threshold;
      assert light == c[i];
      if last != light {
        NewRunStep(segments, count, c, i);
        segments := segments + [count];
        count := 0;
        last := light;
      } else {
        SameRunStep(segments, count, c, i);
      }
      count := count + 1;
      i := i + 1;
    }
    segments := segments + [count];
  }

  /** A sample of the other colour closes the current run and opens a run of one. */
  lemma NewRunStep(segments: seq<nat>, count: nat, c: seq<bool>, i: nat)
    requires i < |c| && segments + [count] == RunsOf(c, i) && c[i] != RunColor(|segments|)
    ensures (segments + [count]) + [1] == RunsOf(c, i + 1)
    ensures c[i] == RunColor(|segments + [count]|)
  {
    ExtendNewColor(segments + [count], c[i]);
    RunColorAlternates(|segments|);
  }

  /** A sample of the same colour lengthens the current run. */
  lemma SameRunStep(segments: seq<nat>, count: nat, c: seq<bool>, i: nat)
    requires i < |c| && segments + [count] == RunsOf(c, i) && c[i] == RunColor(|segments|)
    ensures segments + [count + 1] == RunsOf(c, i + 1)
  {
    ExtendSameColor(segments + [count], c[i]);
    assert (segments + [count])[..|segments|] == segments;
  }

  lemma {:induction false} ExpandLength(runs: seq<nat>)
    ensures |Expand(runs)| == Sum(runs)
  {
    if runs != [] {
      ExpandLength(runs[..|runs| - 1]);
    }
  }

  /** The segments cover the line: their lengths add up to the number of samples. */
  lemma SegmentsCoverLine(samples: seq<Byte>, threshold: int)
    ensures Sum(Runs(Classify(samples, threshold))) == |samples|
  {
    var c := Classify(samples, threshold);
    RunsExpand(c, |c|);
    ExpandLength(Runs(c));
  }

  // ---------------------------------------------------------------------
  // normalizeSegments
  // ---------------------------------------------------------------------

  /** How many elements of `s` are at least `v`. */
  function CountAtLeast(s: seq<nat>, v: int): nat
  {
    if s == [] then 0 else CountAtLeast(s[..|s| - 1], v) + if s[|s| - 1] >= v then 1 else 0
  }

  /** How many elements of `s` exceed `v`. */
  function CountAbove(s: seq<nat>, v: int): nat
  {
    if s == [] then 0 else CountAbove(s[..|s| - 1], v) + if s[|s| - 1] > v then 1 else 0
  }

  /**
   * The first two elements of `sorted().reversed()`: the largest element and
   * the second largest, a repeat of the largest counting as the second.
   */
  function TopTwo(s: seq<nat>): (nat, nat)
    requires |s| >= 2
  {
    if |s| == 2 then (if s[0] >= s[1] then (s[0], s[1]) else (s[1], s[0]))
    else
      var top := TopTwo(s[..|s| - 1]);
      var x := s[|s| - 1];
      if x >= top.0 then (x, top.0) else if x >= top.1 then (top.0, x) else top
  }

  /** `sorted().reversed().getOrNull(1)`. */
  function SecondLargest(s: seq<nat>): Option<nat>
  {
    if |s| < 2 then None else Some(TopTwo(s).1)
  }

  lemma {:induction false} CountsMonotone(s: seq<nat>, v: int, w: int)
    requires v < w
    ensures CountAtLeast(s, w) <= CountAbove(s, v)
  {
    if s != [] {
      CountsMonotone(s[..|s| - 1], v, w);
    }
  }

  lemma {:induction false} CountsStrict(s: seq<nat>, v: int)
    ensures CountAbove(s, v) <= CountAtLeast(s, v)
  {
    if s != [] {
      CountsStrict(s[..|s| - 1], v);
    }
  }

  lemma CountsSnoc(s: seq<nat>, v: int)
    requires s != []
    ensures CountAtLeast(s, v) == CountAtLeast(s[..|s| - 1], v) + if s[|s| - 1] >= v then 1 else 0
    ensures CountAbove(s, v) == CountAbove(s[..|s| - 1], v) + if s[|s| - 1] > v then 1 else 0
  {
  }

  lemma CountsOfPair(s: seq<nat>, v: int)
    requires |s| == 2
    ensures CountAtLeast(s, v) == (if s[0] >= v then 1 else 0) + (if s[1] >= v then 1 else 0)
    ensures CountAbove(s, v) == (if s[0] > v then 1 else 0) + (if s[1] > v then 1 else 0)
  {
    CountsSnoc(s, v);
    assert s[..1] == [s[0]];
    CountsSnoc([s[0]], v);
    assert [s[0]][..0] == [];
  }

  /**
   * The second largest element is the value at index 1 of the descending
   * sort: at least two elements reach it and at most one exceeds it, and
   * the largest is reached by one element and exceeded by none.
   */
  lemma {:induction false} TopTwoSpec(s: seq<nat>)
    requires |s| >= 2
    ensures TopTwo(s).1 <= TopTwo(s).0
    ensures CountAbove(s, TopTwo(s).0) == 0 && CountAtLeast(s, TopTwo(s).0) >= 1
    ensures CountAtLeast(s, TopTwo(s).1) >= 2 && CountAbove(s, TopTwo(s).1) <= 1
  {
    var n := |s|;
    var p := s[..n - 1];
    var x := s[n - 1];
    if n == 2 {
      CountsOfPair(s, TopTwo(s).0);
      CountsOfPair(s, TopTwo(s).1);
    } else {
      TopTwoSpec(p);
      var (a, b) := TopTwo(p);
      CountsSnoc(s, a);
      CountsSnoc(s, b);
      CountsSnoc(s, x);
      if x >= a {
        if x > a {
          CountsMonotone(p, a, x);
          CountsStrict(p, x);
        }
      } else if x >= b {
        CountsMonotone(p, x, a);
        CountsStrict(p, x);
        if x > b {
          CountsMonotone(p, b, x);
        }
      }
    }
  }

  /** Index 1 of the descending sort is the only value that at least two elements reach and at most one exceeds. */
  lemma SecondLargestUnique(s: seq<nat>, v: nat)
    requires CountAtLeast(s, v) >= 2 && CountAbove(s, v) <= 1
    ensures SecondLargest(s) == Some(v)
  {
    assert |s| >= 2 by {
      CountAtLeastBound(s, v);
    }
    TopTwoSpec(s);
    var b := TopTwo(s).1;
    if v < b {
      CountsMonotone(s, v, b);
    } else if b < v {
      CountsMonotone(s, b, v);
    }
  }

  lemma {:induction false} CountAtLeastBound(s: seq<nat>, v: int)
    ensures CountAtLeast(s, v) <= |s|
  {
    if s != [] {
      CountAtLeastBound(s[..|s| - 1], v);
    }
  }

  /** `dropWhile { it < v }`. */
  function DropWhileBelow(s: seq<nat>, v: int): seq<nat>
  {
    if s != [] && s[0] < v then DropWhileBelow(s[1..], v) else s
  }

  /** `dropLastWhile { it < v }`. */
  function DropLastWhileBelow(s: seq<nat>, v: int): seq<nat>
  {
    if s != [] && s[|s| - 1] < v then DropLastWhileBelow(s[..|s| - 1], v) else s
  }

  /** What `dropWhile` keeps is a suffix. */
  lemma {:induction false} DropWhileBelowSuffix(s: seq<nat>, v: int)
    ensures |DropWhileBelow(s, v)| <= |s|
    ensures DropWhileBelow(s, v) == s[|s| - |DropWhileBelow(s, v)|..]
  {
    if s != [] && s[0] < v {
      DropWhileBelowSuffix(s[1..], v);
    }
  }

  /** What `dropLastWhile` keeps is a prefix. */
  lemma {:induction false} DropLastWhileBelowPrefix(s: seq<nat>, v: int)
    ensures |DropLastWhileBelow(s, v)| <= |s|
    ensures DropLastWhileBelow(s, v) == s[..|DropLastWhileBelow(s, v)|]
  {
    if s != [] && s[|s| - 1] < v {
      DropLastWhileBelowPrefix(s[..|s| - 1], v);
    }
  }

  /** `dropWhile` stops at the first element reaching `v`. */
  lemma {:induction false} DropWhileBelowAt(s: seq<nat>, v: int, lo: nat)
    requires lo < |s| && s[lo] >= v
    requires forall i :: 0 <= i < lo ==> s[i] < v
    ensures DropWhileBelow(s, v) == s[lo..]
  {
    if lo > 0 {
      assert s[0] < v;
      DropWhileBelowAt(s[1..], v, lo - 1);
      assert s[1..][lo - 1..] == s[lo..];
    }
  }

  /** `dropLastWhile` stops at the last element reaching `v`. */
  lemma {:induction false} DropLastWhileBelowAt(s: seq<nat>, v: int, hi: nat)
    requires hi < |s| && s[hi] >= v
    requires forall i :: hi < i < |s| ==> s[i] < v
    ensures DropLastWhileBelow(s, v) == s[..hi + 1]
    decreases |s|
  {
    if hi < |s| - 1 {
      assert s[|s| - 1] < v;
      DropLastWhileBelowAt(s[..|s| - 1], v, hi);
      assert s[..|s| - 1][..hi + 1] == s[..hi + 1];
    }
  }

  /**
   * `dropWhile { it < v }.dropLastWhile { it < v }.drop(1).dropLast(1)`: the
   * runs strictly between the first and the last run reaching `v`.
   */
  function InnerRuns(s: seq<nat>, v: int): seq<nat>
  {
    var t := DropLastWhileBelow(DropWhileBelow(s, v), v);
    if |t| <= 2 then [] else t[1..|t| - 1]
  }

  /**
   * The inner runs are the slice between the first run `lo` and the last
   * run `hi` that reach `v`.
   */
  lemma InnerRunsSlice(s: seq<nat>, v: int, lo: nat, hi: nat)
    requires lo <= hi < |s| && s[lo] >= v && s[hi] >= v
    requires forall i :: 0 <= i < lo ==> s[i] < v
    requires forall i :: hi < i < |s| ==> s[i] < v
    ensures InnerRuns(s, v) == if lo < hi then s[lo + 1..hi] else []
  {
    DropWhileBelowAt(s, v, lo);
    var d := s[lo..];
    forall i | hi - lo < i < |d|
      ensures d[i] < v
    {
      assert d[i] == s[lo + i];
    }
    DropLastWhileBelowAt(d, v, hi - lo);
    var t := d[..hi - lo + 1];
    assert t == s[lo..hi + 1];
    if lo + 1 < hi {
      InnerSlice(s, lo, hi);
    }
  }

  /** The inner runs leave out at least the first and the last run. */
  lemma InnerRunsLength(s: seq<nat>, v: int)
    ensures InnerRuns(s, v) != [] ==> |InnerRuns(s, v)| <= |s| - 2
  {
    DropWhileBelowSuffix(s, v);
    DropLastWhileBelowPrefix(DropWhileBelow(s, v), v);
  }

  lemma InnerSlice(s: seq<nat>, lo: nat, hi: nat)
    requires lo + 1 < hi < |s|
    ensures s[lo..hi + 1][1..hi - lo] == s[lo + 1..hi]
  {
    var t := s[lo..hi + 1];
    var inner, slice := t[1..hi - lo], s[lo + 1..hi];
    forall k | 0 <= k < |inner|
      ensures inner[k] == slice[k]
    {
      assert inner[k] == t[k + 1] == s[lo + 1 + k];
    }
  }

  /** With the shape `analyzeLine` produces, every inner run is at least one sample long. */
  lemma InnerRunsPositive(s: seq<nat>, v: int)
    requires RunsShape(s)
    ensures forall i :: 0 <= i < |InnerRuns(s, v)| ==> InnerRuns(s, v)[i] >= 1
  {
    var d := DropWhileBelow(s, v);
    var t := DropLastWhileBelow(d, v);
    var off := |s| - |d|;
    DropWhileBelowSuffix(s, v);
    DropLastWhileBelowPrefix(d, v);
    if |t| > 2 {
      forall i | 0 <= i < |t| - 2
        ensures InnerRuns(s, v)[i] >= 1
      {
        assert InnerRuns(s, v)[i] == t[i + 1] == d[i + 1] == s[off + i + 1];
      }
    }
  }

  /** `minOrNull()` of a non-empty list. */
  function MinOf(s: seq<nat>): (m: nat)
    requires s != []
    ensures m in s
    ensures forall i :: 0 <= i < |s| ==> m <= s[i]
  {
    if |s| == 1 then s[0]
    else
      var rest := MinOf(s[..|s| - 1]);
      if s[|s| - 1] < rest then s[|s| - 1] else rest
  }

  /**
   * `(x / m.toFloat()).roundToInt()`: `x / m` rounded to the nearest integer,
   * halves rounded up.
   */
  function RoundedRatio(x: nat, m: nat): (r: nat)
    requires m > 0
    ensures r * (2 * m) <= 2 * x + m < (r + 1) * (2 * m)
  {
    (2 * x + m) / (2 * m)
  }

  /** `map { (it / shortest.toFloat()).roundToInt() }`. */
  function Ratios(runs: seq<nat>, shortest: nat): (r: seq<nat>)
    requires shortest > 0
    ensures |r| == |runs|
  {
    seq(|runs|, i requires 0 <= i < |runs| => RoundedRatio(runs[i], shortest))
  }

  /**
   * `normalizeSegments`: `None` when there are fewer than two runs or no
   * inner runs; otherwise every inner run divided by the shortest one and
   * rounded.
   */
  function Normalize(segments: seq<nat>): (r: Option<seq<nat>>)
    requires RunsShape(segments)
    ensures r.Some? ==> 0 < |r.value| <= |segments| - 2
  {
    match SecondLargest(segments)
    case None => None
    case Some(v) =>
      var inner := InnerRuns(segments, v);
      if inner == [] then None
      else
        InnerRunsPositive(segments, v);
        InnerRunsLength(segments, v);
        Some(Ratios(inner, MinOf(inner)))
  }

  // ---------------------------------------------------------------------
  // Properties of normalizeSegments
  // ---------------------------------------------------------------------

  /** Multiplying by a positive factor keeps the order of two values. */
  lemma MulKeepsOrder(k: int, a: int, b: int)
    requires k >= 1
    ensures k * a >= k * b <==> a >= b
    ensures k * a > k * b <==> a > b
  {
    assert k * a - k * b == (a - b) * k;
    assert k * a - k * b + k == (a - b + 1) * k;
    if k * a >= k * b {
      Int32Bits.PositiveFactor(a - b + 1, k);
    }
    if k * a > k * b {
      Int32Bits.PositiveFactor(a - b, k);
    }
  }

  /** A run as long as the shortest one becomes one module. */
  lemma RatioOfShortest(m: nat)
    requires m > 0
    ensures RoundedRatio(m, m) == 1
  {
    Int32Bits.DivModUnique(2 * m + m, 2 * m, 1, m);
  }

  /** A run `w` times as long as the shortest one becomes `w` modules. */
  lemma RatioOfMultiple(w: nat, m: nat)
    requires m > 0
    ensures RoundedRatio(w * m, m) == w
  {
    assert 2 * (w * m) + m == w * (2 * m) + m;
    Int32Bits.DivModUnique(2 * (w * m) + m, 2 * m, w, m);
  }

  /** No run shorter than the shortest, so no run rounds to zero modules. */
  lemma RatioAtLeastOne(x: nat, m: nat)
    requires 0 < m <= x
    ensures RoundedRatio(x, m) >= 1
  {
  }

  /** Stretching a run and the shortest run by the same factor does not change the ratio. */
  lemma RatioScale(x: nat, m: nat, k: nat)
    requires m > 0 && k >= 1
    ensures RoundedRatio(k * x, k * m) == RoundedRatio(x, m)
  {
    var n, d := 2 * x + m, 2 * m;
    var q, r := n / d, n % d;
    assert n == q * d + r;
    assert k * n == q * (k * d) + k * r;
    MulKeepsOrder(k, d, r);
    MulKeepsOrder(k, r, 0);
    assert 2 * (k * x) + k * m == k * n;
    assert 2 * (k * m) == k * d;
    Int32Bits.DivModUnique(k * n, k * d, q, k * r);
  }

  /** Every width `normalizeSegments` returns is at least one module, and the shortest run is exactly one. */
  lemma NormalizeUnits(segments: seq<nat>)
    requires RunsShape(segments)
    ensures Normalize(segments).Some? ==>
      (forall i :: 0 <= i < |Normalize(segments).value| ==> Normalize(segments).value[i] >= 1) &&
      1 in Normalize(segments).value
  {
    if Normalize(segments).Some? {
      var v := SecondLargest(segments).value;
      var inner := InnerRuns(segments, v);
      InnerRunsPositive(segments, v);
      var shortest := MinOf(inner);
      var r := Normalize(segments).value;
      forall i | 0 <= i < |r|
        ensures r[i] >= 1
      {
        RatioAtLeastOne(inner[i], shortest);
      }
      var j :| 0 <= j < |inner| && inner[j] == shortest;
      RatioOfShortest(shortest);
      assert r[j] == 1;
    }
  }

  /** Every run stretched by the factor `k`: the same line seen from closer or farther away. */
  function Scale(s: seq<nat>, k: nat): (r: seq<nat>)
    ensures |r| == |s|
  {
    seq(|s|, i requires 0 <= i < |s| => k * s[i])
  }

  lemma ScaleSlice(s: seq<nat>, k: nat, lo: nat, hi: nat)
    requires lo <= hi <= |s|
    ensures Scale(s, k)[lo..hi] == Scale(s[lo..hi], k)
  {
  }

  lemma {:induction false} CountsScale(s: seq<nat>, v: int, k: nat)
    requires k >= 1
    ensures CountAtLeast(Scale(s, k), k * v) == CountAtLeast(s, v)
    ensures CountAbove(Scale(s, k), k * v) == CountAbove(s, v)
  {
    if s != [] {
      var n := |s|;
      ScaleSlice(s, k, 0, n - 1);
      assert Scale(s, k)[..n - 1] == Scale(s, k)[0..n - 1] && s[..n - 1] == s[0..n - 1];
      CountsScale(s[..n - 1], v, k);
      MulKeepsOrder(k, s[n - 1], v);
      CountsSnoc(Scale(s, k), k * v);
      CountsSnoc(s, v);
    }
  }

  lemma SecondLargestScale(s: seq<nat>, k: nat)
    requires k >= 1
    ensures SecondLargest(Scale(s, k)) == if |s| < 2 then None else Some(k * SecondLargest(s).value)
  {
    if |s| >= 2 {
      TopTwoSpec(s);
      var v := TopTwo(s).1;
      CountsScale(s, v, k);
      SecondLargestUnique(Scale(s, k), k * v);
    }
  }

  lemma {:induction false} DropWhileBelowScale(s: seq<nat>, v: int, k: nat)
    requires k >= 1
    ensures DropWhileBelow(Scale(s, k), k * v) == Scale(DropWhileBelow(s, v), k)
  {
    if s != [] {
      MulKeepsOrder(k, s[0], v);
      if s[0] < v {
        ScaleSlice(s, k, 1, |s|);
        assert Scale(s, k)[1..] == Scale(s, k)[1..|s|] && s[1..] == s[1..|s|];
        DropWhileBelowScale(s[1..], v, k);
      }
    }
  }

  lemma {:induction false} DropLastWhileBelowScale(s: seq<nat>, v: int, k: nat)
    requires k >= 1
    ensures DropLastWhileBelow(Scale(s, k), k * v) == Scale(DropLastWhileBelow(s, v), k)
  {
    if s != [] {
      var n := |s|;
      MulKeepsOrder(k, s[n - 1], v);
      if s[n - 1] < v {
        ScaleSlice(s, k, 0, n - 1);
        assert Scale(s, k)[..n - 1] == Scale(s, k)[0..n - 1] && s[..n - 1] == s[0..n - 1];
        DropLastWhileBelowScale(s[..n - 1], v, k);
      }
    }
  }

  lemma InnerRunsScale(s: seq<nat>, v: int, k: nat)
    requires k >= 1
    ensures InnerRuns(Scale(s, k), k * v) == Scale(InnerRuns(s, v), k)
  {
    var t := DropLastWhileBelow(DropWhileBelow(s, v), v);
    DropWhileBelowScale(s, v, k);
    DropLastWhileBelowScale(DropWhileBelow(s, v), v, k);
    if |t| > 2 {
      ScaleSlice(t, k, 1, |t| - 1);
    }
  }

  /** The minimum is the element no other element undercuts. */
  lemma MinOfUnique(s: seq<nat>, m: nat)
    requires m in s && forall i :: 0 <= i < |s| ==> m <= s[i]
    ensures MinOf(s) == m
  {
  }

  lemma MinOfScale(s: seq<nat>, k: nat)
    requires s != [] && k >= 1
    ensures MinOf(Scale(s, k)) == k * MinOf(s)
  {
    var m := MinOf(s);
    var j :| 0 <= j < |s| && s[j] == m;
    forall i | 0 <= i < |s|
      ensures k * m <= Scale(s, k)[i]
    {
      MulKeepsOrder(k, s[i], m);
    }
    assert Scale(s, k)[j] == k * m;
    MinOfUnique(Scale(s, k), k * m);
  }

  lemma RatiosScale(runs: seq<nat>, shortest: nat, k: nat)
    requires shortest > 0 && k >= 1
    ensures Ratios(Scale(runs, k), k * shortest) == Ratios(runs, shortest)
  {
    forall i | 0 <= i < |runs|
      ensures Ratios(Scale(runs, k), k * shortest)[i] == Ratios(runs, shortest)[i]
    {
      RatioScale(runs[i], shortest, k);
    }
  }

  /**
   * `normalizeSegments` does not depend on the distance to the barcode:
   * stretching every run by the same factor gives the same module widths.
   */
  lemma NormalizeScale(segments: seq<nat>, k: nat)
    requires RunsShape(segments) && k >= 1
    ensures RunsShape(Scale(segments, k))
    ensures Normalize(Scale(segments, k)) == Normalize(segments)
  {
    var scaled := Scale(segments, k);
    forall i | 1 <= i < |scaled|
      ensures scaled[i] >= 1
    {
      MulKeepsOrder(k, segments[i], 1);
    }
    SecondLargestScale(segments, k);
    if |segments| >= 2 {
      var v := SecondLargest(segments).value;
      var inner := InnerRuns(segments, v);
      InnerRunsScale(segments, v, k);
      if inner != [] {
        InnerRunsPositive(segments, v);
        MinOfScale(inner, k);
        RatiosScale(inner, MinOf(inner), k);
      }
    }
  }

  // ---------------------------------------------------------------------
  // isValid, analyzeLine and findBarcode
  // ---------------------------------------------------------------------

  /** `isValid`: the last width is the stop width 2, the widths cover 68 modules, and none is wider than 4. */
  function IsValid(widths: seq<int>): (valid: bool)
    ensures valid ==> 17 <= |widths|
  {
    var valid := |widths| > 0 && widths[|widths| - 1] == STOP_WIDTH && Sum(widths) == 68 &&
      forall i :: 0 <= i < |widths| ==> widths[i] <= 4;
    assert valid ==> 17 <= |widths| by {
      if valid {
        SumAtMostFour(widths);
      }
    }
    valid
  }

  /** Widths of at most four modules add up to at most four modules each. */
  lemma {:induction false} SumAtMostFour(widths: seq<int>)
    requires forall i :: 0 <= i < |widths| ==> widths[i] <= 4
    ensures Sum(widths) <= 4 * |widths|
  {
    if widths != [] {
      SumAtMostFour(widths[..|widths| - 1]);
    }
  }

  /** What `analyzeLine` returns for one scan line of luminance samples. */
  function DecodeRow(row: seq<Byte>): (r: Option<Int32>)
    ensures r.Some? ==> exists widths :: IsValid(widths) && 36 <= |widths| < 42 && TryParse(widths) == r
  {
    var segments := Runs(Classify(row, Threshold(row)));
    match Normalize(segments)
    case None => None
    case Some(widths) => if IsValid(widths) then TryParse(widths) else None
  }

  /** The luminance plane of a camera frame (`image.planes[0]`). */
  datatype Image = Image(width: nat, height: nat, rowStride: nat, luma: seq<Byte>)

  /** A frame whose luminance plane holds `height` rows of `rowStride` samples, each row at least `width` wide. */
  predicate ValidImage(image: Image)
  {
    1 <= image.height && image.width <= image.rowStride &&
    image.height * image.rowStride <= |image.luma|
  }

  /** `beginIndex`: the scan line starts a quarter of the width into row `y`. */
  function RowStart(image: Image, y: nat): nat
  {
    image.width / 4 + y * image.rowStride
  }

  lemma RowInPlane(image: Image, y: nat)
    requires ValidImage(image) && y < image.height
    ensures RowStart(image, y) + image.rowStride / 2 <= |image.luma|
  {
    var stride := image.rowStride;
    assert (y + 1) * stride == y * stride + stride;
    ProductNonNegative(image.height - (y + 1), stride);
    assert image.height * stride == (y + 1) * stride + (image.height - (y + 1)) * stride;
  }

  lemma ProductNonNegative(a: int, b: int)
    requires 0 <= a && 0 <= b
    ensures 0 <= a * b
  {
  }

  /** The samples between `buffer.position(beginIndex)` and `buffer.limit(beginIndex + rowStride / 2)`. */
  function Row(image: Image, y: nat): (row: seq<Byte>)
    requires ValidImage(image) && y < image.height
    ensures |row| == image.rowStride / 2
  {
    RowInPlane(image, y);
    image.luma[RowStart(image, y)..RowStart(image, y) + image.rowStride / 2]
  }

  /** `analyzeLine`: threshold, segment, normalise, check and parse one scan line. */
  method AnalyzeLine(y: nat, image: Image) returns (result: Option<Int32>)
    requires ValidImage(image) && y < image.height
    ensures result == DecodeRow(Row(image, y))
  {
    var row := Row(image, y);
    var threshold := FindThreshold(row);
    var segments := Segment(row, threshold);
    var normalized := Normalize(segments);
    if normalized.Some? && IsValid(normalized.value) {
      result := TryParse(normalized.value);
    } else {
      result := None;
    }
  }

  /** The first and last scan lines of `findBarcode`: the middle 20% of a portrait frame, the middle 40% otherwise. */
  function ScanStart(height: nat, isPortrait: bool): nat
  {
    height * (if isPortrait then 4 else 3) / 10
  }

  function ScanEnd(height: nat, isPortrait: bool): (e: nat)
    ensures 1 <= height ==> e < height
  {
    height * (10 - if isPortrait then 4 else 3) / 10
  }

  /** No scan line from `from` up to, but not including, `to` decodes. */
  predicate NoneDecodes(image: Image, from: nat, to: nat)
    requires ValidImage(image) && to <= image.height
  {
    forall y :: from <= y < to ==> DecodeRow(Row(image, y)).None?
  }

  lemma NoneDecodesStep(image: Image, from: nat, y: nat)
    requires ValidImage(image) && y < image.height
    requires NoneDecodes(image, from, y) && DecodeRow(Row(image, y)).None?
    ensures NoneDecodes(image, from, y + 1)
  {
  }

  /**
   * `findBarcode`: the scan lines are tried from top to bottom and the first
   * one that decodes wins; `None` means no scan line decodes.
   */
  method FindBarcode(image: Image, isPortrait: bool) returns (result: Option<Int32>)
    requires ValidImage(image)
    ensures var first, last := ScanStart(image.height, isPortrait), ScanEnd(image.height, isPortrait);
      match result
      case None => NoneDecodes(image, first, last + 1)
      case Some(_) => exists y :: first <= y <= last && NoneDecodes(image, first, y) && DecodeRow(Row(image, y)) == result
  {
    var first := ScanStart(image.height, isPortrait);
    var last := ScanEnd(image.height, isPortrait);
    var y := first;
    while y <= last
      invariant first <= y <= last + 1
      invariant NoneDecodes(image, first, y)
      decreases last + 1 - y
    {
      var line := AnalyzeLine(y, image);
      if line.Some? {
        return line;
      }
      NoneDecodesStep(image, first, y);
      y := y + 1;
    }
    return None;
  }

  // ---------------------------------------------------------------------
  // A printed barcode decodes to its code
  // ---------------------------------------------------------------------

  /** Dark samples at luminance 0, light samples at 255. */
  function Paint(c: seq<bool>): (row: seq<Byte>)
    ensures |row| == |c|
  {
    seq(|c|, i requires 0 <= i < |c| => if c[i] then 255 else 0)
  }

  lemma PaintSlice(c: seq<bool>, n: nat)
    requires n <= |c|
    ensures Paint(c)[..n] == Paint(c[..n])
  {
  }

  /** With no level in between, only the darkest and the lightest buckets fill. */
  lemma {:induction false} PaintCountMiddle(c: seq<bool>, b: int)
    requires 0 < b < BUCKET_COUNT - 1
    ensures Count(Paint(c), b) == 0
  {
    if c != [] {
      PaintSlice(c, |c| - 1);
      PaintCountMiddle(c[..|c| - 1], b);
    }
  }

  lemma {:induction false} PaintCountSome(c: seq<bool>, i: nat)
    requires i < |c|
    ensures Count(Paint(c), if c[i] then BUCKET_COUNT - 1 else 0) >= 1
  {
    var n := |c|;
    PaintSlice(c, n - 1);
    if i < n - 1 {
      PaintCountSome(c[..n - 1], i);
    }
  }

  /** Two peaks at the ends and nothing in between: the valley is the second bucket. */
  lemma TwoToneValley(h: seq<int>)
    requires |h| == BUCKET_COUNT && h[0] > 0 && h[BUCKET_COUNT - 1] > 0
    requires forall b :: 0 < b < BUCKET_COUNT - 1 ==> h[b] == 0
    ensures Valley(h) == 1
  {
    var p := Peak(h);
    assert AllBuckets()[0];
    assert p == 0 || p == BUCKET_COUNT - 1;
    var other := if p == 0 then BUCKET_COUNT - 1 else 0;
    assert Abs(other - p) > 2;
    assert FarFrom(p)[other];
    var q := SecondPeak(h);
    assert q == other;
    assert Between(p, q)[1];
    var v := Valley(h);
    assert h[v] <= 0;
  }

  /** The threshold of a line painted in black and white is 8: everything lighter than black counts as light. */
  lemma PaintThreshold(c: seq<bool>, light: nat, dark: nat)
    requires light < |c| && dark < |c| && c[light] && !c[dark]
    ensures Threshold(Paint(c)) == 8
  {
    var h := Histogram(Paint(c));
    forall b | 0 < b < BUCKET_COUNT - 1
      ensures h[b] == 0
    {
      PaintCountMiddle(c, b);
    }
    PaintCountSome(c, light);
    PaintCountSome(c, dark);
    TwoToneValley(h);
  }

  lemma {:induction false} CountConstant(x: Byte, n: nat, b: int)
    ensures Count(seq(n, _ => x), b) == if BucketOf(x) == b then n else 0
  {
    if n > 0 {
      assert seq(n, _ => x)[..n - 1] == seq(n - 1, _ => x);
      CountConstant(x, n - 1, b);
    }
  }

  lemma {:induction false} CountConcat(a: seq<Byte>, c: seq<Byte>, b: int)
    ensures Count(a + c, b) == Count(a, b) + Count(c, b)
    decreases |c|
  {
    if c == [] {
      assert a + c == a;
    } else {
      var n := |c|;
      assert (a + c)[..|a + c| - 1] == a + c[..n - 1];
      CountConcat(a, c[..n - 1], b);
    }
  }

  /**
   * A line of `n` samples at luminance 30 and then `n` at 220 gets threshold 32:
   * both peaks are equally full, so the first (bucket 3) is the peak, bucket 27
   * the second peak, and the first empty bucket after the peak, 4, the valley.
   */
  lemma ThresholdExample(n: nat)
    requires n > 0
    ensures Threshold(seq(n, _ => 30) + seq(n, _ => 220)) == 32
  {
    var samples := seq(n, _ => 30 as Byte) + seq(n, _ => 220 as Byte);
    var h := Histogram(samples);
    forall b | 0 <= b < BUCKET_COUNT
      ensures h[b] == if b == 3 || b == 27 then n else 0
    {
      CountConcat(seq(n, _ => 30 as Byte), seq(n, _ => 220 as Byte), b);
      CountConstant(30, n, b);
      CountConstant(220, n, b);
    }
    assert AllBuckets()[3];
    var p := Peak(h);
    assert p == 3;
    assert FarFrom(p)[27];
    var q := SecondPeak(h);
    assert q == 27;
    assert Between(p, q)[4];
    var v := Valley(h);
    assert v == 4;
  }

  lemma PaintClassify(c: seq<bool>)
    ensures Classify(Paint(c), 8) == c
  {
  }

  lemma {:induction false} CountsConcat(a: seq<nat>, b: seq<nat>, v: int)
    ensures CountAtLeast(a + b, v) == CountAtLeast(a, v) + CountAtLeast(b, v)
    ensures CountAbove(a + b, v) == CountAbove(a, v) + CountAbove(b, v)
    decreases |b|
  {
    if b != [] {
      var n := |b|;
      assert (a + b)[..|a + b| - 1] == a + b[..n - 1];
      CountsConcat(a, b[..n - 1], v);
      CountsSnoc(a + b, v);
      CountsSnoc(b, v);
    } else {
      assert a + b == a;
    }
  }

  lemma {:induction false} CountsBelow(s: seq<nat>, v: int)
    requires forall i :: 0 <= i < |s| ==> s[i] < v
    ensures CountAtLeast(s, v) == 0 && CountAbove(s, v) == 0
  {
    if s != [] {
      CountsBelow(s[..|s| - 1], v);
    }
  }

  lemma CountsOfOne(x: nat, v: int)
    ensures CountAtLeast([x], v) == if x >= v then 1 else 0
    ensures CountAbove([x], v) == if x > v then 1 else 0
  {
    assert [x][..0] == [];
  }

  /** Bars `k` samples per module: the narrowest is `k` wide and dividing by it gives back the module widths. */
  lemma ScaledWidths(widths: seq<nat>, k: nat)
    requires 1 in widths && forall i :: 0 <= i < |widths| ==> 1 <= widths[i] <= 4
    requires k >= 1
    ensures forall i :: 0 <= i < |widths| ==> k <= Scale(widths, k)[i] <= 4 * k
    ensures MinOf(Scale(widths, k)) == k
    ensures Ratios(Scale(widths, k), k) == widths
  {
    var mid := Scale(widths, k);
    forall i | 0 <= i < |mid|
      ensures k <= mid[i] <= 4 * k
    {
      MulKeepsOrder(k, widths[i], 1);
      MulKeepsOrder(k, 4, widths[i]);
    }
    var j :| 0 <= j < |widths| && widths[j] == 1;
    assert mid[j] == k;
    MinOfUnique(mid, k);
    forall i | 0 <= i < |widths|
      ensures Ratios(mid, k)[i] == widths[i]
    {
      RatioOfMultiple(widths[i], k);
      assert mid[i] == widths[i] * k;
    }
  }

  /**
   * The runs of a clean scan line: quiet zones wider than any bar on both
   * sides, every bar `k` samples per module. `normalizeSegments` recovers the
   * module widths, provided at least one bar is one module wide.
   */
  lemma NormalizeClean(widths: seq<nat>, k: nat, left: nat, right: nat)
    requires 1 in widths && forall i :: 0 <= i < |widths| ==> 1 <= widths[i] <= 4
    requires k >= 1 && left > 4 * k && right > 4 * k
    ensures RunsShape([left] + Scale(widths, k) + [right])
    ensures Normalize([left] + Scale(widths, k) + [right]) == Some(widths)
  {
    var mid := Scale(widths, k);
    ScaledWidths(widths, k);
    var m := if left < right then left else right;
    CleanShape(mid, left, right);
    CleanSecondLargest(mid, left, right, m);
    CleanInner(mid, left, right, m);
    NormalizeOf([left] + mid + [right], m, mid, widths);
  }

  lemma CleanShape(mid: seq<nat>, left: nat, right: nat)
    requires forall i :: 0 <= i < |mid| ==> mid[i] >= 1
    requires right >= 1
    ensures RunsShape([left] + mid + [right])
  {
    var s := [left] + mid + [right];
    forall i | 1 <= i < |s|
      ensures s[i] >= 1
    {
      if i <= |mid| {
        assert s[i] == mid[i - 1];
      }
    }
  }

  /** The quiet zones are the two longest runs, so the smaller of them is the second largest. */
  lemma CleanSecondLargest(mid: seq<nat>, left: nat, right: nat, m: nat)
    requires forall i :: 0 <= i < |mid| ==> mid[i] < m
    requires m == if left < right then left else right
    ensures SecondLargest([left] + mid + [right]) == Some(m)
  {
    var s := [left] + mid + [right];
    CountsBelow(mid, m);
    CountsConcat([left], mid, m);
    CountsConcat([left] + mid, [right], m);
    CountsOfOne(left, m);
    CountsOfOne(right, m);
    SecondLargestUnique(s, m);
  }

  lemma CleanInner(mid: seq<nat>, left: nat, right: nat, m: nat)
    requires forall i :: 0 <= i < |mid| ==> mid[i] < m
    requires m <= left && m <= right
    ensures InnerRuns([left] + mid + [right], m) == mid
  {
    var s := [left] + mid + [right];
    InnerRunsSlice(s, m, 0, |s| - 1);
    assert s[1..|s| - 1] == mid;
  }

  lemma NormalizeOf(s: seq<nat>, v: nat, inner: seq<nat>, widths: seq<nat>)
    requires RunsShape(s) && SecondLargest(s) == Some(v) && InnerRuns(s, v) == inner && inner != []
    requires forall i :: 0 <= i < |inner| ==> inner[i] >= 1
    requires Ratios(inner, MinOf(inner)) == widths
    ensures Normalize(s) == Some(widths)
  {
  }

  /** A sum below twice the length, with every element at least one, needs an element equal to one. */
  lemma {:induction false} SomeUnitWidth(s: seq<int>)
    requires forall i :: 0 <= i < |s| ==> s[i] >= 1
    requires Sum(s) < 2 * |s|
    ensures 1 in s
  {
    var n := |s|;
    var p := s[..n - 1];
    if s[n - 1] != 1 {
      SomeUnitWidth(p);
      var i :| 0 <= i < |p| && p[i] == 1;
      assert s[i] == 1;
    }
  }

  /** The widths `toIntervals` draws, which are never negative. */
  function IntervalWidths(code: Int32): (widths: seq<nat>)
    ensures widths == Intervals(code)
  {
    IntervalsShape(code);
    Intervals(code)
  }

  /** What `toIntervals` draws passes `isValid`, and one of its bars is one module wide. */
  lemma IntervalsValid(code: Int32)
    ensures IsValid(Intervals(code))
    ensures 1 in Intervals(code)
    ensures forall i :: 0 <= i < |Intervals(code)| ==> 1 <= Intervals(code)[i] <= 4
  {
    IntervalsShape(code);
    SomeUnitWidth(Intervals(code));
  }

  /**
   * A scan line across a barcode drawn by `toIntervals`: `left` and `right`
   * light samples of quiet zone around the bars, `k` samples per module, the
   * first bar dark, dark samples black and light samples white.
   */
  function PrintedRow(code: Int32, k: nat, left: nat, right: nat): seq<Byte>
  {
    Paint(Expand([left] + Scale(IntervalWidths(code), k) + [right]))
  }

  lemma ExpandEnds(runs: seq<nat>)
    requires |runs| >= 2 && runs[|runs| - 1] >= 1 && runs[|runs| - 2] >= 1
    ensures var c := Expand(runs);
      |c| > runs[|runs| - 1] &&
      c[|c| - 1] == RunColor(|runs| - 1) &&
      c[|c| - 1 - runs[|runs| - 1]] == RunColor(|runs| - 2)
  {
    var n := |runs|;
    var front := runs[..n - 1];
    assert front[..n - 2] == runs[..n - 2];
    assert Expand(front) == Expand(runs[..n - 2]) + Repeat(RunColor(n - 2), runs[n - 2]);
    assert Expand(runs) == Expand(front) + Repeat(RunColor(n - 1), runs[n - 1]);
  }

  /**
   * A clean scan line whose bars start and end dark, between two light quiet
   * zones, holds both black and white, so its threshold is 8.
   */
  lemma CleanThreshold(widths: seq<nat>, k: nat, left: nat, right: nat)
    requires |widths| % 2 == 1 && forall i :: 0 <= i < |widths| ==> widths[i] >= 1
    requires k >= 1 && right >= 1
    ensures Threshold(Paint(Expand([left] + Scale(widths, k) + [right]))) == 8
  {
    var runs := [left] + Scale(widths, k) + [right];
    var n := |runs|;
    var last := widths[|widths| - 1];
    assert runs[n - 2] == k * last;
    MulKeepsOrder(k, last, 1);
    ExpandEnds(runs);
    RunColorAlternates(n - 2);
    var c := Expand(runs);
    PaintThreshold(c, |c| - 1, |c| - 1 - right);
  }

  /**
   * End to end: whatever non-negative code `toIntervals` draws, a clean scan
   * line across it decodes back to the code, at any scale, as long as the
   * quiet zones are wider than the widest bar.
   */
  lemma PrintedRowDecodes(code: Int32, k: nat, left: nat, right: nat)
    requires 0 <= code && k >= 1 && left > 4 * k && right > 4 * k
    ensures DecodeRow(PrintedRow(code, k, left, right)) == Some(code)
  {
    var widths := IntervalWidths(code);
    IntervalsValid(code);
    IntervalsShape(code);
    var runs := [left] + Scale(widths, k) + [right];
    var c := Expand(runs);
    var row := PrintedRow(code, k, left, right);
    NormalizeClean(widths, k, left, right);
    CleanThreshold(widths, k, left, right);
    assert Runs(Classify(row, 8)) == runs by {
      PaintClassify(c);
      RunsUnique(runs);
    }
    RoundTrip(code);
  }


}
