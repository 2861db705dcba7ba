/** The waveform downsampler of src/components/Viewers/SignalPlot.jsx:5-29. A long
    signal is cut into `targetPoints` buckets of floor(L / targetPoints) samples;
    each bucket becomes two points, its minimum at the bucket's start and its
    maximum at the bucket's end, so the plot keeps every peak. Short signals are
    plotted sample by sample. */
module Downsample {

  /** A plotted point: a sample index and a value. */
  datatype Point = Point(x: int, y: real)

  /** v is the least value of s. */
  predicate IsMinOf(v: real, s: seq<real>) {
    v in s && forall k :: 0 <= k < |s| ==> v <= s[k]
  }

  /** v is the greatest value of s. */
  predicate IsMaxOf(v: real, s: seq<real>) {
    v in s && forall k :: 0 <= k < |s| ==> s[k] <= v
  }

  /** One point per sample. */
  predicate IsIdentityPlot(points: seq<Point>, data: seq<real>) {
    |points| == |data| && forall i :: 0 <= i < |data| ==> points[i] == Point(i, data[i])
  }

  /** Points 2i and 2i + 1, for each of the first `count` buckets, are the minimum
      and the maximum of bucket i, the samples [i·w, i·w + w), placed at its two ends. */
  predicate BucketPoints(points: seq<Point>, data: seq<real>, count: nat, total: nat, w: nat) {
    && total * w <= |data|
    && |points| == 2 * count
    && forall i :: 0 <= i < count ==>
         && i * w + w <= total * w
         && points[2 * i].x == i * w && IsMinOf(points[2 * i].y, data[i * w..i * w + w])
         && points[2 * i + 1].x == i * w + w && IsMaxOf(points[2 * i + 1].y, data[i * w..i * w + w])
  }

  /** The plot of `targetPoints` buckets of w samples each, two points per bucket. */
  predicate IsBucketPlot(points: seq<Point>, data: seq<real>, targetPoints: nat, w: nat) {
    BucketPoints(points, data, targetPoints, targetPoints, w)
  }

  /** Appending the extremes of the next bucket extends the plot by one bucket. */
  lemma BucketAppend(points: seq<Point>, data: seq<real>, count: nat, total: nat, w: nat, lo: real, hi: real)
    requires BucketPoints(points, data, count, total, w) && count < total
    requires count * w + w <= total * w
    requires IsMinOf(lo, data[count * w..count * w + w]) && IsMaxOf(hi, data[count * w..count * w + w])
    ensures BucketPoints(points + [Point(count * w, lo), Point(count * w + w, hi)], data, count + 1, total, w)
  {
    var next := points + [Point(count * w, lo), Point(count * w + w, hi)];
    forall i | 0 <= i < count + 1
      ensures next[2 * i].x == i * w && IsMinOf(next[2 * i].y, data[i * w..i * w + w])
      ensures next[2 * i + 1].x == i * w + w && IsMaxOf(next[2 * i + 1].y, data[i * w..i * w + w])
    {
      if i < count {
        assert next[2 * i] == points[2 * i] && next[2 * i + 1] == points[2 * i + 1];
      } else {
        assert next[2 * i] == Point(count * w, lo) && next[2 * i + 1] == Point(count * w + w, hi);
      }
    }
  }

  /** The samples after the last bucket are fewer than `targetPoints`. */
  lemma BucketsCoverAlmostAll(len: nat, targetPoints: nat)
    requires targetPoints >= 1
    ensures targetPoints * (len / targetPoints) <= len < targetPoints * (len / targetPoints) + targetPoints
  {
  }

  lemma BucketInside(i: nat, targetPoints: nat, w: nat)
    requires i < targetPoints
    ensures i * w + w <= targetPoints * w
  {
    MulMonotone(i + 1, targetPoints, w);
  }

  /** a·w grows with a. */
  lemma {:induction false} MulMonotone(a: nat, b: nat, w: nat)
    requires a <= b
    ensures a * w <= b * w
    decreases b - a
  {
    if a < b {
      MulMonotone(a, b - 1, w);
      assert b * w == (b - 1) * w + w;
    }
  }

  /** Scans the samples [start, end) for their least and greatest value. */
  method BucketExtremes(data: seq<real>, start: nat, end: nat) returns (lo: real, hi: real)
    requires start < end <= |data|
    ensures IsMinOf(lo, data[start..end]) && IsMaxOf(hi, data[start..end])
  {
    lo := data[start];
    hi := data[start];
    ghost var loAt, hiAt := start, start;
    var j := start + 1;
    while j < end
      invariant start + 1 <= j <= end
      invariant start <= loAt < j && data[loAt] == lo
      invariant start <= hiAt < j && data[hiAt] == hi
      invariant forall k :: start <= k < j ==> lo <= data[k] && data[k] <= hi
    {
      if data[j] < lo {
        lo := data[j];
        loAt := j;
      }
      if data[j] > hi {
        hi := data[j];
        hiAt := j;
      }
      j := j + 1;
    }
    assert data[start..end][loAt - start] == lo;
    assert data[start..end][hiAt - start] == hi;
  }

  /** getDownsampledData: nothing for no data; with zero target points the bucket
      size is Infinity and the bucket loop never runs; buckets of fewer than two
      samples give one point per sample; otherwise two points per bucket. */
  method GetDownsampledData(data: seq<real>, targetPoints: nat) returns (points: seq<Point>)
    ensures |data| == 0 ==> points == []
    ensures |data| > 0 && targetPoints == 0 ==> points == []
    ensures |data| > 0 && targetPoints > 0 && |data| / targetPoints < 2 ==> IsIdentityPlot(points, data)
    ensures |data| > 0 && targetPoints > 0 && |data| / targetPoints >= 2 ==>
              IsBucketPlot(points, data, targetPoints, |data| / targetPoints)
  {
    if |data| == 0 || targetPoints == 0 {
      return [];
    }
    var w := |data| / targetPoints;
    if w < 2 {
      return seq(|data|, i requires 0 <= i < |data| => Point(i, data[i]));
    }
    BucketsCoverAlmostAll(|data|, targetPoints);
    points := [];
    var i := 0;
    while i < targetPoints
      invariant 0 <= i <= targetPoints
      invariant BucketPoints(points, data, i, targetPoints, w)
    {
      BucketInside(i, targetPoints, w);
      var start := i * w;
      var end := if start + w < |data| then start + w else |data|;
      assert end == start + w;
      var lo, hi := BucketExtremes(data, start, end);
      BucketAppend(points, data, i, targetPoints, w, lo, hi);
      points := points + [Point(start, lo), Point(end, hi)];
      i := i + 1;
    }
  }
}
