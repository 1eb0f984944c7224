/**
 * The occurrence timeline (plotFamilyOccurrence in redpy/plotting_bak.py).
 *
 * For every family the source bins its members' times into a histogram,
 * turns each nonempty bin into an index into a 256-entry palette (by event
 * rate or by mean frequency index) and, when the family has enough members and
 * an event after mintime, gives it the next row of the timeline: a lifespan
 * line, one box per shown bin, a member-count label and, in the Bokeh
 * version, a hover box.  The model computes the same values; drawing them is
 * left to the plotting libraries and is not modelled.
 */
module Occurrence {
  import opened Options
  import opened Lifespan

  /** What colours the boxes: event rate per bin, or the bin's mean frequency index. */
  datatype ColorBy = Rate | Fi

  /** The `colorby` argument: 'rate', 'fi', and any other choice falling back to rate. */
  function ColorByNamed(name: string): (c: ColorBy)
    ensures c == Fi <==> name == "fi"
  {
    if name == "rate" then Rate else if name == "fi" then Fi else Rate
  }

  /** The scalar arguments of plotFamilyOccurrence that the layout depends on. */
  datatype Settings = Settings(
    mintime: real, maxtime: real, minplot: int, binsize: real, barpad: real,
    colorby: ColorBy, fiLow: real, fiHigh: real, useBokeh: bool)

  /**
   * Bins have positive width; in fi mode the clamp bounds (opt.fispanlow,
   * opt.fispanhigh) differ, since the source divides by their difference
   * (an inverted pair gives a reversed colour scale).
   */
  predicate ValidSettings(s: Settings)
  {
    s.binsize > 0.0 && (s.colorby == Fi ==> s.fiLow != s.fiHigh)
  }

  /**
   * The tables the layout reads: repeater times dt and frequency indices fi
   * (one per repeater), and per family its member rows, start time and
   * longevity.
   */
  datatype Catalog = Catalog(
    dt: seq<real>, fi: seq<real>, members: seq<seq<nat>>,
    famstarts: seq<real>, longevity: seq<real>)

  /** Every family has members, and each member is a row of the repeater table. */
  predicate WellFormed(c: Catalog)
  {
    && |c.fi| == |c.dt|
    && |c.famstarts| == |c.members| && |c.longevity| == |c.members|
    && forall f :: 0 <= f < |c.members| ==> |c.members[f]| > 0 && ValidRows(c.members[f], |c.dt|)
  }

  predicate ValidRows(ms: seq<nat>, n: nat)
  {
    forall k :: 0 <= k < |ms| ==> ms[k] < n
  }

  // ---------------------------------------------------------------------
  // Times of a family
  // ---------------------------------------------------------------------

  /** `dt[members]`. */
  function TimesOf(dt: seq<real>, ms: seq<nat>): seq<real>
    requires ValidRows(ms, |dt|)
  {
    seq(|ms|, k requires 0 <= k < |ms| => dt[ms[k]])
  }

  function Times(c: Catalog, f: nat): (ts: seq<real>)
    requires WellFormed(c) && f < |c.members|
    ensures |ts| > 0
  {
    TimesOf(c.dt, c.members[f])
  }

  /** `min(...)`: the least element. */
  function SeqMin(s: seq<real>): (m: real)
    requires |s| > 0
    ensures exists i :: 0 <= i < |s| && m == s[i]
    ensures forall i :: 0 <= i < |s| ==> m <= s[i]
  {
    if |s| == 1 then s[0]
    else
      var m := SeqMin(s[..|s| - 1]);
      if s[|s| - 1] < m then s[|s| - 1] else m
  }

  /** `max(...)`: the greatest element. */
  function SeqMax(s: seq<real>): (m: real)
    requires |s| > 0
    ensures exists i :: 0 <= i < |s| && m == s[i]
    ensures forall i :: 0 <= i < |s| ==> s[i] <= m
  {
    if |s| == 1 then s[0]
    else
      var m := SeqMax(s[..|s| - 1]);
      if s[|s| - 1] > m then s[|s| - 1] else m
  }

  // ---------------------------------------------------------------------
  // Histogram bins
  // ---------------------------------------------------------------------

  /** The left edge of bin k of a histogram starting at lo with width w. */
  function Left(lo: real, w: real, k: int): real
  {
    lo + (k as real) * w
  }

  /** Bin k is the half-open interval [left, left + w). */
  predicate InBin(t: real, lo: real, w: real, k: int)
  {
    Left(lo, w, k) <= t < Left(lo, w, k) + w
  }

  /** The bin a time falls in: the floor of (t - lo) / w. */
  function BinOf(lo: real, w: real, t: real): int
    requires w > 0.0
  {
    ((t - lo) / w).Floor
  }

  /**
   * Whether the span from lo to hi is a whole number of bins, so that the
   * last edge of `np.arange(lo, hi + w, w)` is hi itself.
   */
  predicate Exact(lo: real, hi: real, w: real)
    requires w > 0.0
  {
    Left(lo, w, BinOf(lo, w, hi)) == hi
  }

  /**
   * The number of bins of `np.histogram(ts, bins=np.arange(lo, hi + w, w))`
   * for the first time lo and the last time hi: one fewer than the edges
   * lo + k*w below hi + w (ArangeEdges).  There are none when lo == hi.
   */
  function NumBins(lo: real, hi: real, w: real): (nb: nat)
    requires w > 0.0 && lo <= hi
  {
    assert (hi - lo) / w >= 0.0;
    if Exact(lo, hi, w) then BinOf(lo, w, hi) else BinOf(lo, w, hi) + 1
  }

  lemma MulLe(a: real, b: real, w: real)
    requires a <= b && w > 0.0
    ensures a * w <= b * w
  {
  }

  lemma MulLt(a: real, b: real, w: real)
    requires a < b && w > 0.0
    ensures a * w < b * w
  {
  }

  lemma DivLe(a: real, b: real, w: real)
    requires a <= b && w > 0.0
    ensures a / w <= b / w
  {
  }

  /** Every time lies in the bin BinOf names. */
  lemma BinOfContains(lo: real, w: real, t: real)
    requires w > 0.0
    ensures InBin(t, lo, w, BinOf(lo, w, t))
  {
    var x := (t - lo) / w;
    var k := x.Floor;
    assert (k as real) <= x < (k as real) + 1.0;
    assert x * w == t - lo;
    MulLe(k as real, x, w);
    MulLt(x, k as real + 1.0, w);
    assert x * w < (k as real + 1.0) * w;
    assert (k as real + 1.0) * w == (k as real) * w + w;
    assert t - lo < (k as real) * w + w;
    assert Left(lo, w, k) == lo + (k as real) * w;
    assert Left(lo, w, k) <= t;
    assert t < Left(lo, w, k) + w;
    assert k == BinOf(lo, w, t);
  }

  /** The right edge of bin k is the left edge of bin k + 1. */
  lemma LeftSucc(lo: real, w: real, k: int)
    ensures Left(lo, w, k) + w == Left(lo, w, k + 1)
  {
    assert ((k + 1) as real) * w == (k as real) * w + w;
  }

  /** Bins further right start at or after the end of the bins before them. */
  lemma LeftStep(lo: real, w: real, a: int, b: int)
    requires a < b && w > 0.0
    ensures Left(lo, w, a) + w <= Left(lo, w, b)
  {
    var x, y := (a as real) * w, (b as real) * w;
    MulLe(a as real + 1.0, b as real, w);
    assert (a as real + 1.0) * w == x + w;
    assert x + w <= y;
    assert Left(lo, w, a) + w == lo + x + w;
    assert Left(lo, w, b) == lo + y;
  }

  /** No time lies in two half-open bins. */
  lemma BinUnique(lo: real, w: real, t: real, k1: int, k2: int)
    requires w > 0.0 && InBin(t, lo, w, k1) && InBin(t, lo, w, k2)
    ensures k1 == k2
  {
    if k1 < k2 {
      LeftStep(lo, w, k1, k2);
    } else if k2 < k1 {
      LeftStep(lo, w, k2, k1);
    }
  }

  /**
   * `np.arange(lo, hi + w, w)` yields exactly the edges lo + k*w for
   * k = 0, ..., NumBins, so the histogram has NumBins bins; there are none
   * exactly when lo == hi.
   */
  lemma {:induction false} ArangeEdges(lo: real, hi: real, w: real)
    requires w > 0.0 && lo <= hi
    ensures forall k: nat :: Left(lo, w, k) < hi + w <==> k <= NumBins(lo, hi, w)
    ensures NumBins(lo, hi, w) == 0 <==> lo == hi
  {
    var b := BinOf(lo, w, hi);
    var nb := NumBins(lo, hi, w);
    BinOfContains(lo, w, hi);
    LeftSucc(lo, w, b);
    LeftSucc(lo, w, nb);
    assert Left(lo, w, 0) == lo;
    forall k: nat
      ensures Left(lo, w, k) < hi + w <==> k <= nb
    {
      if k <= nb {
        if k < nb {
          LeftStep(lo, w, k, nb);
        }
      } else {
        LeftStep(lo, w, nb, k);
      }
    }
  }

  /**
   * t lies in bin k of a histogram with nb bins: numpy's bins are half-open,
   * except the last, which also holds its right edge.
   */
  predicate InHistBin(t: real, lo: real, w: real, nb: nat, k: int)
  {
    0 <= k < nb && (InBin(t, lo, w, k) || (k == nb - 1 && t == Left(lo, w, k) + w))
  }

  /** The bin np.histogram counts t in: its half-open bin, or the last bin for hi on the closing edge. */
  function HistBinOf(lo: real, hi: real, w: real, t: real): int
    requires w > 0.0 && lo <= hi
  {
    if Exact(lo, hi, w) && t == hi then NumBins(lo, hi, w) - 1 else BinOf(lo, w, t)
  }

  /**
   * When the times are not all equal, each time between the first and the
   * last lies in exactly one of the histogram's bins: the histogram loses no
   * event and counts none twice.  When they are all equal there is no bin.
   */
  lemma {:induction false} EventInExactlyOneBin(lo: real, hi: real, w: real, t: real)
    requires w > 0.0 && lo <= t <= hi
    ensures NumBins(lo, hi, w) == 0 <==> lo == hi
    ensures lo < hi ==> InHistBin(t, lo, w, NumBins(lo, hi, w), HistBinOf(lo, hi, w, t))
    ensures forall k :: InHistBin(t, lo, w, NumBins(lo, hi, w), k) ==> k == HistBinOf(lo, hi, w, t)
  {
    var b := BinOf(lo, w, hi);
    var nb := NumBins(lo, hi, w);
    ArangeEdges(lo, hi, w);
    BinOfContains(lo, w, hi);
    BinOfContains(lo, w, t);
    DivLe(t - lo, hi - lo, w);
    if Exact(lo, hi, w) && t == hi {
      if lo < hi {
        LeftSucc(lo, w, b - 1);
      }
      forall k | InHistBin(t, lo, w, nb, k)
        ensures k == HistBinOf(lo, hi, w, t)
      {
        if InBin(t, lo, w, k) {
          BinUnique(lo, w, t, k, b);
        }
      }
    } else {
      var k0 := BinOf(lo, w, t);
      LeftSucc(lo, w, nb - 1);
      forall k | InHistBin(t, lo, w, nb, k)
        ensures k == k0
      {
        if InBin(t, lo, w, k) {
          BinUnique(lo, w, t, k, k0);
        }
      }
    }
  }

  /** How many of the times np.histogram counts in bin k of nb. */
  function CountIn(ts: seq<real>, lo: real, w: real, nb: nat, k: int): (n: nat)
    ensures n <= |ts|
  {
    if ts == [] then 0
    else CountIn(ts[..|ts| - 1], lo, w, nb, k) + (if InHistBin(ts[|ts| - 1], lo, w, nb, k) then 1 else 0)
  }

  /** A bin's count is positive exactly when one of the times lies in it. */
  lemma {:induction false} CountInPositive(ts: seq<real>, lo: real, w: real, nb: nat, k: int)
    ensures CountIn(ts, lo, w, nb, k) > 0 <==> exists i :: 0 <= i < |ts| && InHistBin(ts[i], lo, w, nb, k)
  {
    if ts != [] {
      var front := ts[..|ts| - 1];
      CountInPositive(front, lo, w, nb, k);
      assert forall i :: 0 <= i < |front| ==> front[i] == ts[i];
    }
  }

  /** The bins below k, of nb, that hold at least one time, in increasing order. */
  function NonemptyBins(ts: seq<real>, lo: real, w: real, nb: nat, k: nat): (bs: seq<nat>)
    ensures |bs| <= k
  {
    if k == 0 then []
    else NonemptyBins(ts, lo, w, nb, k - 1) + (if CountIn(ts, lo, w, nb, k - 1) > 0 then [k - 1] else [])
  }

  /** NonemptyBins lists exactly the bins below k with a positive count, in increasing order. */
  lemma {:induction false} NonemptyBinsSpec(ts: seq<real>, lo: real, w: real, nb: nat, k: nat)
    ensures forall b: nat :: b in NonemptyBins(ts, lo, w, nb, k) <==> b < k && CountIn(ts, lo, w, nb, b) > 0
    ensures forall i, j :: 0 <= i < j < |NonemptyBins(ts, lo, w, nb, k)| ==>
              NonemptyBins(ts, lo, w, nb, k)[i] < NonemptyBins(ts, lo, w, nb, k)[j]
  {
    if k > 0 {
      var front := NonemptyBins(ts, lo, w, nb, k - 1);
      NonemptyBinsSpec(ts, lo, w, nb, k - 1);
      assert forall i :: 0 <= i < |front| ==> front[i] in front;
    }
  }

  /**
   * One nonempty histogram bin: its left edge h[i], its count hist[i], and
   * whether it is the histogram's last bin, which also holds its right edge.
   */
  datatype Bin = Bin(left: real, count: nat, closed: bool)

  /** t lies in bin b of width w, as np.histogram counts it. */
  predicate InBinOf(t: real, b: Bin, w: real)
  {
    b.left <= t < b.left + w || (b.closed && t == b.left + w)
  }

  /**
   * `hist[hist > 0]` with `h[hist > 0]`: the nonempty bins of the family's
   * histogram, bins of width w starting at its first event.
   */
  function Histogram(ts: seq<real>, w: real): (h: seq<Bin>)
    requires |ts| > 0 && w > 0.0
    ensures SeqMin(ts) <= SeqMax(ts) && |h| <= NumBins(SeqMin(ts), SeqMax(ts), w)
  {
    var lo, hi := SeqMin(ts), SeqMax(ts);
    assert lo <= ts[0] <= hi;
    var nb := NumBins(lo, hi, w);
    var bs := NonemptyBins(ts, lo, w, nb, nb);
    seq(|bs|, i requires 0 <= i < |bs| => Bin(Left(lo, w, bs[i]), CountIn(ts, lo, w, nb, bs[i]), bs[i] == nb - 1))
  }

  /** Bin i of the histogram is bin bs[i] of the numpy histogram, bs[i] below NumBins. */
  lemma HistogramAt(ts: seq<real>, w: real, i: nat)
    requires |ts| > 0 && w > 0.0 && i < |Histogram(ts, w)|
    ensures var lo, hi := SeqMin(ts), SeqMax(ts);
            var nb := NumBins(lo, hi, w);
            var k := NonemptyBins(ts, lo, w, nb, nb)[i];
            && k < nb
            && Histogram(ts, w)[i] == Bin(Left(lo, w, k), CountIn(ts, lo, w, nb, k), k == nb - 1)
            && (forall t :: InBinOf(t, Histogram(ts, w)[i], w) <==> InHistBin(t, lo, w, nb, k))
  {
    var lo, hi := SeqMin(ts), SeqMax(ts);
    var nb := NumBins(lo, hi, w);
    var bs := NonemptyBins(ts, lo, w, nb, nb);
    NonemptyBinsSpec(ts, lo, w, nb, nb);
    assert bs[i] in bs;
  }

  /**
   * When the family's times are not all equal, every event lies in one of
   * the histogram's nonempty bins.
   */
  lemma HistogramCoversEvents(ts: seq<real>, w: real, t: real)
    requires |ts| > 0 && w > 0.0 && t in ts && SeqMin(ts) < SeqMax(ts)
    ensures exists i :: 0 <= i < |Histogram(ts, w)| && InBinOf(t, Histogram(ts, w)[i], w)
  {
    var lo, hi := SeqMin(ts), SeqMax(ts);
    var nb := NumBins(lo, hi, w);
    var bs := NonemptyBins(ts, lo, w, nb, nb);
    var h := Histogram(ts, w);
    var e :| 0 <= e < |ts| && ts[e] == t;
    EventInExactlyOneBin(lo, hi, w, t);
    var k := HistBinOf(lo, hi, w, t);
    assert InHistBin(ts[e], lo, w, nb, k);
    CountInPositive(ts, lo, w, nb, k);
    NonemptyBinsSpec(ts, lo, w, nb, nb);
    assert k in bs;
    var j :| 0 <= j < |bs| && bs[j] == k;
    HistogramAt(ts, w, j);
  }

  /** The histogram has no bin at all exactly when the family's times are all equal. */
  lemma HistogramEmptyExactly(ts: seq<real>, w: real)
    requires |ts| > 0 && w > 0.0
    ensures Histogram(ts, w) == [] <==> SeqMin(ts) == SeqMax(ts)
  {
    var lo, hi := SeqMin(ts), SeqMax(ts);
    if lo < hi {
      assert ts[0] in ts;
      HistogramCoversEvents(ts, w, ts[0]);
    } else {
      ArangeEdges(lo, hi, w);
    }
  }

  /** Every bin the histogram keeps holds at least one event. */
  lemma HistogramBinsNonempty(ts: seq<real>, w: real)
    requires |ts| > 0 && w > 0.0
    ensures forall i :: 0 <= i < |Histogram(ts, w)| ==> Histogram(ts, w)[i].count >= 1
  {
    var lo, hi := SeqMin(ts), SeqMax(ts);
    var nb := NumBins(lo, hi, w);
    var bs := NonemptyBins(ts, lo, w, nb, nb);
    NonemptyBinsSpec(ts, lo, w, nb, nb);
    assert forall i :: 0 <= i < |bs| ==> bs[i] in bs;
  }

  /** The kept bins run left to right without overlapping, and only the last may be closed. */
  lemma HistogramOrdered(ts: seq<real>, w: real)
    requires |ts| > 0 && w > 0.0
    ensures forall i, j :: 0 <= i < j < |Histogram(ts, w)| ==>
              Histogram(ts, w)[i].left + w <= Histogram(ts, w)[j].left
    ensures forall i :: 0 <= i < |Histogram(ts, w)| - 1 ==> !Histogram(ts, w)[i].closed
  {
    var lo, hi := SeqMin(ts), SeqMax(ts);
    var nb := NumBins(lo, hi, w);
    var bs := NonemptyBins(ts, lo, w, nb, nb);
    var h := Histogram(ts, w);
    NonemptyBinsSpec(ts, lo, w, nb, nb);
    forall i, j | 0 <= i < j < |h|
      ensures h[i].left + w <= h[j].left
    {
      LeftStep(lo, w, bs[i], bs[j]);
    }
    forall i | 0 <= i < |h| - 1
      ensures !h[i].closed
    {
      assert bs[|h| - 1] in bs;
    }
  }

  // ---------------------------------------------------------------------
  // Palette indices
  // ---------------------------------------------------------------------

  /** Python's `int()` on a float: truncation toward zero. */
  function Trunc(x: real): int
  {
    if x >= 0.0 then x.Floor else -((-x).Floor)
  }

  function Min(a: real, b: real): real
  {
    if a <= b then a else b
  }

  function Max(a: real, b: real): real
  {
    if a >= b then a else b
  }

  /** The divisor of the rate scale: 3 decades for bins of a day or more, else 2. */
  function Decades(binsize: real): real
  {
    if binsize >= 1.0 then 3.0 else 2.0
  }

  /**
   * `int(min(255, 255*(log10(count)/3)))` (or `/2` for bins under a day).
   * The index never exceeds 255, it is a palette index whenever the logarithm
   * is not negative, it reaches 255 exactly when the count spans the whole
   * scale, and more events never give a smaller index.
   */
  function RateIndex(count: nat, binsize: real, log10: real -> real): (r: int)
    ensures r <= 255
    ensures log10(count as real) >= 0.0 ==> 0 <= r
    ensures r == 255 <==> log10(count as real) >= Decades(binsize)
  {
    Trunc(Min(255.0, 255.0 * (log10(count as real) / Decades(binsize))))
  }

  lemma RateIndexMonotone(c1: nat, c2: nat, binsize: real, log10: real -> real)
    requires 0.0 <= log10(c1 as real) <= log10(c2 as real)
    ensures RateIndex(c1, binsize, log10) <= RateIndex(c2, binsize, log10)
  {
    var d := Decades(binsize);
    assert log10(c1 as real) / d <= log10(c2 as real) / d;
  }

  /**
   * `int(max(min(255, 255*(mean-low)/(high-low)), 0))`: the mean frequency
   * index placed linearly between low and high, clamped to the palette.
   * With low < high, means at or below low give 0 and means at or above
   * high give 255; with low > high the scale is reversed.
   */
  function FiIndex(mean: real, low: real, high: real): (r: int)
    requires low != high
    ensures 0 <= r <= 255
    ensures low < high && mean <= low ==> r == 0
    ensures low < high && mean >= high ==> r == 255
    ensures low > high && mean >= low ==> r == 0
    ensures low > high && mean <= high ==> r == 255
  {
    var v := 255.0 * (mean - low) / (high - low);
    RatioBounds(mean - low, high - low);
    Trunc(Max(Min(255.0, v), 0.0))
  }

  lemma RatioBounds(a: real, d: real)
    requires d != 0.0
    ensures d > 0.0 && a <= 0.0 ==> 255.0 * a / d <= 0.0
    ensures d > 0.0 && a >= d ==> 255.0 * a / d >= 255.0
    ensures d < 0.0 && a >= 0.0 ==> 255.0 * a / d <= 0.0
    ensures d < 0.0 && a <= d ==> 255.0 * a / d >= 255.0
  {
    if d > 0.0 && a >= d {
      assert a / d >= 1.0;
    }
    if d < 0.0 && a <= d {
      assert a / d >= 1.0;
    }
  }

  lemma FiIndexMonotone(m1: real, m2: real, low: real, high: real)
    requires low < high && m1 <= m2
    ensures FiIndex(m1, low, high) <= FiIndex(m2, low, high)
  {
    assert 255.0 * (m1 - low) / (high - low) <= 255.0 * (m2 - low) / (high - low);
  }

  /** With a reversed span a larger mean never gives a larger colour index. */
  lemma FiIndexAntitone(m1: real, m2: real, low: real, high: real)
    requires low > high && m1 <= m2
    ensures FiIndex(m1, low, high) >= FiIndex(m2, low, high)
  {
    assert 255.0 * (m1 - low) / (high - low) >= 255.0 * (m2 - low) / (high - low);
  }

  // ---------------------------------------------------------------------
  // Mean frequency index per bin
  // ---------------------------------------------------------------------

  /** `members[np.where((dt[members] >= a) & (dt[members] < b))]`, in member order. */
  function MembersIn(dt: seq<real>, ms: seq<nat>, a: real, b: real): (r: seq<nat>)
    requires ValidRows(ms, |dt|)
    ensures ValidRows(r, |dt|) && |r| <= |ms|
    ensures forall m :: m in r ==> m in ms && a <= dt[m] < b
  {
    if ms == [] then []
    else
      var last := ms[|ms| - 1];
      MembersIn(dt, ms[..|ms| - 1], a, b) + (if a <= dt[last] < b then [last] else [])
  }

  /** `np.sum(fi[rows])`. */
  function SumFi(fi: seq<real>, rows: seq<nat>): real
    requires ValidRows(rows, |fi|)
  {
    if rows == [] then 0.0 else SumFi(fi, rows[..|rows| - 1]) + fi[rows[|rows| - 1]]
  }

  /**
   * Corrected selection of a bin's members: those whose time lies in the bin
   * as np.histogram counts it, the closing edge of the last bin included.
   */
  function BinMembers(dt: seq<real>, ms: seq<nat>, b: Bin, w: real): (r: seq<nat>)
    requires ValidRows(ms, |dt|)
    ensures ValidRows(r, |dt|) && |r| <= |ms|
    ensures forall m :: m in r ==> m in ms && InBinOf(dt[m], b, w)
  {
    if ms == [] then []
    else
      var last := ms[|ms| - 1];
      BinMembers(dt, ms[..|ms| - 1], b, w) + (if InBinOf(dt[last], b, w) then [last] else [])
  }

  /** How many of the members have time x. */
  function CountAt(dt: seq<real>, ms: seq<nat>, x: real): (n: nat)
    requires ValidRows(ms, |dt|)
    ensures n <= |ms|
  {
    if ms == [] then 0
    else CountAt(dt, ms[..|ms| - 1], x) + (if dt[ms[|ms| - 1]] == x then 1 else 0)
  }

  /**
   * The selection as written agrees with the bin everywhere except on the
   * closing edge of the histogram's last bin: there it leaves out every
   * member whose time is that edge.
   */
  lemma {:induction false} MembersInMissesClosedEdge(dt: seq<real>, ms: seq<nat>, b: Bin, w: real)
    requires ValidRows(ms, |dt|) && w > 0.0
    ensures !b.closed ==> MembersIn(dt, ms, b.left, b.left + w) == BinMembers(dt, ms, b, w)
    ensures b.closed ==>
              |BinMembers(dt, ms, b, w)| == |MembersIn(dt, ms, b.left, b.left + w)| + CountAt(dt, ms, b.left + w)
  {
    if ms != [] {
      MembersInMissesClosedEdge(dt, ms[..|ms| - 1], b, w);
    }
  }

  /** The corrected selection picks as many members as the histogram counts in bin k. */
  lemma {:induction false} BinMembersMatchCount(dt: seq<real>, ms: seq<nat>, lo: real, w: real, nb: nat, k: int, b: Bin)
    requires ValidRows(ms, |dt|) && 0 <= k < nb
    requires b.left == Left(lo, w, k) && b.closed == (k == nb - 1)
    ensures |BinMembers(dt, ms, b, w)| == CountIn(TimesOf(dt, ms), lo, w, nb, k)
  {
    if ms != [] {
      var front := ms[..|ms| - 1];
      BinMembersMatchCount(dt, front, lo, w, nb, k, b);
      assert TimesOf(dt, ms)[..|ms| - 1] == TimesOf(dt, front);
    }
  }

  /**
   * Corrected: the members summed for each bin are exactly the events the
   * histogram counted in it, so `fisum[i] / hist[i]` is the mean frequency
   * index of the bin's events.
   */
  lemma BinMembersAreCounted(dt: seq<real>, ms: seq<nat>, w: real)
    requires ValidRows(ms, |dt|) && |ms| > 0 && w > 0.0
    ensures forall i :: 0 <= i < |Histogram(TimesOf(dt, ms), w)| ==>
              |BinMembers(dt, ms, Histogram(TimesOf(dt, ms), w)[i], w)| == Histogram(TimesOf(dt, ms), w)[i].count
  {
    var ts := TimesOf(dt, ms);
    var h := Histogram(ts, w);
    var lo, hi := SeqMin(ts), SeqMax(ts);
    var nb := NumBins(lo, hi, w);
    forall i | 0 <= i < |h|
      ensures |BinMembers(dt, ms, h[i], w)| == h[i].count
    {
      HistogramAt(ts, w, i);
      var k := NonemptyBins(ts, lo, w, nb, nb)[i];
      BinMembersMatchCount(dt, ms, lo, w, nb, k, h[i]);
    }
  }

  lemma TwoEventTimes()
    ensures TimesOf([0.0, 1.0], [0, 1]) == [0.0, 1.0]
    ensures SeqMin([0.0, 1.0]) == 0.0 && SeqMax([0.0, 1.0]) == 1.0
  {
    assert [0.0, 1.0][..1] == [0.0];
  }

  lemma TwoEventBins()
    ensures Exact(0.0, 1.0, 1.0) && NumBins(0.0, 1.0, 1.0) == 1
  {
    assert (1.0 - 0.0) / 1.0 == 1.0;
    assert BinOf(0.0, 1.0, 1.0) == 1;
    assert Left(0.0, 1.0, 1) == 1.0;
  }

  lemma TwoEventCount()
    ensures CountIn([0.0, 1.0], 0.0, 1.0, 1, 0) == 2
    ensures NonemptyBins([0.0, 1.0], 0.0, 1.0, 1, 1) == [0]
  {
    assert Left(0.0, 1.0, 0) == 0.0;
    assert InHistBin(0.0, 0.0, 1.0, 1, 0);
    assert InHistBin(1.0, 0.0, 1.0, 1, 0);
    assert [0.0, 1.0][..1] == [0.0] && [0.0][..0] == [];
  }

  /** Two events one bin apart: one closed bin counting both. */
  lemma TwoEventHistogram()
    ensures Histogram(TimesOf([0.0, 1.0], [0, 1]), 1.0) == [Bin(0.0, 2, true)]
  {
    TwoEventTimes();
    TwoEventBins();
    TwoEventCount();
    assert Left(0.0, 1.0, 0) == 0.0;
  }

  /** Of the same two events, the selection as written picks only the first. */
  lemma TwoEventSelections()
    ensures MembersIn([0.0, 1.0], [0, 1], 0.0, 1.0) == [0]
    ensures BinMembers([0.0, 1.0], [0, 1], Bin(0.0, 2, true), 1.0) == [0, 1]
  {
    var ms: seq<nat> := [0, 1];
    assert ms[..1] == [0] && ms[..1][..0] == [];
  }

  /**
   * As written: two events one bin apart fall in one closed bin that counts
   * both, but the selection at the fisum loop picks only the first, so the
   * bin's `fisum/hist` is 1.0 where the mean frequency index of its events
   * is 3.0.
   */
  lemma FiSumDropsLastEvent()
    ensures Histogram(TimesOf([0.0, 1.0], [0, 1]), 1.0) == [Bin(0.0, 2, true)]
    ensures SumFi([2.0, 4.0], MembersIn([0.0, 1.0], [0, 1], 0.0, 0.0 + 1.0)) / 2.0 == 1.0
    ensures SumFi([2.0, 4.0], BinMembers([0.0, 1.0], [0, 1], Bin(0.0, 2, true), 1.0)) / 2.0 == 3.0
  {
    TwoEventHistogram();
    TwoEventSelections();
    TwoEventSums();
  }

  lemma TwoEventSums()
    ensures SumFi([2.0, 4.0], [0]) == 2.0 && SumFi([2.0, 4.0], [0, 1]) == 6.0
  {
    var ms: seq<nat> := [0, 1];
    assert ms[..1] == [0] && ms[..1][..0] == [];
  }

  /**
   * `fisum[i]` as the loop computes it: the frequency indices of the members
   * in [h[i], h[i] + binsize), also for numpy's closed last bin.
   */
  function BinFiSum(c: Catalog, ms: seq<nat>, b: Bin, w: real): real
    requires ValidRows(ms, |c.dt|) && |c.fi| == |c.dt|
  {
    SumFi(c.fi, MembersIn(c.dt, ms, b.left, b.left + w))
  }

  /**
   * The loop that fills `fisum = np.zeros(len(hist))` bin by bin.
   */
  method FiSums(c: Catalog, ms: seq<nat>, h: seq<Bin>, w: real) returns (sums: seq<real>)
    requires ValidRows(ms, |c.dt|) && |c.fi| == |c.dt|
    ensures |sums| == |h|
    ensures forall i :: 0 <= i < |h| ==> sums[i] == BinFiSum(c, ms, h[i], w)
  {
    var fisum := new real[|h|](_ => 0.0);
    for i := 0 to |h|
      invariant forall i' :: 0 <= i' < i ==> fisum[i'] == BinFiSum(c, ms, h[i'], w)
    {
      var idxs := MembersIn(c.dt, ms, h[i].left, h[i].left + w);
      fisum[i] := SumFi(c.fi, idxs);
    }
    sums := fisum[..];
  }

  /** The palette index of one kept bin b of a family with members ms: by rate, or by `fisum/hist`. */
  function BinColor(c: Catalog, s: Settings, log10: real -> real, ms: seq<nat>, b: Bin): int
    requires ValidRows(ms, |c.dt|) && |c.fi| == |c.dt| && ValidSettings(s) && b.count > 0
  {
    match s.colorby
    case Rate => RateIndex(b.count, s.binsize, log10)
    case Fi => FiIndex(BinFiSum(c, ms, b, s.binsize) / (b.count as real), s.fiLow, s.fiHigh)
  }

  /** `ind`: the palette index of each nonempty bin of family f. */
  function FamilyColors(c: Catalog, s: Settings, log10: real -> real, f: nat): (ind: seq<int>)
    requires WellFormed(c) && ValidSettings(s) && f < |c.members|
    ensures |ind| == |Histogram(Times(c, f), s.binsize)|
  {
    var h := Histogram(Times(c, f), s.binsize);
    HistogramBinsNonempty(Times(c, f), s.binsize);
    seq(|h|, i requires 0 <= i < |h| => BinColor(c, s, log10, c.members[f], h[i]))
  }

  /**
   * `colors = [bokehpalette[i] for i in ind]` never indexes outside the
   * 256-entry palette, because every bin holds at least one event and the
   * logarithm of a count of one or more is not negative.
   */
  lemma ColorsInPalette(c: Catalog, s: Settings, log10: real -> real, f: nat)
    requires WellFormed(c) && ValidSettings(s) && f < |c.members|
    requires forall x :: x >= 1.0 ==> log10(x) >= 0.0
    ensures forall i :: 0 <= i < |FamilyColors(c, s, log10, f)| ==> 0 <= FamilyColors(c, s, log10, f)[i] <= 255
  {
    HistogramBinsNonempty(Times(c, f), s.binsize);
  }

  /** Corrected: the palette index of the mean frequency index of the events counted in bin b. */
  function MeanFiIndex(c: Catalog, s: Settings, ms: seq<nat>, b: Bin): (k: int)
    requires ValidRows(ms, |c.dt|) && |c.fi| == |c.dt| && ValidSettings(s) && s.colorby == Fi && b.count > 0
    ensures 0 <= k <= 255
  {
    FiIndex(SumFi(c.fi, BinMembers(c.dt, ms, b, s.binsize)) / (b.count as real), s.fiLow, s.fiHigh)
  }

  /**
   * Corrected fi colouring: each kept bin coloured by the mean frequency
   * index of exactly the events np.histogram counted in it.
   */
  function MeanFiColors(c: Catalog, s: Settings, f: nat): (ind: seq<int>)
    requires WellFormed(c) && ValidSettings(s) && s.colorby == Fi && f < |c.members|
    ensures |ind| == |Histogram(Times(c, f), s.binsize)|
    ensures forall i :: 0 <= i < |ind| ==> 0 <= ind[i] <= 255
  {
    var h := Histogram(Times(c, f), s.binsize);
    HistogramBinsNonempty(Times(c, f), s.binsize);
    seq(|h|, i requires 0 <= i < |h| => MeanFiIndex(c, s, c.members[f], h[i]))
  }

  /**
   * Corrected: the index of each kept bin is that of the mean over exactly
   * its hist[i] events, since the corrected selection has hist[i] members.
   */
  lemma MeanFiColorsAreMeans(c: Catalog, s: Settings, f: nat)
    requires WellFormed(c) && ValidSettings(s) && s.colorby == Fi && f < |c.members|
    ensures forall i :: 0 <= i < |MeanFiColors(c, s, f)| ==>
              var sel := BinMembers(c.dt, c.members[f], Histogram(Times(c, f), s.binsize)[i], s.binsize);
              |sel| > 0 && MeanFiColors(c, s, f)[i] == FiIndex(SumFi(c.fi, sel) / (|sel| as real), s.fiLow, s.fiHigh)
  {
    HistogramBinsNonempty(Times(c, f), s.binsize);
    BinMembersAreCounted(c.dt, c.members[f], s.binsize);
  }

  /** On an open bin the as-written and the corrected palette indices agree. */
  lemma OpenBinSameIndex(c: Catalog, s: Settings, ms: seq<nat>, b: Bin)
    requires ValidRows(ms, |c.dt|) && |c.fi| == |c.dt| && ValidSettings(s) && s.colorby == Fi && b.count > 0
    requires !b.closed
    ensures FiIndex(BinFiSum(c, ms, b, s.binsize) / (b.count as real), s.fiLow, s.fiHigh) == MeanFiIndex(c, s, ms, b)
  {
    MembersInMissesClosedEdge(c.dt, ms, b, s.binsize);
  }

  /**
   * The colours as written and the corrected ones differ only at the closed
   * last bin: every other bin gets the same palette index.
   */
  lemma FiColorsAgreeOnOpenBins(c: Catalog, s: Settings, log10: real -> real, f: nat)
    requires WellFormed(c) && ValidSettings(s) && s.colorby == Fi && f < |c.members|
    ensures |FamilyColors(c, s, log10, f)| == |MeanFiColors(c, s, f)|
    ensures forall i :: 0 <= i < |MeanFiColors(c, s, f)| - 1 ==>
              FamilyColors(c, s, log10, f)[i] == MeanFiColors(c, s, f)[i]
  {
    var ts := Times(c, f);
    var h := Histogram(ts, s.binsize);
    HistogramOrdered(ts, s.binsize);
    HistogramBinsNonempty(ts, s.binsize);
    forall i | 0 <= i < |h| - 1
      ensures FamilyColors(c, s, log10, f)[i] == MeanFiColors(c, s, f)[i]
    {
      OpenBinSameIndex(c, s, c.members[f], h[i]);
    }
  }

  lemma TwoEventFiIndex()
    ensures FiIndex(1.0, 0.0, 4.0) == 63 && FiIndex(3.0, 0.0, 4.0) == 191
  {
    assert 255.0 * (1.0 - 0.0) / (4.0 - 0.0) == 63.75;
    assert 255.0 * (3.0 - 0.0) / (4.0 - 0.0) == 191.25;
  }

  lemma TwoEventCatalog()
    ensures WellFormed(Catalog([0.0, 1.0], [2.0, 4.0], [[0, 1]], [0.0], [1.0])) && ValidSettings(Settings(0.0, 1.0, 0, 1.0, 0.01, Fi, 0.0, 4.0, false))
    ensures Times(Catalog([0.0, 1.0], [2.0, 4.0], [[0, 1]], [0.0], [1.0]), 0) == TimesOf([0.0, 1.0], [0, 1])
  {
  }

  lemma TwoEventBinFiSum()
    ensures BinFiSum(Catalog([0.0, 1.0], [2.0, 4.0], [[0, 1]], [0.0], [1.0]), [0, 1], Bin(0.0, 2, true), 1.0) == 2.0
  {
    TwoEventSelections();
    TwoEventSums();
  }

  lemma TwoEventMeanIndex()
    ensures MeanFiIndex(Catalog([0.0, 1.0], [2.0, 4.0], [[0, 1]], [0.0], [1.0]), Settings(0.0, 1.0, 0, 1.0, 0.01, Fi, 0.0, 4.0, false), [0, 1], Bin(0.0, 2, true)) == 191
  {
    TwoEventSelections();
    TwoEventSums();
    TwoEventFiIndex();
  }

  /** In fi mode, a family with a single kept bin b gets the one palette index of b's mean as written. */
  lemma FamilyColorsSingleBin(c: Catalog, s: Settings, log10: real -> real, f: nat, b: Bin)
    requires WellFormed(c) && ValidSettings(s) && s.colorby == Fi && f < |c.members|
    requires Histogram(Times(c, f), s.binsize) == [b]
    ensures b.count > 0
    ensures FamilyColors(c, s, log10, f) ==
              [FiIndex(BinFiSum(c, c.members[f], b, s.binsize) / (b.count as real), s.fiLow, s.fiHigh)]
  {
    HistogramBinsNonempty(Times(c, f), s.binsize);
    var ind := FamilyColors(c, s, log10, f);
    assert ind[0] == BinColor(c, s, log10, c.members[f], b);
  }

  lemma TwoEventAsWrittenIndex(c: Catalog, s: Settings)
    requires c == Catalog([0.0, 1.0], [2.0, 4.0], [[0, 1]], [0.0], [1.0]) && s == Settings(0.0, 1.0, 0, 1.0, 0.01, Fi, 0.0, 4.0, false)
    ensures FiIndex(BinFiSum(c, c.members[0], Bin(0.0, 2, true), s.binsize) / (2 as real), s.fiLow, s.fiHigh) == 63
  {
    TwoEventBinFiSum();
    TwoEventFiIndex();
  }

  lemma TwoEventSingleBin(c: Catalog, s: Settings, log10: real -> real)
    requires c == Catalog([0.0, 1.0], [2.0, 4.0], [[0, 1]], [0.0], [1.0]) && s == Settings(0.0, 1.0, 0, 1.0, 0.01, Fi, 0.0, 4.0, false)
    ensures WellFormed(c) && ValidSettings(s)
    ensures FamilyColors(c, s, log10, 0) ==
              [FiIndex(BinFiSum(c, c.members[0], Bin(0.0, 2, true), s.binsize) / (2 as real), s.fiLow, s.fiHigh)]
  {
    TwoEventCatalog();
    TwoEventHistogram();
    FamilyColorsSingleBin(c, s, log10, 0, Bin(0.0, 2, true));
  }

  lemma TwoEventFamilyColors(c: Catalog, s: Settings, log10: real -> real)
    requires c == Catalog([0.0, 1.0], [2.0, 4.0], [[0, 1]], [0.0], [1.0]) && s == Settings(0.0, 1.0, 0, 1.0, 0.01, Fi, 0.0, 4.0, false)
    ensures WellFormed(c) && ValidSettings(s)
    ensures FamilyColors(c, s, log10, 0) == [63]
  {
    TwoEventSingleBin(c, s, log10);
    TwoEventAsWrittenIndex(c, s);
  }

  lemma TwoEventMeanColors(c: Catalog, s: Settings)
    requires c == Catalog([0.0, 1.0], [2.0, 4.0], [[0, 1]], [0.0], [1.0]) && s == Settings(0.0, 1.0, 0, 1.0, 0.01, Fi, 0.0, 4.0, false)
    ensures WellFormed(c) && ValidSettings(s)
    ensures MeanFiColors(c, s, 0) == [191]
  {
    TwoEventCatalog();
    TwoEventHistogram();
    TwoEventMeanIndex();
  }

  /**
   * As written, at the level of the palette: the two-event family of
   * FiSumDropsLastEvent with fispanlow 0 and fispanhigh 4 is coloured 63,
   * where its mean frequency index, 3.0, gives 191.
   */
  lemma FiColorsDropLastEvent(c: Catalog, s: Settings, log10: real -> real)
    requires c == Catalog([0.0, 1.0], [2.0, 4.0], [[0, 1]], [0.0], [1.0])
    requires s == Settings(0.0, 1.0, 0, 1.0, 0.01, Fi, 0.0, 4.0, false)
    ensures WellFormed(c) && ValidSettings(s)
    ensures FamilyColors(c, s, log10, 0) == [63]
    ensures MeanFiColors(c, s, 0) == [191]
  {
    TwoEventFamilyColors(c, s, log10);
    TwoEventMeanColors(c, s);
  }

  /** Computes `ind` as the source does, with the fisum loop in fi mode. */
  method ComputeColors(c: Catalog, s: Settings, log10: real -> real, f: nat) returns (ind: seq<int>)
    requires WellFormed(c) && ValidSettings(s) && f < |c.members|
    ensures ind == FamilyColors(c, s, log10, f)
  {
    var h := Histogram(Times(c, f), s.binsize);
    HistogramBinsNonempty(Times(c, f), s.binsize);
    if s.colorby == Rate {
      ind := seq(|h|, i requires 0 <= i < |h| => RateIndex(h[i].count, s.binsize, log10));
    } else {
      var fisum := FiSums(c, c.members[f], h, s.binsize);
      ind := seq(|h|, i requires 0 <= i < |h| =>
        FiIndex(fisum[i] / (h[i].count as real), s.fiLow, s.fiHigh));
    }
  }

  // ---------------------------------------------------------------------
  // Rows
  // ---------------------------------------------------------------------

  /** A family gets a row when it has at least minplot members and an event after mintime. */
  predicate Included(c: Catalog, s: Settings, f: nat): (b: bool)
    requires WellFormed(c) && f < |c.members|
    ensures b <==> |c.members[f]| >= s.minplot &&
                   exists i :: 0 <= i < |c.members[f]| && c.dt[c.members[f][i]] > s.mintime
  {
    var ts := Times(c, f);
    assert forall i :: 0 <= i < |ts| ==> ts[i] == c.dt[c.members[f][i]];
    |c.members[f]| >= s.minplot && SeqMax(ts) > s.mintime
  }

  /** The numbers below k that satisfy p, in increasing order. */
  function Filter(p: nat -> bool, k: nat): (xs: seq<nat>)
    ensures forall a :: 0 <= a < |xs| ==> xs[a] < k
  {
    if k == 0 then [] else Filter(p, k - 1) + (if p(k - 1) then [k - 1] else [])
  }

  /** Every number Filter keeps satisfies p. */
  lemma {:induction false} FilterSound(p: nat -> bool, k: nat)
    ensures forall a :: 0 <= a < |Filter(p, k)| ==> p(Filter(p, k)[a])
  {
    if k > 0 {
      var front := Filter(p, k - 1);
      var xs := Filter(p, k);
      FilterSound(p, k - 1);
      assert xs == front + (if p(k - 1) then [k - 1] else []);
      forall a | 0 <= a < |xs|
        ensures p(xs[a])
      {
        if a < |front| {
          assert xs[a] == front[a];
        }
      }
    }
  }

  /** Filter keeps every number below k that satisfies p. */
  lemma {:induction false} FilterComplete(p: nat -> bool, k: nat)
    ensures forall x: nat :: x < k && p(x) ==> x in Filter(p, k)
  {
    if k > 0 {
      var front := Filter(p, k - 1);
      var xs := Filter(p, k);
      FilterComplete(p, k - 1);
      if p(k - 1) {
        assert xs == front + [k - 1];
        assert xs[|front|] == k - 1;
      } else {
        assert xs == front;
      }
    }
  }

  /** Filter keeps the numbers in increasing order. */
  lemma {:induction false} FilterSorted(p: nat -> bool, k: nat)
    ensures forall a, b :: 0 <= a < b < |Filter(p, k)| ==> Filter(p, k)[a] < Filter(p, k)[b]
  {
    if k > 0 {
      var front := Filter(p, k - 1);
      var xs := Filter(p, k);
      FilterSorted(p, k - 1);
      assert xs == front + (if p(k - 1) then [k - 1] else []);
      forall a, b | 0 <= a < b < |xs|
        ensures xs[a] < xs[b]
      {
        assert xs[a] == front[a];
      }
    }
  }

  /** The families below k that get a row, in family-number order. */
  function IncludedFamilies(c: Catalog, s: Settings, k: nat): (fams: seq<nat>)
    requires WellFormed(c) && k <= |c.members|
    ensures forall a :: 0 <= a < |fams| ==> fams[a] < k
  {
    Filter((f: nat) => f < |c.members| && Included(c, s, f), k)
  }

  /** IncludedFamilies lists exactly the included families below k, in increasing order. */
  lemma IncludedFamiliesSpec(c: Catalog, s: Settings, k: nat)
    requires WellFormed(c) && k <= |c.members|
    ensures forall a :: 0 <= a < |IncludedFamilies(c, s, k)| ==> Included(c, s, IncludedFamilies(c, s, k)[a])
    ensures forall f: nat :: f < k && Included(c, s, f) ==> f in IncludedFamilies(c, s, k)
    ensures forall a, b :: 0 <= a < b < |IncludedFamilies(c, s, k)| ==>
              IncludedFamilies(c, s, k)[a] < IncludedFamilies(c, s, k)[b]
  {
    var p := (f: nat) => f < |c.members| && Included(c, s, f);
    FilterSound(p, k);
    FilterComplete(p, k);
    FilterSorted(p, k);
  }

  /** One drawn box: a bin's extent and its palette index. */
  datatype Box = Box(left: real, right: real, color: int)

  /**
   * A row of the timeline: the family it shows, its lifespan line as
   * generateLines decides it, its boxes and the x position of its
   * member-count label.
   */
  datatype Row = Row(family: nat, lines: Lines, boxes: seq<Box>, labelX: real)

  /**
   * Whether a bin starting at left is drawn: in the Bokeh version when it
   * starts after mintime, in the Matplotlib version when it starts within
   * [mintime, maxtime].
   */
  predicate Shown(s: Settings, left: real)
  {
    if s.useBokeh then left > s.mintime else s.mintime <= left <= s.maxtime
  }

  /** The boxes of the shown bins, in bin order, each with its own bin's colour. */
  function ShownBoxes(s: Settings, h: seq<Bin>, colors: seq<int>): (boxes: seq<Box>)
    requires |colors| == |h|
    ensures |boxes| <= |h|
  {
    if h == [] then []
    else
      var n := |h| - 1;
      ShownBoxes(s, h[..n], colors[..n]) +
        (if Shown(s, h[n].left) then [Box(h[n].left, h[n].left + s.binsize, colors[n])] else [])
  }

  /**
   * Every box belongs to a shown bin, spans exactly that bin and carries that
   * bin's colour; every shown bin has its box.
   */
  lemma {:induction false} ShownBoxesSpec(s: Settings, h: seq<Bin>, colors: seq<int>)
    requires |colors| == |h|
    ensures forall l, r, col :: Box(l, r, col) in ShownBoxes(s, h, colors) ==>
              Shown(s, l) && r == l + s.binsize &&
              exists i :: 0 <= i < |h| && l == h[i].left && col == colors[i]
    ensures forall i :: 0 <= i < |h| && Shown(s, h[i].left) ==>
              Box(h[i].left, h[i].left + s.binsize, colors[i]) in ShownBoxes(s, h, colors)
  {
    if h != [] {
      var n := |h| - 1;
      var front := ShownBoxes(s, h[..n], colors[..n]);
      var last := Box(h[n].left, h[n].left + s.binsize, colors[n]);
      ShownBoxesSpec(s, h[..n], colors[..n]);
      assert ShownBoxes(s, h, colors) == front + (if Shown(s, h[n].left) then [last] else []);
      forall l, r, col | Box(l, r, col) in ShownBoxes(s, h, colors)
        ensures Shown(s, l) && r == l + s.binsize
        ensures exists i :: 0 <= i < |h| && l == h[i].left && col == colors[i]
      {
        if Box(l, r, col) in front {
          var i :| 0 <= i < n && l == h[..n][i].left && col == colors[..n][i];
          assert h[..n][i] == h[i] && colors[..n][i] == colors[i];
        } else {
          assert Box(l, r, col) == last;
        }
      }
      forall i | 0 <= i < |h| && Shown(s, h[i].left)
        ensures Box(h[i].left, h[i].left + s.binsize, colors[i]) in ShownBoxes(s, h, colors)
      {
        if i < n {
          assert h[..n][i] == h[i] && colors[..n][i] == colors[i];
        }
      }
    }
  }

  /** `d2`: the right edges of all nonempty bins. */
  function Rights(h: seq<Bin>, w: real): seq<real>
  {
    seq(|h|, i requires 0 <= i < |h| => h[i].left + w)
  }

  /**
   * The Matplotlib label position: x2 from generateLines, pushed right past
   * every shown bin that ends beyond it, scanning the bins in order.  The
   * result is the largest of x2 and the right edges of the shown bins.
   */
  function Widened(x2: real, s: Settings, h: seq<Bin>): (r: real)
    ensures x2 <= r
  {
    if h == [] then x2
    else
      var n := |h| - 1;
      var x := Widened(x2, s, h[..n]);
      if Shown(s, h[n].left) && h[n].left + s.binsize > x then h[n].left + s.binsize else x
  }

  /** Widened is the largest of x2 and the right edges of the shown bins. */
  lemma {:induction false} WidenedIsMax(x2: real, s: Settings, h: seq<Bin>)
    ensures forall i :: 0 <= i < |h| && Shown(s, h[i].left) ==> h[i].left + s.binsize <= Widened(x2, s, h)
    ensures Widened(x2, s, h) == x2 ||
            exists i :: 0 <= i < |h| && Shown(s, h[i].left) && Widened(x2, s, h) == h[i].left + s.binsize
  {
    if h != [] {
      var n := |h| - 1;
      WidenedIsMax(x2, s, h[..n]);
      assert forall i :: 0 <= i < n ==> h[..n][i] == h[i];
    }
  }

  /**
   * The row of an included family.  In the Bokeh version a family whose
   * times are all equal has no bin, and the source raises at `max(d2)`
   * (BokehRaises); the label value 0.0 there is never part of a layout.
   */
  function RowFor(c: Catalog, s: Settings, log10: real -> real, f: nat): (row: Row)
    requires WellFormed(c) && ValidSettings(s) && f < |c.members|
    ensures row.family == f
  {
    var h := Histogram(Times(c, f), s.binsize);
    var colors := FamilyColors(c, s, log10, f);
    var lines := GenerateLines(s.mintime, s.maxtime, s.barpad, c.famstarts[f], c.longevity[f]);
    var boxes := ShownBoxes(s, h, colors);
    if s.useBokeh then
      Row(f, lines, boxes, if h == [] then 0.0 else SeqMax(Rights(h, s.binsize)))
    else
      Row(f, lines, boxes, Widened(lines.x2, s, h))
  }

  /**
   * In the Bokeh version the label sits at the right edge of the last bin,
   * at or to the right of every event of the family (on it when the last
   * event closes the last bin).
   */
  lemma BokehLabelRightOfEvents(c: Catalog, s: Settings, log10: real -> real, f: nat)
    requires WellFormed(c) && ValidSettings(s) && f < |c.members| && s.useBokeh
    requires SeqMin(Times(c, f)) < SeqMax(Times(c, f))
    ensures forall t :: t in Times(c, f) ==> t <= RowFor(c, s, log10, f).labelX
  {
    var ts := Times(c, f);
    var h := Histogram(ts, s.binsize);
    HistogramEmptyExactly(ts, s.binsize);
    forall t | t in ts
      ensures t <= RowFor(c, s, log10, f).labelX
    {
      HistogramCoversEvents(ts, s.binsize, t);
      var i :| 0 <= i < |h| && InBinOf(t, h[i], s.binsize);
      assert Rights(h, s.binsize)[i] in Rights(h, s.binsize);
    }
  }

  /** g applied to each element of xs, in order. */
  function Map<T>(g: nat --> T, xs: seq<nat>): (ys: seq<T>)
    requires forall a :: 0 <= a < |xs| ==> g.requires(xs[a])
    ensures |ys| == |xs|
  {
    if xs == [] then [] else Map(g, xs[..|xs| - 1]) + [g(xs[|xs| - 1])]
  }

  /** Element a of Map is g of element a. */
  lemma {:induction false} MapAt<T>(g: nat --> T, xs: seq<nat>)
    requires forall a :: 0 <= a < |xs| ==> g.requires(xs[a])
    ensures forall a :: 0 <= a < |xs| ==> Map(g, xs)[a] == g(xs[a])
  {
    if xs != [] {
      MapAt(g, xs[..|xs| - 1]);
    }
  }

  /** Mapping one more element appends its image. */
  lemma MapAppend<T>(g: nat --> T, xs: seq<nat>, x: nat)
    requires forall a :: 0 <= a < |xs| ==> g.requires(xs[a])
    requires g.requires(x)
    ensures Map(g, xs + [x]) == Map(g, xs) + [g(x)]
  {
    assert (xs + [x])[..|xs|] == xs;
  }

  /** g applied to 0, 1, ..., k - 1. */
  function Tabulate<T>(g: nat --> T, k: nat): (ys: seq<T>)
    requires forall x: nat :: x < k ==> g.requires(x)
    ensures |ys| == k
  {
    if k == 0 then [] else Tabulate(g, k - 1) + [g(k - 1)]
  }

  /** Element x of Tabulate is g of x. */
  lemma {:induction false} TabulateAt<T>(g: nat --> T, k: nat)
    requires forall x: nat :: x < k ==> g.requires(x)
    ensures forall x: nat :: x < k ==> Tabulate(g, k)[x] == g(x)
  {
    if k > 0 {
      TabulateAt(g, k - 1);
    }
  }

  /** RowFor as a function of the family alone. */
  function RowOf(c: Catalog, s: Settings, log10: real -> real): nat --> Row
  {
    (f: nat) requires WellFormed(c) && ValidSettings(s) && f < |c.members| => RowFor(c, s, log10, f)
  }

  /** An included family adds its row after the rows of the families before it. */
  lemma IncludedFamilyAddsRow(c: Catalog, s: Settings, log10: real -> real, f: nat)
    requires WellFormed(c) && ValidSettings(s) && f < |c.members| && Included(c, s, f)
    ensures Map(RowOf(c, s, log10), IncludedFamilies(c, s, f + 1))
         == Map(RowOf(c, s, log10), IncludedFamilies(c, s, f)) + [RowFor(c, s, log10, f)]
  {
    MapAppend(RowOf(c, s, log10), IncludedFamilies(c, s, f), f);
  }

  /** A family that is not included adds no row. */
  lemma ExcludedFamilyAddsNoRow(c: Catalog, s: Settings, f: nat)
    requires WellFormed(c) && f < |c.members| && !Included(c, s, f)
    ensures IncludedFamilies(c, s, f + 1) == IncludedFamilies(c, s, f)
  {
    assert IncludedFamilies(c, s, f + 1) == IncludedFamilies(c, s, f) + [];
  }

  /** The rows of the timeline: one per included family, in family-number order. */
  function Rows(c: Catalog, s: Settings, log10: real -> real): (rows: seq<Row>)
    requires WellFormed(c) && ValidSettings(s)
    ensures |rows| == |IncludedFamilies(c, s, |c.members|)|
  {
    Map(RowOf(c, s, log10), IncludedFamilies(c, s, |c.members|))
  }

  /** Row r of the timeline shows the r-th included family. */
  lemma RowFamilies(c: Catalog, s: Settings, log10: real -> real)
    requires WellFormed(c) && ValidSettings(s)
    ensures forall r :: 0 <= r < |Rows(c, s, log10)| ==>
              Rows(c, s, log10)[r].family == IncludedFamilies(c, s, |c.members|)[r]
  {
    var fams := IncludedFamilies(c, s, |c.members|);
    MapAt(RowOf(c, s, log10), fams);
    forall r | 0 <= r < |fams|
      ensures Rows(c, s, log10)[r].family == fams[r]
    {
      assert Rows(c, s, log10)[r] == RowFor(c, s, log10, fams[r]);
    }
  }

  /**
   * Row numbers are consecutive from 0 in family-number order, and a family
   * has a row exactly when it is included.
   */
  lemma RowsNumberIncludedFamilies(c: Catalog, s: Settings, log10: real -> real)
    requires WellFormed(c) && ValidSettings(s)
    ensures var rows := Rows(c, s, log10);
            && (forall r :: 0 <= r < |rows| ==> rows[r].family < |c.members| && Included(c, s, rows[r].family))
            && (forall f :: 0 <= f < |c.members| && Included(c, s, f) ==> exists r :: 0 <= r < |rows| && rows[r].family == f)
            && (forall r1, r2 :: 0 <= r1 < r2 < |rows| ==> rows[r1].family < rows[r2].family)
  {
    var fams := IncludedFamilies(c, s, |c.members|);
    var rows := Rows(c, s, log10);
    RowFamilies(c, s, log10);
    IncludedFamiliesSpec(c, s, |c.members|);
    forall f | 0 <= f < |c.members| && Included(c, s, f)
      ensures exists r :: 0 <= r < |rows| && rows[r].family == f
    {
      assert f in fams;
      var r :| 0 <= r < |fams| && fams[r] == f;
      assert rows[r].family == f;
    }
  }

  // ---------------------------------------------------------------------
  // Hover boxes
  // ---------------------------------------------------------------------

  /** The x corners of a family's hover box: from its first event (or mintime) to its last, padded. */
  function HoverXs(c: Catalog, s: Settings, f: nat): (xs: seq<real>)
    requires WellFormed(c) && f < |c.members|
    ensures |xs| == 4 && xs[0] == xs[1] && xs[2] == xs[3]
    ensures forall i :: 0 <= i < |c.members[f]| ==> xs[2] - s.barpad >= c.dt[c.members[f][i]]
  {
    var ts := Times(c, f);
    assert forall i :: 0 <= i < |ts| ==> ts[i] == c.dt[c.members[f][i]];
    var l := Max(SeqMin(ts), s.mintime) - s.barpad;
    var r := SeqMax(ts) + s.barpad;
    [l, l, r, r]
  }

  /** The y corners of the hover box of row n. */
  function HoverYs(n: nat): (ys: seq<real>)
    ensures |ys| == 4 && ys[0] == ys[3] < n as real < ys[1] == ys[2]
    ensures ys[1] - ys[0] == 1.0
  {
    [n as real - 0.5, n as real + 0.5, n as real + 0.5, n as real - 0.5]
  }

  /**
   * The hover box of an included family is a proper box: left edge no
   * further right than the right edge, bottom below top by one row.
   */
  lemma HoverBoxOrdered(c: Catalog, s: Settings, f: nat, n: nat)
    requires WellFormed(c) && f < |c.members| && Included(c, s, f) && s.barpad >= 0.0
    ensures HoverXs(c, s, f)[0] == HoverXs(c, s, f)[1] <= HoverXs(c, s, f)[2] == HoverXs(c, s, f)[3]
    ensures HoverYs(n)[1] - HoverYs(n)[0] == 1.0
  {
    var ts := Times(c, f);
    assert SeqMin(ts) <= SeqMax(ts) by {
      assert ts[0] in ts;
    }
  }

  // ---------------------------------------------------------------------
  // The family loop
  // ---------------------------------------------------------------------

  /** The Matplotlib box loop: draws the shown bins and widens x2 past them. */
  method MatplotlibBoxes(s: Settings, h: seq<Bin>, colors: seq<int>, x2: real)
    returns (boxes: seq<Box>, labelAt: real)
    requires |colors| == |h| && !s.useBokeh
    ensures boxes == ShownBoxes(s, h, colors)
    ensures labelAt == Widened(x2, s, h)
  {
    boxes := [];
    labelAt := x2;
    for i := 0 to |h|
      invariant boxes == ShownBoxes(s, h[..i], colors[..i])
      invariant labelAt == Widened(x2, s, h[..i])
    {
      var x := h[i].left;
      var w := s.binsize;
      assert h[..i + 1][..i] == h[..i] && colors[..i + 1][..i] == colors[..i];
      if s.mintime <= x && x <= s.maxtime {
        boxes := boxes + [Box(x, x + w, colors[i])];
        if x + w > labelAt {
          labelAt := x + w;
        }
      }
    }
    assert h[..|h|] == h && colors[..|colors|] == colors;
  }

  /**
   * The row of an included family, built as the source does in either
   * version, or None where the Bokeh version raises: at the right arrow, or
   * at the label of a family without bins.
   */
  method BuildRow(c: Catalog, s: Settings, log10: real -> real, f: nat, ind: seq<int>) returns (row: Option<Row>)
    requires WellFormed(c) && ValidSettings(s) && f < |c.members|
    requires ind == FamilyColors(c, s, log10, f)
    ensures row.None? <==> BokehRaises(c, s, f)
    ensures row.Some? ==> row.value == RowFor(c, s, log10, f)
  {
    var lines := GenerateLines(s.mintime, s.maxtime, s.barpad, c.famstarts[f], c.longevity[f]);
    if lines.addLine && lines.addRarrow && s.useBokeh {
      return None;
    }
    var h := Histogram(Times(c, f), s.binsize);
    if s.useBokeh {
      if h == [] {
        return None;
      }
      row := Some(Row(f, lines, ShownBoxes(s, h, ind), SeqMax(Rights(h, s.binsize))));
    } else {
      var boxes, labelAt := MatplotlibBoxes(s, h, ind, lines.x2);
      row := Some(Row(f, lines, boxes, labelAt));
    }
  }

  /**
   * The hover lists of the Bokeh version: one entry per row, each the hover
   * box of that row's family at that row's height, and the family number.
   */
  predicate HoverFor(c: Catalog, s: Settings, rows: seq<Row>, xs: seq<seq<real>>, ys: seq<seq<real>>, famnum: seq<seq<nat>>)
    requires WellFormed(c)
    decreases |rows|
  {
    && |xs| == |rows| && |ys| == |rows| && |famnum| == |rows|
    && (rows != [] ==>
          var n := |rows| - 1;
          && rows[n].family < |c.members|
          && xs[n] == HoverXs(c, s, rows[n].family)
          && ys[n] == HoverYs(n)
          && famnum[n] == [rows[n].family]
          && HoverFor(c, s, rows[..n], xs[..n], ys[..n], famnum[..n]))
  }

  /** Entry r of each hover list belongs to row r. */
  lemma {:induction false} HoverForAt(c: Catalog, s: Settings, rows: seq<Row>, xs: seq<seq<real>>, ys: seq<seq<real>>, famnum: seq<seq<nat>>)
    requires WellFormed(c) && HoverFor(c, s, rows, xs, ys, famnum)
    ensures forall r :: 0 <= r < |rows| ==>
              && rows[r].family < |c.members|
              && xs[r] == HoverXs(c, s, rows[r].family)
              && ys[r] == HoverYs(r)
              && famnum[r] == [rows[r].family]
    decreases |rows|
  {
    if rows != [] {
      var n := |rows| - 1;
      HoverForAt(c, s, rows[..n], xs[..n], ys[..n], famnum[..n]);
    }
  }

  /** FamilyColors as a function of the family alone. */
  function ColorsOf(c: Catalog, s: Settings, log10: real -> real): nat --> seq<int>
  {
    (f: nat) requires WellFormed(c) && ValidSettings(s) && f < |c.members| => FamilyColors(c, s, log10, f)
  }

  /** What the family loop leaves behind: palette indices, rows and the hover lists. */
  datatype Timeline = Timeline(
    colors: seq<seq<int>>, rows: seq<Row>, xs: seq<seq<real>>, ys: seq<seq<real>>, famnum: seq<seq<nat>>)

  /** Some included family below k makes the Bokeh version raise. */
  predicate RaisesBefore(c: Catalog, s: Settings, k: nat)
    requires WellFormed(c) && ValidSettings(s) && k <= |c.members|
  {
    k > 0 && (RaisesBefore(c, s, k - 1) || (Included(c, s, k - 1) && BokehRaises(c, s, k - 1)))
  }

  /** A family that raises stops every longer run of the loop too. */
  lemma {:induction false} RaisesBeforeMonotone(c: Catalog, s: Settings, j: nat, k: nat)
    requires WellFormed(c) && ValidSettings(s) && j <= k <= |c.members| && RaisesBefore(c, s, j)
    ensures RaisesBefore(c, s, k)
    decreases k - j
  {
    if j < k {
      RaisesBeforeMonotone(c, s, j, k - 1);
    }
  }

  /** RaisesBefore holds exactly when some included family below k raises. */
  lemma {:induction false} RaisesBeforeSome(c: Catalog, s: Settings, k: nat)
    requires WellFormed(c) && ValidSettings(s) && k <= |c.members|
    ensures RaisesBefore(c, s, k) <==> exists f :: 0 <= f < k && Included(c, s, f) && BokehRaises(c, s, f)
  {
    if k > 0 {
      RaisesBeforeSome(c, s, k - 1);
      if Included(c, s, k - 1) && BokehRaises(c, s, k - 1) {
        assert 0 <= k - 1 < k;
      }
    }
  }

  /**
   * plotFamilyOccurrence's loop over families, as written: colour indices for
   * every family and, for each included family in turn, its row and (in the
   * Bokeh version) its hover box, with row numbers counted by n.  The Bokeh
   * version raises, giving None, as soon as an included family raises.
   */
  method LayoutOccurrence(c: Catalog, s: Settings, log10: real -> real) returns (r: Option<Timeline>)
    requires WellFormed(c) && ValidSettings(s)
    ensures r.None? <==> RaisesBefore(c, s, |c.members|)
    ensures !s.useBokeh ==> r.Some?
    ensures r.Some? ==> r.value.colors == Tabulate(ColorsOf(c, s, log10), |c.members|)
    ensures r.Some? ==> r.value.rows == Rows(c, s, log10)
    ensures r.Some? && s.useBokeh ==> HoverFor(c, s, r.value.rows, r.value.xs, r.value.ys, r.value.famnum)
    ensures r.Some? && !s.useBokeh ==> r.value.xs == [] && r.value.ys == [] && r.value.famnum == []
  {
    var colors, rows, xs, ys, famnum := [], [], [], [], [];
    var n := 0;
    for f := 0 to |c.members|
      invariant colors == Tabulate(ColorsOf(c, s, log10), f)
      invariant rows == Map(RowOf(c, s, log10), IncludedFamilies(c, s, f)) && n == |rows|
      invariant s.useBokeh ==> HoverFor(c, s, rows, xs, ys, famnum)
      invariant !s.useBokeh ==> xs == [] && ys == [] && famnum == []
      invariant !RaisesBefore(c, s, f)
    {
      var raised;
      raised, colors, rows, xs, ys, famnum, n := AddFamily(c, s, log10, f, colors, rows, xs, ys, famnum, n);
      if raised {
        RaisesBeforeMonotone(c, s, f + 1, |c.members|);
        return None;
      }
    }
    r := Some(Timeline(colors, rows, xs, ys, famnum));
  }

  /**
   * One pass of the family loop: family f's palette indices and, when the
   * family is included, its row and (in the Bokeh version) its hover box; or
   * raised, where the Bokeh version raises on this family.
   */
  method AddFamily(c: Catalog, s: Settings, log10: real -> real, f: nat,
                   colors: seq<seq<int>>, rows: seq<Row>, xs: seq<seq<real>>, ys: seq<seq<real>>,
                   famnum: seq<seq<nat>>, n: nat)
    returns (raised: bool, colors': seq<seq<int>>, rows': seq<Row>, xs': seq<seq<real>>, ys': seq<seq<real>>,
             famnum': seq<seq<nat>>, n': nat)
    requires WellFormed(c) && ValidSettings(s) && f < |c.members|
    requires colors == Tabulate(ColorsOf(c, s, log10), f)
    requires rows == Map(RowOf(c, s, log10), IncludedFamilies(c, s, f)) && n == |rows|
    requires s.useBokeh ==> HoverFor(c, s, rows, xs, ys, famnum)
    requires !s.useBokeh ==> xs == [] && ys == [] && famnum == []
    ensures raised <==> Included(c, s, f) && BokehRaises(c, s, f)
    ensures !raised ==> colors' == Tabulate(ColorsOf(c, s, log10), f + 1)
    ensures !raised ==> rows' == Map(RowOf(c, s, log10), IncludedFamilies(c, s, f + 1)) && n' == |rows'|
    ensures !raised && s.useBokeh ==> HoverFor(c, s, rows', xs', ys', famnum')
    ensures !raised && !s.useBokeh ==> xs' == [] && ys' == [] && famnum' == []
  {
    var ind := ComputeColors(c, s, log10, f);
    raised := false;
    colors' := colors + [ind];
    rows', xs', ys', famnum', n' := rows, xs, ys, famnum, n;
    var ts := Times(c, f);
    if |c.members[f]| >= s.minplot && SeqMax(ts) > s.mintime {
      var row := BuildRow(c, s, log10, f, ind);
      if row.None? {
        raised := true;
        return;
      }
      if s.useBokeh {
        xs', ys', famnum' := AddHover(c, s, f, n, rows, row.value, xs, ys, famnum);
      }
      IncludedFamilyAddsRow(c, s, log10, f);
      rows' := rows + [row.value];
      n' := n + 1;
    } else {
      ExcludedFamilyAddsNoRow(c, s, f);
    }
  }

  /** Appends the hover box of family f at row n to the three hover lists. */
  method AddHover(c: Catalog, s: Settings, f: nat, n: nat, ghost rows: seq<Row>, ghost row: Row,
                  xs: seq<seq<real>>, ys: seq<seq<real>>, famnum: seq<seq<nat>>)
    returns (xs': seq<seq<real>>, ys': seq<seq<real>>, famnum': seq<seq<nat>>)
    requires WellFormed(c) && f < |c.members| && n == |rows| && row.family == f
    requires HoverFor(c, s, rows, xs, ys, famnum)
    ensures HoverFor(c, s, rows + [row], xs', ys', famnum')
  {
    var ts := Times(c, f);
    var l := Max(SeqMin(ts), s.mintime) - s.barpad;
    var r := SeqMax(ts) + s.barpad;
    xs' := xs + [[l, l, r, r]];
    ys' := ys + [[n as real - 0.5, n as real + 0.5, n as real + 0.5, n as real - 0.5]];
    famnum' := famnum + [[f]];
    assert (rows + [row])[..n] == rows && xs'[..n] == xs && ys'[..n] == ys && famnum'[..n] == famnum;
  }

  /**
   * The figure height of the Bokeh timeline: 250 pixels, or 15 per row when
   * there are more than 15 rows and the height is not fixed.
   */
  function TimelineHeight(n: nat, fixedheight: bool): (height: nat)
    ensures fixedheight || n <= 15 ==> height == 250
    ensures !fixedheight && n > 15 ==> height == 15 * n
    ensures !fixedheight ==> height >= 15 * n
  {
    if n > 15 && !fixedheight then n * 15 else 250
  }

  // ---------------------------------------------------------------------
  // The right arrow in the Bokeh version
  // ---------------------------------------------------------------------

  /**
   * As written, the right arrow is drawn with the Matplotlib axis in both
   * versions; the Bokeh version has no axis (ax is None), so drawing a right
   * arrow there raises.
   */
  predicate RightArrowRaises(s: Settings, lines: Lines)
  {
    s.useBokeh && lines.addLine && lines.addRarrow
  }

  /**
   * As written, an included family makes the Bokeh version raise when it has
   * a right arrow, or when its times are all equal, so that it has no bin and
   * `max(d2)` has nothing to take the maximum of.
   */
  predicate BokehRaises(c: Catalog, s: Settings, f: nat)
    requires WellFormed(c) && ValidSettings(s) && f < |c.members|
  {
    || RightArrowRaises(s, GenerateLines(s.mintime, s.maxtime, s.barpad, c.famstarts[f], c.longevity[f]))
    || (s.useBokeh && Histogram(Times(c, f), s.binsize) == [])
  }

  /**
   * In a Bokeh timeline, a family with two events that starts inside the
   * window and runs past maxtime makes the family loop raise.
   */
  lemma BokehRightArrowRaisesExample()
    ensures var c := Catalog([0.5, 1.5], [0.0, 0.0], [[0, 1]], [0.5], [1.0]);
            var s := Settings(0.0, 1.0, 0, 1.0, 0.01, Rate, 0.0, 1.0, true);
            WellFormed(c) && ValidSettings(s) && RaisesBefore(c, s, |c.members|)
  {
    var c := Catalog([0.5, 1.5], [0.0, 0.0], [[0, 1]], [0.5], [1.0]);
    var s := Settings(0.0, 1.0, 0, 1.0, 0.01, Rate, 0.0, 1.0, true);
    assert Times(c, 0) == [0.5, 1.5];
    assert SeqMax(Times(c, 0)) == 1.5;
    assert Included(c, s, 0);
    assert BokehRaises(c, s, 0);
  }

  /** The Bokeh version raises on an included family with a right arrow exactly when it starts before maxtime and ends after it. */
  lemma RightArrowRaisesExactly(c: Catalog, s: Settings, f: nat)
    requires WellFormed(c) && ValidSettings(s) && f < |c.members| && s.useBokeh
    requires s.mintime <= s.maxtime && c.longevity[f] >= 0.0
    ensures RightArrowRaises(s, GenerateLines(s.mintime, s.maxtime, s.barpad, c.famstarts[f], c.longevity[f]))
        <==> c.famstarts[f] < s.maxtime < c.famstarts[f] + c.longevity[f]
  {
    RightArrowExactly(s.mintime, s.maxtime, s.barpad, c.famstarts[f], c.longevity[f]);
  }

  /**
   * Corrected: the layout records the generateLines result in every row in
   * both versions, so a right arrow is drawn exactly for the included
   * families that start before maxtime and end after it.
   */
  lemma RowArrowsExactly(c: Catalog, s: Settings, log10: real -> real, f: nat)
    requires WellFormed(c) && ValidSettings(s) && f < |c.members|
    requires s.mintime <= s.maxtime && c.longevity[f] >= 0.0
    ensures var lines := RowFor(c, s, log10, f).lines;
            var start, end := c.famstarts[f], c.famstarts[f] + c.longevity[f];
            && (lines.addRarrow <==> start < s.maxtime < end)
            && (lines.addLarrow <==> start < s.mintime <= end)
  {
    RightArrowExactly(s.mintime, s.maxtime, s.barpad, c.famstarts[f], c.longevity[f]);
    LeftArrowExactly(s.mintime, s.maxtime, s.barpad, c.famstarts[f], c.longevity[f]);
  }
}
