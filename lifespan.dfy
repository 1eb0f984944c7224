/**
 * Lifespan clipping for the longevity and occurrence timelines
 * (generateLines in redpy/plotting_bak.py).
 *
 * A family lives on [famstart, famstart + longev]; the timeline shows
 * [mintime, maxtime] with barpad of room on each side for arrows.  The
 * source decides what to draw with an ordered if/elif chain; the model keeps
 * that chain as it is and proves it equal to a geometric decision table whose
 * cases cannot overlap.
 */
module Lifespan {

  /** The tuple generateLines returns: (add_line, add_larrow, add_rarrow, x1, x2). */
  datatype Lines = Lines(addLine: bool, addLarrow: bool, addRarrow: bool, x1: real, x2: real)

  /** The values generateLines starts from and returns when no branch fires. */
  const NoLines := Lines(false, false, false, 0.0, 0.0)

  /** The if/elif chain of generateLines, branch by branch and in the same order. */
  function GenerateLines(mintime: real, maxtime: real, barpad: real, famstart: real, longev: real): (r: Lines)
    ensures (r.addLarrow || r.addRarrow) ==> r.addLine
    ensures r.addLarrow ==> r.x1 == mintime - barpad
    ensures r.addRarrow ==> r.x2 == maxtime + barpad
    ensures !r.addLine ==> r == NoLines
  {
    // family starts after mintime and ends before maxtime
    if mintime <= famstart && maxtime >= famstart + longev then
      Lines(true, false, false, famstart, famstart + longev)
    // family starts after mintime but its first event is past maxtime
    else if mintime <= famstart && maxtime <= famstart then
      NoLines
    // family starts after mintime but ends after maxtime
    else if mintime <= famstart && maxtime <= famstart + longev then
      Lines(true, false, true, famstart, maxtime + barpad)
    // family starts before mintime, ends before maxtime and ends after mintime
    else if mintime >= famstart && maxtime >= famstart + longev && mintime <= famstart + longev then
      Lines(true, true, false, mintime - barpad, famstart + longev)
    // family starts before mintime and ends after maxtime
    else if mintime >= famstart && maxtime <= famstart + longev then
      Lines(true, true, true, mintime - barpad, maxtime + barpad)
    // family ended before the window: nothing is drawn
    else
      NoLines
  }

  /** Where a lifespan [start, end] sits relative to the window [lo, hi]. */
  datatype Placement =
    | Inside          // lo <= start, end <= hi
    | AfterWindow     // hi <= start, hi < end
    | RunsPastEnd     // lo <= start < hi < end
    | RunsIntoWindow  // start < lo <= end <= hi
    | Spans           // start < lo, hi < end
    | BeforeWindow    // end < lo

  /**
   * A decision table over the geometry alone, written independently of the
   * source's chain: for a well-formed window and lifespan every condition
   * below excludes the others.
   */
  function Place(lo: real, hi: real, start: real, end: real): (p: Placement)
    ensures p == BeforeWindow ==> end < lo
    ensures p == RunsIntoWindow ==> start < lo <= end <= hi
    ensures p == Spans ==> start < lo && hi < end
    ensures p == Inside ==> lo <= start && lo <= end <= hi
    ensures p == AfterWindow ==> lo <= start && hi <= start && hi < end
    ensures p == RunsPastEnd ==> lo <= start < hi < end
  {
    if end < lo then BeforeWindow
    else if start < lo then (if end <= hi then RunsIntoWindow else Spans)
    else if end <= hi then Inside
    else if hi <= start then AfterWindow
    else RunsPastEnd
  }

  /** What each placement draws: the line, the arrows and the clipped ends. */
  function Draw(p: Placement, lo: real, hi: real, pad: real, start: real, end: real): (l: Lines)
    ensures l.addLarrow || l.addRarrow ==> l.addLine
    ensures l.addLine <==> p != AfterWindow && p != BeforeWindow
    ensures l.addLarrow ==> l.x1 == lo - pad
    ensures l.addRarrow ==> l.x2 == hi + pad
  {
    match p
    case Inside => Lines(true, false, false, start, end)
    case AfterWindow => NoLines
    case RunsPastEnd => Lines(true, false, true, start, hi + pad)
    case RunsIntoWindow => Lines(true, true, false, lo - pad, end)
    case Spans => Lines(true, true, true, lo - pad, hi + pad)
    case BeforeWindow => NoLines
  }

  /** The ordered chain agrees with the decision table on every well-formed input. */
  lemma ChainMatchesTable(mintime: real, maxtime: real, barpad: real, famstart: real, longev: real)
    requires mintime <= maxtime && longev >= 0.0
    ensures GenerateLines(mintime, maxtime, barpad, famstart, longev)
         == Draw(Place(mintime, maxtime, famstart, famstart + longev),
                 mintime, maxtime, barpad, famstart, famstart + longev)
  {
  }

  /** The placements are mutually exclusive and cover every well-formed case. */
  lemma PlacementExclusive(lo: real, hi: real, start: real, end: real)
    requires lo <= hi && start <= end
    ensures Place(lo, hi, start, end) == Inside <==> lo <= start && end <= hi
    ensures Place(lo, hi, start, end) == AfterWindow <==> hi <= start && hi < end
    ensures Place(lo, hi, start, end) == RunsPastEnd <==> lo <= start < hi < end
    ensures Place(lo, hi, start, end) == RunsIntoWindow <==> start < lo <= end <= hi
    ensures Place(lo, hi, start, end) == Spans <==> start < lo && hi < end
    ensures Place(lo, hi, start, end) == BeforeWindow <==> end < lo
  {
  }

  /** A lifespan inside the window is drawn whole, with no arrows. */
  lemma ContainedDrawnWhole(mintime: real, maxtime: real, barpad: real, famstart: real, longev: real)
    requires mintime <= famstart && famstart + longev <= maxtime
    ensures GenerateLines(mintime, maxtime, barpad, famstart, longev)
         == Lines(true, false, false, famstart, famstart + longev)
  {
  }

  /**
   * A family that starts and ends before mintime gets no line (the promise in
   * plotLongevity's and plotFamilyOccurrence's documentation).
   */
  lemma EndedBeforeWindowNotDrawn(mintime: real, maxtime: real, barpad: real, famstart: real, longev: real)
    requires famstart + longev < mintime && longev >= 0.0 && mintime <= maxtime
    ensures GenerateLines(mintime, maxtime, barpad, famstart, longev) == NoLines
  {
  }

  /**
   * A family that starts before mintime and ends at or after it gets a line
   * with a left arrow (the other half of the same documented promise).
   */
  lemma EndedInWindowHasLeftArrow(mintime: real, maxtime: real, barpad: real, famstart: real, longev: real)
    requires famstart < mintime <= famstart + longev && mintime <= maxtime
    ensures GenerateLines(mintime, maxtime, barpad, famstart, longev).addLine
    ensures GenerateLines(mintime, maxtime, barpad, famstart, longev).addLarrow
  {
  }

  /**
   * Exactly when nothing is drawn: the family ended before the window, or the
   * window closed no later than the family started while the family runs on.
   */
  lemma NotDrawnExactly(mintime: real, maxtime: real, barpad: real, famstart: real, longev: real)
    requires mintime <= maxtime && longev >= 0.0
    ensures !GenerateLines(mintime, maxtime, barpad, famstart, longev).addLine
        <==> famstart + longev < mintime || (maxtime <= famstart && maxtime < famstart + longev)
  {
  }

  /**
   * Branch order matters at one boundary: a zero-length family sitting exactly
   * on maxtime satisfies both the first and the second condition, and the first
   * wins, so it is drawn as a point.
   */
  lemma FirstBranchWinsAtMaxtime(mintime: real, barpad: real, famstart: real)
    requires mintime <= famstart
    ensures GenerateLines(mintime, famstart, barpad, famstart, 0.0)
         == Lines(true, false, false, famstart, famstart)
  {
  }

  /** A right arrow is drawn exactly when the family starts before maxtime and ends after it. */
  lemma RightArrowExactly(mintime: real, maxtime: real, barpad: real, famstart: real, longev: real)
    requires mintime <= maxtime && longev >= 0.0
    ensures GenerateLines(mintime, maxtime, barpad, famstart, longev).addRarrow
        <==> famstart < maxtime < famstart + longev
  {
  }

  /** A left arrow is drawn exactly when the family starts before mintime and has not ended by it. */
  lemma LeftArrowExactly(mintime: real, maxtime: real, barpad: real, famstart: real, longev: real)
    requires mintime <= maxtime && longev >= 0.0
    ensures GenerateLines(mintime, maxtime, barpad, famstart, longev).addLarrow
        <==> famstart < mintime <= famstart + longev
  {
  }

  /** Whenever a line is drawn its ends are ordered and lie in the padded window. */
  lemma DrawnWithinPaddedWindow(mintime: real, maxtime: real, barpad: real, famstart: real, longev: real)
    requires barpad >= 0.0 && longev >= 0.0 && mintime <= maxtime
    ensures var r := GenerateLines(mintime, maxtime, barpad, famstart, longev);
            r.addLine ==> mintime - barpad <= r.x1 <= r.x2 <= maxtime + barpad
  {
  }
}
