# REDPy plotting bookkeeping, modelled in Dafny

REDPy (Repeating Earthquake Detector in Python) groups repeating seismic events
into families. Its plotting module `redpy/plotting_bak.py` draws overview
timelines and family reports. Beneath the drawing calls it does a fair amount of
bookkeeping. This project models that bookkeeping and proves what it promises:

- **Lifespan clipping** (`generateLines`), module `Lifespan`. Given the time
  window `[mintime, maxtime]`, the padding `barpad` and a family's lifespan, the
  ordered `if/elif` chain decides whether a line is drawn, which overflow arrows
  it gets and where its ends are clipped. The chain keeps its order. It is
  proved equal to an independent, non-overlapping decision table.
- **Correlation matrices** (`plotReport`, `plotSingleFamily`), module
  `Correlation`. The work proceeds in steps:
  - The stored matrix `C` starts as the identity. The sparse correlation table
    scatters into it in both orientations.
  - `C` is put into time order (`Cind`): catalogind sorts the family's start
    times, and the event list it gives is proved to be in start-time order.
  - `Cind` is completed into `Cfull` by nested loops. They call the
    cross-correlation comparator for every upper-triangle cell still holding 0.
  - Optionally, the events and both axes of both matrices are reordered by the
    same permutation.

  Matrices are two-dimensional arrays updated in place, as the numpy arrays of
  the source are. `View` gives their value, and the specification functions
  (`StoredMatrix`, `Reindex`, `Completed`, `MissingPairs`) are stated on it.
- **Occurrence timeline** (`plotFamilyOccurrence`), module `Occurrence`. The
  loop over families covers:
  - the histogram of each family's event times and its palette indices, by
    rate or by mean frequency index, including the `fisum` loop as written
    (its half-open selection, see Findings) and a corrected mean colouring
    that is proved to differ from it only in the last bin;
  - which families get a row and the consecutive row numbers;
  - the boxes of the shown bins, the member-count label position (including
    the Matplotlib `x2` widening) and the Bokeh hover boxes.
- **Page layout** (`renderBokehTimeline`, `customPDFoverview`,
  `determineLegendText`), module `PlotFormat`. This covers:
  - the two readings of the plot-format string (`','` for rows, `'+'` for tabs);
  - the plot creation loop that skips invalid names;
  - the `pnum` grid loop of the HTML page;
  - the `nsub` height and the `pnum` subplot loop of the PDF overview;
  - the legend wording.

`Options` holds the `Option` type used where the source raises.

External code appears as parameters. The comparator
`redpy.correlation.xcorr1x1` is a function on two event rows. `np.argsort`,
the OPTICS ordering and `log10` are functions constrained only by what the
source relies on:
- the sorts return permutations sorting their keys;
- OPTICS returns a permutation;
- `log10` is at least 0 for arguments of 1 or more.

## Model

| member | source | states |
|---|---|---|
| Lifespan.GenerateLines | redpy/plotting_bak.py:786-825 | Either arrow implies a line. A left arrow puts x1 at mintime - barpad; a right arrow puts x2 at maxtime + barpad. Without a line both arrows are off and x1 = x2 = 0. |
| Lifespan.ChainMatchesTable | redpy/plotting_bak.py:792-825 | For a well-formed window and lifespan, the ordered chain equals the independent Place/Draw decision table. |
| Lifespan.Place | redpy/plotting_bak.py:792-823 | The decision table: each placement implies its own geometric condition (before the window, running into it, spanning it, inside it, after it, running past its end). |
| Lifespan.Draw | redpy/plotting_bak.py:793-823 | What a placement draws: arrows only with a line, a line for every placement except before and after the window, a left arrow clipped to mintime - barpad and a right arrow clipped to maxtime + barpad. |
| Lifespan.PlacementExclusive | redpy/plotting_bak.py:792-823 | Each of the six placements holds exactly under its own geometric condition, so the cases exclude one another and cover every well-formed input. |
| Lifespan.ContainedDrawnWhole | redpy/plotting_bak.py:793-796 | A lifespan inside the window is drawn whole, from famstart to famstart + longev, with no arrows. |
| Lifespan.EndedBeforeWindowNotDrawn | redpy/plotting_bak.py:381-383 | A family that ends before mintime gets no line, as the documentation promises. |
| Lifespan.EndedInWindowHasLeftArrow | redpy/plotting_bak.py:381-383 | A family that starts before mintime and ends at or after it gets a line with a left arrow. |
| Lifespan.NotDrawnExactly | redpy/plotting_bak.py:798-800 | No line is drawn exactly when the family ended before mintime, or when it starts at or after maxtime and still runs past it. |
| Lifespan.FirstBranchWinsAtMaxtime | redpy/plotting_bak.py:793-800 | A zero-length family sitting on maxtime meets the first two conditions; the first wins and a point is drawn. |
| Lifespan.RightArrowExactly | redpy/plotting_bak.py:802-823 | A right arrow is drawn exactly when the family starts before maxtime and ends after it. |
| Lifespan.LeftArrowExactly | redpy/plotting_bak.py:809-823 | A left arrow is drawn exactly when the family starts before mintime and ends at or after it. |
| Lifespan.DrawnWithinPaddedWindow | redpy/plotting_bak.py:793-823 | For barpad, longev >= 0, any drawn line satisfies mintime - barpad <= x1 <= x2 <= maxtime + barpad. |
| Occurrence.ColorByNamed | redpy/plotting_bak.py:498-504 | Colouring is by frequency index exactly for 'fi'. Every other choice, unrecognised ones included, colours by rate. |
| Occurrence.SeqMin | redpy/plotting_bak.py:515 | `min(...)` returns an element that is at most every element. |
| Occurrence.SeqMax | redpy/plotting_bak.py:549 | `max(...)` returns an element that is at least every element. |
| Occurrence.ArangeEdges | redpy/plotting_bak.py:515-516 | The edges of `np.arange(min, max + binsize, binsize)` are min + k*binsize for k from 0 to NumBins, and there are no bins exactly when the first and last event times are equal. |
| Occurrence.EventInExactlyOneBin | redpy/plotting_bak.py:515-516 | There are no bins exactly when the first and last times are equal. Otherwise each event time lies in exactly one of `np.histogram`'s bins, which are half-open except the last, which is closed. |
| Occurrence.CountInPositive | redpy/plotting_bak.py:515-516 | A bin's count is positive exactly when some event time lies in it. |
| Occurrence.NonemptyBinsSpec | redpy/plotting_bak.py:524 | `hist > 0` keeps exactly the bins with a positive count, in increasing bin order. |
| Occurrence.Histogram | redpy/plotting_bak.py:515-524 | The kept bins (`h[hist>0]` with their counts) are at most as many as the bins numpy makes. |
| Occurrence.HistogramEmptyExactly | redpy/plotting_bak.py:515-524 | No bin is kept exactly when all of a family's event times are equal. |
| Occurrence.HistogramCoversEvents | redpy/plotting_bak.py:515-518 | When a family's event times are not all equal, every event lies in one of the kept bins, counting the closed right edge of the last bin. |
| Occurrence.HistogramBinsNonempty | redpy/plotting_bak.py:530-541 | Every kept bin has a count of at least one, so `fisum/hist` never divides by 0. |
| Occurrence.HistogramOrdered | redpy/plotting_bak.py:515-518 | The kept bins run left to right without overlapping, and only the last one may be closed. |
| Occurrence.RateIndex | redpy/plotting_bak.py:523-528 | The rate index is capped at 255. It is not negative when log10 of the count is not negative. It equals 255 exactly when log10 reaches the divisor (3 for bins of a day or more, else 2). |
| Occurrence.RateIndexMonotone | redpy/plotting_bak.py:523-528 | More events never give a smaller rate index. |
| Occurrence.FiIndex | redpy/plotting_bak.py:541-543 | The colour index lies in [0, 255]. With fispanlow < fispanhigh it is 0 at or below fispanlow and 255 at or above fispanhigh. With fispanlow > fispanhigh the scale is reversed: 0 at or above fispanlow, 255 at or below fispanhigh. |
| Occurrence.FiIndexMonotone | redpy/plotting_bak.py:541-543 | A larger mean frequency index never gives a smaller colour index. |
| Occurrence.FiIndexAntitone | redpy/plotting_bak.py:541-543 | With fispanlow > fispanhigh, a larger mean frequency index never gives a larger colour index. |
| Occurrence.MembersIn | redpy/plotting_bak.py:535-537 | As written: the members selected for a bin are exactly those whose time lies in [h[i], h[i] + binsize). |
| Occurrence.BinMembers | redpy/plotting_bak.py:532-537 | Corrected: the members selected for a bin are those `np.histogram` counted in it, including the right edge of the closed last bin. |
| Occurrence.MembersInMissesClosedEdge | redpy/plotting_bak.py:515-537 | The as-written selection agrees with the bin's members for every open bin. For the closed last bin it misses exactly the members lying on its right edge. |
| Occurrence.BinMembersAreCounted | redpy/plotting_bak.py:515-541 | Corrected: each kept bin's selected members are exactly as many as its histogram count, so `fisum/hist` is the bin's mean frequency index. |
| Occurrence.FiSumDropsLastEvent | redpy/plotting_bak.py:532-541 | As written: event times 0 and 1, binsize 1 and frequency indices 2 and 4 give one closed bin counting 2 events. The selection sums only the first event, so histfi is 1.0 where the mean is 3.0. |
| Occurrence.FiSums | redpy/plotting_bak.py:532-539 | As written: the `fisum` loop fills one entry per kept bin, each the sum of the frequency indices of the members whose time lies in [h[i], h[i] + binsize). |
| Occurrence.FamilyColors | redpy/plotting_bak.py:523-543 | As written: `ind` has one palette index per kept bin; in fi mode each comes from the as-written `fisum` divided by `hist`. |
| Occurrence.MeanFiIndex | redpy/plotting_bak.py:532-543 | Corrected: the colour index of a bin's mean frequency index, over the members `np.histogram` counted in it, lies in [0, 255]. |
| Occurrence.MeanFiColors | redpy/plotting_bak.py:523-543 | Corrected: fi mode gives one palette index in [0, 255] per kept bin. |
| Occurrence.MeanFiColorsAreMeans | redpy/plotting_bak.py:515-543 | Corrected: each kept bin has members, and its palette index is the colour of the mean frequency index of exactly the members the histogram counted in it. |
| Occurrence.OpenBinSameIndex | redpy/plotting_bak.py:532-543 | For a bin that is not numpy's closed last bin, the as-written colour index equals the corrected one. |
| Occurrence.FiColorsAgreeOnOpenBins | redpy/plotting_bak.py:515-543 | The as-written and corrected fi colours have the same length and agree on every kept bin but the last. |
| Occurrence.FamilyColorsSingleBin | redpy/plotting_bak.py:523-543 | A family whose histogram is one bin gets one palette index: the colour of that bin's as-written `fisum` divided by its count. |
| Occurrence.FiColorsDropLastEvent | redpy/plotting_bak.py:532-543 | As written: a family with events at times 0 and 1, frequency indices 2 and 4, binsize 1 and fispan 0 to 4 is coloured [63], where the corrected colours are [191]. |
| Occurrence.ColorsInPalette | redpy/plotting_bak.py:545 | Every index in `ind` lies in [0, 255], so `bokehpalette[i]` is in bounds. |
| Occurrence.ComputeColors | redpy/plotting_bak.py:523-543 | As written: computing `ind` as the source does, with the half-open fisum loop in fi mode, gives FamilyColors. |
| Occurrence.Included | redpy/plotting_bak.py:547-549 | A family is included exactly when it has at least minplot members and one of its events is after mintime. |
| Occurrence.IncludedFamilies | redpy/plotting_bak.py:547-549 | Every family listed below a bound k has a number below k. |
| Occurrence.IncludedFamiliesSpec | redpy/plotting_bak.py:547-549 | The families given a row are exactly those with at least minplot members and an event after mintime, in family-number order. |
| Occurrence.ExcludedFamilyAddsNoRow | redpy/plotting_bak.py:547-549 | A family failing either test adds no row. |
| Occurrence.IncludedFamilyAddsRow | redpy/plotting_bak.py:547-636 | An included family adds its row after the rows of the families before it. |
| Occurrence.RowFamilies | redpy/plotting_bak.py:509-636 | Row r shows the r-th included family. |
| Occurrence.RowsNumberIncludedFamilies | redpy/plotting_bak.py:509-636 | Every row shows an included family, every included family has a row, and rows follow increasing family number. |
| Occurrence.RowFor | redpy/plotting_bak.py:551-613 | The row built for family f records f. |
| Occurrence.Rows | redpy/plotting_bak.py:509-636 | There is one row per included family. |
| Occurrence.ShownBoxes | redpy/plotting_bak.py:588-604 | No more boxes are drawn than there are kept bins. |
| Occurrence.Widened | redpy/plotting_bak.py:596-604 | Widening never moves x2 to the left. |
| Occurrence.ShownBoxesSpec | redpy/plotting_bak.py:588-605 | Each box spans one shown bin, [left, left + binsize), and carries that bin's colour. Every shown bin has its box. Shown means after mintime for Bokeh and within [mintime, maxtime] for Matplotlib. |
| Occurrence.WidenedIsMax | redpy/plotting_bak.py:596-604 | After the widening, x2 is the largest of generateLines' x2 and the right edges of the shown bins. |
| Occurrence.MatplotlibBoxes | redpy/plotting_bak.py:594-604 | The Matplotlib box loop draws exactly the shown boxes, and its final x2 is the widened one. |
| Occurrence.BokehLabelRightOfEvents | redpy/plotting_bak.py:607-610 | When a family's event times are not all equal, the Bokeh label at `max(d2)` is at or to the right of every event of the family. |
| Occurrence.BuildRow | redpy/plotting_bak.py:551-613 | Building an included family's row fails exactly when the Bokeh version raises: at the right arrow's `ax.annotate` (ax is None), or at `max(d2)` when no bin is kept. Otherwise the row is RowFor: its generateLines result, its boxes and its label position. |
| Occurrence.HoverBoxOrdered | redpy/plotting_bak.py:618-633 | An included family's hover box is a proper rectangle. Its x corners are [l, l, r, r] with l <= r, where l = max(first event, mintime) - barpad and r = last event + barpad. Its height is one row. |
| Occurrence.HoverXs | redpy/plotting_bak.py:618-633 | The x corners are [l, l, r, r], and r lies barpad to the right of every event of the family. |
| Occurrence.HoverYs | redpy/plotting_bak.py:624-631 | The y corners outline a box one row high around row n. |
| Occurrence.HoverForAt | redpy/plotting_bak.py:615-634 | Entry r of `xs`, `ys` and `famnum` is the hover box, the height and the number of the family on row r. |
| Occurrence.AddHover | redpy/plotting_bak.py:615-634 | Appending one hover box keeps xs, ys and famnum in step with the rows. |
| Occurrence.AddFamily | redpy/plotting_bak.py:510-636 | One pass of the family loop raises exactly when the family is included and its row raises. Otherwise it advances the palette indices, rows, row counter n and hover lists from family f to family f + 1. |
| Occurrence.LayoutOccurrence | redpy/plotting_bak.py:509-636 | As written: the loop raises exactly when some included family's row raises, which can happen only in the Bokeh version. Otherwise it computes every family's palette indices and the rows of exactly the included families. In the Bokeh version, xs, ys and famnum gain one entry per row; otherwise they stay empty. |
| Occurrence.RaisesBeforeSome | redpy/plotting_bak.py:509-636 | The loop has raised before family k exactly when some included family below k raises. |
| Occurrence.RightArrowRaisesExactly | redpy/plotting_bak.py:551-585 | In the Bokeh version, an included family reaches `ax.annotate` exactly when it starts before maxtime and ends after it. |
| Occurrence.TimelineHeight | redpy/plotting_bak.py:656-659 | A fixed height, or 15 rows or fewer, gives 250 pixels. Past 15 rows an unfixed timeline is 15 pixels per row. An unfixed timeline always gives each row at least 15 pixels. |
| Occurrence.BokehRightArrowRaisesExample | redpy/plotting_bak.py:581-585 | As written: in the Bokeh version, a catalogue whose one family starts inside the window and runs past maxtime makes the family loop raise at `ax.annotate`, where ax is None. |
| Occurrence.RowArrowsExactly | redpy/plotting_bak.py:551-585 | Corrected: every row records its arrows in both versions. A row has a right arrow exactly when its family starts before maxtime and ends after it, and a left arrow exactly when it starts before mintime and ends at or after it. |
| Correlation.SelectedMembers | redpy/plotting_bak.py:1719 | `ix` selects exactly the table rows whose id2 belongs to the family. |
| Correlation.Selected | redpy/plotting_bak.py:1719 | `ix` keeps only table rows, and each kept row's id2 is in the family. |
| Correlation.Resolvable | redpy/plotting_bak.py:1721-1722 | When the selected rows are resolvable, `np.where(idf == x)[0][0]` finds both ids of every selected row. |
| Correlation.IndexOf | redpy/plotting_bak.py:1721-1722 | `np.where(idf == x)[0][0]` is the first position of x in the family's ids. |
| Correlation.StoredMatrix | redpy/plotting_bak.py:1720-1724 | C is square with one row per family event. |
| Correlation.MirroredWritesSymmetric | redpy/plotting_bak.py:1723-1724 | Writes followed by their mirror images leave C[i, j] equal to C[j, i] and the diagonal untouched, when no write is on the diagonal or repeats a pair. |
| Correlation.StoredSymmetric | redpy/plotting_bak.py:1720-1724 | With no self-pairs and no repeated unordered pair among the selected rows, C is symmetric with a unit diagonal. |
| Correlation.StoredHoldsCoefficient | redpy/plotting_bak.py:1723-1724 | Each selected row's ccc lands in both of its cells. |
| Correlation.StoredUncovered | redpy/plotting_bak.py:1720 | A cell that no selected row addresses keeps its identity value. |
| Correlation.Written | redpy/plotting_bak.py:1723-1724 | A cell that no write addresses keeps its value. Otherwise it holds the value of one of the writes to it. |
| Correlation.Scatter | redpy/plotting_bak.py:1723-1724 | A vectorised assignment leaves each cell holding the last value written to it, or its old value if none was. |
| Correlation.BuildStored | redpy/plotting_bak.py:1718-1724 | Building C fails exactly when a selected row's id1 is not in the family. Otherwise the array holds StoredMatrix. |
| Correlation.ArgMax | redpy/plotting_bak.py:1324 | `np.argmax` returns the first position of a largest element. |
| Correlation.ColumnSums | redpy/plotting_bak.py:1324 | `np.sum(C, 0)` has one total per column. |
| Correlation.Cprint | redpy/plotting_bak.py:1324 | Cprint is row k of C, where k is a column whose total is at least every other column's total. |
| Correlation.TakeRows | redpy/plotting_bak.py:1733 | `M[p, :]` holds row p[a] of M at row a. |
| Correlation.TakeColumns | redpy/plotting_bak.py:1734 | `M[:, p]` holds column p[b] of M at column b. |
| Correlation.Reindex | redpy/plotting_bak.py:1733-1734 | Taking rows and columns in the order p gives a square matrix with one row per index in p. |
| Correlation.Reordered | redpy/plotting_bak.py:1733-1734 | Taking rows then columns by p gives Reindex: entry (i, j) is the old entry (p[i], p[j]). |
| Correlation.ReindexKeepsShape | redpy/plotting_bak.py:1733-1734 | Reordering rows and columns alike keeps symmetry and the unit diagonal. |
| Correlation.ReorderKeepsLabels | redpy/plotting_bak.py:1833-1837 | After reordering, the cell of the events at new positions i and j is the cell those same events had before. |
| Correlation.PermutedKeepsElements | redpy/plotting_bak.py:1712 | `fam[catalogind]` with a permutation keeps exactly the same events. |
| Correlation.GatherSameMultiset | redpy/plotting_bak.py:1833 | Index lists with the same multiset of indices gather the same multiset of values. |
| Correlation.ComposePermutation | redpy/plotting_bak.py:1830-1846 | A permutation applied after another is a permutation. |
| Correlation.ReindexCompose | redpy/plotting_bak.py:1831-1846 | Reindexing by s and then by order is reindexing once by the composed permutation. |
| Correlation.Completed | redpy/plotting_bak.py:1735-1744 | Completion gives a square matrix of the same size with the same diagonal. |
| Correlation.CompletedKeepsStored | redpy/plotting_bak.py:1735-1744 | Completion keeps the diagonal and every nonzero upper cell. A zero upper cell becomes the comparator's value in both orientations. Symmetry and the unit diagonal are preserved. |
| Correlation.RowMissingMembers | redpy/plotting_bak.py:1737-1738 | The inner loop of row i asks for exactly the cells (i, j), i < j, that hold 0. |
| Correlation.RowMissingOrdered | redpy/plotting_bak.py:1737 | The inner loop visits those cells left to right. |
| Correlation.MissingPairsSound | redpy/plotting_bak.py:1736-1738 | Every cell the loops ask about is an upper-triangle cell holding 0. |
| Correlation.MissingPairsComplete | redpy/plotting_bak.py:1736-1738 | Every upper-triangle cell holding 0 is asked about. |
| Correlation.MissingPairsOrdered | redpy/plotting_bak.py:1736-1737 | The calls come in row-major order, so no cell is asked about twice. |
| Correlation.CallCount | redpy/plotting_bak.py:1736-1742 | The comparator is called exactly as many times as there are upper-triangle cells holding 0. |
| Correlation.CompleteCell | redpy/plotting_bak.py:1738-1744 | One inner step calls the comparator exactly when the stored cell holds 0, and then writes the result to both orientations. |
| Correlation.CompleteRow | redpy/plotting_bak.py:1737-1744 | The inner loop fills row i's missing cells and records its calls in order. |
| Correlation.CompleteRows | redpy/plotting_bak.py:1736-1744 | The outer loop leaves the array equal to Completed and the call trace equal to MissingPairs. |
| Correlation.Complete | redpy/plotting_bak.py:1735-1744 | `Cfull = Cind.copy()` followed by the loops gives Completed(Cind), with one comparator call per missing upper cell, in loop order. |
| Correlation.ArgsortOrdersEvents | redpy/plotting_bak.py:1699-1712 | Applying the argsort of the family's start times to the family lists its events by non-decreasing start time. |
| Correlation.TimeOrdered | redpy/plotting_bak.py:1699-1744 | catalogind sorts the family's start times, so famcat is fam in start-time order. Cind is C reindexed by catalogind, and Cfull is the completion of Cind. Symmetry and the unit diagonal carry from C to both. |
| Correlation.Permute | redpy/plotting_bak.py:1833-1837 | famcat and both axes of Cind and Cfull are taken in the same order. |
| Correlation.Reorder | redpy/plotting_bak.py:1827-1846 | The OPTICS reordering applies one permutation, s and then order, to famcat and to both axes of both matrices. It keeps the events, symmetry and the unit diagonal. |
| Correlation.ReorderComposes | redpy/plotting_bak.py:1830-1846 | The two reorderings together are one reordering by a permutation that keeps the events and the matrix's shape. |
| Correlation.ReportMatrices | redpy/plotting_bak.py:1705-1846 | The report pipeline fails exactly when C cannot be built. Otherwise famcat is a permutation of fam, and the call trace lists the missing upper cells of the time-ordered C. With distinct pairs both matrices are symmetric with a unit diagonal. `fam[catalogind]` is in start-time order. Unordered, the results are the time-ordered and completed matrices. Ordered, one permutation p of the family reorders the time-ordered event list and both axes of the time-ordered and the completed matrix. |
| PlotFormat.JoinSplit | redpy/plotting_bak.py:166 | Joining the pieces of `str.split` with the separator gives the string back. |
| PlotFormat.SplitLength | redpy/plotting_bak.py:166 | Splitting gives one more piece than there are separators. |
| PlotFormat.Split | redpy/plotting_bak.py:166 | `str.split` gives at least one piece; no piece holds the separator, and every character of a piece comes from the string. |
| PlotFormat.Names | redpy/plotting_bak.py:166 | There is at least one plot name, and no name holds '+' or ','. |
| PlotFormat.Replace | redpy/plotting_bak.py:166 | `replace('+', ',')` changes each '+' to ',' and nothing else. |
| PlotFormat.NamesAreRowPieces | redpy/plotting_bak.py:166-228 | The plot names are the rows' '+'-pieces, row after row, so the plot list and the layout walk the same names in the same order. |
| PlotFormat.KindOfNameOf | redpy/plotting_bak.py:171-201 | Each plot's own name selects that plot. |
| PlotFormat.NameOfKindOf | redpy/plotting_bak.py:171-201 | A valid name is the name of the plot it selects. |
| PlotFormat.AllPanelsExactlyWhenAllValid | redpy/plotting_bak.py:171-204 | Every name makes a plot exactly when every name is valid. |
| PlotFormat.ValidPanels | redpy/plotting_bak.py:171-204 | The plots made are at most as many as the names. |
| PlotFormat.CreatePlots | redpy/plotting_bak.py:171-204 | The plot loop makes one plot and one tab title per valid name, in order, and moves on past invalid names. |
| PlotFormat.GridFromSpec | redpy/plotting_bak.py:223-235 | The grid can be laid out exactly when the rows' widths fit in the plots. It then holds those plots in order. |
| PlotFormat.GridFrom | redpy/plotting_bak.py:223-235 | A grid, when one can be laid out, has one item per format row. |
| PlotFormat.TotalWidthIsNameCount | redpy/plotting_bak.py:224-235 | Together the rows take one plot position per plot name. |
| PlotFormat.TakeTabs | redpy/plotting_bak.py:227-232 | The tab loop takes the next w plots, or raises at the first position past the last plot. |
| PlotFormat.LayoutRow | redpy/plotting_bak.py:226-235 | One row takes a tab group of its pieces' plots when it has a '+', else the next plot. It raises when that runs past the plots. |
| PlotFormat.LayoutRows | redpy/plotting_bak.py:224-235 | The `pnum` loop computes GridFrom: the grid, or None where `plots[pnum]` raises. |
| PlotFormat.LayoutGrid | redpy/plotting_bak.py:222-235 | The page grid of a format is the `pnum` loop over its ','-rows. |
| PlotFormat.RenderSucceedsExactlyWhenAllNamesValid | redpy/plotting_bak.py:166-235 | As written, the page is laid out exactly when every name is valid, and then every plot appears once, in format order. |
| PlotFormat.InvalidNameRaises | redpy/plotting_bak.py:203-234 | As written, the format "bogus" makes the layout index past the plots. |
| PlotFormat.GridSkippingFlatten | redpy/plotting_bak.py:203-235 | Corrected: with invalid names skipped in the layout too, the grid holds exactly the valid names' plots, in order. |
| PlotFormat.GridSkipping | redpy/plotting_bak.py:203-235 | Corrected: with invalid names skipped, each format row gives at most one grid item. |
| PlotFormat.LayoutGridSkipping | redpy/plotting_bak.py:224-235 | Corrected: the layout loop that skips invalid names lays out every plot made exactly once, in format order. |
| PlotFormat.NsubAppend | redpy/plotting_bak.py:873-878 | Each name adds occurheight rows if it contains 'occurrence', else one. |
| PlotFormat.Nsub | redpy/plotting_bak.py:873-878 | With occurheight at least 1, nsub is at least the number of names. |
| PlotFormat.NsubClosedForm | redpy/plotting_bak.py:873-879 | nsub is one row per name plus occurheight - 1 per occurrence name. The figure is at least 2 inches per name plus 4 tall. |
| PlotFormat.RowsOf | redpy/plotting_bak.py:892-934 | A valid plot takes one row or occurheight rows. An invalid name takes none. |
| PlotFormat.PlaceSubplot | redpy/plotting_bak.py:892-937 | One pass of the chain places a valid name's subplot on the rows just after pnum and advances pnum by those rows. It leaves an invalid name out. |
| PlotFormat.AddPanel | redpy/plotting_bak.py:890-937 | One pass of the loop adds the name's subplot, if any, to the page. |
| PlotFormat.PdfSpans | redpy/plotting_bak.py:889-937 | The `pnum` loop gives the subplot rows of PdfLayout, and pnum ends as the number of rows taken. |
| PlotFormat.PdfLayout | redpy/plotting_bak.py:889-937 | There are at most as many subplots as plot names. |
| PlotFormat.PdfLayoutTiled | redpy/plotting_bak.py:889-937 | The subplots neither overlap nor leave gaps. Each starts on the row after the previous one ends, and the last ends on the last row taken. |
| PlotFormat.PdfLayoutOnePerPlot | redpy/plotting_bak.py:889-937 | There is one subplot per valid plot name. |
| PlotFormat.MentionsOccurrenceOfKinds | redpy/plotting_bak.py:875 | Of the plot names, exactly 'occurrence' and 'occurrencefi' contain 'occurrence'. |
| PlotFormat.PdfRowsFillFigure | redpy/plotting_bak.py:872-937 | With only valid names, the subplots fill the nsub-row figure exactly. |
| PlotFormat.LegendNamesBinsize | redpy/plotting_bak.py:692-701 | The legend always names the bin width itself: hours below two days, days from two days on. |
| PlotFormat.LegendText | redpy/plotting_bak.py:692-701 | The legend wording names a length equal to the bin width. |

## Left out

- Drawing is not modelled: Bokeh and Matplotlib figures, glyphs, arrows, tabs, colour bars, `imshow` and file output. The model computes the values handed to them.
- `addPDFColorbar` (redpy/plotting_bak.py:945-985) is not part of this model. It is colour-bar geometry passed to Matplotlib.
- `checkComCat`, waveform handling, `plotCores`, `createJunkPlots` and the HTML writers are not modelled. They are network I/O, floating-point signal processing and text output.
- `redpy.correlation.xcorr1x1` and the OPTICS module are not part of this model. They are parameters: an arbitrary comparator and an arbitrary permutation.
- `np.argsort` is a parameter, and catalogind is required to be a permutation sorting the family's start times. Its tie order is not modelled.
- File housekeeping (`.tmp` renames, `shutil.copy`, `np.save`) and annotation CSV reading are left out as I/O.
- Occurrence.Histogram: `np.arange` computes its edges in floating point; the model computes them exactly as min + k*binsize. Near an exact multiple of binsize the floating-point edges may differ from these.
- Occurrence.RateIndex: `log10` is an abstract function. The properties use only that it is at least 0 for counts of 1 or more.
- Occurrence.FiIndex: fi mode requires fispanlow != fispanhigh. With equal bounds the source divides by zero, and numpy's inf/nan handling is not modelled.
- Occurrence.ColorByNamed: the source compares `colorby` with `is`. The model uses string equality.
- Occurrence.RowFor: dates pass through `num2date` in the source. The model keeps them as real day numbers, so the comparisons are the same. In the Bokeh version a family with no kept bin raises at `max(d2)`; RowFor still gives a label position of 0.0 there, which never reaches a layout because BuildRow fails first.
- Correlation.Scatter: numpy does not promise an order for fancy-index assignment with repeated indices. The model applies the writes in order, last write wins. The symmetry lemmas assume no repeated pair, where order does not matter.
- Correlation.Cprint: the clipping of Cprint for display (redpy/plotting_bak.py:1331-1332) is not modelled. It only affects plotting.
- PlotFormat.NsubClosedForm: nsub also counts invalid names, one row each, or occurheight when the name merely contains 'occurrence'. PdfRowsFillFigure is proved only for formats whose names are all valid.
- PlotFormat.LegendText: the legend's number formatting (`'{} Hours'.format(...)`) is modelled as the number, not as its text.

## Findings

| source | as written | input that shows it | evidently intended | confidence | as-written member | corrected member |
|---|---|---|---|---|---|---|
| redpy/plotting_bak.py:203-235 | Invalid plot names are skipped when the plots are made ("Moving on"), but the grid loop indexes `plots[pnum]` by name position, so it reads past the list. | plotformat `bogus`: `plots` is empty and `plots[0]` raises IndexError. `eqrate,bogus` fails the same way at `plots[1]`. | Skip invalid names in the layout too, so every plot made is laid out once, in order. | not executed | PlotFormat.InvalidNameRaises | PlotFormat.LayoutGridSkipping |
| redpy/plotting_bak.py:581-585 | The right arrow is drawn with `ax.annotate` in both versions. The Bokeh timeline calls plotFamilyOccurrence with `ax=None`, so any right arrow there raises AttributeError. The defect is latent from renderBokehTimeline, which passes maxtime = `np.max(alltrigs)` (line 169), so no family ends after it; any other Bokeh caller with an earlier maxtime reaches it. | In a Bokeh occurrence plot, a family that starts inside the window and ends after maxtime: mintime 0, maxtime 1, famstart 0.5, longevity 1. | Draw a Bokeh `Arrow` for the right arrow, as the code does for the left arrow at 568-575. | not executed | Occurrence.BokehRightArrowRaisesExample | Occurrence.RowArrowsExactly |
| redpy/plotting_bak.py:532-541 | numpy closes the last histogram bin. When max(dt) - min(dt) is a multiple of binsize, the last event lies on that bin's right edge and `hist` counts it there. The `fisum` selection uses `dt < h[i] + binsize` for every bin and drops it, so `fisum/hist` is not the bin's mean. | Event times 0 and 1, binsize 1, frequency indices 2 and 4, fispan 0 to 4: one bin counting 2 events, fisum 2, histfi 1.0, so `ind` is [63] where the bin's mean 3.0 gives [191]. | Select the last bin's members with `<=` on its right edge, so histfi is the mean frequency index of the bin (3.0 here). | not executed | Occurrence.FiColorsDropLastEvent | Occurrence.MeanFiColorsAreMeans |
