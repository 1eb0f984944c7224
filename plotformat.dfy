/**
 * The plot-format string of the overview pages (renderBokehTimeline and
 * customPDFoverview in redpy/plotting_bak.py) and the legend wording of
 * determineLegendText.
 *
 * A format such as "eqrate,fi+occurrence,longevity" lists plot names; ','
 * starts a new row of the page and '+' groups the names of one row into tabs.
 * The names are read by replacing every '+' with ',' and splitting on ','; the
 * rows are read by splitting on ',' alone.
 */
module PlotFormat {
  import opened Options

  // ---------------------------------------------------------------------
  // Splitting
  // ---------------------------------------------------------------------

  /** Python's `str.split(sep)`: the pieces between separators, empty ones included. */
  function Split(s: string, sep: char): (parts: seq<string>)
    ensures |parts| >= 1
    ensures forall i :: 0 <= i < |parts| ==> sep !in parts[i]
    ensures forall i, ch :: 0 <= i < |parts| && ch in parts[i] ==> ch in s
    decreases |s|
  {
    if s == [] then [[]]
    else
      var rest := Split(s[1..], sep);
      assert forall ch :: ch in s[1..] ==> ch in s;
      if s[0] == sep then [[]] + rest
      else [[s[0]] + rest[0]] + rest[1..]
  }

  /** Python's `sep.join(parts)`. */
  function Join(parts: seq<string>, sep: char): string
    requires |parts| >= 1
  {
    if |parts| == 1 then parts[0] else parts[0] + [sep] + Join(parts[1..], sep)
  }

  /** Splitting loses nothing: joining the pieces with the separator gives the string back. */
  lemma {:induction false} JoinSplit(s: string, sep: char)
    ensures Join(Split(s, sep), sep) == s
    decreases |s|
  {
    if s != [] {
      var rest := Split(s[1..], sep);
      JoinSplit(s[1..], sep);
      if s[0] == sep {
        assert Split(s, sep) == [[]] + rest;
        assert s == [s[0]] + s[1..];
      } else {
        var parts := Split(s, sep);
        assert parts == [[s[0]] + rest[0]] + rest[1..];
        if |rest| == 1 {
          assert s == [s[0]] + rest[0];
        } else {
          assert Join(rest, sep) == rest[0] + [sep] + Join(rest[1..], sep);
          assert parts[1..] == rest[1..];
          assert s == [s[0]] + s[1..];
        }
      }
    }
  }

  /** How many times c occurs in s. */
  function Count(s: string, c: char): nat
  {
    if s == [] then 0 else (if s[0] == c then 1 else 0) + Count(s[1..], c)
  }

  /** There is one more piece than there are separators. */
  lemma {:induction false} SplitLength(s: string, sep: char)
    ensures |Split(s, sep)| == Count(s, sep) + 1
    decreases |s|
  {
    if s != [] {
      SplitLength(s[1..], sep);
    }
  }

  /** `s.replace(a, b)` for single characters. */
  function Replace(s: string, a: char, b: char): (r: string)
    ensures |r| == |s|
    ensures forall i :: 0 <= i < |s| ==> r[i] == (if s[i] == a then b else s[i])
  {
    if s == [] then [] else [if s[0] == a then b else s[0]] + Replace(s[1..], a, b)
  }

  /** The pieces of several strings, one list after another. */
  function Concat(parts: seq<seq<string>>): seq<string>
  {
    if parts == [] then [] else parts[0] + Concat(parts[1..])
  }

  /** Each row of a format split on '+': the names of that row's tabs. */
  function NamesByRow(rows: seq<string>): (r: seq<seq<string>>)
    ensures |r| == |rows|
  {
    if rows == [] then [] else [Split(rows[0], '+')] + NamesByRow(rows[1..])
  }

  /** The plot names of a format: `plotformat.replace('+',',').split(',')`. */
  function Names(format: string): (names: seq<string>)
    ensures |names| >= 1
    ensures forall i :: 0 <= i < |names| ==> '+' !in names[i] && ',' !in names[i]
  {
    var commas := Replace(format, '+', ',');
    assert '+' !in commas;
    Split(commas, ',')
  }

  /** The rows of a format: `plotformat.split(',')`. */
  function Rows(format: string): seq<string>
  {
    Split(format, ',')
  }

  /**
   * The two readings agree: the names are the rows' '+'-pieces, row after
   * row, so the page layout and the list of plots walk the same names in the
   * same order.
   */
  lemma {:induction false} NamesAreRowPieces(format: string)
    ensures Names(format) == Concat(NamesByRow(Rows(format)))
    decreases |format|
  {
    if format != [] {
      var tail := format[1..];
      NamesAreRowPieces(tail);
      var rest := Rows(tail);
      assert Replace(format, '+', ',')[1..] == Replace(tail, '+', ',');
      if format[0] == ',' {
        assert Rows(format) == [[]] + rest;
        assert NamesByRow(Rows(format)) == [[[]]] + NamesByRow(rest);
      } else if format[0] == '+' {
        var row0 := ['+'] + rest[0];
        assert Rows(format) == [row0] + rest[1..];
        assert row0[1..] == rest[0];
        assert Split(row0, '+') == [[]] + Split(rest[0], '+');
        assert NamesByRow(rest) == [Split(rest[0], '+')] + NamesByRow(rest[1..]);
        assert NamesByRow(Rows(format)) == [Split(row0, '+')] + NamesByRow(rest[1..]);
      } else {
        var c := format[0];
        var row0 := [c] + rest[0];
        assert Rows(format) == [row0] + rest[1..];
        assert row0[1..] == rest[0];
        var pieces := Split(rest[0], '+');
        assert Split(row0, '+') == [[c] + pieces[0]] + pieces[1..];
        assert NamesByRow(rest) == [pieces] + NamesByRow(rest[1..]);
        assert NamesByRow(Rows(format)) == [Split(row0, '+')] + NamesByRow(rest[1..]);
        var later := Concat(NamesByRow(rest[1..]));
        assert Names(tail) == pieces + later;
        assert Names(format) == [[c] + Names(tail)[0]] + Names(tail)[1..];
        assert (pieces + later)[1..] == pieces[1..] + later;
      }
    }
  }

  // ---------------------------------------------------------------------
  // Plot names
  // ---------------------------------------------------------------------

  /** The plots a format can name. */
  datatype PlotKind = EqRate | FrequencyIndex | Longevity | Occurrence | OccurrenceFi

  /** The plot a name selects, or None for a name the page skips ("not a valid plot type"). */
  function KindOf(name: string): Option<PlotKind>
  {
    if |name| == 6 && name == "eqrate" then Some(EqRate)
    else if |name| == 2 && name == "fi" then Some(FrequencyIndex)
    else if |name| == 9 && name == "longevity" then Some(Longevity)
    else if |name| == 10 && name == "occurrence" then Some(Occurrence)
    else if |name| == 12 && name == "occurrencefi" then Some(OccurrenceFi)
    else None
  }

  /** The title of the tab a plot gets. */
  function TabTitle(k: PlotKind): string
  {
    match k
    case EqRate => "Event Rate"
    case FrequencyIndex => "FI"
    case Longevity => "Longevity"
    case Occurrence => "Occurrence (Color by Rate)"
    case OccurrenceFi => "Occurrence (Color by FI)"
  }

  /** The name that selects each plot: KindOf inverts it. */
  function NameOf(k: PlotKind): string
  {
    match k
    case EqRate => "eqrate"
    case FrequencyIndex => "fi"
    case Longevity => "longevity"
    case Occurrence => "occurrence"
    case OccurrenceFi => "occurrencefi"
  }

  lemma KindOfNameOf(k: PlotKind)
    ensures KindOf(NameOf(k)) == Some(k)
  {
  }

  lemma NameOfKindOf(name: string)
    requires KindOf(name).Some?
    ensures NameOf(KindOf(name).value) == name
  {
  }

  /** One plot on the page, with the title of its tab. */
  datatype Panel = Panel(kind: PlotKind, title: string)

  /** The plots the names create, in order, skipping the invalid names. */
  function ValidPanels(names: seq<string>): (ps: seq<Panel>)
    ensures |ps| <= |names|
  {
    if names == [] then []
    else
      var rest := ValidPanels(names[1..]);
      match KindOf(names[0])
      case Some(k) => [Panel(k, TabTitle(k))] + rest
      case None => rest
  }

  /** Every name makes a plot exactly when every name is valid. */
  lemma {:induction false} AllPanelsExactlyWhenAllValid(names: seq<string>)
    ensures |ValidPanels(names)| == |names| <==> forall i :: 0 <= i < |names| ==> KindOf(names[i]).Some?
  {
    if names != [] {
      AllPanelsExactlyWhenAllValid(names[1..]);
      assert forall i :: 1 <= i < |names| ==> names[i] == names[1..][i - 1];
    }
  }

  lemma ValidPanelsAppend(a: seq<string>, b: seq<string>)
    ensures ValidPanels(a + b) == ValidPanels(a) + ValidPanels(b)
  {
    if a != [] {
      assert (a + b)[0] == a[0];
      assert (a + b)[1..] == a[1..] + b;
      ValidPanelsAppend(a[1..], b);
      match KindOf(a[0]) {
        case Some(k) =>
          assert ValidPanels(a + b) == [Panel(k, TabTitle(k))] + ValidPanels(a[1..] + b);
          assert ValidPanels(a) == [Panel(k, TabTitle(k))] + ValidPanels(a[1..]);
        case None =>
      }
    } else {
      assert a + b == b;
    }
  }

  /**
   * The loop over the names that appends a plot and its tab title for each
   * valid name and moves on past the others.
   */
  method CreatePlots(names: seq<string>) returns (plots: seq<PlotKind>, titles: seq<string>)
    ensures |plots| == |titles| == |ValidPanels(names)|
    ensures forall i :: 0 <= i < |plots| ==> Panel(plots[i], titles[i]) == ValidPanels(names)[i]
  {
    plots, titles := [], [];
    for i := 0 to |names|
      invariant |plots| == |titles| == |ValidPanels(names[..i])|
      invariant forall j :: 0 <= j < |plots| ==> Panel(plots[j], titles[j]) == ValidPanels(names[..i])[j]
    {
      assert names[..i + 1] == names[..i] + [names[i]];
      assert [names[i]][1..] == [];
      ValidPanelsAppend(names[..i], [names[i]]);
      match KindOf(names[i]) {
        case Some(k) =>
          plots := plots + [k];
          titles := titles + [TabTitle(k)];
        case None =>
      }
    }
    assert names[..|names|] == names;
  }

  // ---------------------------------------------------------------------
  // The page grid
  // ---------------------------------------------------------------------

  /** One row of the page: a single plot, or several plots as tabs. */
  datatype GridItem = Single(panel: Panel) | Tabbed(tabs: seq<Panel>)

  /** The plots of a grid, row after row and tab after tab. */
  function Flatten(grid: seq<GridItem>): seq<Panel>
  {
    if grid == [] then []
    else
      (match grid[0] case Single(p) => [p] case Tabbed(ts) => ts) + Flatten(grid[1..])
  }

  lemma FlattenAppend(a: seq<GridItem>, b: seq<GridItem>)
    ensures Flatten(a + b) == Flatten(a) + Flatten(b)
  {
    if a != [] {
      assert (a + b)[0] == a[0];
      assert (a + b)[1..] == a[1..] + b;
      FlattenAppend(a[1..], b);
      var head := match a[0] case Single(p) => [p] case Tabbed(ts) => ts;
      assert Flatten(a + b) == head + Flatten(a[1..] + b);
      assert Flatten(a) == head + Flatten(a[1..]);
    } else {
      assert a + b == b;
    }
  }

  /** How many plot positions a row takes: one per '+'-piece when it has tabs, else one. */
  function Width(row: string): nat
  {
    ShapeOf(row).width()
  }

  /** Without a '+' a row is one piece, so a row always takes one position per piece. */
  lemma WidthIsPieces(row: string)
    ensures Width(row) == |Split(row, '+')|
  {
    SplitLength(row, '+');
  }

  /** A character occurs exactly when its count is positive. */
  lemma {:induction false} CountPositive(s: string, c: char)
    ensures Count(s, c) > 0 <==> c in s
    decreases |s|
  {
    if s != [] {
      CountPositive(s[1..], c);
      assert c in s <==> s[0] == c || c in s[1..] by {
        assert s == [s[0]] + s[1..];
      }
    }
  }

  /** What the layout needs to know of a row: a single plot, or a tab group of several. */
  datatype RowShape = Plain | Tabs(count: nat)
  {
    /** The plot positions the row takes. */
    function width(): nat
    {
      match this
      case Plain => 1
      case Tabs(n) => n
    }
  }

  function ShapeOf(row: string): RowShape
  {
    if Count(row, '+') > 0 then Tabs(Count(row, '+') + 1) else Plain
  }

  function Shapes(rows: seq<string>): (r: seq<RowShape>)
    ensures |r| == |rows|
  {
    if rows == [] then [] else [ShapeOf(rows[0])] + Shapes(rows[1..])
  }

  /**
   * The grid as the page builds it: row by row from plot position pnum,
   * taking each row's width of consecutive plots; None when a row reaches
   * past the last plot (the IndexError of `plots[pnum]`).
   */
  function GridFrom(shapes: seq<RowShape>, panels: seq<Panel>, pnum: nat): (g: Option<seq<GridItem>>)
    ensures g.Some? ==> |g.value| == |shapes|
    decreases |shapes|
  {
    if shapes == [] then Some([])
    else if pnum + shapes[0].width() > |panels| then None
    else Prepend([GridItemAt(shapes[0], panels, pnum)], GridFrom(shapes[1..], panels, pnum + shapes[0].width()))
  }

  /** The grid row for one format row whose plots start at position pnum. */
  function GridItemAt(shape: RowShape, panels: seq<Panel>, pnum: nat): GridItem
    requires pnum + shape.width() <= |panels|
  {
    match shape
    case Tabs(n) => Tabbed(panels[pnum..pnum + n])
    case Plain => Single(panels[pnum])
  }

  /** The positions all rows take together. */
  function TotalWidth(shapes: seq<RowShape>): nat
  {
    if shapes == [] then 0 else shapes[0].width() + TotalWidth(shapes[1..])
  }

  /**
   * The grid exists exactly when the rows fit in the plots after pnum, and
   * then it holds the next TotalWidth(shapes) plots in order.
   */
  lemma {:induction false} GridFromSpec(shapes: seq<RowShape>, panels: seq<Panel>, pnum: nat)
    requires pnum <= |panels|
    ensures GridFrom(shapes, panels, pnum).Some? <==> pnum + TotalWidth(shapes) <= |panels|
    ensures GridFrom(shapes, panels, pnum).Some? ==>
              Flatten(GridFrom(shapes, panels, pnum).value) == panels[pnum..pnum + TotalWidth(shapes)]
    decreases |shapes|
  {
    if shapes != [] {
      var w := shapes[0].width();
      if pnum + w <= |panels| {
        GridFromSpec(shapes[1..], panels, pnum + w);
        var rest := GridFrom(shapes[1..], panels, pnum + w);
        if rest.Some? {
          GridFromFlatten(shapes, panels, pnum, rest.value);
        }
      }
    }
  }

  /** One row's plots come first, then those of the rows after it. */
  lemma GridFromFlatten(shapes: seq<RowShape>, panels: seq<Panel>, pnum: nat, rest: seq<GridItem>)
    requires shapes != []
    requires pnum + TotalWidth(shapes) <= |panels|
    requires Flatten(rest) == panels[pnum + shapes[0].width()..pnum + TotalWidth(shapes)]
    ensures Flatten([GridItemAt(shapes[0], panels, pnum)] + rest) == panels[pnum..pnum + TotalWidth(shapes)]
  {
    var w := shapes[0].width();
    var item := GridItemAt(shapes[0], panels, pnum);
    assert Flatten([item]) == panels[pnum..pnum + w] by {
      assert [item][1..] == [];
    }
    FlattenAppend([item], rest);
    assert panels[pnum..pnum + TotalWidth(shapes)]
        == panels[pnum..pnum + w] + panels[pnum + w..pnum + TotalWidth(shapes)];
  }

  /** Together the rows take one position per plot name. */
  lemma {:induction false} TotalWidthIsNameCount(rows: seq<string>)
    ensures TotalWidth(Shapes(rows)) == |Concat(NamesByRow(rows))|
  {
    if rows != [] {
      TotalWidthIsNameCount(rows[1..]);
      WidthIsPieces(rows[0]);
      assert Shapes(rows)[1..] == Shapes(rows[1..]);
      assert NamesByRow(rows) == [Split(rows[0], '+')] + NamesByRow(rows[1..]);
      assert Concat(NamesByRow(rows)) == Split(rows[0], '+') + Concat(NamesByRow(rows[1..]));
    }
  }

  /**
   * The `pnum` loop of renderBokehTimeline: for each row, a tab group of the
   * next plots when the row has a '+', else the next plot alone.  None when
   * an index runs past the plots, where the source raises IndexError.
   */
  method LayoutGrid(format: string, panels: seq<Panel>) returns (grid: Option<seq<GridItem>>)
    ensures grid == GridFrom(Shapes(Rows(format)), panels, 0)
  {
    grid := LayoutRows(Rows(format), panels);
  }

  /** The loop of LayoutGrid over the rows of the format. */
  method LayoutRows(rows: seq<string>, panels: seq<Panel>) returns (grid: Option<seq<GridItem>>)
    ensures grid == GridFrom(Shapes(rows), panels, 0)
  {
    ghost var whole := GridFrom(Shapes(rows), panels, 0);
    var items: seq<GridItem> := [];
    var pnum: nat := 0;
    var g := 0;
    PrependNothing(whole);
    while g < |rows|
      invariant 0 <= g <= |rows| && pnum <= |panels|
      invariant whole == Prepend(items, GridFrom(Shapes(rows[g..]), panels, pnum))
    {
      var pf := rows[g];
      var item := LayoutRow(pf, panels, pnum);
      LayoutStep(rows, g, panels, pnum, items);
      if item.None? {
        return None;
      }
      items := items + [item.value];
      pnum := pnum + Width(pf);
      g := g + 1;
    }
    assert items + [] == items;
    grid := Some(items);
  }



  /**
   * One pass of the `pnum` loop keeps its invariant: row g either raises,
   * and then so does the whole grid, or adds its item and moves pnum on.
   */
  lemma LayoutStep(rows: seq<string>, g: nat, panels: seq<Panel>, pnum: nat, items: seq<GridItem>)
    requires g < |rows|
    ensures var rest := GridFrom(Shapes(rows[g + 1..]), panels, pnum + Width(rows[g]));
            && (pnum + Width(rows[g]) > |panels| ==> Prepend(items, GridFrom(Shapes(rows[g..]), panels, pnum)) == None)
            && (pnum + Width(rows[g]) <= |panels| ==>
                  Prepend(items, GridFrom(Shapes(rows[g..]), panels, pnum))
                  == Prepend(items + [GridItemAt(ShapeOf(rows[g]), panels, pnum)], rest))
  {
    assert rows[g..][0] == rows[g] && rows[g..][1..] == rows[g + 1..];
    var shapes := Shapes(rows[g..]);
    assert shapes == [ShapeOf(rows[g])] + Shapes(rows[g + 1..]);
    assert shapes[1..] == Shapes(rows[g + 1..]);
    if pnum + Width(rows[g]) <= |panels| {
      PrependTwice(items, GridItemAt(ShapeOf(rows[g]), panels, pnum), GridFrom(Shapes(rows[g + 1..]), panels, pnum + Width(rows[g])));
    }
  }


  /**
   * One row of the `pnum` loop: a tab group of the next plots when the row
   * has a '+', else the next plot alone; None where `plots[pnum]` raises.
   */
  method LayoutRow(pf: string, panels: seq<Panel>, pnum: nat) returns (item: Option<GridItem>)
    requires pnum <= |panels|
    ensures item.Some? <==> pnum + Width(pf) <= |panels|
    ensures item.Some? ==> item.value == GridItemAt(ShapeOf(pf), panels, pnum)
  {
    CountPositive(pf, '+');
    if '+' in pf {
      var pieces := Split(pf, '+');
      SplitLength(pf, '+');
      var tabs := TakeTabs(panels, pnum, |pieces|);
      if tabs.None? {
        return None;
      }
      item := Some(Tabbed(tabs.value));
    } else {
      if pnum >= |panels| {
        return None;
      }
      item := Some(Single(panels[pnum]));
    }
  }

  /**
   * The inner `pft` loop: the next w plots from position pnum as tabs, or
   * None at the first position past the last plot.
   */
  method TakeTabs(panels: seq<Panel>, pnum: nat, w: nat) returns (tabs: Option<seq<Panel>>)
    requires pnum <= |panels|
    ensures tabs.Some? <==> pnum + w <= |panels|
    ensures tabs.Some? ==> tabs.value == panels[pnum..pnum + w]
  {
    var ts: seq<Panel> := [];
    var pft := 0;
    while pft < w
      invariant 0 <= pft <= w
      invariant pnum + pft <= |panels| && ts == panels[pnum..pnum + pft]
    {
      if pnum + pft >= |panels| {
        return None;
      }
      ts := ts + [panels[pnum + pft]];
      pft := pft + 1;
    }
    // the source's pft ends at the last piece, so its `pnum + pft + 1` is pnum + w
    tabs := Some(ts);
  }

  lemma PrependNothing(rest: Option<seq<GridItem>>)
    ensures Prepend([], rest) == rest
  {
    if rest.Some? {
      assert [] + rest.value == rest.value;
    }
  }

  lemma PrependTwice(items: seq<GridItem>, item: GridItem, rest: Option<seq<GridItem>>)
    ensures Prepend(items, Prepend([item], rest)) == Prepend(items + [item], rest)
  {
    if rest.Some? {
      assert items + ([item] + rest.value) == (items + [item]) + rest.value;
    }
  }

  /** A prefix of rows already laid out, in front of the grid of the remaining rows. */
  function Prepend(items: seq<GridItem>, rest: Option<seq<GridItem>>): Option<seq<GridItem>>
  {
    match rest
    case None => None
    case Some(r) => Some(items + r)
  }

  /**
   * As written: the page builds the plots for the valid names only but lays
   * them out by name position, so it completes exactly when every name is valid,
   * and then every plot is on the page once, in format order.
   */
  lemma RenderSucceedsExactlyWhenAllNamesValid(format: string)
    ensures var grid := GridFrom(Shapes(Rows(format)), ValidPanels(Names(format)), 0);
            && (grid.Some? <==> forall i :: 0 <= i < |Names(format)| ==> KindOf(Names(format)[i]).Some?)
            && (grid.Some? ==> Flatten(grid.value) == ValidPanels(Names(format)))
  {
    var panels := ValidPanels(Names(format));
    AllPanelsExactlyWhenAllValid(Names(format));
    NamesAreRowPieces(format);
    TotalWidthIsNameCount(Rows(format));
    GridFromSpec(Shapes(Rows(format)), panels, 0);
    assert panels[0..|panels|] == panels;
  }

  /** A string without the separator is a single piece. */
  lemma {:induction false} SplitWithoutSeparator(s: string, sep: char)
    requires sep !in s
    ensures Split(s, sep) == [s]
    decreases |s|
  {
    if s != [] {
      assert sep !in s[1..] by {
        forall i | 0 <= i < |s[1..]|
          ensures s[1..][i] != sep
        {
          assert s[1..][i] == s[i + 1];
        }
      }
      SplitWithoutSeparator(s[1..], sep);
      assert [s[0]] + s[1..] == s;
    }
  }

  /** A single invalid name is enough to make the page raise instead of moving on. */
  lemma InvalidNameRaises()
    ensures GridFrom(Shapes(Rows("bogus")), ValidPanels(Names("bogus")), 0) == None
  {
    var format := "bogus";
    assert Replace(format, '+', ',') == format;
    SplitWithoutSeparator(format, ',');
    assert Names(format) == [format];
    assert Rows(format) == [format];
    assert ValidPanels([format]) == [];
    assert Shapes([format]) == [Plain];
  }

  /**
   * Corrected layout: each row keeps only the valid names among its pieces,
   * a row with tabs keeps its tab group, a plain row with an invalid name
   * takes no place.
   */
  function GridSkipping(rows: seq<string>): (g: seq<GridItem>)
    ensures |g| <= |rows|
  {
    if rows == [] then [] else RowItems(rows[0]) + GridSkipping(rows[1..])
  }

  /** What one row contributes when invalid names are skipped. */
  function RowItems(row: string): seq<GridItem>
  {
    var mine := ValidPanels(Split(row, '+'));
    if '+' in row then [Tabbed(mine)]
    else if mine == [] then [] else [Single(mine[0])]
  }

  lemma RowItemsFlatten(row: string)
    ensures Flatten(RowItems(row)) == ValidPanels(Split(row, '+'))
  {
    var mine := ValidPanels(Split(row, '+'));
    if '+' !in row {
      WidthIsPieces(row);
      CountPositive(row, '+');
      assert |mine| <= 1;
      if mine != [] {
        assert mine == [mine[0]];
      }
    }
  }

  lemma {:induction false} GridSkippingFlatten(rows: seq<string>)
    ensures Flatten(GridSkipping(rows)) == ValidPanels(Concat(NamesByRow(rows)))
  {
    if rows != [] {
      GridSkippingFlatten(rows[1..]);
      RowItemsFlatten(rows[0]);
      FlattenAppend(RowItems(rows[0]), GridSkipping(rows[1..]));
      assert NamesByRow(rows) == [Split(rows[0], '+')] + NamesByRow(rows[1..]);
      ValidPanelsAppend(Split(rows[0], '+'), Concat(NamesByRow(rows[1..])));
    }
  }

  lemma GridSkippingAppend(rows: seq<string>, g: nat)
    requires g < |rows|
    ensures GridSkipping(rows[g..]) == RowItems(rows[g]) + GridSkipping(rows[g + 1..])
  {
    assert rows[g..][0] == rows[g];
    assert rows[g..][1..] == rows[g + 1..];
  }

  /**
   * The corrected page: invalid names are skipped in the layout as they are
   * when the plots are made, and every plot made appears on the page exactly
   * once, in format order.
   */
  method LayoutGridSkipping(format: string) returns (grid: seq<GridItem>)
    ensures Flatten(grid) == ValidPanels(Names(format))
  {
    var rows := Rows(format);
    grid := [];
    var g := 0;
    assert rows[g..] == rows;
    while g < |rows|
      invariant 0 <= g <= |rows|
      invariant grid + GridSkipping(rows[g..]) == GridSkipping(rows)
    {
      GridSkippingAppend(rows, g);
      var added := RowItems(rows[g]);
      assert (grid + added) + GridSkipping(rows[g + 1..]) == grid + (added + GridSkipping(rows[g + 1..]));
      grid := grid + added;
      g := g + 1;
    }
    assert grid + [] == grid;
    GridSkippingFlatten(rows);
    NamesAreRowPieces(format);
  }

  // ---------------------------------------------------------------------
  // The PDF overview
  // ---------------------------------------------------------------------

  /** Whether "occurrence" occurs in the name (both occurrence plots, and any other name containing it). */
  predicate MentionsOccurrence(name: string)
  {
    exists i :: 0 <= i <= |name| - 10 && OccurrenceAt(name, i)
  }

  predicate OccurrenceAt(name: string, i: int)
  {
    0 <= i <= |name| - 10 && name[i..i + 10] == "occurrence"
  }

  /** `nsub`: occurheight rows for each name mentioning occurrence, one for every other name. */
  function Nsub(names: seq<string>, occurheight: nat): (n: nat)
    ensures occurheight >= 1 ==> n >= |names|
  {
    if names == [] then 0
    else (if MentionsOccurrence(names[0]) then occurheight else 1) + Nsub(names[1..], occurheight)
  }

  /** The figure height: two inches per subplot row plus four. */
  function FigHeight(nsub: nat): nat
  {
    2 * nsub + 4
  }

  function OccurrenceNames(names: seq<string>): nat
  {
    if names == [] then 0 else (if MentionsOccurrence(names[0]) then 1 else 0) + OccurrenceNames(names[1..])
  }

  /** In closed form: one row per name, plus occurheight - 1 extra for each occurrence name. */
  lemma {:induction false} NsubClosedForm(names: seq<string>, occurheight: nat)
    requires occurheight >= 1
    ensures Nsub(names, occurheight) == |names| + OccurrenceNames(names) * (occurheight - 1)
    ensures FigHeight(Nsub(names, occurheight)) >= 2 * |names| + 4
  {
    if names != [] {
      NsubClosedForm(names[1..], occurheight);
      var b := if MentionsOccurrence(names[0]) then 1 else 0;
      var o := OccurrenceNames(names[1..]);
      assert (b + o) * (occurheight - 1) == b * (occurheight - 1) + o * (occurheight - 1);
    }
  }

  /** The subplot rows a plot occupies, first and last, counting from 1. */
  datatype Span = Span(first: nat, last: nat)

  /** The subplots of the PDF overview and the rows they take together. */
  datatype PdfPage = PdfPage(spans: seq<Span>, rows: nat)

  /** The plot each name selects, None for the names the page moves past. */
  function Kinds(names: seq<string>): (ks: seq<Option<PlotKind>>)
    ensures |ks| == |names|
  {
    if names == [] then [] else Kinds(names[..|names| - 1]) + [KindOf(names[|names| - 1])]
  }

  lemma KindsAppend(names: seq<string>, i: nat)
    requires i < |names|
    ensures Kinds(names[..i + 1]) == Kinds(names[..i]) + [KindOf(names[i])]
  {
    assert names[..i + 1][..i] == names[..i];
  }

  /** The rows a subplot takes: occurheight for the occurrence plots, none for an invalid name. */
  function RowsOf(k: Option<PlotKind>, occurheight: nat): (r: nat)
    ensures k.Some? ==> r == 1 || r == occurheight
    ensures k.None? ==> r == 0
  {
    match k
    case Some(Occurrence) => occurheight
    case Some(OccurrenceFi) => occurheight
    case Some(_) => 1
    case None => 0
  }

  /** A valid plot's subplot takes the rows just below the page's; an invalid name adds nothing. */
  function AddSubplot(page: PdfPage, k: Option<PlotKind>, occurheight: nat): PdfPage
  {
    if k.Some? then
      PdfPage(page.spans + [Span(page.rows + 1, page.rows + RowsOf(k, occurheight))],
              page.rows + RowsOf(k, occurheight))
    else page
  }

  /** The subplots of the plots, each valid one's rows just below the previous one's. */
  function PdfLayout(kinds: seq<Option<PlotKind>>, occurheight: nat): (page: PdfPage)
    ensures |page.spans| <= |kinds|
  {
    if kinds == [] then PdfPage([], 0)
    else AddSubplot(PdfLayout(kinds[..|kinds| - 1], occurheight), kinds[|kinds| - 1], occurheight)
  }

  lemma PdfLayoutAppend(kinds: seq<Option<PlotKind>>, k: Option<PlotKind>, occurheight: nat)
    ensures PdfLayout(kinds + [k], occurheight) == AddSubplot(PdfLayout(kinds, occurheight), k, occurheight)
  {
    assert (kinds + [k])[..|kinds|] == kinds;
  }

  /**
   * The `pnum` loop of customPDFoverview: each valid name takes the next
   * rows of the nsub-row figure; pnum ends as the number of rows taken.
   */
  method PdfSpans(names: seq<string>, occurheight: nat) returns (spans: seq<Span>, pnum: nat)
    ensures PdfPage(spans, pnum) == PdfLayout(Kinds(names), occurheight)
  {
    spans := [];
    pnum := 0;
    var i := 0;
    while i < |names|
      invariant 0 <= i <= |names|
      invariant PdfPage(spans, pnum) == PdfLayout(Kinds(names[..i]), occurheight)
    {
      KindsAppend(names, i);
      PdfLayoutAppend(Kinds(names[..i]), KindOf(names[i]), occurheight);
      spans, pnum := AddPanel(spans, pnum, names[i], occurheight);
      i := i + 1;
    }
    assert names[..|names|] == names;
  }

  /** One pass of the loop: the name's subplot, if any, joins the page. */
  method AddPanel(spans: seq<Span>, pnum: nat, p: string, occurheight: nat) returns (spans': seq<Span>, pnum': nat)
    ensures PdfPage(spans', pnum') == AddSubplot(PdfPage(spans, pnum), KindOf(p), occurheight)
  {
    var span, next := PlaceSubplot(p, pnum, occurheight);
    spans' := spans;
    if span.Some? {
      spans' := spans + [span.value];
    }
    pnum' := next;
  }

  /**
   * One pass of the loop's if/elif chain: the rows a name's subplot takes
   * after the first pnum rows, and the new pnum.
   */
  method PlaceSubplot(p: string, pnum: nat, occurheight: nat) returns (span: Option<Span>, next: nat)
    ensures next == pnum + RowsOf(KindOf(p), occurheight)
    ensures span.Some? <==> KindOf(p).Some?
    ensures span.Some? ==> span.value == Span(pnum + 1, pnum + RowsOf(KindOf(p), occurheight))
  {
    match KindOf(p) {
      case Some(EqRate) =>
        span, next := Some(Span(pnum + 1, pnum + 1)), pnum + 1;
      case Some(FrequencyIndex) =>
        span, next := Some(Span(pnum + 1, pnum + 1)), pnum + 1;
      case Some(Occurrence) =>
        span, next := Some(Span(pnum + 1, pnum + occurheight)), pnum + occurheight;
      case Some(OccurrenceFi) =>
        span, next := Some(Span(pnum + 1, pnum + occurheight)), pnum + occurheight;
      case Some(Longevity) =>
        span, next := Some(Span(pnum + 1, pnum + 1)), pnum + 1;
      case None =>
        // not a valid plot type: moving on
        span, next := None, pnum;
    }
  }

  /** The spans lie within rows 1..rows, each starting where the previous one ended. */
  predicate Tiled(spans: seq<Span>, rows: nat, occurheight: nat)
  {
    && (forall i :: 0 <= i < |spans| ==> spans[i].first >= 1 && spans[i].last <= rows)
    && (forall i :: 0 <= i < |spans| - 1 ==> spans[i + 1].first == spans[i].last + 1)
    && (|spans| > 0 ==> spans[|spans| - 1].last == rows)
    && (occurheight >= 1 ==> forall i :: 0 <= i < |spans| ==> spans[i].first <= spans[i].last)
  }

  lemma TiledAppend(page: PdfPage, k: Option<PlotKind>, occurheight: nat)
    requires Tiled(page.spans, page.rows, occurheight)
    ensures Tiled(AddSubplot(page, k, occurheight).spans, AddSubplot(page, k, occurheight).rows, occurheight)
  {
  }

  /**
   * The subplots never overlap and leave no gap: in order, each starts on
   * the row after the previous one ends, and the last ends on the last row
   * taken.
   */
  lemma {:induction false} PdfLayoutTiled(kinds: seq<Option<PlotKind>>, occurheight: nat)
    ensures Tiled(PdfLayout(kinds, occurheight).spans, PdfLayout(kinds, occurheight).rows, occurheight)
    decreases |kinds|
  {
    if kinds != [] {
      var n := |kinds| - 1;
      PdfLayoutTiled(kinds[..n], occurheight);
      TiledAppend(PdfLayout(kinds[..n], occurheight), kinds[n], occurheight);
    }
  }

  /** There is one subplot per plot the names create. */
  lemma {:induction false} PdfLayoutOnePerPlot(names: seq<string>, occurheight: nat)
    ensures |PdfLayout(Kinds(names), occurheight).spans| == |ValidPanels(names)|
    decreases |names|
  {
    if names != [] {
      var n := |names| - 1;
      PdfLayoutOnePerPlot(names[..n], occurheight);
      PdfLayoutAppend(Kinds(names[..n]), KindOf(names[n]), occurheight);
      ValidPanelsAppend(names[..n], [names[n]]);
      assert names[..n] + [names[n]] == names;
      assert [names[n]][1..] == [];
    }
  }

  /** "occurrence" and "occurrencefi" mention occurrence; the other plot names do not. */
  lemma MentionsOccurrenceOfKinds(k: PlotKind)
    ensures MentionsOccurrence(NameOf(k)) <==> (k == Occurrence || k == OccurrenceFi)
  {
    var name := NameOf(k);
    if k == Occurrence || k == OccurrenceFi {
      assert OccurrenceAt(name, 0);
    }
  }

  /**
   * With only valid names the subplots fill the figure exactly: the last
   * occupied row is row nsub.
   */
  lemma {:induction false} PdfRowsFillFigure(names: seq<string>, occurheight: nat)
    requires forall i :: 0 <= i < |names| ==> KindOf(names[i]).Some?
    ensures PdfLayout(Kinds(names), occurheight).rows == Nsub(names, occurheight)
    decreases |names|
  {
    if names != [] {
      var n := |names| - 1;
      PdfRowsFillFigure(names[..n], occurheight);
      PdfLayoutAppend(Kinds(names[..n]), KindOf(names[n]), occurheight);
      NsubAppend(names[..n], names[n], occurheight);
      assert names[..n] + [names[n]] == names;
      NameOfKindOf(names[n]);
      MentionsOccurrenceOfKinds(KindOf(names[n]).value);
    }
  }

  lemma {:induction false} NsubAppend(names: seq<string>, p: string, occurheight: nat)
    ensures Nsub(names + [p], occurheight) == Nsub(names, occurheight) + (if MentionsOccurrence(p) then occurheight else 1)
    decreases |names|
  {
    if names != [] {
      assert (names + [p])[1..] == names[1..] + [p];
      NsubAppend(names[1..], p, occurheight);
    }
  }

  // ---------------------------------------------------------------------
  // Legend wording
  // ---------------------------------------------------------------------

  /** The wording of "Events per ..." for a bin width in days. */
  datatype Legend = Hour | Day | Week | Hours(hours: real) | Days(days: real)

  /** determineLegendText: the named widths first, then hours below two days, else days. */
  function LegendText(binsize: real): (l: Legend)
    ensures LegendDays(l) == binsize
  {
    if binsize == 1.0 / 24.0 then Hour
    else if binsize == 1.0 then Day
    else if binsize == 7.0 then Week
    else if binsize < 2.0 then Hours(binsize * 24.0)
    else Days(binsize)
  }

  /** The length in days a legend names. */
  function LegendDays(l: Legend): real
  {
    match l
    case Hour => 1.0 / 24.0
    case Day => 1.0
    case Week => 7.0
    case Hours(h) => h / 24.0
    case Days(d) => d
  }

  /**
   * The legend always names the bin width itself, in hours below two days
   * and in days from two days on.
   */
  lemma LegendNamesBinsize(binsize: real)
    ensures LegendDays(LegendText(binsize)) == binsize
    ensures LegendText(binsize).Hours? ==> binsize < 2.0
    ensures LegendText(binsize).Days? ==> binsize >= 2.0
  {
  }
}
