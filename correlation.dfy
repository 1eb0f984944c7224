/**
 * The correlation matrices of one family (plotReport and plotSingleFamily in
 * redpy/plotting_bak.py).
 *
 * The stored matrix C starts as the identity and receives every coefficient of
 * the sparse correlation table whose second event belongs to the family.  It
 * is put into time order (Cind), completed into Cfull by calling the
 * cross-correlation comparator for every upper-triangle cell that still holds
 * 0, and optionally reordered for display.  Matrices live in two-dimensional
 * arrays, as the numpy arrays of the source do; View gives their value, on
 * which the specification functions and lemmas are stated.
 */
module Correlation {
  import opened Options

  /** A dense matrix as a value: the sequence of its rows. */
  type Matrix = seq<seq<real>>

  predicate Square(m: Matrix)
  {
    forall i :: 0 <= i < |m| ==> |m[i]| == |m|
  }

  predicate Symmetric(m: Matrix)
  {
    Square(m) && forall i, j :: 0 <= i < |m| && 0 <= j < |m| ==> m[i][j] == m[j][i]
  }

  predicate UnitDiagonal(m: Matrix)
  {
    Square(m) && forall i :: 0 <= i < |m| ==> m[i][i] == 1.0
  }

  /** The value held by a two-dimensional array. */
  ghost function View(a: array2<real>): (m: Matrix)
    reads a
    ensures |m| == a.Length0
    ensures forall i :: 0 <= i < |m| ==> |m[i]| == a.Length1
    ensures forall i, j :: 0 <= i < a.Length0 && 0 <= j < a.Length1 ==> m[i][j] == a[i, j]
  {
    seq(a.Length0, i requires 0 <= i < a.Length0 reads a =>
      seq(a.Length1, j requires 0 <= j < a.Length1 reads a => a[i, j]))
  }

  /** Two matrices of one shape with the same entries are the same matrix. */
  lemma MatrixExt(m1: Matrix, m2: Matrix)
    requires |m1| == |m2|
    requires forall i :: 0 <= i < |m1| ==> |m1[i]| == |m2[i]|
    requires forall i, j :: 0 <= i < |m1| && 0 <= j < |m1[i]| ==> m1[i][j] == m2[i][j]
    ensures m1 == m2
  {
    forall i | 0 <= i < |m1|
      ensures m1[i] == m2[i]
    {
    }
  }

  // ---------------------------------------------------------------------
  // The stored matrix C
  // ---------------------------------------------------------------------

  /** One row of the correlation table: ids of two events and their coefficient. */
  datatype CorrRow = CorrRow(id1: int, id2: int, ccc: real)

  /** The rows `ix = np.where(np.in1d(id2, idf))`: those whose id2 is in the family, in table order. */
  function Selected(table: seq<CorrRow>, idf: seq<int>): (sel: seq<CorrRow>)
    ensures |sel| <= |table|
    ensures forall r :: r in sel ==> r in table && r.id2 in idf
  {
    if table == [] then []
    else (if InFamily(table[0], idf) then [table[0]] else []) + Selected(table[1..], idf)
  }

  /** Whether a table row's second event belongs to the family. */
  predicate InFamily(r: CorrRow, idf: seq<int>)
  {
    r.id2 in idf
  }

  /** The selected rows are exactly the table rows whose second event is in the family. */
  lemma {:induction false} SelectedMembers(table: seq<CorrRow>, idf: seq<int>)
    ensures forall r :: r in Selected(table, idf) <==> r in table && InFamily(r, idf)
  {
    if table != [] {
      SelectedMembers(table[1..], idf);
      assert table == [table[0]] + table[1..];
    }
  }

  /** `np.where(idf == x)[0][0]`: the first position of x in the family's ids. */
  function IndexOf(idf: seq<int>, x: int): (k: nat)
    requires x in idf
    ensures k < |idf| && idf[k] == x
    ensures forall j :: 0 <= j < k ==> idf[j] != x
  {
    if idf[0] == x then 0 else 1 + IndexOf(idf[1..], x)
  }

  /** Both ids of every selected row occur in the family; otherwise building r1 raises. */
  predicate Resolvable(idf: seq<int>, sel: seq<CorrRow>): (b: bool)
    ensures b ==> forall k :: 0 <= k < |sel| ==>
                    && sel[k].id1 in idf && idf[IndexOf(idf, sel[k].id1)] == sel[k].id1
                    && sel[k].id2 in idf && idf[IndexOf(idf, sel[k].id2)] == sel[k].id2
  {
    forall k :: 0 <= k < |sel| ==> sel[k].id1 in idf && sel[k].id2 in idf
  }

  /** One element assignment `C[row, col] = value`. */
  datatype Write = Write(row: nat, col: nat, value: real)

  /** The writes of `C[r1, r2] = ccc[ix]`, one per selected row, in table order. */
  function Forward(idf: seq<int>, sel: seq<CorrRow>): seq<Write>
    requires Resolvable(idf, sel)
  {
    seq(|sel|, k requires 0 <= k < |sel| =>
      Write(IndexOf(idf, sel[k].id1), IndexOf(idf, sel[k].id2), sel[k].ccc))
  }

  /** The writes of `C[r2, r1] = ccc[ix]`: the same writes with row and column exchanged. */
  function Mirrored(ws: seq<Write>): seq<Write>
  {
    seq(|ws|, k requires 0 <= k < |ws| => Write(ws[k].col, ws[k].row, ws[k].value))
  }

  /**
   * The value of cell (i, j) after the writes ws are applied in order to a
   * cell that held init: the last write to the cell wins.
   */
  function Written(init: real, ws: seq<Write>, i: nat, j: nat): (v: real)
    ensures (forall k :: 0 <= k < |ws| ==> !(ws[k].row == i && ws[k].col == j)) ==> v == init
    ensures v == init || exists k :: 0 <= k < |ws| && ws[k].row == i && ws[k].col == j && ws[k].value == v
    decreases |ws|
  {
    if ws == [] then init
    else
      var w := ws[|ws| - 1];
      if w.row == i && w.col == j then w.value else Written(init, ws[..|ws| - 1], i, j)
  }

  /** The entries of `np.eye`. */
  function Eye(i: nat, j: nat): real
  {
    if i == j then 1.0 else 0.0
  }

  /** C after `C = np.eye(len(idf)); C[r1, r2] = ccc[ix]; C[r2, r1] = ccc[ix]`. */
  function StoredMatrix(idf: seq<int>, table: seq<CorrRow>): (m: Matrix)
    requires Resolvable(idf, Selected(table, idf))
    ensures Square(m) && |m| == |idf|
  {
    var ws := Forward(idf, Selected(table, idf));
    seq(|idf|, i requires 0 <= i < |idf| =>
      seq(|idf|, j requires 0 <= j < |idf| => Written(Eye(i, j), ws + Mirrored(ws), i, j)))
  }

  /** Applying two batches of writes one after the other is applying their concatenation. */
  lemma {:induction false} WrittenAppend(init: real, a: seq<Write>, b: seq<Write>, i: nat, j: nat)
    ensures Written(init, a + b, i, j) == Written(Written(init, a, i, j), b, i, j)
    decreases |b|
  {
    if b == [] {
      assert a + b == a;
    } else {
      assert (a + b)[..|a + b| - 1] == a + b[..|b| - 1];
      WrittenAppend(init, a, b[..|b| - 1], i, j);
    }
  }

  /** A cell no write touches keeps its initial value. */
  lemma {:induction false} WrittenUntouched(init: real, ws: seq<Write>, i: nat, j: nat)
    requires forall k :: 0 <= k < |ws| ==> !(ws[k].row == i && ws[k].col == j)
    ensures Written(init, ws, i, j) == init
    decreases |ws|
  {
    if ws != [] {
      WrittenUntouched(init, ws[..|ws| - 1], i, j);
    }
  }

  /** A cell exactly one write touches ends with that write's value. */
  lemma {:induction false} WrittenOnce(init: real, ws: seq<Write>, i: nat, j: nat, k: nat)
    requires k < |ws| && ws[k].row == i && ws[k].col == j
    requires forall k' :: 0 <= k' < |ws| && k' != k ==> !(ws[k'].row == i && ws[k'].col == j)
    ensures Written(init, ws, i, j) == ws[k].value
    decreases |ws|
  {
    if k < |ws| - 1 {
      WrittenOnce(init, ws[..|ws| - 1], i, j, k);
    }
  }

  /** Whether two writes address the same unordered pair of cells. */
  predicate SameCell(a: Write, b: Write)
  {
    (a.row == b.row && a.col == b.col) || (a.row == b.col && a.col == b.row)
  }

  /** No write on the diagonal, and no unordered cell written twice. */
  predicate Simple(ws: seq<Write>)
  {
    && (forall k :: 0 <= k < |ws| ==> ws[k].row != ws[k].col)
    && (forall k, k' :: 0 <= k < k' < |ws| ==> !SameCell(ws[k], ws[k']))
  }

  /**
   * Among simple writes followed by their mirror image, the write at position
   * a is the only one addressing its cell.
   */
  lemma OnlyWriterOfCell(ws: seq<Write>, a: nat)
    requires Simple(ws) && a < 2 * |ws|
    ensures var all := ws + Mirrored(ws);
            forall k :: 0 <= k < |all| && k != a ==> !(all[k].row == all[a].row && all[k].col == all[a].col)
  {
    var all := ws + Mirrored(ws);
    var n := |ws|;
    var t := if a < n then a else a - n;
    assert all[a] == ws[t] || all[a] == Write(ws[t].col, ws[t].row, ws[t].value);
    forall k | 0 <= k < |all| && k != a
      ensures !(all[k].row == all[a].row && all[k].col == all[a].col)
    {
      var t' := if k < n then k else k - n;
      assert all[k] == ws[t'] || all[k] == Write(ws[t'].col, ws[t'].row, ws[t'].value);
      if t' < t {
        assert !SameCell(ws[t'], ws[t]);
      } else if t < t' {
        assert !SameCell(ws[t], ws[t']);
      } else {
        assert ws[t].row != ws[t].col;
      }
    }
  }

  /**
   * Writes followed by their mirror image leave a symmetric pair of cells
   * with one value, and the diagonal untouched, when the writes are simple.
   */
  lemma MirroredWritesSymmetric(ws: seq<Write>, i: nat, j: nat, init: real)
    requires Simple(ws)
    ensures Written(init, ws + Mirrored(ws), i, j) == Written(init, ws + Mirrored(ws), j, i)
    ensures i == j ==> Written(init, ws + Mirrored(ws), i, j) == init
  {
    var all := ws + Mirrored(ws);
    var n := |ws|;
    if i == j {
      WrittenUntouched(init, all, i, j);
    } else if k :| 0 <= k < n && SameCell(ws[k], Write(i, j, 0.0)) {
      var a := if ws[k].row == i then k else n + k;
      var b := if ws[k].row == i then n + k else k;
      assert all[n + k] == Write(ws[k].col, ws[k].row, ws[k].value);
      OnlyWriterOfCell(ws, a);
      OnlyWriterOfCell(ws, b);
      WrittenOnce(init, all, i, j, a);
      WrittenOnce(init, all, j, i, b);
    } else {
      forall k' | 0 <= k' < |all|
        ensures !(all[k'].row == i && all[k'].col == j) && !(all[k'].row == j && all[k'].col == i)
      {
        var t := if k' < n then k' else k' - n;
        assert all[k'] == ws[t] || all[k'] == Write(ws[t].col, ws[t].row, ws[t].value);
        assert !SameCell(ws[t], Write(i, j, 0.0));
      }
      WrittenUntouched(init, all, i, j);
      WrittenUntouched(init, all, j, i);
    }
  }

  /** The table restricted to the family has no self-pairs and no unordered pair twice. */
  predicate DistinctPairs(sel: seq<CorrRow>)
  {
    && (forall k :: 0 <= k < |sel| ==> sel[k].id1 != sel[k].id2)
    && (forall k, k' :: 0 <= k < k' < |sel| ==>
          !((sel[k].id1 == sel[k'].id1 && sel[k].id2 == sel[k'].id2) ||
            (sel[k].id1 == sel[k'].id2 && sel[k].id2 == sel[k'].id1)))
  }

  /** Distinct id pairs give simple writes, because IndexOf maps distinct ids to distinct positions. */
  lemma ForwardSimple(idf: seq<int>, sel: seq<CorrRow>)
    requires Resolvable(idf, sel) && DistinctPairs(sel)
    ensures Simple(Forward(idf, sel))
  {
    var ws := Forward(idf, sel);
    forall k | 0 <= k < |ws|
      ensures ws[k].row != ws[k].col
    {
      assert idf[ws[k].row] == sel[k].id1 && idf[ws[k].col] == sel[k].id2;
    }
    forall k, k' | 0 <= k < k' < |ws|
      ensures !SameCell(ws[k], ws[k'])
    {
      assert idf[ws[k].row] == sel[k].id1 && idf[ws[k].col] == sel[k].id2;
      assert idf[ws[k'].row] == sel[k'].id1 && idf[ws[k'].col] == sel[k'].id2;
    }
  }

  /**
   * With no self-pairs and no repeated unordered pair among the selected rows,
   * the stored matrix is symmetric with a unit diagonal.
   */
  lemma StoredSymmetric(idf: seq<int>, table: seq<CorrRow>)
    requires Resolvable(idf, Selected(table, idf))
    requires DistinctPairs(Selected(table, idf))
    ensures |StoredMatrix(idf, table)| == |idf|
    ensures Symmetric(StoredMatrix(idf, table))
    ensures UnitDiagonal(StoredMatrix(idf, table))
  {
    var ws := Forward(idf, Selected(table, idf));
    ForwardSimple(idf, Selected(table, idf));
    var m := StoredMatrix(idf, table);
    forall i, j | 0 <= i < |idf| && 0 <= j < |idf|
      ensures m[i][j] == m[j][i]
    {
      MirroredWritesSymmetric(ws, i, j, Eye(i, j));
    }
    forall i | 0 <= i < |idf|
      ensures m[i][i] == 1.0
    {
      MirroredWritesSymmetric(ws, i, i, Eye(i, i));
    }
  }

  /** Each selected row's coefficient lands in both of its cells. */
  lemma StoredHoldsCoefficient(idf: seq<int>, table: seq<CorrRow>, k: nat)
    requires Resolvable(idf, Selected(table, idf))
    requires DistinctPairs(Selected(table, idf))
    requires k < |Selected(table, idf)|
    ensures var r := Selected(table, idf)[k];
            var m := StoredMatrix(idf, table);
            m[IndexOf(idf, r.id1)][IndexOf(idf, r.id2)] == r.ccc &&
            m[IndexOf(idf, r.id2)][IndexOf(idf, r.id1)] == r.ccc
  {
    var sel := Selected(table, idf);
    var ws := Forward(idf, sel);
    ForwardSimple(idf, sel);
    var i, j := ws[k].row, ws[k].col;
    var all := ws + Mirrored(ws);
    OnlyWriterOfCell(ws, k);
    WrittenOnce(Eye(i, j), all, i, j, k);
    MirroredWritesSymmetric(ws, i, j, Eye(i, j));
  }

  /** A cell that no selected row addresses keeps its identity value. */
  lemma StoredUncovered(idf: seq<int>, table: seq<CorrRow>, i: nat, j: nat)
    requires Resolvable(idf, Selected(table, idf))
    requires i < |idf| && j < |idf|
    requires forall k :: 0 <= k < |Selected(table, idf)| ==>
               var r := Selected(table, idf)[k];
               !(IndexOf(idf, r.id1) == i && IndexOf(idf, r.id2) == j) &&
               !(IndexOf(idf, r.id1) == j && IndexOf(idf, r.id2) == i)
    ensures StoredMatrix(idf, table)[i][j] == Eye(i, j)
  {
    var sel := Selected(table, idf);
    var ws := Forward(idf, sel);
    var all := ws + Mirrored(ws);
    forall k | 0 <= k < |all|
      ensures !(all[k].row == i && all[k].col == j)
    {
      var t := if k < |ws| then k else k - |ws|;
      assert all[k] == ws[t] || all[k] == Write(ws[t].col, ws[t].row, ws[t].value);
    }
    WrittenUntouched(Eye(i, j), all, i, j);
  }

  /** The element assignments of one vectorised numpy assignment, applied in order. */
  method Scatter(c: array2<real>, ws: seq<Write>)
    requires forall k :: 0 <= k < |ws| ==> ws[k].row < c.Length0 && ws[k].col < c.Length1
    modifies c
    ensures forall i, j :: 0 <= i < c.Length0 && 0 <= j < c.Length1 ==>
              c[i, j] == Written(old(c[i, j]), ws, i, j)
  {
    var k := 0;
    while k < |ws|
      invariant 0 <= k <= |ws|
      invariant forall i, j :: 0 <= i < c.Length0 && 0 <= j < c.Length1 ==>
                  c[i, j] == Written(old(c[i, j]), ws[..k], i, j)
    {
      c[ws[k].row, ws[k].col] := ws[k].value;
      assert ws[..k + 1][..k] == ws[..k];
      k := k + 1;
    }
    assert ws[..k] == ws;
  }

  /**
   * C for one family: the identity, then the table's coefficients in both
   * orientations.  None when a selected row's id1 is not in the family, where
   * the source's `np.where(...)[0][0]` raises before anything is written.
   */
  method BuildStored(idf: seq<int>, table: seq<CorrRow>) returns (c: Option<array2<real>>)
    ensures c.None? <==> !Resolvable(idf, Selected(table, idf))
    ensures c.Some? ==> fresh(c.value) && c.value.Length0 == c.value.Length1 == |idf|
    ensures c.Some? ==> View(c.value) == StoredMatrix(idf, table)
  {
    var sel := Selected(table, idf);
    if !Resolvable(idf, sel) {
      return None;
    }
    var n := |idf|;
    var ws := Forward(idf, sel);
    var a := new real[n, n]((i, j) => if i == j then 1.0 else 0.0);
    ghost var init := View(a);
    Scatter(a, ws);
    ghost var mid := View(a);
    Scatter(a, Mirrored(ws));
    forall i, j | 0 <= i < n && 0 <= j < n
      ensures a[i, j] == StoredMatrix(idf, table)[i][j]
    {
      assert init[i][j] == Eye(i, j);
      WrittenAppend(Eye(i, j), ws, Mirrored(ws), i, j);
    }
    MatrixExt(View(a), StoredMatrix(idf, table));
    return Some(a);
  }

  // ---------------------------------------------------------------------
  // Cprint: the row of C with the largest column total
  // ---------------------------------------------------------------------

  /** The sum of column j over the first k rows. */
  function ColumnSum(m: Matrix, j: nat, k: nat): real
    requires Square(m) && j < |m| && k <= |m|
  {
    if k == 0 then 0.0 else ColumnSum(m, j, k - 1) + m[k - 1][j]
  }

  /** `np.sum(C, 0)` (and the built-in `sum(D)`, which adds the rows of D): every column's total. */
  function ColumnSums(m: Matrix): (sums: seq<real>)
    requires Square(m)
    ensures |sums| == |m|
  {
    seq(|m|, j requires 0 <= j < |m| => ColumnSum(m, j, |m|))
  }

  /** `np.argmax`: the first position of a largest element. */
  function ArgMax(s: seq<real>): (k: nat)
    requires |s| > 0
    ensures k < |s|
    ensures forall j :: 0 <= j < |s| ==> s[j] <= s[k]
    ensures forall j :: 0 <= j < k ==> s[j] < s[k]
  {
    if |s| == 1 then 0
    else
      var k := ArgMax(s[..|s| - 1]);
      if s[|s| - 1] > s[k] then |s| - 1 else k
  }

  /** `Cprint = C[np.argmax(np.sum(C, 0)), :]`: the row of the event with the largest column total. */
  function Cprint(m: Matrix): (row: seq<real>)
    requires Square(m) && |m| > 0
    ensures exists k :: 0 <= k < |m| && row == m[k] &&
              forall j :: 0 <= j < |m| ==> ColumnSum(m, j, |m|) <= ColumnSum(m, k, |m|)
  {
    var k := ArgMax(ColumnSums(m));
    assert forall j :: 0 <= j < |m| ==> ColumnSums(m)[j] == ColumnSum(m, j, |m|);
    m[k]
  }

  // ---------------------------------------------------------------------
  // Reordering by a permutation
  // ---------------------------------------------------------------------

  /** Every index in p addresses one of n positions. */
  predicate InRange(p: seq<nat>, n: nat)
  {
    forall k :: 0 <= k < |p| ==> p[k] < n
  }

  /** `xs[p]` with an index array p. */
  function Gather<T>(xs: seq<T>, p: seq<nat>): seq<T>
    requires InRange(p, |xs|)
  {
    seq(|p|, k requires 0 <= k < |p| => xs[p[k]])
  }

  function Range(n: nat): seq<nat>
  {
    seq(n, i => i)
  }

  /** p lists 0, ..., n - 1, each exactly once, in some order. */
  predicate IsPermutation(p: seq<nat>, n: nat)
  {
    multiset(p) == multiset(Range(n))
  }

  lemma PermutationInRange(p: seq<nat>, n: nat)
    requires IsPermutation(p, n)
    ensures |p| == n && InRange(p, n)
  {
    assert |multiset(p)| == |multiset(Range(n))|;
    forall k | 0 <= k < |p|
      ensures p[k] < n
    {
      assert p[k] in multiset(p);
      assert p[k] in Range(n);
    }
  }

  /** `M[p, :][:, p]`: rows and columns both taken in the order p. */
  function Reindex(m: Matrix, p: seq<nat>): (r: Matrix)
    requires Square(m) && InRange(p, |m|)
    ensures Square(r) && |r| == |p|
  {
    seq(|p|, i requires 0 <= i < |p| => seq(|p|, j requires 0 <= j < |p| => m[p[i]][p[j]]))
  }

  /** An index list with the same multiset of indices as one in range is in range too. */
  lemma SameMultisetInRange(p: seq<nat>, q: seq<nat>, n: nat)
    requires InRange(p, n) && multiset(p) == multiset(q)
    ensures InRange(q, n)
  {
    forall k | 0 <= k < |q|
      ensures q[k] < n
    {
      assert q[k] in multiset(q);
      assert q[k] in p;
    }
  }

  /** Dropping position k of a list drops one copy of its element from the multiset. */
  lemma RemoveAtMultiset(q: seq<nat>, k: nat)
    requires k < |q|
    ensures multiset(q[..k] + q[k + 1..]) == multiset(q) - multiset{q[k]}
  {
    assert q == q[..k] + [q[k]] + q[k + 1..];
  }

  /** Dropping the index at position k drops one copy of it and of the value it gathers. */
  lemma GatherRemove<T>(xs: seq<T>, q: seq<nat>, k: nat)
    requires InRange(q, |xs|) && k < |q|
    ensures InRange(q[..k] + q[k + 1..], |xs|)
    ensures multiset(q[..k] + q[k + 1..]) == multiset(q) - multiset{q[k]}
    ensures multiset(Gather(xs, q)) == multiset(Gather(xs, q[..k] + q[k + 1..])) + multiset{xs[q[k]]}
  {
    RemoveAtMultiset(q, k);
    var a, b := q[..k], q[k + 1..];
    assert Gather(xs, q) == Gather(xs, a) + [xs[q[k]]] + Gather(xs, b);
    assert Gather(xs, a + b) == Gather(xs, a) + Gather(xs, b);
  }

  /** Gathering by index lists with the same multiset of indices gives the same multiset of values. */
  lemma {:induction false} GatherSameMultiset<T>(xs: seq<T>, p: seq<nat>, q: seq<nat>)
    requires InRange(p, |xs|) && multiset(p) == multiset(q)
    ensures InRange(q, |xs|)
    ensures multiset(Gather(xs, p)) == multiset(Gather(xs, q))
    decreases |p|
  {
    SameMultisetInRange(p, q, |xs|);
    if p == [] {
      assert |multiset(q)| == 0;
    } else {
      var n := |p| - 1;
      var x := p[n];
      assert x in multiset(q);
      var k :| 0 <= k < |q| && q[k] == x;
      GatherRemove(xs, p, n);
      GatherRemove(xs, q, k);
      assert p[..n] + p[n + 1..] == p[..n];
      GatherSameMultiset(xs, p[..n], q[..k] + q[k + 1..]);
    }
  }

  /** Taking the elements of xs in the order of a permutation keeps exactly the same elements. */
  lemma PermutedKeepsElements<T>(xs: seq<T>, p: seq<nat>)
    requires IsPermutation(p, |xs|)
    ensures InRange(p, |xs|)
    ensures multiset(Gather(xs, p)) == multiset(xs)
  {
    PermutationInRange(p, |xs|);
    GatherSameMultiset(xs, p, Range(|xs|));
    assert Gather(xs, Range(|xs|)) == xs;
  }

  /** Applying one permutation after another is applying a permutation. */
  lemma ComposePermutation(s: seq<nat>, o: seq<nat>, n: nat)
    requires IsPermutation(s, n) && IsPermutation(o, n)
    ensures InRange(o, |s|)
    ensures IsPermutation(Gather(s, o), n)
  {
    PermutationInRange(s, n);
    PermutedKeepsElements(s, o);
  }

  /** Reindexing twice is reindexing once by the composed order. */
  lemma ReindexCompose(m: Matrix, s: seq<nat>, o: seq<nat>)
    requires Square(m) && InRange(s, |m|) && InRange(o, |s|)
    ensures Square(Reindex(m, s))
    ensures Reindex(Reindex(m, s), o) == Reindex(m, Gather(s, o))
  {
    var r := Reindex(m, s);
    assert Square(r);
    MatrixExt(Reindex(r, o), Reindex(m, Gather(s, o)));
  }

  /** Reordering rows and columns alike keeps symmetry and the unit diagonal. */
  lemma ReindexKeepsShape(m: Matrix, p: seq<nat>)
    requires Square(m) && InRange(p, |m|)
    ensures Square(Reindex(m, p))
    ensures Symmetric(m) ==> Symmetric(Reindex(m, p))
    ensures UnitDiagonal(m) ==> UnitDiagonal(Reindex(m, p))
  {
  }

  /**
   * Labels and matrix move together: after reordering, the cell of the events
   * at new positions i and j is the cell those same events had before.
   */
  lemma ReorderKeepsLabels(ev: seq<nat>, m: Matrix, p: seq<nat>, i: nat, j: nat)
    requires Square(m) && |ev| == |m| && InRange(p, |m|)
    requires forall a, b :: 0 <= a < b < |ev| ==> ev[a] != ev[b]
    requires i < |p| && j < |p|
    ensures Gather(ev, p)[i] in ev && Gather(ev, p)[j] in ev
    ensures Reindex(m, p)[i][j] == m[IndexOfEvent(ev, Gather(ev, p)[i])][IndexOfEvent(ev, Gather(ev, p)[j])]
  {
    IndexOfEventAt(ev, p[i]);
    IndexOfEventAt(ev, p[j]);
  }

  /** The position of an event in a list of events. */
  function IndexOfEvent(ev: seq<nat>, e: nat): (k: nat)
    requires e in ev
    ensures k < |ev| && ev[k] == e
  {
    if ev[0] == e then 0 else 1 + IndexOfEvent(ev[1..], e)
  }

  lemma IndexOfEventAt(ev: seq<nat>, k: nat)
    requires k < |ev|
    requires forall a, b :: 0 <= a < b < |ev| ==> ev[a] != ev[b]
    ensures IndexOfEvent(ev, ev[k]) == k
  {
  }

  /** Reorder rows: `M[p, :]`. */
  method TakeRows(m: array2<real>, p: seq<nat>) returns (r: array2<real>)
    requires InRange(p, m.Length0)
    ensures fresh(r) && r.Length0 == |p| && r.Length1 == m.Length1
    ensures forall a, b :: 0 <= a < |p| && 0 <= b < m.Length1 ==> r[a, b] == m[p[a], b]
  {
    r := new real[|p|, m.Length1];
    var a := 0;
    while a < |p|
      invariant 0 <= a <= |p|
      invariant forall a', b :: 0 <= a' < a && 0 <= b < m.Length1 ==> r[a', b] == m[p[a'], b]
    {
      var b := 0;
      while b < m.Length1
        invariant 0 <= b <= m.Length1
        invariant forall a', b' :: 0 <= a' < a && 0 <= b' < m.Length1 ==> r[a', b'] == m[p[a'], b']
        invariant forall b' :: 0 <= b' < b ==> r[a, b'] == m[p[a], b']
      {
        r[a, b] := m[p[a], b];
        b := b + 1;
      }
      a := a + 1;
    }
  }

  /** Reorder columns: `M[:, p]`. */
  method TakeColumns(m: array2<real>, p: seq<nat>) returns (r: array2<real>)
    requires InRange(p, m.Length1)
    ensures fresh(r) && r.Length0 == m.Length0 && r.Length1 == |p|
    ensures forall a, b :: 0 <= a < m.Length0 && 0 <= b < |p| ==> r[a, b] == m[a, p[b]]
  {
    r := new real[m.Length0, |p|];
    var a := 0;
    while a < m.Length0
      invariant 0 <= a <= m.Length0
      invariant forall a', b :: 0 <= a' < a && 0 <= b < |p| ==> r[a', b] == m[a', p[b]]
    {
      var b := 0;
      while b < |p|
        invariant 0 <= b <= |p|
        invariant forall a', b' :: 0 <= a' < a && 0 <= b' < |p| ==> r[a', b'] == m[a', p[b']]
        invariant forall b' :: 0 <= b' < b ==> r[a, b'] == m[a, p[b']]
      {
        r[a, b] := m[a, p[b]];
        b := b + 1;
      }
      a := a + 1;
    }
  }

  /** `M = M[p, :]; M = M[:, p]`. */
  method Reordered(m: array2<real>, p: seq<nat>) returns (r: array2<real>)
    requires m.Length0 == m.Length1 && InRange(p, m.Length0)
    ensures fresh(r) && r.Length0 == |p| && r.Length1 == |p|
    ensures Square(View(m)) && View(r) == Reindex(View(m), p)
  {
    var rows := TakeRows(m, p);
    r := TakeColumns(rows, p);
    MatrixExt(View(r), Reindex(View(m), p));
  }

  // ---------------------------------------------------------------------
  // Completion of the time-ordered matrix
  // ---------------------------------------------------------------------

  /**
   * Cfull: every upper-triangle cell of m that holds 0 replaced, in both
   * orientations, by the comparator's coefficient for the two events; every
   * other cell as in m.  A stored coefficient of exactly 0 counts as missing.
   */
  function Completed(m: Matrix, ev: seq<nat>, xcorr: (nat, nat) -> real): (r: Matrix)
    requires Square(m) && |ev| == |m|
    ensures Square(r) && |r| == |m|
    ensures forall i :: 0 <= i < |m| ==> r[i][i] == m[i][i]
  {
    seq(|m|, i requires 0 <= i < |m| => seq(|m|, j requires 0 <= j < |m| =>
      if i < j && m[i][j] == 0.0 then xcorr(ev[i], ev[j])
      else if j < i && m[j][i] == 0.0 then xcorr(ev[j], ev[i])
      else m[i][j]))
  }

  /**
   * Completion changes only missing cells: the diagonal and every nonzero
   * upper-triangle cell are kept, the cells it fills agree with their mirror
   * cells, and a symmetric matrix with a unit diagonal stays so.
   */
  lemma CompletedKeepsStored(m: Matrix, ev: seq<nat>, xcorr: (nat, nat) -> real)
    requires Square(m) && |ev| == |m|
    ensures Square(Completed(m, ev, xcorr)) && |Completed(m, ev, xcorr)| == |m|
    ensures forall i :: 0 <= i < |m| ==> Completed(m, ev, xcorr)[i][i] == m[i][i]
    ensures forall i, j :: 0 <= i < j < |m| && m[i][j] != 0.0 ==>
              Completed(m, ev, xcorr)[i][j] == m[i][j]
    ensures forall i, j :: 0 <= i < j < |m| && m[i][j] == 0.0 ==>
              Completed(m, ev, xcorr)[i][j] == xcorr(ev[i], ev[j]) == Completed(m, ev, xcorr)[j][i]
    ensures Symmetric(m) ==> Symmetric(Completed(m, ev, xcorr))
    ensures UnitDiagonal(m) ==> UnitDiagonal(Completed(m, ev, xcorr))
  {
  }

  /** Lexicographic order of cells: row first, then column. */
  predicate Before(p: (nat, nat), q: (nat, nat))
  {
    p.0 < q.0 || (p.0 == q.0 && p.1 < q.1)
  }

  /** Cells listed in strictly increasing row-major order, so none twice. */
  predicate RowMajor(ps: seq<(nat, nat)>)
  {
    forall a, b :: 0 <= a < b < |ps| ==> Before(ps[a], ps[b])
  }

  /** Upper-triangle cell (a, b) of m holds 0: no coefficient was stored for it. */
  predicate Hole(m: Matrix, a: nat, b: nat)
  {
    a < b < |m| && b < |m[a]| && m[a][b] == 0.0
  }

  /** Cell (a, b) appears in the list ps. */
  predicate Listed(ps: seq<(nat, nat)>, a: nat, b: nat)
  {
    (a, b) in ps
  }

  /** A cell is listed in a concatenation exactly when it is listed in one of the parts. */
  lemma ListedAppend(front: seq<(nat, nat)>, back: seq<(nat, nat)>)
    ensures forall a: nat, b: nat :: Listed(front + back, a, b) <==> Listed(front, a, b) || Listed(back, a, b)
  {
  }

  /** The missing cells (i, j') of row i with i < j' < j, left to right. */
  function RowMissing(m: Matrix, i: nat, j: nat): (ps: seq<(nat, nat)>)
    requires Square(m) && i < |m| && j <= |m|
    ensures |ps| <= j
    decreases j
  {
    if j <= i + 1 then []
    else RowMissing(m, i, j - 1) + (if m[i][j - 1] == 0.0 then [(i, j - 1)] else [])
  }

  /** RowMissing lists exactly the cells of row i before column j that hold 0. */
  lemma {:induction false} RowMissingMembers(m: Matrix, i: nat, j: nat)
    requires Square(m) && i < |m| && j <= |m|
    ensures forall a: nat, b: nat :: Listed(RowMissing(m, i, j), a, b) <==> a == i && b < j && Hole(m, a, b)
    decreases j
  {
    if j > i + 1 {
      var front := RowMissing(m, i, j - 1);
      var back: seq<(nat, nat)> := if m[i][j - 1] == 0.0 then [(i, j - 1)] else [];
      RowMissingMembers(m, i, j - 1);
      ListedAppend(front, back);
    }
  }

  /** RowMissing lists its cells in column order. */
  lemma {:induction false} RowMissingOrdered(m: Matrix, i: nat, j: nat)
    requires Square(m) && i < |m| && j <= |m|
    ensures RowMajor(RowMissing(m, i, j))
    decreases j
  {
    if j > i + 1 {
      var front := RowMissing(m, i, j - 1);
      RowMissingMembers(m, i, j - 1);
      RowMissingOrdered(m, i, j - 1);
      var back: seq<(nat, nat)> := if m[i][j - 1] == 0.0 then [(i, j - 1)] else [];
      assert RowMissing(m, i, j) == front + back;
      forall a, b | 0 <= a < |front| && 0 <= b < |back|
        ensures Before(front[a], back[b])
      {
        assert Listed(front, front[a].0, front[a].1);
      }
      RowMajorAppend(front, back);
    }
  }

  /** Two row-major lists, the first wholly before the second, concatenate to a row-major list. */
  lemma RowMajorAppend(front: seq<(nat, nat)>, back: seq<(nat, nat)>)
    requires RowMajor(front) && RowMajor(back)
    requires forall a, b :: 0 <= a < |front| && 0 <= b < |back| ==> Before(front[a], back[b])
    ensures RowMajor(front + back)
  {
    forall a, b | 0 <= a < b < |front + back|
      ensures Before((front + back)[a], (front + back)[b])
    {
      if b >= |front| && a < |front| {
        assert Before(front[a], back[b - |front|]);
      }
    }
  }

  /**
   * The upper-triangle cells holding 0 in the rows before i, in the order the
   * nested loops of the completion visit them.
   */
  function MissingPairs(m: Matrix, i: nat): (ps: seq<(nat, nat)>)
    requires Square(m) && i <= |m|
  {
    if i == 0 then [] else MissingPairs(m, i - 1) + RowMissing(m, i - 1, |m|)
  }

  /** Every cell MissingPairs lists is an upper-triangle cell of a row before i that holds 0. */
  lemma {:induction false} MissingPairsSound(m: Matrix, i: nat)
    requires Square(m) && i <= |m|
    ensures forall a: nat, b: nat :: Listed(MissingPairs(m, i), a, b) ==> a < i && Hole(m, a, b)
  {
    if i > 0 {
      var front := MissingPairs(m, i - 1);
      var row := RowMissing(m, i - 1, |m|);
      MissingPairsSound(m, i - 1);
      RowMissingMembers(m, i - 1, |m|);
      ListedAppend(front, row);
    }
  }

  /** Every upper-triangle cell of a row before i that holds 0 is listed by MissingPairs. */
  lemma {:induction false} MissingPairsComplete(m: Matrix, i: nat)
    requires Square(m) && i <= |m|
    ensures forall a: nat, b: nat :: a < i && Hole(m, a, b) ==> Listed(MissingPairs(m, i), a, b)
  {
    if i > 0 {
      MissingPairsComplete(m, i - 1);
      RowMissingMembers(m, i - 1, |m|);
      CoverStep(m, i - 1, MissingPairs(m, i - 1), RowMissing(m, i - 1, |m|));
    }
  }

  /** Rows before r covered by front and row r covered by row: rows up to r are covered by both together. */
  lemma CoverStep(m: Matrix, r: nat, front: seq<(nat, nat)>, row: seq<(nat, nat)>)
    requires forall a: nat, b: nat :: a < r && Hole(m, a, b) ==> Listed(front, a, b)
    requires forall b: nat :: Hole(m, r, b) ==> Listed(row, r, b)
    ensures forall a: nat, b: nat :: a <= r && Hole(m, a, b) ==> Listed(front + row, a, b)
  {
    ListedAppend(front, row);
  }

  /** MissingPairs lists its cells in row-major order, and so none twice. */
  lemma {:induction false} MissingPairsOrdered(m: Matrix, i: nat)
    requires Square(m) && i <= |m|
    ensures RowMajor(MissingPairs(m, i))
  {
    if i > 0 {
      var front := MissingPairs(m, i - 1);
      var row := RowMissing(m, i - 1, |m|);
      MissingPairsOrdered(m, i - 1);
      MissingPairsSound(m, i - 1);
      RowMissingOrdered(m, i - 1, |m|);
      RowMissingMembers(m, i - 1, |m|);
      forall a, b | 0 <= a < |front| && 0 <= b < |row|
        ensures Before(front[a], row[b])
      {
        assert Listed(front, front[a].0, front[a].1);
        assert Listed(row, row[b].0, row[b].1);
      }
      RowMajorAppend(front, row);
    }
  }

  /** The upper-triangle cells that hold 0. */
  function UpperZeros(m: Matrix): set<(nat, nat)>
    requires Square(m)
  {
    set i: nat, j: nat | 0 <= i < j < |m| && m[i][j] == 0.0 :: (i, j)
  }

  /** A list with no repeated element has as many elements as its set. */
  lemma {:induction false} DistinctCard<T>(s: seq<T>)
    requires forall a, b :: 0 <= a < b < |s| ==> s[a] != s[b]
    ensures |set x | x in s| == |s|
  {
    if s != [] {
      var s' := s[..|s| - 1];
      DistinctCard(s');
      assert (set x | x in s) == (set x | x in s') + {s[|s| - 1]};
      assert s[|s| - 1] !in (set x | x in s');
    }
  }

  /**
   * The comparator is called once per upper-triangle cell holding 0 and for
   * no other cell: n(n-1)/2 - k calls when k upper cells hold a nonzero coefficient.
   */
  lemma CallCount(m: Matrix)
    requires Square(m)
    ensures |MissingPairs(m, |m|)| == |UpperZeros(m)|
  {
    var ps := MissingPairs(m, |m|);
    MissingPairsSound(m, |m|);
    MissingPairsComplete(m, |m|);
    MissingPairsOrdered(m, |m|);
    DistinctCard(ps);
    forall x: (nat, nat) | x in ps
      ensures x in UpperZeros(m)
    {
      assert Listed(ps, x.0, x.1);
    }
    forall x: (nat, nat) | x in UpperZeros(m)
      ensures x in ps
    {
      assert Hole(m, x.0, x.1);
      assert Listed(ps, x.0, x.1);
    }
    assert (set x | x in ps) == UpperZeros(m);
  }

  /** Whether the loops have visited upper cell (a, b) once they stand at row i, column j. */
  predicate Visited(i: nat, j: nat, a: nat, b: nat)
  {
    a < i || (a == i && b < j)
  }

  /** The value of cell (a, b) of Cfull once the loops stand at row i, column j. */
  function Progress(m: Matrix, ev: seq<nat>, xcorr: (nat, nat) -> real, i: nat, j: nat, a: nat, b: nat): real
    requires Square(m) && |ev| == |m| && a < |m| && b < |m|
  {
    if a < b && Visited(i, j, a, b) && m[a][b] == 0.0 then xcorr(ev[a], ev[b])
    else if b < a && Visited(i, j, b, a) && m[b][a] == 0.0 then xcorr(ev[b], ev[a])
    else m[a][b]
  }

  /** Every cell of c holds its Progress value for the position (i, j). */
  ghost predicate FilledUpTo(c: array2<real>, m: Matrix, ev: seq<nat>, xcorr: (nat, nat) -> real, i: nat, j: nat)
    reads c
  {
    Square(m) && |ev| == |m| && c.Length0 == |m| && c.Length1 == |m| &&
    forall a, b :: 0 <= a < |m| && 0 <= b < |m| ==> c[a, b] == Progress(m, ev, xcorr, i, j, a, b)
  }

  /** The inner loop of the completion: row i, from column i + 1 to the end. */
  method CompleteRow(cfull: array2<real>, ghost m: Matrix, ev: seq<nat>, xcorr: (nat, nat) -> real, i: nat)
    returns (ghost row: seq<(nat, nat)>)
    requires i < |ev| && FilledUpTo(cfull, m, ev, xcorr, i, i + 1)
    modifies cfull
    ensures FilledUpTo(cfull, m, ev, xcorr, i + 1, i + 2)
    ensures row == RowMissing(m, i, |ev|)
  {
    var n := |ev|;
    row := [];
    var j := i + 1;
    while j < n
      invariant i + 1 <= j <= n
      invariant row == RowMissing(m, i, j)
      invariant FilledUpTo(cfull, m, ev, xcorr, i, j)
    {
      var called := CompleteCell(cfull, m, ev, xcorr, i, j);
      if called {
        row := row + [(i, j)];
      }
      j := j + 1;
    }
    FilledNextRow(cfull, m, ev, xcorr, i);
  }

  /**
   * One pass of the inner loop: a cell still holding 0 gets the comparator's
   * coefficient, mirrored below the diagonal; called says whether it was asked.
   */
  method CompleteCell(cfull: array2<real>, ghost m: Matrix, ev: seq<nat>, xcorr: (nat, nat) -> real, i: nat, j: nat)
    returns (called: bool)
    requires i < j < |ev| && FilledUpTo(cfull, m, ev, xcorr, i, j)
    modifies cfull
    ensures called <==> m[i][j] == 0.0
    ensures FilledUpTo(cfull, m, ev, xcorr, i, j + 1)
  {
    called := cfull[i, j] == 0.0;
    if called {
      var cor := xcorr(ev[i], ev[j]);
      cfull[i, j] := cor;
      cfull[j, i] := cor;
    }
  }

  /**
   * `Cfull = Cind.copy()` followed by the nested loops over i < j that call
   * the comparator for each cell still holding 0.  The ghost trace calls
   * records the (i, j) of each comparator call in order.
   */
  method Complete(cind: array2<real>, ev: seq<nat>, xcorr: (nat, nat) -> real)
    returns (cfull: array2<real>, ghost calls: seq<(nat, nat)>)
    requires cind.Length0 == |ev| && cind.Length1 == |ev|
    ensures fresh(cfull) && cfull.Length0 == cfull.Length1 == |ev|
    ensures Square(View(cind)) && View(cfull) == Completed(View(cind), ev, xcorr)
    ensures calls == MissingPairs(View(cind), |ev|)
  {
    var n := |ev|;
    ghost var m := View(cind);
    cfull := new real[n, n]((i, j) requires 0 <= i < n && 0 <= j < n reads cind => cind[i, j]);
    calls := CompleteRows(cfull, m, ev, xcorr);
  }

  /** The outer loop of the completion, over every row but the last. */
  method CompleteRows(cfull: array2<real>, ghost m: Matrix, ev: seq<nat>, xcorr: (nat, nat) -> real)
    returns (ghost calls: seq<(nat, nat)>)
    requires FilledUpTo(cfull, m, ev, xcorr, 0, 1)
    modifies cfull
    ensures View(cfull) == Completed(m, ev, xcorr)
    ensures calls == MissingPairs(m, |ev|)
  {
    var n := |ev|;
    calls := [];
    var i := 0;
    while i < n - 1
      invariant 0 <= i && (n > 0 ==> i <= n - 1) && (n == 0 ==> i == 0)
      invariant calls == MissingPairs(m, i)
      invariant FilledUpTo(cfull, m, ev, xcorr, i, i + 1)
    {
      ghost var row := CompleteRow(cfull, m, ev, xcorr, i);
      calls := calls + row;
      i := i + 1;
    }
    LoopsDone(cfull, m, ev, xcorr, i, calls);
  }

  /** When the outer loop stops, the array is complete and every missing cell was asked about. */
  lemma LoopsDone(c: array2<real>, m: Matrix, ev: seq<nat>, xcorr: (nat, nat) -> real, i: nat, calls: seq<(nat, nat)>)
    requires FilledUpTo(c, m, ev, xcorr, i, i + 1)
    requires (|ev| > 0 ==> i == |ev| - 1) && (|ev| == 0 ==> i == 0)
    requires calls == MissingPairs(m, i)
    ensures View(c) == Completed(m, ev, xcorr)
    ensures calls == MissingPairs(m, |ev|)
  {
    if |ev| > 0 {
      LastRowHasNoPairs(m);
    }
    FilledAll(c, m, ev, xcorr, i);
  }

  /** The last row has no upper-triangle cell, so the loops may stop one row early. */
  lemma LastRowHasNoPairs(m: Matrix)
    requires Square(m) && |m| > 0
    ensures MissingPairs(m, |m|) == MissingPairs(m, |m| - 1)
  {
    assert RowMissing(m, |m| - 1, |m|) == [];
  }

  /** Finishing row i leaves every cell as it stands at the start of row i + 1. */
  lemma FilledNextRow(c: array2<real>, m: Matrix, ev: seq<nat>, xcorr: (nat, nat) -> real, i: nat)
    requires FilledUpTo(c, m, ev, xcorr, i, |ev|)
    ensures FilledUpTo(c, m, ev, xcorr, i + 1, i + 2)
  {
    var n := |ev|;
    forall a, b | 0 <= a < n && 0 <= b < n
      ensures Progress(m, ev, xcorr, i, n, a, b) == Progress(m, ev, xcorr, i + 1, i + 2, a, b)
    {
    }
  }

  /** Once the loops have passed the last row, the array holds the completed matrix. */
  lemma FilledAll(c: array2<real>, m: Matrix, ev: seq<nat>, xcorr: (nat, nat) -> real, i: nat)
    requires FilledUpTo(c, m, ev, xcorr, i, i + 1)
    requires i + 1 >= |ev|
    ensures View(c) == Completed(m, ev, xcorr)
  {
    var n := |ev|;
    forall a, b | 0 <= a < n && 0 <= b < n
      ensures c[a, b] == Completed(m, ev, xcorr)[a][b]
    {
    }
    MatrixExt(View(c), Completed(m, ev, xcorr));
  }

  /** The entries of a square array, read row by row into a value. */
  method Snapshot(a: array2<real>) returns (m: Matrix)
    requires a.Length0 == a.Length1
    ensures m == View(a) && Square(m)
  {
    m := [];
    var i := 0;
    while i < a.Length0
      invariant 0 <= i <= a.Length0
      invariant |m| == i
      invariant forall i' :: 0 <= i' < i ==> m[i'] == View(a)[i']
    {
      var row: seq<real> := [];
      var j := 0;
      while j < a.Length1
        invariant 0 <= j <= a.Length1
        invariant row == View(a)[i][..j]
      {
        row := row + [a[i, j]];
        j := j + 1;
      }
      m := m + [row];
      i := i + 1;
    }
  }

  // ---------------------------------------------------------------------
  // The report pipeline
  // ---------------------------------------------------------------------

  /** p lists the positions of keys by non-increasing key: `np.argsort(keys)[::-1]`. */
  predicate SortsDescending(keys: seq<real>, p: seq<nat>)
  {
    IsPermutation(p, |keys|) && InRange(p, |keys|) &&
    forall a, b :: 0 <= a < b < |p| ==> keys[p[a]] >= keys[p[b]]
  }

  /** p lists the positions of keys by non-decreasing key: `np.argsort(keys)`. */
  predicate SortsAscending(keys: seq<real>, p: seq<nat>)
  {
    IsPermutation(p, |keys|) && InRange(p, |keys|) &&
    forall a, b :: 0 <= a < b < |p| ==> keys[p[a]] <= keys[p[b]]
  }

  /** The events evs run in order of start time. */
  predicate TimeSorted(starts: seq<real>, evs: seq<nat>)
    requires InRange(evs, |starts|)
  {
    forall a, b :: 0 <= a < b < |evs| ==> starts[evs[a]] <= starts[evs[b]]
  }

  /**
   * `fam[np.argsort(startTimeMPL[fam])]` lists the family's events by start
   * time: the argsort of the family's start times, applied to the family.
   */
  lemma ArgsortOrdersEvents(starts: seq<real>, fam: seq<nat>, p: seq<nat>)
    requires InRange(fam, |starts|) && SortsAscending(Gather(starts, fam), p)
    ensures InRange(Gather(fam, p), |starts|) && TimeSorted(starts, Gather(fam, p))
  {
    var keys := Gather(starts, fam);
    var evs := Gather(fam, p);
    forall a, b | 0 <= a < b < |evs|
      ensures starts[evs[a]] <= starts[evs[b]]
    {
      assert keys[p[a]] <= keys[p[b]];
    }
  }

  /** `D = 1 - Cfull`. */
  function Dissimilarity(m: Matrix): (d: Matrix)
    requires Square(m)
    ensures Square(d) && |d| == |m|
  {
    seq(|m|, i requires 0 <= i < |m| => seq(|m|, j requires 0 <= j < |m| => 1.0 - m[i][j]))
  }

  /**
   * The display reordering: by decreasing total dissimilarity (s), then by
   * the OPTICS ordering of the reordered dissimilarities (order); the same
   * permutation goes to the event list and to both axes of both matrices.
   */
  method Reorder(famcat: seq<nat>, cind: array2<real>, cfull: array2<real>,
                 argsortDesc: seq<real> -> seq<nat>, optics: Matrix -> seq<nat>)
    returns (famcat': seq<nat>, cind': array2<real>, cfull': array2<real>, ghost p: seq<nat>)
    requires cind.Length0 == cind.Length1 == cfull.Length0 == cfull.Length1 == |famcat|
    requires forall keys :: SortsDescending(keys, argsortDesc(keys))
    requires forall d :: Square(d) ==> IsPermutation(optics(d), |d|)
    ensures fresh(cind') && fresh(cfull')
    ensures IsPermutation(p, |famcat|) && InRange(p, |famcat|)
    ensures famcat' == Gather(famcat, p)
    ensures Square(View(cind)) && View(cind') == Reindex(View(cind), p)
    ensures Square(View(cfull)) && View(cfull') == Reindex(View(cfull), p)
    ensures multiset(famcat') == multiset(famcat)
    ensures cind'.Length0 == cind'.Length1 == cfull'.Length0 == cfull'.Length1 == |famcat|
    ensures Symmetric(View(cind)) ==> Symmetric(View(cind'))
    ensures UnitDiagonal(View(cind)) ==> UnitDiagonal(View(cind'))
    ensures Symmetric(View(cfull)) ==> Symmetric(View(cfull'))
    ensures UnitDiagonal(View(cfull)) ==> UnitDiagonal(View(cfull'))
  {
    var n := |famcat|;
    ghost var c0, f0 := View(cind), View(cfull);
    var snap := Snapshot(cfull);
    var d := Dissimilarity(snap);
    var s := argsortDesc(ColumnSums(d));
    PermutationInRange(s, n);
    d := Reindex(d, s);
    ReindexKeepsShape(d, s);
    var famS, cindS, cfullS := Permute(famcat, cind, cfull, s);
    var order := optics(d);
    PermutationInRange(order, n);
    famcat', cind', cfull' := Permute(famS, cindS, cfullS, order);
    p := Gather(s, order);
    ReorderComposes(famcat, c0, s, order);
    ReorderComposes(famcat, f0, s, order);
  }

  /** The event list and both axes of both matrices taken in the order p. */
  method Permute(famcat: seq<nat>, cind: array2<real>, cfull: array2<real>, p: seq<nat>)
    returns (famcat': seq<nat>, cind': array2<real>, cfull': array2<real>)
    requires cind.Length0 == cind.Length1 == cfull.Length0 == cfull.Length1 == |famcat|
    requires InRange(p, |famcat|)
    ensures fresh(cind') && fresh(cfull')
    ensures famcat' == Gather(famcat, p)
    ensures Square(View(cind)) && View(cind') == Reindex(View(cind), p)
    ensures Square(View(cfull)) && View(cfull') == Reindex(View(cfull), p)
    ensures cind'.Length0 == cind'.Length1 == cfull'.Length0 == cfull'.Length1 == |p|
  {
    famcat' := Gather(famcat, p);
    cind' := Reordered(cind, p);
    cfull' := Reordered(cfull, p);
  }

  /**
   * Two reorderings in a row are one reordering by a permutation, which keeps
   * the events and the shape of the matrix.
   */
  lemma ReorderComposes(fam: seq<nat>, m: Matrix, s: seq<nat>, o: seq<nat>)
    requires Square(m) && |m| == |fam|
    requires IsPermutation(s, |fam|) && IsPermutation(o, |fam|)
    ensures |s| == |o| == |fam| && InRange(s, |fam|) && InRange(o, |fam|)
    ensures IsPermutation(Gather(s, o), |fam|) && InRange(Gather(s, o), |fam|)
    ensures Gather(Gather(fam, s), o) == Gather(fam, Gather(s, o))
    ensures multiset(Gather(fam, Gather(s, o))) == multiset(fam)
    ensures Reindex(Reindex(m, s), o) == Reindex(m, Gather(s, o))
    ensures Symmetric(m) ==> Symmetric(Reindex(m, Gather(s, o)))
    ensures UnitDiagonal(m) ==> UnitDiagonal(Reindex(m, Gather(s, o)))
  {
    var n := |fam|;
    PermutationInRange(s, n);
    PermutationInRange(o, n);
    ComposePermutation(s, o, n);
    var p := Gather(s, o);
    PermutationInRange(p, n);
    ReindexCompose(m, s, o);
    PermutedKeepsElements(fam, p);
    ReindexKeepsShape(m, p);
  }

  /**
   * `catalogind = np.argsort(startTimeMPL[fam])`, then
   * `Cind = C[catalogind, :][:, catalogind]` with the events in the same
   * order (famcat, by start time), then Cfull completed from Cind.
   */
  method TimeOrdered(c: array2<real>, fam: seq<nat>, starts: seq<real>, catalogind: seq<nat>, xcorr: (nat, nat) -> real)
    returns (famcat: seq<nat>, cind: array2<real>, cfull: array2<real>, ghost calls: seq<(nat, nat)>)
    requires c.Length0 == c.Length1 == |fam|
    requires InRange(fam, |starts|) && SortsAscending(Gather(starts, fam), catalogind)
    ensures fresh(cind) && fresh(cfull)
    ensures cind.Length0 == cind.Length1 == cfull.Length0 == cfull.Length1 == |fam|
    ensures |catalogind| == |fam| && InRange(catalogind, |fam|) && Square(View(c))
    ensures famcat == Gather(fam, catalogind) && multiset(famcat) == multiset(fam)
    ensures InRange(famcat, |starts|) && TimeSorted(starts, famcat)
    ensures View(cind) == Reindex(View(c), catalogind)
    ensures View(cfull) == Completed(View(cind), famcat, xcorr)
    ensures calls == MissingPairs(View(cind), |fam|)
    ensures Symmetric(View(c)) && UnitDiagonal(View(c)) ==>
              Symmetric(View(cind)) && UnitDiagonal(View(cind)) &&
              Symmetric(View(cfull)) && UnitDiagonal(View(cfull))
  {
    PermutationInRange(catalogind, |fam|);
    ArgsortOrdersEvents(starts, fam, catalogind);
    famcat := Gather(fam, catalogind);
    PermutedKeepsElements(fam, catalogind);
    cind := Reordered(c, catalogind);
    cfull, calls := Complete(cind, famcat, xcorr);
    ReindexKeepsShape(View(c), catalogind);
    CompletedKeepsStored(View(cind), famcat, xcorr);
  }

  /**
   * The matrices of plotReport: C in family order, Cind in time order, Cfull
   * completed by the comparator and, when ordered, all three reordered for
   * display by one permutation p.  ids is the id column of the repeater
   * table, starts its startTimeMPL column, fam the family's rows in it,
   * catalogind the argsort of the family's start times, xcorr the comparator
   * on two rows.  Returns the event list with both matrices, or None when the
   * correlation table names an id1 outside the family.
   */
  method ReportMatrices(ids: seq<int>, starts: seq<real>, fam: seq<nat>, table: seq<CorrRow>, catalogind: seq<nat>,
                        xcorr: (nat, nat) -> real, ordered: bool,
                        argsortDesc: seq<real> -> seq<nat>, optics: Matrix -> seq<nat>)
    returns (r: Option<(seq<nat>, array2<real>, array2<real>)>, ghost calls: seq<(nat, nat)>, ghost p: seq<nat>)
    requires InRange(fam, |ids|) && InRange(fam, |starts|)
    requires SortsAscending(Gather(starts, fam), catalogind)
    requires forall keys :: SortsDescending(keys, argsortDesc(keys))
    requires forall d :: Square(d) ==> IsPermutation(optics(d), |d|)
    ensures r.None? <==> !Resolvable(Gather(ids, fam), Selected(table, Gather(ids, fam)))
    ensures r.Some? ==>
      var idf := Gather(ids, fam);
      var (famcat, cind, cfull) := r.value;
      && multiset(famcat) == multiset(fam)
      && cind.Length0 == cind.Length1 == cfull.Length0 == cfull.Length1 == |fam|
      && |catalogind| == |fam| && InRange(catalogind, |idf|)
      && calls == MissingPairs(Reindex(StoredMatrix(idf, table), catalogind), |fam|)
      && (DistinctPairs(Selected(table, idf)) ==>
            Symmetric(View(cind)) && UnitDiagonal(View(cind)) &&
            Symmetric(View(cfull)) && UnitDiagonal(View(cfull)))
      && InRange(Gather(fam, catalogind), |starts|) && TimeSorted(starts, Gather(fam, catalogind))
      && (!ordered ==>
            famcat == Gather(fam, catalogind) &&
            View(cind) == Reindex(StoredMatrix(idf, table), catalogind) &&
            View(cfull) == Completed(View(cind), famcat, xcorr))
      && (ordered ==>
            IsPermutation(p, |fam|) && InRange(p, |fam|) &&
            famcat == Gather(Gather(fam, catalogind), p) &&
            View(cind) == Reindex(Reindex(StoredMatrix(idf, table), catalogind), p) &&
            View(cfull) == Reindex(Completed(Reindex(StoredMatrix(idf, table), catalogind),
                                             Gather(fam, catalogind), xcorr), p))
  {
    var idf := Gather(ids, fam);
    var stored := BuildStored(idf, table);
    if stored.None? {
      calls, p := [], [];
      return None, calls, p;
    }
    var c := stored.value;
    if DistinctPairs(Selected(table, idf)) {
      StoredSymmetric(idf, table);
    }
    var famcat, cind, cfull;
    famcat, cind, cfull, calls := TimeOrdered(c, fam, starts, catalogind, xcorr);
    p := [];
    if ordered {
      famcat, cind, cfull, p := Reorder(famcat, cind, cfull, argsortDesc, optics);
    }
    r := Some((famcat, cind, cfull));
  }
}
