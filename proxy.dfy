/** The flattening proxy: a one-level list model over the CTQ item model that
    shows, one after another, the children of every top-level source row. The
    child count of each top-level row is memoised and the memo is dropped on
    every structural change of the source; a flag brackets the removal of
    top-level rows. Change notifications the proxy emits are returned as a list
    of signals. */
module Proxy {
  import opened Tree
  import TreeModel
  import opened FlatRows

  /** The child count of top-level row `r`; for a row that does not exist, the
      number of top-level rows (see `ChildCountIsRowCount`). */
  function ChildCount(t: Node, r: int): nat
  {
    if 0 <= r < |t.children| then |t.children[r].children| else |t.children|
  }

  /** `ChildCount` is what the proxy asks the source for: the row count under
      source index (r, 0). For a row that does not exist that index is invalid
      and stands for the root, so the count is the number of top-level rows. */
  lemma ChildCountIsRowCount(t: Node, r: int)
    ensures ChildCount(t, r) == TreeModel.RowCount(t, TreeModel.Index(t, r, 0, TreeModel.Invalid))
    ensures !(0 <= r < |t.children|) ==> ChildCount(t, r) == |t.children|
  {
  }

  /** The counts of the first `n` top-level rows (none for `n <= 0`). */
  function Seen(t: Node, n: int): (s: seq<nat>)
    ensures |s| == if n > 0 then n else 0
  {
    seq(if n > 0 then n else 0, r requires 0 <= r => ChildCount(t, r))
  }

  /** The child count of every top-level row. */
  function Counts(t: Node): seq<nat>
  {
    Seen(t, |t.children|)
  }

  lemma SeenStep(t: Node, n: nat)
    ensures Sum(Seen(t, n + 1)) == Sum(Seen(t, n)) + ChildCount(t, n)
  {
    assert Seen(t, n + 1) == Seen(t, n) + [ChildCount(t, n)];
    SumConcat(Seen(t, n), [ChildCount(t, n)]);
    assert [ChildCount(t, n)][1..] == [];
  }

  lemma SeenPrefix(t: Node, n: nat)
    requires n <= |t.children|
    ensures Seen(t, n) == Counts(t)[..n]
  {
  }

  /** An index of the flat list: a row and a column, or invalid. */
  datatype ProxyIndex = ProxyInvalid | ProxyValid(row: nat, column: nat)
  {
    function Row(): int { if ProxyInvalid? then -1 else row }
    function Column(): int { if ProxyInvalid? then -1 else column }
  }

  /** The toolkit's index constructor: valid for any non-negative row and column. */
  function CreateIndex(row: int, column: int): (r: ProxyIndex)
    ensures r.ProxyValid? <==> row >= 0 && column >= 0
    ensures r.ProxyValid? ==> r.Row() == row && r.Column() == column
  {
    if row >= 0 && column >= 0 then ProxyValid(row, column) else ProxyInvalid
  }

  /** Notifications the proxy sends to its views. */
  datatype Signal =
    | BeginInsertRows(first: int, last: int)
    | EndInsertRows
    | BeginRemoveRows(first: int, last: int)
    | EndRemoveRows
    | DataChanged(topLeft: ProxyIndex, bottomRight: ProxyIndex)

  /** Where a source index shows in the flat list: its row shifted by the
      counts of the top-level rows before its parent's row, in its own column;
      nowhere for top-level items and the invalid index. */
  function FromSource(t: Node, s: TreeModel.ModelIndex): (r: ProxyIndex)
    requires TreeModel.WellFormed(t, s)
    ensures r.ProxyValid? <==> s.Valid? && |s.item| > 1
    ensures s.Valid? && |s.item| == 2 ==>
              r == ProxyValid(FlatRow(Counts(t), s.item[0], s.row), s.column)
  {
    var p := TreeModel.Parent(t, s);
    if p.Invalid? then ProxyInvalid
    else
      assert s.Valid? && |s.item| == 2 ==> p.item == [s.item[0]] && Seen(t, p.row) == Counts(t)[..p.row];
      CreateIndex(s.row + Sum(Seen(t, p.row)), s.column)
  }

  /** The source index a flat index stands for, as the proxy computes it: the
      top-level row and child row from `Locate`, with both the top-level index
      and the child index taken in the flat index's column. */
  function ToSource(t: Node, p: ProxyIndex): (r: TreeModel.ModelIndex)
    ensures TreeModel.WellFormed(t, r)
  {
    var (root, row) := Locate(Counts(t), p.Row());
    var parent := TreeModel.Index(t, root, p.Column(), TreeModel.Invalid);
    TreeModel.Index(t, row, p.Column(), parent)
  }

  /** As `ToSource`, but with the top-level index taken in column 0, the only
      column under which the source has children. */
  function ToSourceCorrected(t: Node, p: ProxyIndex): (r: TreeModel.ModelIndex)
    ensures TreeModel.WellFormed(t, r)
  {
    var (root, row) := Locate(Counts(t), p.Row());
    var parent := TreeModel.Index(t, root, 0, TreeModel.Invalid);
    TreeModel.Index(t, row, p.Column(), parent)
  }

  /** Every flat row below the total, in column 0, maps to a child of a
      top-level row, and mapping that child back gives the flat index again. */
  lemma ProxyToSourceAndBack(t: Node, f: int)
    requires 0 <= f < Sum(Counts(t))
    ensures var s := ToSource(t, ProxyValid(f, 0));
            s.Valid? && |s.item| == 2 && s.column == 0 && FromSource(t, s) == ProxyValid(f, 0)
  {
    var c := Counts(t);
    LocateRoundTrip(c, f);
    var (root, k) := Locate(c, f);
    var s := ToSource(t, ProxyValid(f, 0));
    assert s.item == [root, k];
  }

  /** Conversely, every child of a top-level row, in column 0, maps to a flat
      row that maps back to it. */
  lemma SourceToProxyAndBack(t: Node, s: TreeModel.ModelIndex)
    requires TreeModel.WellFormed(t, s) && s.Valid? && |s.item| == 2 && s.column == 0
    ensures FromSource(t, s).ProxyValid? && ToSource(t, FromSource(t, s)) == s
  {
    var c := Counts(t);
    var root, k := s.item[0], s.item[1];
    assert ValidPath(t.children[root], s.item[1..]);
    LocateFlatRow(c, root, k);
    assert s.item == [root, k];
  }

  /** As written, every column but 0 maps to the invalid source index: the
      top-level index is taken in that column, and the source reports no
      children outside column 0. */
  lemma ToSourceDropsColumns(t: Node, f: nat, column: nat)
    requires column >= 1
    ensures ToSource(t, ProxyValid(f, column)).Invalid?
  {
  }

  /** The evident intent: every flat row below the total, in any column the
      source has, maps to a child of a top-level row in that column and back. */
  lemma CorrectedRoundTrip(t: Node, f: int, column: nat)
    requires 0 <= f < Sum(Counts(t)) && column < TreeModel.Columns
    ensures var s := ToSourceCorrected(t, ProxyValid(f, column));
            s.Valid? && |s.item| == 2 && s.column == column
            && FromSource(t, s) == ProxyValid(f, column)
  {
    var c := Counts(t);
    LocateRoundTrip(c, f);
    var (root, k) := Locate(c, f);
    var s := ToSourceCorrected(t, ProxyValid(f, column));
    assert s.item == [root, k];
  }

  lemma CorrectedSourceRoundTrip(t: Node, s: TreeModel.ModelIndex)
    requires TreeModel.WellFormed(t, s) && s.Valid? && |s.item| == 2
    ensures FromSource(t, s).ProxyValid? && ToSourceCorrected(t, FromSource(t, s)) == s
  {
    var c := Counts(t);
    var root, k := s.item[0], s.item[1];
    assert ValidPath(t.children[root], s.item[1..]);
    LocateFlatRow(c, root, k);
    assert s.item == [root, k];
  }

  /** Editing a cell of the source changes no child count, so the memoised
      counts stay right across data changes. */
  lemma SetDataKeepsCounts(t: Node, p: Path, column: int, value: string)
    requires ValidPath(t, p)
    ensures forall r :: ChildCount(TreeModel.SetFieldAt(t, p, column, value), r) == ChildCount(t, r)
  {
    var t' := TreeModel.SetFieldAt(t, p, column, value);
    TreeModel.SetFieldAtEffect(t, p, [], column, value);
    forall r | 0 <= r < |t.children|
      ensures |t'.children[r].children| == |t.children[r].children|
    {
      NodeAtChild(t, [], r);
      NodeAtChild(t', [], r);
      TreeModel.SetFieldAtEffect(t, p, [r], column, value);
    }

  }

  /** First flat row and one past the last flat row announced when the
      top-level rows `from..to` are about to go. */
  function RootsRemoval(t: Node, from: int, to: int): (int, int)
  {
    (Sum(Seen(t, from)), Sum(Seen(t, to)) + ChildCount(t, to))
  }

  /** For existing top-level rows the announced range is exactly the flat rows
      of their children, as many as they have together; it is empty exactly
      when none of them has children. */
  lemma RootsRemovalRange(t: Node, from: nat, to: nat)
    requires from <= to < |t.children|
    ensures var c := Counts(t);
            var (f, l) := RootsRemoval(t, from, to);
            f == FlatRow(c, from, 0) && l == FlatRow(c, to, 0) + c[to]
            && l - f == Sum(c[from..to + 1])
            && (f == l <==> forall r :: from <= r <= to ==> c[r] == 0)
            && forall r: nat, k: int :: r < |c| && 0 <= k < c[r] ==>
                 (f <= FlatRow(c, r, k) < l <==> from <= r <= to)
  {
    var c := Counts(t);
    SeenPrefix(t, from);
    SeenPrefix(t, to);
    RootsRange(c, from, to);
    SumZero(c[from..to + 1]);
    assert forall r :: from <= r <= to ==> c[r] == c[from..to + 1][r - from];
  }

  /** Last row announced for rows `from..to` inserted or removed under a
      top-level row whose first affected flat row is `first`, as written. */
  function ChildRangeLast(first: int, from: int, to: int): (last: int)
    ensures last - first + 1 == to - from + 1 <==> from == to
  {
    first + (from - to)
  }

  /** As written, the announced range runs backwards once more than one row
      changes: two rows at 0..1 are announced as `first..first - 1`. */
  lemma ChildRangeReversed(first: int, from: int, to: int)
    ensures from < to ==> ChildRangeLast(first, from, to) < first
    ensures ChildRangeLast(first, 0, 1) == first - 1
  {
  }

  /** The evident intent: the last flat row of the changed children. */
  function ChildRangeLastCorrected(first: int, from: int, to: int): (last: int)
    ensures last - first + 1 == to - from + 1
  {
    first + (to - from)
  }

  /** With the corrected end, the range announced for children `from..to` of
      top-level row `root` is exactly their flat rows, with the counts in which
      they exist: the counts after an insertion, before a removal. Rows of
      earlier top-level rows keep their flat rows. */
  lemma ChildRangeCorrectedExact(c: seq<nat>, root: nat, from: nat, to: nat)
    requires root < |c| && from <= to < c[root]
    ensures var first := FlatRow(c, root, from);
            var last := ChildRangeLastCorrected(first, from, to);
            last - first + 1 == to - from + 1
            && last == FlatRow(c, root, to)
            && forall k :: 0 <= k < c[root] ==>
                 (first <= FlatRow(c, root, k) <= last <==> from <= k <= to)
  {
  }

  /** Changing the count of one top-level row leaves the flat rows of the
      rows before it as they were. */
  lemma CountChangeKeepsEarlierRows(c: seq<nat>, root: nat, n: nat, r: nat, k: int)
    requires root < |c| && r <= root
    ensures FlatRow(c[root := n], r, k) == FlatRow(c, r, k)
  {
    assert c[root := n][..r] == c[..r];
  }

  /** ... and shifts the flat rows of the rows after it by the change. */
  lemma CountChangeShiftsLaterRows(c: seq<nat>, root: nat, n: nat, r: nat, k: int)
    requires root < r <= |c|
    ensures FlatRow(c[root := n], r, k) == FlatRow(c, r, k) - c[root] + n
  {
    var c' := c[root := n];
    PrefixSumMonotone(c, root, r);
    PrefixSumMonotone(c', root, r);
    PrefixSumMonotone(c, root + 1, r);
    PrefixSumMonotone(c', root + 1, r);
    PrefixSumMonotone(c, root, root + 1);
    PrefixSumMonotone(c', root, root + 1);
    assert c'[..root] == c[..root];
    assert c'[root + 1..r] == c[root + 1..r];
    assert c[root..root + 1] == [c[root]] && c'[root..root + 1] == [n];
  }

  class CtqProxyModel {
    /** Stored by the constructor and never read: every proxy flattens the
        children of the top-level rows. */
    const offset: int
    var source: TreeModel.CtqModel?
    /** Memoised child counts of top-level rows. */
    var cache: map<int, nat>
    var aboutToRemoveRoots: bool

    /** The memo agrees with the source. */
    predicate Valid()
      reads this, source
    {
      source != null ==> forall r :: r in cache ==> cache[r] == ChildCount(source.root, r)
    }

    /** A proxy without a source, with an empty memo and the removal flag down. */
    constructor (offset: int)
      ensures this.offset == offset && source == null && cache == map[] && !aboutToRemoveRoots
      ensures Valid()
    {
      this.offset := offset;
      source := null;
      cache := map[];
      aboutToRemoveRoots := false;
    }

    /** Replace the source; the memo is kept. */
    method SetSourceModel(m: TreeModel.CtqModel?)
      modifies this`source
      ensures source == m
    {
      source := m;
    }

    /** The child count of top-level row `row` (0 without a source), from the
        memo, which is filled on first use. */
    method SourceRootToCount(row: int) returns (n: nat)
      requires Valid()
      modifies this`cache
      ensures Valid()
      ensures source == null ==> n == 0 && cache == old(cache)
      ensures source != null ==> n == ChildCount(source.root, row) && cache == old(cache)[row := n]
    {
      if source == null {
        return 0;
      }
      if row !in cache {
        ChildCountIsRowCount(source.root, row);
        var count := TreeModel.RowCount(source.root, TreeModel.Index(source.root, row, 0, TreeModel.Invalid));
        cache := cache[row := count];
      }
      n := cache[row];
    }

    /** The flat row of child `row` of top-level row `root`. */
    method RowFrom(root: int, row: int) returns (r: int)
      requires Valid()
      modifies this`cache
      ensures Valid()
      ensures source == null ==> r == row
      ensures source != null ==> r == row + Sum(Seen(source.root, root))
    {
      r := row;
      var i := 0;
      while i < root
        invariant 0 <= i && (i <= root || i == 0)
        invariant Valid()
        invariant source == null ==> r == row
        invariant source != null ==> r == row + Sum(Seen(source.root, i))
      {
        var count := SourceRootToCount(i);
        if source != null {
          SeenStep(source.root, i);
        }
        r := r + count;
        i := i + 1;
      }
    }

    /** The top-level row and child row behind flat row `row`. */
    method RowToSource(row: int) returns (root: int, k: int)
      requires Valid() && source != null
      modifies this`cache
      ensures Valid()
      ensures (root, k) == Locate(Counts(source.root), row)
    {
      ghost var c := Counts(source.root);
      ghost var goal := Locate(c, row);
      root, k := 0, row;
      var n := TreeModel.RowCount(source.root, TreeModel.Invalid);
      var r := 0;
      while r < n
        invariant 0 <= r <= n == |c|
        invariant r == 0 ==> root == 0 && k == row
        invariant r < n ==> LocateFrom(c, r, k) == goal
        invariant r == n && n > 0 ==> (root, k) == goal
        invariant Valid()
      {
        root := r;
        var rowsInRoot := SourceRootToCount(r);
        assert rowsInRoot == c[r];
        LocateFromStep(c, r, k);
        if k >= rowsInRoot {
          k := k - rowsInRoot;
        } else {
          break;
        }
        r := r + 1;
      }
    }

    /** Rows of the flat list: the total of the top-level rows' child counts;
        none under a valid parent or without a source. */
    method RowCount(p: ProxyIndex) returns (count: int)
      requires Valid()
      modifies this`cache
      ensures Valid()
      ensures count == if p.ProxyValid? || source == null then 0 else Sum(Counts(source.root))
    {
      if p.ProxyValid? || source == null {
        return 0;
      }
      count := 0;
      var rootRow := 0;
      while rootRow < TreeModel.RowCount(source.root, TreeModel.Invalid)
        invariant 0 <= rootRow <= |source.root.children|
        invariant Valid()
        invariant count == Sum(Seen(source.root, rootRow))
      {
        var n := SourceRootToCount(rootRow);
        SeenStep(source.root, rootRow);
        count := count + n;
        rootRow := rootRow + 1;
      }
    }

    /** The source's columns; none under a valid parent or without a source. */
    method ColumnCount(p: ProxyIndex) returns (n: int)
      ensures n == if p.ProxyValid? || source == null then 0 else TreeModel.Columns
    {
      if p.ProxyValid? || source == null {
        return 0;
      }
      n := TreeModel.ColumnCount(source.root, TreeModel.Invalid);
    }

    /** The flat list has no hierarchy: every index is at the top. */
    function Parent(child: ProxyIndex): (r: ProxyIndex)
      ensures r.ProxyInvalid?
    {
      ProxyInvalid
    }

    /** Any non-negative row and column is an index, whatever the parent. */
    function Index(row: int, column: int, parent: ProxyIndex): (r: ProxyIndex)
      ensures r.ProxyValid? <==> row >= 0 && column >= 0
      ensures r.ProxyValid? ==> r.row == row && r.column == column
    {
      CreateIndex(row, column)
    }

    /** The flat index of a source index (see `FromSource`). */
    method MapFromSource(s: TreeModel.ModelIndex) returns (r: ProxyIndex)
      requires Valid() && (source != null ==> TreeModel.WellFormed(source.root, s))
      modifies this`cache
      ensures Valid()
      ensures r == if source == null then ProxyInvalid else FromSource(source.root, s)
    {
      if source == null {
        return ProxyInvalid;
      }
      var p := TreeModel.Parent(source.root, s);
      if !p.Valid? {
        return ProxyInvalid;
      }
      var row := RowFrom(p.row, s.row);
      r := Index(row, s.column, ProxyInvalid);
    }

    /** The source index of a flat index, with the top-level index taken in
        the flat index's column (see `ToSource`). */
    method MapToSource(p: ProxyIndex) returns (s: TreeModel.ModelIndex)
      requires Valid()
      modifies this`cache
      ensures Valid()
      ensures s == if source == null then TreeModel.Invalid else ToSource(source.root, p)
    {
      if source == null {
        return TreeModel.Invalid;
      }
      var root, row := RowToSource(p.Row());
      var parent := TreeModel.Index(source.root, root, p.Column(), TreeModel.Invalid);
      s := TreeModel.Index(source.root, row, p.Column(), parent);
    }

    // The slots below run only while a source is set (they are connected to
    // it). Those called after the source changed do not rely on the memo.

    /** Rows `from..to` are about to be inserted under `p`: under a top-level
        row, announce the flat rows of the new children (ending as
        `ChildRangeLast` computes); nothing for new top-level rows. */
    method SourceRowsAboutToBeInserted(p: TreeModel.ModelIndex, from: int, to: int)
      returns (signals: seq<Signal>)
      requires Valid() && source != null
      modifies this`cache
      ensures Valid()
      ensures !p.Valid? ==> signals == []
      ensures p.Valid? ==> var first := from + Sum(Seen(source.root, p.row));
                           signals == [BeginInsertRows(first, ChildRangeLast(first, from, to))]
    {
      if !p.Valid? {
        return [];
      }
      var f := RowFrom(p.row, from);
      var t := f + (from - to);
      signals := [BeginInsertRows(f, t)];
    }

    /** Rows were inserted: the memo is dropped, and an insertion under a
        top-level row is closed. */
    method SourceRowsInserted(p: TreeModel.ModelIndex) returns (signals: seq<Signal>)
      modifies this`cache
      ensures cache == map[] && Valid()
      ensures signals == if p.Valid? then [EndInsertRows] else []
    {
      cache := map[];
      if !p.Valid? {
        return [];
      }
      signals := [EndInsertRows];
    }

    /** Rows `from..to` are about to be removed under `p`. For top-level rows,
        announce the flat rows of their children (see `RootsRemoval`) and raise
        the flag, but only when that range is not empty. Under a top-level row,
        announce as for an insertion. */
    method SourceRowsAboutToBeRemoved(p: TreeModel.ModelIndex, from: int, to: int)
      returns (signals: seq<Signal>)
      requires Valid() && source != null
      modifies this`cache, this`aboutToRemoveRoots
      ensures Valid()
      ensures !p.Valid? ==> var (f, l) := RootsRemoval(source.root, from, to);
                            signals == (if f != l then [BeginRemoveRows(f, l - 1)] else [])
                            && aboutToRemoveRoots == (old(aboutToRemoveRoots) || f != l)
      ensures p.Valid? ==> var first := from + Sum(Seen(source.root, p.row));
                           signals == [BeginRemoveRows(first, ChildRangeLast(first, from, to))]
                           && aboutToRemoveRoots == old(aboutToRemoveRoots)
    {
      if !p.Valid? {
        var f := RowFrom(from, 0);
        var t0 := RowFrom(to, 0);
        var n := SourceRootToCount(to);
        var t := t0 + n;
        signals := [];
        if f != t {
          signals := [BeginRemoveRows(f, t - 1)];
          aboutToRemoveRoots := true;
        }
        return;
      }
      var f := RowFrom(p.row, from);
      var t := f + (from - to);
      signals := [BeginRemoveRows(f, t)];
    }

    /** Rows were removed: the memo is dropped. A removal of top-level rows is
        closed only if one was announced, and the flag is lowered; a removal
        under a top-level row is always closed. */
    method SourceRowsRemoved(p: TreeModel.ModelIndex) returns (signals: seq<Signal>)
      modifies this`cache, this`aboutToRemoveRoots
      ensures cache == map[] && Valid()
      ensures !p.Valid? ==> signals == (if old(aboutToRemoveRoots) then [EndRemoveRows] else [])
                            && !aboutToRemoveRoots
      ensures p.Valid? ==> signals == [EndRemoveRows] && aboutToRemoveRoots == old(aboutToRemoveRoots)
    {
      cache := map[];
      signals := [];
      if !p.Valid? {
        if aboutToRemoveRoots {
          aboutToRemoveRoots := false;
          signals := [EndRemoveRows];
        }
        return;
      }
      signals := [EndRemoveRows];
    }

    /** Data changed in the source cells `topLeft..bottomRight`: forward the
        change with both corners mapped to the flat list. */
    method SourceDataChanged(topLeft: TreeModel.ModelIndex, bottomRight: TreeModel.ModelIndex)
      returns (signals: seq<Signal>)
      requires Valid() && source != null
      requires TreeModel.WellFormed(source.root, topLeft) && TreeModel.WellFormed(source.root, bottomRight)
      modifies this`cache
      ensures Valid()
      ensures signals == [DataChanged(FromSource(source.root, topLeft), FromSource(source.root, bottomRight))]
    {
      var tl := MapFromSource(topLeft);
      var br := MapFromSource(bottomRight);
      signals := [DataChanged(tl, br)];
    }

    /** The source was reset: the memo is dropped. */
    method SourceModelReset()
      modifies this`cache
      ensures cache == map[] && Valid()
    {
      cache := map[];
    }
  }
}
