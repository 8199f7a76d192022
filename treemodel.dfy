/** The CTQ item model: a tree of items under a synthetic header root, read and
    edited through positional indices, and built from an indented text where
    each line is one item. */
module TreeModel {
  import opened Strings
  import opened Tree

  /** Columns of every item: its text and its note. */
  const Columns: nat := 2

  /** A model index: invalid, or a row and column together with the item it
      points at (here the item's path from the root). The invalid index reports
      row and column -1. */
  datatype ModelIndex = Invalid | Valid(row: int, column: int, item: Path)
  {
    function Row(): int { if Invalid? then -1 else row }
    function Column(): int { if Invalid? then -1 else column }
  }

  /** An index this model can have handed out for tree `t`: its item exists, its
      row is the item's position under its parent, and its column is in range. */
  predicate WellFormed(t: Node, i: ModelIndex)
  {
    i.Invalid?
    || (i.item != [] && ValidPath(t, i.item) && i.row == i.item[|i.item| - 1] && 0 <= i.column < Columns)
  }

  /** Path of the item an index refers to, the root for the invalid index. */
  function ItemPath(i: ModelIndex): Path
  {
    if i.Invalid? then [] else i.item
  }

  /** The item behind an index; the invalid index stands for the root. */
  function GetItem(t: Node, i: ModelIndex): (r: Node)
    requires WellFormed(t, i)
    ensures r == NodeAt(t, ItemPath(i))
    ensures i.Invalid? ==> r == t
    ensures i.Valid? ==> var up := i.item[..|i.item| - 1];
                         ValidPath(t, up) && 0 <= i.row < |NodeAt(t, up).children|
                         && r == NodeAt(t, up).children[i.row]
  {
    if i.Invalid? then t
    else
      var up := i.item[..|i.item| - 1];
      assert i.item == up + [i.row];
      ValidPathPrefix(t, i.item, |up|);
      NodeAtChild(t, up, i.row);
      NodeAt(t, i.item)
  }

  /** Number of children under `parent`; none for an index outside column 0. */
  function RowCount(t: Node, parent: ModelIndex): (n: int)
    requires WellFormed(t, parent)
    ensures parent.Column() > 0 ==> n == 0
    ensures parent.Column() <= 0 ==> n == |NodeAt(t, ItemPath(parent)).children|
  {
    if parent.Column() > 0 then 0 else |GetItem(t, parent).children|
  }

  function ColumnCount(t: Node, parent: ModelIndex): nat
  {
    Columns
  }

  /** The toolkit's test that (row, column) exists under `parent`. */
  predicate HasIndex(t: Node, row: int, column: int, parent: ModelIndex)
    requires WellFormed(t, parent)
  {
    0 <= row < RowCount(t, parent) && 0 <= column < ColumnCount(t, parent)
  }

  /** The index of child `row` in `column` under `parent`, or the invalid index
      when there is no such cell. */
  function Index(t: Node, row: int, column: int, parent: ModelIndex): (r: ModelIndex)
    requires WellFormed(t, parent)
    ensures WellFormed(t, r)
    ensures r.Valid? <==> parent.Column() <= 0 && 0 <= row < |GetItem(t, parent).children|
                          && 0 <= column < Columns
    ensures r.Valid? ==> r.row == row && r.column == column
                         && GetItem(t, r) == GetItem(t, parent).children[row]
  {
    if !HasIndex(t, row, column, parent) then Invalid
    else
      var up := ItemPath(parent);
      NodeAtChild(t, up, row);
      assert (up + [row])[..|up + [row]| - 1] == up;
      Valid(row, column, up + [row])
  }

  /** The index of the parent item, in column 0; invalid for top-level items. */
  function Parent(t: Node, i: ModelIndex): (r: ModelIndex)
    requires WellFormed(t, i)
    ensures WellFormed(t, r)
    ensures i.Invalid? || |i.item| == 1 ==> r.Invalid?
    ensures i.Valid? && |i.item| > 1 ==> r.Valid? && r.column == 0
                                         && 0 <= i.row < |GetItem(t, r).children|
                                         && GetItem(t, r).children[i.row] == GetItem(t, i)
  {
    if i.Invalid? || |i.item| == 1 then Invalid
    else
      var up := i.item[..|i.item| - 1];
      ValidPathPrefix(t, i.item, |up|);
      assert up[..|up| - 1] == i.item[..|up| - 1];
      assert i.item == up + [i.row];
      NodeAtChild(t, up, i.row);
      Valid(up[|up| - 1], 0, up)
  }

  /** `Parent` undoes `Index`: the parent of a child index is the index it was
      taken under. */
  lemma ParentOfIndex(t: Node, row: int, column: int, parent: ModelIndex)
    requires WellFormed(t, parent)
    requires Index(t, row, column, parent).Valid?
    ensures Parent(t, Index(t, row, column, parent)) == parent
  {
    var c := Index(t, row, column, parent);
    var up := ItemPath(parent);
    assert c.item == up + [row];
    assert c.item[..|c.item| - 1] == up;
  }

  /** `Index` undoes `Parent`: asking the parent for the same row and column
      gives back the index. */
  lemma IndexOfParent(t: Node, i: ModelIndex)
    requires WellFormed(t, i) && i.Valid?
    ensures Index(t, i.row, i.column, Parent(t, i)) == i
  {
    var p := Parent(t, i);
    var up := i.item[..|i.item| - 1];
    assert i.item == up + [i.row];
    if |i.item| > 1 {
      assert ItemPath(p) == up;
    }
  }

  /** The item with column `column` set to `value`: column 0 is the text,
      column 1 the note; other columns hold nothing. */
  function SetField(n: Node, column: int, value: string): Node
  {
    if column == 0 then n.(text := value)
    else if column == 1 then n.(note := value)
    else n
  }

  /** `t` with `SetField` applied to the item at `p`. */
  function SetFieldAt(t: Node, p: Path, column: int, value: string): Node
    requires ValidPath(t, p)
    decreases p
  {
    if p == [] then SetField(t, column, value)
    else t.(children := t.children[p[0] := SetFieldAt(t.children[p[0]], p[1..], column, value)])
  }

  /** Editing one cell changes that item's field and nothing else: every path
      still leads to an item with as many children, and every other item keeps
      its text and note. */
  lemma {:induction false} SetFieldAtEffect(t: Node, p: Path, q: Path, column: int, value: string)
    requires ValidPath(t, p) && ValidPath(t, q)
    ensures var t' := SetFieldAt(t, p, column, value);
            ValidPath(t', q)
            && |NodeAt(t', q).children| == |NodeAt(t, q).children|
            && (q == p ==> NodeAt(t', q).text == SetField(NodeAt(t, q), column, value).text
                           && NodeAt(t', q).note == SetField(NodeAt(t, q), column, value).note)
            && (q != p ==> NodeAt(t', q).text == NodeAt(t, q).text
                           && NodeAt(t', q).note == NodeAt(t, q).note)
    decreases q
  {
    var t' := SetFieldAt(t, p, column, value);
    if q == [] {
    } else if p == [] {
      assert t'.children == t.children;
    } else if p[0] == q[0] {
      SetFieldAtEffect(t.children[p[0]], p[1..], q[1..], column, value);
      assert p == [p[0]] + p[1..] && q == [q[0]] + q[1..];
    } else {
      assert t'.children[q[0]] == t.children[q[0]];
    }
  }

  // ---------------------------------------------------------------------------
  // The import format: one item per line, indented with spaces, fields
  // separated by tabs.

  /** Number of leading ' ' characters (a tab ends the count). */
  function Indentation(line: string): (n: nat)
    ensures n <= |line|
    ensures forall i :: 0 <= i < n ==> line[i] == ' '
    ensures n == |line| || line[n] != ' '
  {
    if line == [] || line[0] != ' ' then 0 else 1 + Indentation(line[1..])
  }

  /** What follows the indentation, without surrounding white space. */
  function Body(line: string): string
  {
    Trimmed(line[Indentation(line)..])
  }

  /** The non-empty tab-separated fields of the body. */
  function Fields(line: string): seq<string>
  {
    SplitSkipEmpty(Body(line), '\t')
  }

  /** A line the import can read: blank, or with at least a text and a note field. */
  predicate Importable(line: string)
  {
    Body(line) != [] ==> |Fields(line)| >= 2
  }

  predicate AllImportable(lines: seq<string>)
  {
    forall i :: 0 <= i < |lines| ==> Importable(lines[i])
  }

  /** A stack of indentations as the import keeps it: the root's 0 at the
      bottom and strictly increasing upwards. */
  predicate StackOk(ind: seq<nat>)
  {
    |ind| >= 1 && ind[0] == 0 && forall i, j :: 0 <= i < j < |ind| ==> ind[i] < ind[j]
  }

  /** Pop while `pos` is less than the top. */
  function PopWhile(ind: seq<nat>, pos: nat): (r: seq<nat>)
    requires StackOk(ind)
    ensures StackOk(r) && |r| <= |ind| && r == ind[..|r|]
    ensures pos >= ind[|ind| - 1] ==> r == ind
    ensures pos >= r[|r| - 1]
    ensures forall i :: |r| <= i < |ind| ==> pos < ind[i]
  {
    if |ind| > 0 && pos < ind[|ind| - 1] then
      var r := PopWhile(ind[..|ind| - 1], pos);
      assert ind[..|ind| - 1][..|r|] == ind[..|r|];
      r
    else ind
  }

  /** The stack after reading a non-blank line indented by `pos`, when the last
      item read sits at depth `last` (0 for none): deeper than the top pushes
      `pos`, but only if the current parent already has a child (the last item
      is below it); otherwise pop back to an indentation not above `pos`. */
  function NextStack(ind: seq<nat>, last: nat, pos: nat): (r: seq<nat>)
    requires StackOk(ind)
    ensures StackOk(r)
  {
    if pos > ind[|ind| - 1] then
      (if last >= |ind| then ind + [pos] else ind)
    else PopWhile(ind, pos)
  }

  /** The items an import creates, in order, each with its depth, reading
      `lines` from the indentation stack `ind` when the last item read is at
      depth `last`. The new item is a child of the item the stack top stands
      for, so it sits at depth |stack|. */
  function Scan(lines: seq<string>, ind: seq<nat>, last: nat): seq<Entry>
    requires StackOk(ind) && AllImportable(lines)
    decreases |lines|
  {
    if lines == [] then []
    else if Body(lines[0]) == [] then Scan(lines[1..], ind, last)
    else
      assert Importable(lines[0]);
      var ind' := NextStack(ind, last, Indentation(lines[0]));
      var f := Fields(lines[0]);
      [Entry(f[0], f[1], |ind'|)] + Scan(lines[1..], ind', |ind'|)
  }

  /** The text and note of every non-blank line, in order. */
  function Records(lines: seq<string>): seq<(string, string)>
    requires AllImportable(lines)
  {
    if lines == [] then []
    else if Body(lines[0]) == [] then Records(lines[1..])
    else
      assert Importable(lines[0]);
      [(Fields(lines[0])[0], Fields(lines[0])[1])] + Records(lines[1..])
  }

  function TextsAndNotes(es: seq<Entry>): (r: seq<(string, string)>)
    ensures |r| == |es|
  {
    seq(|es|, i requires 0 <= i < |es| => (es[i].text, es[i].note))
  }

  lemma TextsAndNotesCons(e: Entry, es: seq<Entry>)
    ensures TextsAndNotes([e] + es) == [(e.text, e.note)] + TextsAndNotes(es)
  {
    var a, b := TextsAndNotes([e] + es), [(e.text, e.note)] + TextsAndNotes(es);
    assert forall i :: 1 <= i < |a| ==> ([e] + es)[i] == es[i - 1];
    assert forall i :: 0 <= i < |a| ==> a[i] == b[i];
  }

  /** Blank lines are skipped and every other line makes exactly one item,
      carrying that line's first field as text and second as note, in line order. */
  lemma {:induction false} ScanRecords(lines: seq<string>, ind: seq<nat>, last: nat)
    requires StackOk(ind) && AllImportable(lines)
    ensures TextsAndNotes(Scan(lines, ind, last)) == Records(lines)
    decreases |lines|
  {
    if lines != [] {
      ScanStep(lines, 0, ind, last);
      assert lines[0..] == lines;
      if Body(lines[0]) == [] {
        ScanRecords(lines[1..], ind, last);
      } else {
        var ind' := NextStack(ind, last, Indentation(lines[0]));
        var e := Entry(Fields(lines[0])[0], Fields(lines[0])[1], |ind'|);
        ScanRecords(lines[1..], ind', |ind'|);
        TextsAndNotesCons(e, Scan(lines[1..], ind', |ind'|));
      }
    }
  }

  /** One step of `Scan`: how the listing from line `n` on relates to the
      listing from line `n + 1` on. */
  lemma ScanStep(lines: seq<string>, n: nat, ind: seq<nat>, last: nat)
    requires StackOk(ind) && AllImportable(lines) && n < |lines|
    ensures AllImportable(lines[n..]) && AllImportable(lines[n + 1..])
    ensures Body(lines[n]) == [] ==> Scan(lines[n..], ind, last) == Scan(lines[n + 1..], ind, last)
    ensures Body(lines[n]) != [] ==>
              |Fields(lines[n])| >= 2
              && var ind' := NextStack(ind, last, Indentation(lines[n]));
                 Scan(lines[n..], ind, last)
                 == [Entry(Fields(lines[n])[0], Fields(lines[n])[1], |ind'|)]
                    + Scan(lines[n + 1..], ind', |ind'|)
  {
    assert Importable(lines[n]);
    assert forall i :: 0 <= i < |lines[n..]| ==> lines[n..][i] == lines[n + i];
    assert lines[n..][0] == lines[n] && lines[n..][1..] == lines[n + 1..];
  }

  /** `ScanStep` for a non-blank line put in front of other lines. */
  lemma ScanCons(line: string, rest: seq<string>, ind: seq<nat>, last: nat)
    requires StackOk(ind) && Body(line) != [] && |Fields(line)| >= 2 && AllImportable(rest)
    ensures AllImportable([line] + rest)
    ensures var ind' := NextStack(ind, last, Indentation(line));
            Scan([line] + rest, ind, last)
            == [Entry(Fields(line)[0], Fields(line)[1], |ind'|)] + Scan(rest, ind', |ind'|)
  {
    var lines := [line] + rest;
    assert lines[0] == line && lines[1..] == rest;
    forall i | 0 <= i < |lines| ensures Importable(lines[i]) {
      if i > 0 {
        assert lines[i] == rest[i - 1];
      }
    }
  }

  /** The stack after a line is never empty and grows by at most one. */
  lemma NextStackSize(ind: seq<nat>, last: nat, pos: nat)
    requires StackOk(ind) && |ind| <= last + 1
    ensures 1 <= |NextStack(ind, last, pos)| <= last + 1
  {
  }

  /** Every item is at depth 1 or more, and at most one level deeper than the
      item before it (than `last` for the first). */
  lemma {:induction false} ScanDepths(lines: seq<string>, ind: seq<nat>, last: nat)
    requires StackOk(ind) && AllImportable(lines) && |ind| <= last + 1
    ensures var es := Scan(lines, ind, last);
            |es| > 0 ==> 1 <= es[0].depth <= last + 1
    ensures var es := Scan(lines, ind, last);
            forall i :: 1 <= i < |es| ==> 1 <= es[i].depth <= es[i - 1].depth + 1
    decreases |lines|
  {
    if lines != [] {
      ScanStep(lines, 0, ind, last);
      assert lines[0..] == lines;
      if Body(lines[0]) == [] {
        ScanDepths(lines[1..], ind, last);
      } else {
        var ind' := NextStack(ind, last, Indentation(lines[0]));
        NextStackSize(ind, last, Indentation(lines[0]));
        ScanDepths(lines[1..], ind', |ind'|);
        var es := Scan(lines, ind, last);
        var rest := Scan(lines[1..], ind', |ind'|);
        assert es[0].depth == |ind'|;
        assert forall i :: 1 <= i < |es| ==> es[i] == rest[i - 1];
      }
    }
  }

  function Repeat(c: char, n: nat): (r: string)
    ensures |r| == n && forall i :: 0 <= i < n ==> r[i] == c
  {
    seq(n, _ => c)
  }

  /** Text with no white space in it. */
  predicate Solid(s: string)
  {
    s != [] && forall i :: 0 <= i < |s| ==> !IsSpace(s[i])
  }

  /** The line of `n` spaces, `m` tabs, the text, a tab and the note. */
  function Line(n: nat, m: nat, text: string, note: string): string
  {
    Repeat(' ', n) + Repeat('\t', m) + text + "\t" + note
  }

  lemma IndentationOf(n: nat, rest: string)
    requires rest != [] && rest[0] != ' '
    ensures Indentation(Repeat(' ', n) + rest) == n
    ensures (Repeat(' ', n) + rest)[n..] == rest
  {
    var line := Repeat(' ', n) + rest;
    assert line[n] == rest[0];
    assert line[n..] == rest;
  }

  lemma TrimLeadingTabs(m: nat, b: string)
    requires b != [] && !IsSpace(b[0]) && !IsSpace(b[|b| - 1])
    ensures Trimmed(Repeat('\t', m) + b) == b
  {
    var rest := Repeat('\t', m) + b;
    assert rest[m..] == b;
    assert rest[m] == b[0];
    assert forall i :: 0 <= i < m ==> IsSpace(rest[i]);
    assert LeadingSpace(rest) == m;
    assert TrailingSpace(b) == 0;
    assert b[..|b| - 0] == b;
  }

  lemma SplitFields(text: string, note: string)
    requires Solid(text) && Solid(note)
    ensures SplitSkipEmpty(text + "\t" + note, '\t') == [text, note]
  {
    var b := text + "\t" + note;
    assert forall i :: 0 <= i < |text| ==> b[i] == text[i] && text[i] != '\t';
    assert b[|text|] == '\t';
    assert IndexOf(b, '\t') == |text|;
    assert b[..|text|] == text && b[|text| + 1..] == note;
    assert '\t' !in note by {
      assert forall i :: 0 <= i < |note| ==> note[i] != '\t';
    }
    assert Split(b, '\t') == [text, note];
    assert [text, note][1..] == [note];
    assert [note][1..] == [];
    assert NonEmpty([note]) == [note];
    assert NonEmpty([text, note]) == [text, note];
  }

  /** Such a line is read back as indentation `n` with exactly that text and
      note: only the spaces count, and the tabs after them are trimmed away. */
  lemma LineFields(n: nat, m: nat, text: string, note: string)
    requires Solid(text) && Solid(note)
    ensures Indentation(Line(n, m, text, note)) == n
    ensures Body(Line(n, m, text, note)) == text + "\t" + note
    ensures Fields(Line(n, m, text, note)) == [text, note]
  {
    var b := text + "\t" + note;
    var rest := Repeat('\t', m) + b;
    assert Line(n, m, text, note) == Repeat(' ', n) + rest;
    assert b[0] == text[0] && b[|b| - 1] == note[|note| - 1];
    assert rest[0] != ' ' by {
      if m > 0 { assert rest[0] == '\t'; } else { assert rest[0] == text[0]; }
    }
    IndentationOf(n, rest);
    TrimLeadingTabs(m, b);
    SplitFields(text, note);
  }

  /** The stack moves of the two examples below. */
  lemma StackSteps()
    ensures NextStack([0], 0, 0) == [0] && NextStack([0], 1, 0) == [0]
    ensures NextStack([0], 1, 2) == [0, 2] && NextStack([0, 2], 2, 4) == [0, 2, 4]
  {
    assert StackOk([0]);
    assert PopWhile([0], 0) == [0];
  }

  /** Three non-blank lines from an empty model: each is read with the stack
      the one before it left. */
  lemma ScanThree(a: string, b: string, c: string)
    requires Body(a) != [] && Body(b) != [] && Body(c) != []
    requires |Fields(a)| >= 2 && |Fields(b)| >= 2 && |Fields(c)| >= 2
    ensures AllImportable([a, b, c])
    ensures var s1 := NextStack([0], 0, Indentation(a));
            var s2 := NextStack(s1, |s1|, Indentation(b));
            var s3 := NextStack(s2, |s2|, Indentation(c));
            Scan([a, b, c], [0], 0)
            == [Entry(Fields(a)[0], Fields(a)[1], |s1|), Entry(Fields(b)[0], Fields(b)[1], |s2|),
                Entry(Fields(c)[0], Fields(c)[1], |s3|)]
  {
    var s1 := NextStack([0], 0, Indentation(a));
    var s2 := NextStack(s1, |s1|, Indentation(b));
    var s3 := NextStack(s2, |s2|, Indentation(c));
    var ea := Entry(Fields(a)[0], Fields(a)[1], |s1|);
    var eb := Entry(Fields(b)[0], Fields(b)[1], |s2|);
    var ec := Entry(Fields(c)[0], Fields(c)[1], |s3|);
    Displays(a, b, c);
    Displays(ea, eb, ec);
    ScanCons(c, [], s2, |s2|);
    ScanCons(b, [c], s1, |s1|);
    ScanCons(a, [b, c], [0], 0);
  }

  lemma Displays<T>(x: T, y: T, z: T)
    ensures [z] + [] == [z] && [y] + [z] == [y, z] && [x] + [y, z] == [x, y, z]
  {
  }

  /** Indenting by spaces nests: a need, a driver two spaces in under it and a
      CTQ four spaces in under that. */
  lemma ImportNestsBySpaces(need: string, n: string, driver: string, d: string,
                            ctq: string, c: string)
    requires Solid(need) && Solid(n) && Solid(driver) && Solid(d) && Solid(ctq) && Solid(c)
    ensures var lines := [Line(0, 0, need, n), Line(2, 0, driver, d), Line(4, 0, ctq, c)];
            AllImportable(lines)
            && Scan(lines, [0], 0) == [Entry(need, n, 1), Entry(driver, d, 2), Entry(ctq, c, 3)]
  {
    LineFields(0, 0, need, n);
    LineFields(2, 0, driver, d);
    LineFields(4, 0, ctq, c);
    StackSteps();
    ScanThree(Line(0, 0, need, n), Line(2, 0, driver, d), Line(4, 0, ctq, c));
  }

  /** Indenting by tabs does not nest: with any number of leading tabs, every
      line is read at depth 1. */
  lemma ImportIgnoresTabIndentation(need: string, n: string, driver: string, d: string,
                                    ctq: string, c: string, t1: nat, t2: nat)
    requires Solid(need) && Solid(n) && Solid(driver) && Solid(d) && Solid(ctq) && Solid(c)
    ensures var lines := [Line(0, 0, need, n), Line(0, t1, driver, d), Line(0, t2, ctq, c)];
            AllImportable(lines)
            && Scan(lines, [0], 0) == [Entry(need, n, 1), Entry(driver, d, 1), Entry(ctq, c, 1)]
  {
    LineFields(0, 0, need, n);
    LineFields(0, t1, driver, d);
    LineFields(0, t2, ctq, c);
    StackSteps();
    ScanThree(Line(0, 0, need, n), Line(0, t1, driver, d), Line(0, t2, ctq, c));
  }

  /** The paths from the root down to `p`: the root's, then each item's on the way. */
  function Prefixes(p: Path): (r: seq<Path>)
    ensures |r| == |p| + 1
    ensures forall i :: 0 <= i < |r| ==> r[i] == p[..i]
  {
    seq(|p| + 1, i requires 0 <= i <= |p| => p[..i])
  }

  lemma PrefixesPush(p: Path, k: nat)
    ensures Prefixes(p + [k]) == Prefixes(p) + [p + [k]]
  {
    assert forall i :: 0 <= i <= |p| ==> (p + [k])[..i] == p[..i];
    assert (p + [k])[..|p| + 1] == p + [k];
    var a, b := Prefixes(p + [k]), Prefixes(p) + [p + [k]];
    assert forall i :: 0 <= i < |a| ==> a[i] == b[i];
  }

  lemma PrefixesPop(p: Path)
    requires p != []
    ensures Prefixes(p)[..|p|] == Prefixes(p[..|p| - 1])
  {
    assert forall i :: 0 <= i < |p| ==> p[..|p| - 1][..i] == p[..i];
  }

  /** What the import keeps of its two stacks: the parents are the items on the
      way down the right-most branch of `t` to the current parent, each paired
      with the indentation that opened it. */
  predicate Stacks(t: Node, parents: seq<Path>, ind: seq<nat>)
  {
    |parents| == |ind| && StackOk(ind)
    && parents == Prefixes(parents[|parents| - 1])
    && OnSpine(t, parents[|parents| - 1])
  }

  /** Pushing the current parent's last child, with a deeper indentation,
      keeps the stacks on the right-most branch. */
  lemma StacksPush(t: Node, parents: seq<Path>, ind: seq<nat>, position: nat)
    requires Stacks(t, parents, ind) && position > ind[|ind| - 1]
    requires ValidPath(t, parents[|parents| - 1]) && |NodeAt(t, parents[|parents| - 1]).children| > 0
    ensures var top := parents[|parents| - 1];
            Stacks(t, parents + [top + [|NodeAt(t, top).children| - 1]], ind + [position])
  {
    var top := parents[|parents| - 1];
    var k := |NodeAt(t, top).children| - 1;
    SpineExtend(t, top);
    PrefixesPush(top, k);
    var ind' := ind + [position];
    assert forall i, j :: 0 <= i < j < |ind'| ==> ind'[i] < ind'[j] by {
      forall i, j | 0 <= i < j < |ind'| ensures ind'[i] < ind'[j] {
        if j < |ind| {
          assert ind'[i] == ind[i] && ind'[j] == ind[j];
        } else if i < |ind| - 1 {
          assert ind[i] < ind[|ind| - 1];
        }
      }
    }
  }

  /** Popping the top of both stacks keeps them on the right-most branch. */
  lemma StacksPop(t: Node, parents: seq<Path>, ind: seq<nat>)
    requires Stacks(t, parents, ind) && |ind| >= 2
    ensures Stacks(t, parents[..|parents| - 1], ind[..|ind| - 1])
  {
    var top := parents[|parents| - 1];
    SpinePrefix(t, top, |top| - 1);
    PrefixesPop(top);
  }

  /** Appending a leaf under the parent on top of the stacks adds one entry at
      the stack's depth and leaves the stacks valid for the grown tree. */
  lemma AppendUnderTop(t: Node, parents: seq<Path>, ind: seq<nat>, text: string, note: string)
    requires Stacks(t, parents, ind)
    ensures ValidPath(t, parents[|parents| - 1])
    ensures var t' := AppendAt(t, parents[|parents| - 1], Node(text, note, []));
            Entries(t') == Entries(t) + [Entry(text, note, |ind|)]
            && Stacks(t', parents, ind) && SpineDepth(t') == |ind|
  {
    var top := parents[|parents| - 1];
    assert |top| + 1 == |ind|;
    AppendOnSpine(t, top, text, note, 1);
    AppendKeepsSpine(t, top, Node(text, note, []));
  }

  /** What reading line `number` does to the tree and the stack keeps the
      entries already made plus those still to come unchanged. */
  lemma ReadLineKeepsScan(t: Node, t': Node, ind: seq<nat>, ind': seq<nat>,
                          lines: seq<string>, number: nat)
    requires StackOk(ind) && StackOk(ind') && number < |lines| && AllImportable(lines[number..])
    requires Body(lines[number]) == [] ==> t' == t && ind' == ind
    requires Body(lines[number]) != [] ==>
               |Fields(lines[number])| >= 2
               && ind' == NextStack(ind, SpineDepth(t), Indentation(lines[number]))
               && Entries(t') == Entries(t) + [Entry(Fields(lines[number])[0], Fields(lines[number])[1], |ind'|)]
               && SpineDepth(t') == |ind'|
    ensures AllImportable(lines[number + 1..])
    ensures Entries(t') + Scan(lines[number + 1..], ind', SpineDepth(t'))
            == Entries(t) + Scan(lines[number..], ind, SpineDepth(t))
  {
    var suffix := lines[number..];
    assert suffix[0] == lines[number] && suffix[0..] == suffix && suffix[1..] == lines[number + 1..];
    ScanStep(suffix, 0, ind, SpineDepth(t));
    if Body(lines[number]) != [] {
      var e := Entry(Fields(lines[number])[0], Fields(lines[number])[1], |ind'|);
      var later := Scan(lines[number + 1..], ind', |ind'|);
      assert Scan(suffix, ind, SpineDepth(t)) == [e] + later;
      ConcatAssoc(Entries(t), [e], later);
    }
  }

  lemma ConcatAssoc<T>(a: seq<T>, b: seq<T>, c: seq<T>)
    ensures a + b + c == a + (b + c)
  {
  }

  /** The number of spaces the line starts with, counted one character at a time. */
  method LeadingSpaces(line: string) returns (position: nat)
    ensures position == Indentation(line)
  {
    position := 0;
    while position < |line|
      invariant position <= |line|
      invariant forall i :: 0 <= i < position ==> line[i] == ' '
    {
      if line[position] != ' ' {
        break;
      }
      position := position + 1;
    }
  }

  // ---------------------------------------------------------------------------

  class CtqModel {
    var root: Node

    /** A model built from `data`, one item per non-blank line, under a root
        holding the column headers. */
    constructor (data: string)
      requires AllImportable(Split(data, '\n'))
      ensures root.text == "Title" && root.note == "Note"
      ensures Entries(root) == Scan(Split(data, '\n'), [0], 0)
    {
      root := Node("Title", "Note", []);
      new;
      SetupModelData(Split(data, '\n'));
    }

    /** Move the stacks to the parent of a line indented by `position`: deeper
        than the top makes the current parent's last child the new parent
        (unless the current parent has no children); otherwise pop back to an
        indentation not deeper than the line. */
    method MoveToParent(parents: seq<Path>, indentations: seq<nat>, position: nat)
      returns (parents': seq<Path>, indentations': seq<nat>)
      requires Stacks(root, parents, indentations)
      ensures Stacks(root, parents', indentations')
      ensures indentations' == NextStack(indentations, SpineDepth(root), position)
    {
      parents', indentations' := parents, indentations;
      SpineChildren(root, parents[|parents| - 1]);
      if position > indentations[|indentations| - 1] {
        var lastParent := parents[|parents| - 1];
        if |NodeAt(root, lastParent).children| > 0 {
          var k := |NodeAt(root, lastParent).children| - 1;
          StacksPush(root, parents, indentations, position);
          parents' := parents + [lastParent + [k]];
          indentations' := indentations + [position];
        }
      } else {
        while position < indentations'[|indentations'| - 1] && |parents'| > 0
          invariant 1 <= |indentations'| <= |indentations|
          invariant Stacks(root, parents', indentations')
          invariant PopWhile(indentations', position) == PopWhile(indentations, position)
        {
          StacksPop(root, parents', indentations');
          parents' := parents'[..|parents'| - 1];
          indentations' := indentations'[..|indentations'| - 1];
        }
      }
    }

    /** Read one line: count its leading spaces, trim the rest and, unless
        that is empty, move the stacks to the line's parent and append the
        line's item as that parent's last child. */
    method ReadLine(line: string, parents: seq<Path>, indentations: seq<nat>)
      returns (parents': seq<Path>, indentations': seq<nat>)
      requires Stacks(root, parents, indentations) && Importable(line)
      modifies this
      ensures Stacks(root, parents', indentations')
      ensures root.text == old(root.text) && root.note == old(root.note)
      ensures Body(line) == [] ==> root == old(root) && indentations' == indentations
      ensures Body(line) != [] ==>
                |Fields(line)| >= 2
                && indentations' == NextStack(indentations, old(SpineDepth(root)), Indentation(line))
                && Entries(root) == old(Entries(root)) + [Entry(Fields(line)[0], Fields(line)[1], |indentations'|)]
                && SpineDepth(root) == |indentations'|
    {
      parents', indentations' := parents, indentations;
      var position := LeadingSpaces(line);
      var lineData := Trimmed(line[position..]);
      if lineData != [] {
        var columnData := SplitSkipEmpty(lineData, '\t');
        parents', indentations' := MoveToParent(parents, indentations, position);
        AppendUnderTop(root, parents', indentations', columnData[0], columnData[1]);
        root := AppendAt(root, parents'[|parents'| - 1], Node(columnData[0], columnData[1], []));
      }
    }

    /** Append one item per non-blank line. A stack of parents and a parallel
        stack of their indentations track where the next item goes (see
        `MoveToParent`); each item becomes the last child of the parent on top. */
    method SetupModelData(lines: seq<string>)
      requires AllImportable(lines)
      modifies this
      ensures root.text == old(root.text) && root.note == old(root.note)
      ensures Entries(root) == old(Entries(root)) + Scan(lines, [0], old(SpineDepth(root)))
    {
      var parents: seq<Path> := [[]];
      var indentations: seq<nat> := [0];
      var number := 0;
      ghost var text, note := root.text, root.note;
      ghost var goal := Entries(root) + Scan(lines, [0], SpineDepth(root));
      assert lines[0..] == lines;
      while number < |lines|
        invariant 0 <= number <= |lines|
        invariant Stacks(root, parents, indentations)
        invariant root.text == text && root.note == note
        invariant AllImportable(lines[number..])
        invariant Entries(root) + Scan(lines[number..], indentations, SpineDepth(root)) == goal
      {
        ghost var t, ind := root, indentations;
        parents, indentations := ReadLine(lines[number], parents, indentations);
        ReadLineKeepsScan(t, root, ind, indentations, lines, number);
        number := number + 1;
      }
      assert lines[number..] == [];
    }

    /** Store `value` in the cell `index`; refused for the invalid index. */
    method SetData(index: ModelIndex, value: string) returns (ok: bool)
      requires WellFormed(root, index)
      modifies this
      ensures ok <==> index.Valid?
      ensures ok ==> root == SetFieldAt(old(root), index.item, index.column, value)
      ensures !ok ==> root == old(root)
    {
      if index.Valid? {
        root := SetFieldAt(root, index.item, index.column, value);
        ok := true;
      } else {
        ok := false;
      }
    }
  }
}
