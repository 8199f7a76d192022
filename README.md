# CTQ tool: item model, flattening proxy and text helpers in Dafny

The CTQ tool explores "critical to quality" trees. A user need has drivers,
and each driver has CTQs. This project models the non-GUI core of the tool
and proves properties about it:

- **Record classes** (`items.dfy`). `Item` has a 16-bit weight, a text and
  a note. `Ctq`, `Driver` and `UserNeed` are built on `Item`, and `CtqTree`
  is the list of needs. Each is a class whose methods update its fields.
- **Item model** (`tree.dfy`, `treemodel.dfy`).
  - `CtqModel` holds a tree of items under a header root ("Title", "Note").
    Its functions are the toolkit's positional index, parent, row count and
    column count. Its methods edit a cell and build the tree from indented
    text.
  - The import (`SetupModelData`) keeps two parallel stacks: the parents,
    and the indentations that opened them. It is proved against `Scan`, a
    function that lists the items an import creates, each with its depth.
  - The tree's pre-order listing (`Entries`) is what the proofs compare
    against.
- **Flattening proxy** (`flatrows.dfy`, `proxy.dfy`). `CtqProxyModel` shows
  the children of all top-level rows as one flat list.
  - It memoises each top-level row's child count and drops the memo on every
    structural change.
  - It maps indices both ways: a prefix sum (`RowFrom`) and a walk over the
    counts (`RowToSource`).
  - It relays the source's insert, remove and data-change notifications,
    returned here as a list of `Signal`s.
- **Text helpers** (`utilities.dfy`, with `strings.dfy` for the string
  library operations they use): common prefixes, the code-file extension
  test, and joining a multi-line selection into one line.

The format of the import:

- Each line is one item.
- Its depth comes from the number of leading *spaces*.
- The rest of the line is trimmed and split on tabs, dropping empty parts.
- The first field is the item's text and the second its note.
- A line deeper than the stack top opens a new level under the current
  parent's last child, but only if the current parent already has a child;
  a deeper line under a childless parent is appended to that parent, and
  nothing is pushed or popped.
- A line not deeper than the stack top pops the stacks back to an
  indentation not deeper than the line.

The indentation loop (src/datamodel/ctqmodel.cpp:113-118) stops at the first
character that is not a space, so a tab never counts towards the depth. Lines
indented with spaces nest (`TreeModel.ImportNestsBySpaces`); lines indented
with tabs are all read at the top level, because trimming removes the tabs
before the fields are split (`TreeModel.ImportIgnoresTabIndentation`).

## Model

| member | source | states |
|---|---|---|
| Strings.Split | src/datamodel/ctqmodel.cpp:16 | splitting the import text on newlines yields at least one part, and no part holds the separator |
| Strings.JoinSplit | src/datamodel/ctqmodel.cpp:16 | splitting loses nothing: joining the parts with the separator gives back the text |
| Strings.SplitJoin | src/datamodel/ctqmodel.cpp:16 | a law of the split helper itself (the import never joins): parts without the separator are recovered by splitting their join, so `Split` is the inverse of joining |
| Strings.NonEmpty | src/datamodel/ctqmodel.cpp:125 | skipping empty parts leaves only non-empty parts, never adds any, and keeps every part exactly when none is empty |
| Strings.NonEmptyConcat | src/datamodel/ctqmodel.cpp:125 | the parts kept from a concatenation are those kept from each side, in order, and a single part is kept exactly when it is not empty |
| Strings.LeadingSpace | src/datamodel/ctqmodel.cpp:120 | the white space in front: all of it is white space, and the next character is not |
| Strings.TrailingSpace | src/datamodel/ctqmodel.cpp:120 | the white space at the end: all of it is white space, and the character before it is not |
| Strings.TrimmedIsCore | src/datamodel/ctqmodel.cpp:120 | trimming gives a slice of the line; everything cut off is white space; the result neither starts nor ends with white space |
| Strings.RemoveAll | src/utilities.cpp:91 | the result is never longer than the input |
| Strings.RemoveAllUnchanged | src/utilities.cpp:91 | the deletion changes the text exactly when the marker occurs in it |
| Utilities.CommonPrefixLength | src/utilities.cpp:68-78 | the first n characters of both strings agree, and then either string ends or the next characters differ |
| Utilities.CommonPrefixWithinB | src/utilities.cpp:72-76 | when `b` is not a proper prefix of `a`, the common prefix ends where `a` ends or at a mismatch inside both strings, so the loop never reads past `b` |
| Utilities.CommonPrefixLengthUnique | src/utilities.cpp:68-78 | those properties pin the common-prefix length down uniquely |
| Utilities.CommonPrefix | src/utilities.cpp:68-78 | the loop returns a prefix of both strings that cannot be extended, of exactly the common-prefix length |
| Utilities.HasCommonPrefix | src/utilities.cpp:62-66 | the first-character test holds exactly when the longest common prefix is non-empty |
| Utilities.HasCodeExtension | src/utilities.cpp:40-54 | true exactly when the name ends with .cpp, .c, .h, .i or .res |
| Utilities.Mid | src/utilities.cpp:87 | the tail from a position, empty past the end; the text is its head plus that tail |
| Utilities.ExtractMultiLineText | src/utilities.cpp:80-94 | the result is the lines, less the first two lines' common prefix, joined by spaces, with every "> >" deleted |
| Utilities.StripAllKeepsRest | src/utilities.cpp:82-89 | each of the first two lines is exactly the shared prefix followed by what remains of it, and no longer prefix is shared |
| Utilities.ExtractShortInputUnstripped | src/utilities.cpp:82 | fewer than two lines are joined without cutting anything |
| Utilities.ExtractWithoutMarker | src/utilities.cpp:90-93 | without a "> >" in the joined text, the result is the joined text |
| Items.Item.constructor | src/datamodel/item.h:20-22 | a new item has weight 0 and empty text and note |
| Items.Item.Copy | src/datamodel/ctqtree.cpp:24-27 | a copied item holds the same weight, text and note |
| Items.Item.SetWeight | src/datamodel/item.cpp:23-26 | sets the weight and leaves text and note alone |
| Items.Item.GetWeight | src/datamodel/item.cpp:28-31 | returns the weight |
| Items.Item.SetText | src/datamodel/item.cpp:33-36 | sets the text and leaves weight and note alone |
| Items.Item.GetText | src/datamodel/item.cpp:38-41 | returns the text |
| Items.Item.SetNote | src/datamodel/item.cpp:43-46 | sets the note and leaves weight and text alone |
| Items.Item.GetNote | src/datamodel/item.cpp:48-51 | returns the note |
| Items.Ctq.constructor | src/datamodel/item.h:20-22 | a new CTQ has a fresh item with the default values |
| Items.Driver.constructor | src/datamodel/item.h:20-22 | a new driver has a fresh default item and no CTQs |
| Items.Driver.Add | src/datamodel/driver.cpp:5-8 | appends the CTQ handle at the end, keeping the others in place |
| Items.Driver.GetCtq | src/datamodel/driver.cpp:10-13 | returns the i-th CTQ handle |
| Items.Driver.GetNrOfCtqs | src/datamodel/driver.cpp:15-18 | returns the number of CTQs |
| Items.UserNeed.constructor | src/datamodel/item.h:20-22 | a new need has a fresh default item and no drivers |
| Items.UserNeed.Copy | src/datamodel/ctqtree.cpp:24-27 | a copied need has its own item with equal values and the same driver handles |
| Items.UserNeed.Add | src/datamodel/userneed.cpp:5-8 | appends the driver handle at the end, keeping the others in place |
| Items.UserNeed.GetDriver | src/datamodel/userneed.cpp:10-13 | returns the i-th driver handle |
| Items.UserNeed.GetNrOfDrivers | src/datamodel/userneed.cpp:15-18 | returns the number of drivers |
| Items.CtqTree.constructor | src/datamodel/ctqtree.cpp:19-27 | a new tree has no needs, which `Add` then extends one at a time; the class declaration in `ctqtree.h` is not part of this model |
| Items.CtqTree.Add | src/datamodel/ctqtree.cpp:24-27 | appends a fresh copy of the need, equal in values and driver handles, and keeps the earlier needs |
| Items.CtqTree.GetNeed | src/datamodel/ctqtree.cpp:29-33 | returns the i-th need, within the asserted bound |
| Items.CtqTree.GetNrOfNeeds | src/datamodel/ctqtree.cpp:35-38 | returns the number of needs |
| Tree.AppendAt | src/datamodel/ctqmodel.cpp:155 | appending anywhere keeps the root's text and note |
| Tree.AppendAtEffect | src/datamodel/ctqmodel.cpp:155 | the node at the path gains the leaf as its last child; every node keeps its text and note, every other node keeps its number of children, and nodes off the path are unchanged |
| Tree.SpineChildren | src/datamodel/ctqmodel.cpp:138-139 | a parent on the right-most branch has children exactly when the branch goes deeper than it |
| Tree.SpineExtend | src/datamodel/ctqmodel.cpp:141 | the last child of a parent on the right-most branch is on that branch too |
| Tree.SpinePrefix | src/datamodel/ctqmodel.cpp:147-151 | every ancestor of a node on the right-most branch is on it |
| Tree.AppendOnSpine | src/datamodel/ctqmodel.cpp:155 | appending under a node of the right-most branch adds exactly one entry, at the end of the pre-order listing, one level below that node |
| Tree.AppendKeepsSpine | src/datamodel/ctqmodel.cpp:155 | after that append the parent is still on the right-most branch, which now ends one level below it |
| Tree.LastEntryDepth | src/datamodel/ctqmodel.cpp:134-155 | the listing is empty exactly when the tree is, and its last entry sits at the depth of the right-most branch |
| TreeModel.GetItem | src/datamodel/ctqmodel.cpp:175-184 | the item behind a valid index is child `row` of its parent item; the invalid index stands for the root |
| TreeModel.RowCount | src/datamodel/ctqmodel.cpp:88-100 | no rows under an index outside column 0; otherwise the number of children of the parent's item (the root's for the invalid index) |
| TreeModel.Index | src/datamodel/ctqmodel.cpp:58-72 | valid exactly when the parent is in column 0 or invalid and the row and column exist; it then refers to child `row` of the parent's item, in that row and column |
| TreeModel.Parent | src/datamodel/ctqmodel.cpp:74-86 | invalid for the invalid index and for top-level items; otherwise a column-0 index whose item has the given item as child `row` |
| TreeModel.ParentOfIndex | src/datamodel/ctqmodel.cpp:58-86 | the parent of a child index is the index it was taken under |
| TreeModel.IndexOfParent | src/datamodel/ctqmodel.cpp:58-86 | taking the same row and column under an index's parent gives the index back |
| TreeModel.SetFieldAtEffect | src/datamodel/ctqmodel.cpp:161-173 | editing a cell changes that item's field only: every path stays valid with as many children, and every other item keeps its text and note |
| TreeModel.Indentation | src/datamodel/ctqmodel.cpp:112-118 | the indentation is the number of leading spaces: all of them are spaces and the next character is not |
| TreeModel.LeadingSpaces | src/datamodel/ctqmodel.cpp:112-118 | the counting loop stops at the indentation |
| TreeModel.PopWhile | src/datamodel/ctqmodel.cpp:145-152 | popping keeps a prefix of the stack and a valid stack; it pops exactly the entries above the line's indentation |
| TreeModel.NextStack | src/datamodel/ctqmodel.cpp:134-152 | the stack after a line is still strictly increasing from 0 |
| TreeModel.NextStackSize | src/datamodel/ctqmodel.cpp:134-152 | the stack never empties and grows by at most one level per line |
| TreeModel.ScanRecords | src/datamodel/ctqmodel.cpp:120-157 | blank lines are skipped, and every other line makes exactly one item with its first field as text and its second as note, in line order |
| TreeModel.ScanDepths | src/datamodel/ctqmodel.cpp:134-155 | every item is at depth 1 or more, and at most one level deeper than the item before it |
| TreeModel.LineFields | src/datamodel/ctqmodel.cpp:112-132 | a line of spaces, then tabs, then text, a tab and a note reads as that indentation, with exactly those two fields |
| TreeModel.ImportNestsBySpaces | src/datamodel/ctqmodel.cpp:112-155 | a need, a driver two spaces in and a CTQ four spaces in are read at depths 1, 2 and 3 |
| TreeModel.ImportIgnoresTabIndentation | src/datamodel/ctqmodel.cpp:112-120 | lines indented only by tabs are all read at depth 1 |
| TreeModel.StacksPush | src/datamodel/ctqmodel.cpp:138-143 | pushing the current parent's last child with a deeper indentation keeps both stacks on the right-most branch |
| TreeModel.StacksPop | src/datamodel/ctqmodel.cpp:147-151 | popping both stacks keeps them on the right-most branch |
| TreeModel.AppendUnderTop | src/datamodel/ctqmodel.cpp:155 | appending under the parent on top adds one entry at the stack's depth and keeps the stacks valid |
| TreeModel.ReadLineKeepsScan | src/datamodel/ctqmodel.cpp:110-157 | reading one line keeps the entries made so far, plus those still to come, unchanged |
| TreeModel.CtqModel.constructor | src/datamodel/ctqmodel.cpp:12-17 | the root is the "Title"/"Note" header, and the items are exactly those the import lists for the text's lines |
| TreeModel.CtqModel.MoveToParent | src/datamodel/ctqmodel.cpp:134-152 | the indentation stack becomes `NextStack` of the old one, and the parents stack stays the right-most branch |
| TreeModel.CtqModel.ReadLine | src/datamodel/ctqmodel.cpp:112-155 | a blank line changes nothing; any other line moves the stacks as `NextStack` says and appends one entry with its two fields at the new depth |
| TreeModel.CtqModel.SetupModelData | src/datamodel/ctqmodel.cpp:102-159 | the header is kept, and the listing becomes the old listing followed by what `Scan` lists for the lines |
| TreeModel.CtqModel.SetData | src/datamodel/ctqmodel.cpp:161-173 | succeeds exactly for a valid index, which gets its cell set; the invalid index changes nothing |
| FlatRows.SumZero | src/datamodel/ctqproxymodel.cpp:209-212 | a range of counts sums to zero exactly when every count in it is zero |
| FlatRows.PrefixSumMonotone | src/datamodel/ctqproxymodel.cpp:48-53 | a longer prefix never sums to less, and the difference is the sum between |
| FlatRows.FlatRowMonotone | src/datamodel/ctqproxymodel.cpp:48-53 | flat rows grow with the child row and do not shrink with the top-level row |
| FlatRows.FlatRowOrdered | src/datamodel/ctqproxymodel.cpp:48-53 | every child of a later top-level row comes after every child of an earlier one |
| FlatRows.LocateFrom | src/datamodel/ctqproxymodel.cpp:55-68 | the walk stops on a top-level row that exists |
| FlatRows.Locate | src/datamodel/ctqproxymodel.cpp:55-68 | with top-level rows present, the walk lands on one of them |
| FlatRows.LocateRoundTrip | src/datamodel/ctqproxymodel.cpp:55-68 | every flat row below the total lands on an existing child, and that child's flat row is the same flat row |
| FlatRows.LocateFlatRow | src/datamodel/ctqproxymodel.cpp:48-68 | walking from a child's flat row finds that child again |
| FlatRows.FlatRowInjective | src/datamodel/ctqproxymodel.cpp:48-53 | no two children share a flat row |
| FlatRows.LocateOutside | src/datamodel/ctqproxymodel.cpp:55-68 | rows past the total land on the last top-level row with the excess; negative rows stay on the first |
| FlatRows.RootsRange | src/datamodel/ctqproxymodel.cpp:209-210 | the flat rows of top-level rows `from..to` form one contiguous range, as long as their counts together, holding no other child |
| Proxy.ChildCountIsRowCount | src/datamodel/ctqproxymodel.cpp:40-42 | the child count `ChildCount` the proxy memoises is the source's row count under index (r, 0), which for a missing row is the number of top-level rows |
| Proxy.CreateIndex | src/datamodel/ctqproxymodel.cpp:153-156 | valid exactly for a non-negative row and column, and then carries them |
| Proxy.FromSource | src/datamodel/ctqproxymodel.cpp:123-131 | valid exactly for items below the top level; a second-level item lands at its row plus the counts of the earlier top-level rows, in its own column |
| Proxy.ToSource | src/datamodel/ctqproxymodel.cpp:133-146 | the mapping as written always gives an index the source can have handed out |
| Proxy.ToSourceCorrected | src/datamodel/ctqproxymodel.cpp:133-146 | the same with the top-level index taken in column 0 |
| Proxy.ProxyToSourceAndBack | src/datamodel/ctqproxymodel.cpp:123-146 | every flat row below the total, in column 0, maps to a second-level item that maps back to it |
| Proxy.SourceToProxyAndBack | src/datamodel/ctqproxymodel.cpp:123-146 | every second-level item in column 0 maps to a flat row that maps back to it |
| Proxy.ToSourceDropsColumns | src/datamodel/ctqproxymodel.cpp:144-145 | as written, every flat index in a column other than 0 maps to the invalid source index |
| Proxy.CorrectedRoundTrip | src/datamodel/ctqproxymodel.cpp:133-146 | corrected, every flat row below the total, in every column, maps to a second-level item in that column and back |
| Proxy.CorrectedSourceRoundTrip | src/datamodel/ctqproxymodel.cpp:123-146 | corrected, every second-level item in any column maps to a flat index and back |
| Proxy.SetDataKeepsCounts | src/datamodel/ctqproxymodel.cpp:243-248 | a cell edit changes no child count, so the memo stays right across data changes |
| Proxy.RootsRemovalRange | src/datamodel/ctqproxymodel.cpp:205-218 | the range announced for removed top-level rows is exactly their children's flat rows; it is empty exactly when none of them has children |
| Proxy.ChildRangeLast | src/datamodel/ctqproxymodel.cpp:191 | as written, the announced range has as many rows as were changed only when a single row changes |
| Proxy.ChildRangeReversed | src/datamodel/ctqproxymodel.cpp:191 | as written, the announced range runs backwards as soon as more than one child changes |
| Proxy.ChildRangeCorrectedExact | src/datamodel/ctqproxymodel.cpp:190-191 | corrected, the range announced for children `from..to` is exactly their flat rows |
| Proxy.CountChangeKeepsEarlierRows | src/datamodel/ctqproxymodel.cpp:48-53 | changing one top-level row's count leaves the flat rows of earlier top-level rows unchanged |
| Proxy.CountChangeShiftsLaterRows | src/datamodel/ctqproxymodel.cpp:48-53 | changing one top-level row's count shifts the flat rows of every later top-level row by the change |
| Proxy.CtqProxyModel.constructor | src/datamodel/ctqproxymodel.cpp:78-82 | a new proxy has no source, an empty memo and the removal flag down |
| Proxy.CtqProxyModel.SetSourceModel | src/datamodel/ctqproxymodel.cpp:86-121 | the proxy now reads from the new source |
| Proxy.CtqProxyModel.SourceRootToCount | src/datamodel/ctqproxymodel.cpp:33-46 | returns the source's child count of the row (0 without a source) and records it in the memo |
| Proxy.CtqProxyModel.RowFrom | src/datamodel/ctqproxymodel.cpp:48-53 | the loop returns the row plus the counts of all earlier top-level rows |
| Proxy.CtqProxyModel.RowToSource | src/datamodel/ctqproxymodel.cpp:55-68 | the loop returns what `Locate` gives for the counts |
| Proxy.CtqProxyModel.RowCount | src/datamodel/ctqproxymodel.cpp:158-172 | the total of all counts; 0 under a valid parent or without a source |
| Proxy.CtqProxyModel.ColumnCount | src/datamodel/ctqproxymodel.cpp:174-181 | the source's columns; 0 under a valid parent or without a source |
| Proxy.CtqProxyModel.Parent | src/datamodel/ctqproxymodel.cpp:148-151 | every index is at the top |
| Proxy.CtqProxyModel.Index | src/datamodel/ctqproxymodel.cpp:153-156 | any non-negative row and column is an index, whatever the parent |
| Proxy.CtqProxyModel.MapFromSource | src/datamodel/ctqproxymodel.cpp:123-131 | returns `FromSource`, or invalid without a source |
| Proxy.CtqProxyModel.MapToSource | src/datamodel/ctqproxymodel.cpp:133-146 | returns `ToSource`, the mapping as written with the top-level index in the flat index's column, or invalid without a source |
| Proxy.CtqProxyModel.SourceRowsAboutToBeInserted | src/datamodel/ctqproxymodel.cpp:183-193 | nothing for new top-level rows; under a valid parent, one begin-insert from the first new flat row to the last row as written (`ChildRangeLast`) |
| Proxy.CtqProxyModel.SourceRowsInserted | src/datamodel/ctqproxymodel.cpp:195-203 | the memo is dropped; an insertion under a valid parent is closed |
| Proxy.CtqProxyModel.SourceRowsAboutToBeRemoved | src/datamodel/ctqproxymodel.cpp:205-223 | for top-level rows, announces their children's range and raises the flag only when that range is not empty; under a valid parent, announces the child range as written (`ChildRangeLast`) |
| Proxy.CtqProxyModel.SourceRowsRemoved | src/datamodel/ctqproxymodel.cpp:225-241 | the memo is dropped; a top-level removal is closed only if one was announced, and the flag is lowered; a child removal is always closed |
| Proxy.CtqProxyModel.SourceDataChanged | src/datamodel/ctqproxymodel.cpp:243-248 | forwards one data change with both corners mapped by `FromSource` |
| Proxy.CtqProxyModel.SourceModelReset | src/datamodel/ctqproxymodel.cpp:250-254 | the memo is dropped |

## Left out

- The GUI: windows, menus, dialogs, views, drag and drop and scene drawing. The toolkit's signal connections are not modelled either; notifications are returned as lists of `Signal`.
- `TreeItem` is not part of this model. Items are the value tree `Tree.Node` (text, note, children), and a node's row is its position under its parent.
  - Every item is assumed to have two columns (`TreeModel.Columns`): column 0 is the text and column 1 the note.
  - `SetField` ignores other columns.
- `CtqModel::data`, `headerData`, `insertRows` and `removeRows` (ctqmodel.cpp:28-39, 49-56, 186-212) are not modelled. They forward to `TreeItem`, which is not part of this model.
- `CtqModel::flags` (ctqmodel.cpp:41-47) is not modelled: every valid index is editable, and the invalid index has no flags.
- The second copy of the proxy implementation at ctqmodel.cpp:214-457 is not modelled; it duplicates ctqproxymodel.cpp.
- `ExtractFilename`, `FileExists`, `FormatJSON` and `FormatXML` (utilities.cpp:29-38, 56-60, 96-118) are not modelled. They are a regular expression, a file-system query and library JSON/XML formatting.
- `Ctq::GetMeasurement` is not modelled: `Measurement` is not part of this model.
- The weight edit of the item dialog and any rank propagation are not in the core code and are not modelled.
- TreeModel.CtqModel.SetData: the `dataChanged` notification the source sends after an edit is not modelled.
- TreeModel.CtqModel.constructor: requires every non-blank line to have at least two fields. With fewer, the source reads `columnData[1]` out of range, which is undefined behaviour.
- Utilities.CommonPrefix: requires that the loop never reads `b` past its end (`StaysWithinB`). The source indexes `b[i]` without a bound check when `a` is longer and starts with `b`.
- Items.Driver.GetCtq: requires an index in range. The source advances an iterator without a check.
- Items.UserNeed.GetDriver: requires an index in range. The source advances an iterator without a check.
- Items.CtqTree.GetNeed: requires an index in range, the bound the source asserts.
- Proxy.CtqProxyModel.SetSourceModel: states only that the source is replaced.
  - The source keeps the memo, so counts of the old source can outlive it, and `Valid()` is not re-established.
  - Connecting and disconnecting the slots, and `revert()`, are left out.
- Proxy.CtqProxyModel.constructor: the `offset` argument is stored but never read, as in the source. The proxy always flattens the second level.
- Proxy.CtqProxyModel.constructor: the removal flag is uninitialised in the source; the model starts it lowered.
- Proxy.CtqProxyModel.RowToSource: requires a source, because the source dereferences it without a check.
- Proxy.CtqProxyModel.SourceRowsAboutToBeInserted: requires a source. The slots run only while connected to one.
- Proxy.CtqProxyModel.SourceRowsAboutToBeRemoved: requires a source, for the same reason.
- Proxy.CtqProxyModel.SourceDataChanged: requires a source and indices the source can have handed out.
- Integer widths: rows, counts and flat rows are unbounded integers. The source's `int` cannot overflow at the tree sizes the tool handles.
- Utilities.CommonPrefix: positions and lengths count characters, where the string library counts UTF-16 code units. The source can cut a surrogate pair in two; the model cannot.
- Utilities.Mid: the same difference; the source's `mid` counts UTF-16 code units.
- Utilities.ExtractMultiLineText: inherits that difference from `CommonPrefix` and `Mid`; the width it cuts is a count of UTF-16 code units in the source. It also inherits the `requires` of `CommonPrefix` on its first two lines (`StaysWithinB`): input such as `["abc", ""]`, where the source reads `b[0]` past the end of the second line, is excluded.
- Utilities.HasCommonPrefix: compares the first characters, where the source compares the first UTF-16 code units. Two strings starting with different characters outside the Basic Multilingual Plane that share a high surrogate (U+1F600 and U+1F601) have a common prefix in the source and none in the model.
- TreeModel.Indentation: the same difference; the source's position counts UTF-16 code units, which gives the same count of leading spaces but different positions after them.
- Qt's white-space set is modelled for the Latin-1 range and the Unicode separators (`Strings.IsSpace`). No normalisation or case handling is involved.

## Findings

| source | as written | input that shows it | evidently intended | confidence | as-written member | corrected member |
|---|---|---|---|---|---|---|
| src/datamodel/ctqproxymodel.cpp:144 | the top-level source index is taken in the proxy index's column, and the source reports no rows under any column but 0 | flat index (0, 1) over a need with one driver maps to the invalid index, so the note column shows nothing | take the top-level index in column 0 | high (not executed) | Proxy.ToSourceDropsColumns | Proxy.CorrectedRoundTrip |
| src/datamodel/ctqproxymodel.cpp:191 | the last announced row is `f + (from - to)` | two children inserted at rows 0..1 under a top-level row are announced as `f..f-1` | `f + (to - from)` | high (not executed) | Proxy.ChildRangeReversed | Proxy.ChildRangeCorrectedExact |
| src/datamodel/ctqproxymodel.cpp:221 | the same expression for removed children | two children removed at rows 0..1 are announced as `f..f-1` | `f + (to - from)` | high (not executed) | Proxy.ChildRangeReversed | Proxy.ChildRangeCorrectedExact |

`Proxy.CtqProxyModel.MapToSource`, `SourceRowsAboutToBeInserted` and
`SourceRowsAboutToBeRemoved` compute as the source does, through `Proxy.ToSource`
and `Proxy.ChildRangeLast`. The corrected definitions `Proxy.ToSourceCorrected`
and `Proxy.ChildRangeLastCorrected` stand beside them with the intended
properties proved.
