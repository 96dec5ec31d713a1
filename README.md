# Topography tools: the point list of TT_DialogMain

This project models the point-list management of LibreCAD's topography plugin
(`plugins/topographytools/tt_dialogmain.cpp`) and proves properties of it. The dialog keeps a
list of survey records (`QList<TT::Point> points`). The model covers what changes or reads
that list:

- the CSV line reader `importPoint` and the import loop of `importPoints`;
- the `.tt` file format: the writers `savePoints`/`savePoint` and the readers
  `loadPoints`/`loadPoint`;
- the in-place edits `removePoints`, `movePointUp` and `movePointDown`, with the row guards of
  the Up and Down buttons;
- the count of drawable entries in `drawPoints`.

Modules:

- `Wrappers` (wrappers.dfy): `Option`.
- `Points` (points.dfy): `TT::Point` as a datatype with its twelve fields in the order
  `loadPoint` reads them, the value-initialised point `Blank`, and `CountPoints`.
- `Stream` (stream.dfy): the data stream as a sequence of tagged field values, the encoders and
  decoders, and the save/load round trip.
- `Csv` (csv.dfy): `QString::split(";")` and its inverse, `importPoint` and the import loop.
- `ListEdits` (list_edits.dfy): `QList::remove`, `QList::move`, `std::sort` on the index list,
  and deletion of a set of positions.
- `Dialog` (dialog.dfy): the class `DialogMain` with the `points` field. Its methods change the
  field in place with the loops of the source, and each is proved against the functions above.

Coordinates and measures (`double` in the source) are `real` values that the model stores and
compares but never computes on. `QString::toDouble` is a parameter
`toDouble: string -> Option<Coord>`, so nothing is assumed about number syntax. Whether a file
exists or opens, the file chooser and the line reader are inputs: booleans that select the `-1`
paths, a sequence of lines, or a sequence of fields. The version of the stream `loadPoints`
reads with is an integer input compared with `QDataStream::Qt_6_0` (20).

## Model

| member | source | states |
|---|---|---|
| Csv.Split | plugins/topographytools/tt_dialogmain.cpp:222 | a line splits into one more part than it has `;` separators, with empty parts kept and no part containing `;` |
| Csv.JoinSplit | plugins/topographytools/tt_dialogmain.cpp:222 | joining the parts with `;` gives the line back |
| Csv.SplitJoin | plugins/topographytools/tt_dialogmain.cpp:222 | splitting a joined list of `;`-free parts gives the parts back |
| Csv.ImportPoint | plugins/topographytools/tt_dialogmain.cpp:218-258 | a line is accepted exactly when it has 2 or 3 fields and every field converts. On rejection the point is unchanged. Only x, y, z and hasZ can change. On acceptance x and y are the converted first two fields. Two fields keep hasZ and z; three fields set hasZ and z from the third field |
| Csv.ImportPointNeedsOneOrTwoSeparators | plugins/topographytools/tt_dialogmain.cpp:222-226 | a line with no `;` or with more than two is rejected and the point is left as it was |
| Csv.ImportLines | plugins/topographytools/tt_dialogmain.cpp:196-206 | the import loop yields at most one point per line, each of type POINT with an empty name (a fresh `TT::Point{}`) |
| Csv.ImportLinesAppend | plugins/topographytools/tt_dialogmain.cpp:196-206 | importing `a` then `b` imports the points of `a` followed by those of `b`: file order is kept |
| Csv.ImportLinesAllAccepted | plugins/topographytools/tt_dialogmain.cpp:196-206 | when every line is accepted, the k-th imported point is the k-th line read into a fresh point |
| Csv.ImportedAreDrawn | plugins/topographytools/tt_dialogmain.cpp:200-203 | every imported point is counted by drawPoints |
| Points.CountPoints | plugins/topographytools/tt_dialogmain.cpp:485-493 | the number of entries of type POINT is at most the number of entries |
| Points.CountPointsAllOrNone | plugins/topographytools/tt_dialogmain.cpp:485-493 | the count equals the length exactly when every entry is of type POINT, and is zero exactly when none is |
| Points.CountPointsAppend | plugins/topographytools/tt_dialogmain.cpp:485-493 | the count of a concatenation is the sum of the counts |
| Points.CountPointsAt | plugins/topographytools/tt_dialogmain.cpp:485-493 | taking out one entry lowers the count by one exactly when that entry is of type POINT |
| Points.CountPointsIsMultiplicity | plugins/topographytools/tt_dialogmain.cpp:485-493 | the count is the number of times POINT occurs among the types |
| Stream.EncodePoint | plugins/topographytools/tt_dialogmain.cpp:157-171 | a point is written as exactly twelve fields; with DecodeEncodePoint, in the order loadPoint reads them |
| Stream.ReadPastEndIsZero | plugins/topographytools/tt_dialogmain.cpp:110-124 | a `stream >>` read of any kind past the end of the stream gives that kind's zero value |
| Stream.EncodeList | plugins/topographytools/tt_dialogmain.cpp:145-149 | each point takes exactly twelve fields |
| Stream.EncodeFile | plugins/topographytools/tt_dialogmain.cpp:142-149 | a file is the point count followed by twelve fields per point |
| Stream.DecodePoint | plugins/topographytools/tt_dialogmain.cpp:110-124 | reading a point from an exhausted stream gives the blank point |
| Stream.DecodePoints | plugins/topographytools/tt_dialogmain.cpp:96-102 | `count` iterations of the read loop give exactly `count` points |
| Stream.DecodeFile | plugins/topographytools/tt_dialogmain.cpp:93-102 | the number of points read is the header count, or zero when the count is negative |
| Stream.DecodeEncodePoint | plugins/topographytools/tt_dialogmain.cpp:110-124 | loadPoint reads back exactly the point savePoint wrote and leaves the rest of the stream |
| Stream.DecodeEncodeList | plugins/topographytools/tt_dialogmain.cpp:96-102 | reading `n` points back from the encoding of `n` points gives the same points in the same order |
| Stream.SaveLoadRoundTrip | plugins/topographytools/tt_dialogmain.cpp:67-171 | what savePoints writes, loadPoints reads back as the same list |
| Stream.DecodePastEnd | plugins/topographytools/tt_dialogmain.cpp:96-102 | a header count larger than the stream yields blank points past its end |
| ListEdits.Remove | plugins/topographytools/tt_dialogmain.cpp:425 | removal at `k` shortens the list by one, keeps the elements before `k` and shifts those after it down by one |
| ListEdits.Move | plugins/topographytools/tt_dialogmain.cpp:444 | a move keeps the length and the multiset of elements, puts the moved element at the target index, and keeps the other elements in their relative order |
| ListEdits.MoveAdjacentSwaps | plugins/topographytools/tt_dialogmain.cpp:442-455 | a move to a neighbouring slot swaps the two elements and changes nothing else |
| ListEdits.MoveBack | plugins/topographytools/tt_dialogmain.cpp:442-455 | moving back undoes a move, so a move up followed by a move down of the same element restores the list |
| ListEdits.SortAscending | plugins/topographytools/tt_dialogmain.cpp:419 | the sorted index list is ascending, has the same length and is a permutation of the input |
| ListEdits.SortDistinctIsStrict | plugins/topographytools/tt_dialogmain.cpp:419 | sorting distinct indexes gives a strictly increasing list |
| ListEdits.SortKeepsElems | plugins/topographytools/tt_dialogmain.cpp:419 | sorting keeps the set of indexes |
| ListEdits.Survivors | plugins/topographytools/tt_dialogmain.cpp:416-429 | the surviving positions are strictly increasing, in range, and are exactly the positions not deleted |
| ListEdits.KeepIsSurvivors | plugins/topographytools/tt_dialogmain.cpp:416-429 | the list left after deletion is the original read at the surviving positions in ascending order: survivors keep their relative order |
| ListEdits.RemoveBelowDeleted | plugins/topographytools/tt_dialogmain.cpp:421-426 | removing an index below every index already deleted deletes exactly that original position, which is why the loop runs from the highest index down |
| Dialog.DialogMain.constructor | plugins/topographytools/tt_dialogmain.cpp:14-39 | a new dialog starts with the points of the last file named in the settings when there is one and it loads, and with an empty list otherwise |
| Dialog.DialogMain.LoadPoints | plugins/topographytools/tt_dialogmain.cpp:67-107 | the list is cleared first. A missing file, an open failure or a reading stream whose version is not Qt_6_0 gives -1 and an empty list. Otherwise the list is the decoded file and the result is its length |
| Dialog.DialogMain.SavePoints | plugins/topographytools/tt_dialogmain.cpp:128-154 | an open failure gives -1 and writes nothing. Otherwise it writes the count and the points, returns the number of points, and what it writes decodes back to the list |
| Dialog.DialogMain.ImportPoints | plugins/topographytools/tt_dialogmain.cpp:174-211 | no file chosen, a missing file or an open failure gives -1 and leaves the list alone. Otherwise the accepted lines are appended in order after the existing points and their number is returned |
| Dialog.DialogMain.RemovePoints | plugins/topographytools/tt_dialogmain.cpp:416-429 | given distinct in-range indexes in any order, the list becomes the original with exactly those positions deleted, and its length drops by the number of indexes |
| Dialog.DialogMain.MovePointUp | plugins/topographytools/tt_dialogmain.cpp:442-447 | elements `index` and `index - 1` are swapped and the rest is unchanged |
| Dialog.DialogMain.MovePointDown | plugins/topographytools/tt_dialogmain.cpp:450-455 | elements `index` and `index + 1` are swapped and the rest is unchanged |
| Dialog.DialogMain.OnUpClicked | plugins/topographytools/tt_dialogmain.cpp:632-638 | a current row in `[1, size)` is moved up; any other row leaves the list unchanged |
| Dialog.DialogMain.OnDownClicked | plugins/topographytools/tt_dialogmain.cpp:640-646 | a current row in `[0, size - 1)` is moved down; any other row leaves the list unchanged |
| Dialog.DialogMain.DrawPoints | plugins/topographytools/tt_dialogmain.cpp:485-497 | the number returned is the number of entries of type POINT |
| Dialog.SaveThenOpen | plugins/topographytools/tt_dialogmain.cpp:67-154 | with the reading stream set to Qt_6_0, saving and then loading the saved file leaves the list as it was, and both return its length |
| Dialog.SaveThenOpenAsWritten | plugins/topographytools/tt_dialogmain.cpp:84-90 | as loadPoints is written, saving and then loading keeps the list only when the build's default stream version is Qt_6_0, and otherwise empties it and returns -1 |
| Dialog.SortedIndexes | plugins/topographytools/tt_dialogmain.cpp:419 | after sorting distinct in-range indexes the list is strictly increasing, as long as the input, holds the same indexes and stays in range |
| Dialog.RemoveNextHighest | plugins/topographytools/tt_dialogmain.cpp:423-426 | one loop step of removePoints deletes one more original position |
| Dialog.MoveKeepsDrawCount | plugins/topographytools/tt_dialogmain.cpp:442-455 | moving a point does not change the number of points drawn |
| Dialog.ImportAddsToDrawCount | plugins/topographytools/tt_dialogmain.cpp:196-206 | an import adds exactly the number of imported points to the draw count |

## Left out

- The command console (librecad/src/ui/qg_commandedit.h) is not part of this model. Only its declarations are available, so there is no behaviour to check a model against.
- The file chooser, `QFile`, `QSettings` and `QMessageBox`: whether a file is chosen, exists or opens are boolean inputs. Error dialogs and the `fileName` field are not modelled. `readSettings` is replaced by the constructor's `lastFileName` input. `writeSettings`, `on_pbNew_clicked` and `on_pbOpen_clicked` are left out for the same reason.
- The constructor's button enabling, label text and `displayPoints()` call are not modelled; its `loadPoints()` call is.
- `QTextStream::readLine`: the CSV file arrives as a sequence of lines already read.
- `QString::toDouble` and all floating point: the conversion is a parameter, and coordinates are never computed on.
- Stream.DecodePoint: the byte layout of `QDataStream` is not modelled. Fields are tagged values, the enum `type` is a field of its own kind, and a field of the wrong kind reads as the zero value. Real bytes would be reinterpreted instead.
- `TT::Point` and `TT::PTYPE` are declared in topographytools.h, which is not part of this model. The record follows the read order of `loadPoint`. Two things about that header are assumptions of the model, not facts the available source establishes:
  - POINT is the first enumerator of `TT::PTYPE`, so a value-initialised point has type POINT. The order POINT, STATION, REFERENCE, MEASURE is only that of the branches of `displayPoint`, which do not fix it.
  - `TT::Point` has no default member initialisers, so `TT::Point point{}` (the constant `Points.Blank`) is all zeros, with an empty name and `hasZ` false. The `point.v0 >= 0` test at tt_dialogmain.cpp:333 hints that `v0` may default to a negative "unset" value instead.
  - Members whose statements rest on these assumptions: Csv.ImportLines (type POINT, empty name), Csv.ImportLinesAllAccepted, Csv.ImportedAreDrawn, Dialog.ImportAddsToDrawCount, Stream.DecodePoint and Stream.DecodePastEnd (the blank point), and Stream.ReadPastEndIsZero (POINT as the zero type).
- Integer widths: every count, index and length is an unbounded integer. The source's 32-bit `int` values are not modelled: the count `points.size()` written by `savePoints`, the header count read by `loadPoints`, the `nbPoints` counters of `loadPoints`, `savePoints`, `importPoints` and `drawPoints`, and the loop indexes of `loadPoints` and `drawPoints`. Lists are assumed shorter than 2^31 entries.
- Dialog.DialogMain.LoadPoints: the header count is an unbounded integer rather than a 32-bit `int`. The version of the reading stream is an input, since it is fixed by the Qt build (see Findings).
- Dialog.DialogMain.RemovePoints: requires distinct, in-range indexes. `QList::remove` outside the list is undefined behaviour. The selection loop of `on_pbRemove_clicked` that builds the list depends on Qt's `selectedItems` order and is not modelled; its outcome is stated as this precondition.
- ListEdits.SortAscending: `std::sort` is modelled by its result (an ascending permutation), computed by insertion. Its algorithm and cost are not.
- `displayPoints`/`displayPoint` (table rendering, colours, number formatting) and the `displayPoints()` calls after each edit are not modelled.
- `drawPoint` and the layer setup in `drawPoints` are foreign `Document_Interface` calls and are not modelled. Only the type filter and the count are kept.
- `addPoint`, `editPoint`, `on_pbEdit_clicked` and `on_tableWidget_cellDoubleClicked` depend on modal dialogs and are not modelled.
- The label updates of `on_pbSave_clicked`, `on_pbImport_clicked` and `on_pbDraw_clicked` are not modelled.

## Findings

| source | as written | input that shows it | evidently intended | confidence | as-written member | corrected member |
|---|---|---|---|---|---|---|
| plugins/topographytools/tt_dialogmain.cpp:84-90 | `loadPoints` checks the version of a freshly built reading stream against `Qt_6_0`. The file carries no version and the reading stream is never given one, so the check compares the build's default stream version with `Qt_6_0` (savePoints, line 140, sets the version only on its own stream) | a build whose default `QDataStream` version is not `Qt_6_0`, such as 21 (`Qt_6_6`): every load returns -1 and empties the list, so a saved list cannot be opened again | the reading stream is set to `Qt_6_0`, as the writing stream is, so a file that savePoints wrote loads back | medium, not executed | Dialog.SaveThenOpenAsWritten | Dialog.SaveThenOpen |
