# A verified model of the server's calculations

This project models the parts of the server whose answers other people build on, and proves what they promise. Each
module follows one part of the program; functions and lemmas stand where the source computes, classes and loops where
it changes things step by step, and every such method is proved against a function or predicate about which the
promises are then proved.

- **The expression calculator** (`server/expression.py`). `Syntax`, `Words`, `Grammar` and `Printer` hold the tokens,
  the trees, the twelve-level grammar and a printer that writes parentheses by level alone; `Scanner` and
  `ParserMachine` are the cursors that read a text, the latter a class whose loops agree with the grammar at every token
  list. `Values` and `Meaning` are what a tree means, with no memo; `EvaluatorMachine` is the evaluator with its memo,
  keyed by node and row-list identity, where identities of lists no longer held may come back. What the readings and the
  answers mean is said apart from the definitions that give them: `Covering` covers a text by its tokens, `Flat` and
  `Tidy` hold a parsed tree against the tokens it was read from, and `OperatorLaws`, `BranchLaws` and `FoldLaws` are the
  laws of an evaluation. `RowLevel`, `MissingRows` and `RowIndependence` are the static analysis and what it is worth;
  `Calculator` is a whole run; `OrderStatistics` the percentiles, fences and outliers; `Calendar`, `Digits` and
  `TimeText` the reading and spelling of times.
- **Wafer frames and map identity** (`server/map_overlay.py`, `server/dt_frame_transform.py` and the two classes under
  `server/utils/`). `Frames` is the coordinate algebra and the equation read back from three probes, `Wafer` the circle,
  `FrameCaches` the origin boxes and the caches keyed by a frame's axes, `ValidDie` the valid-die sets shared through a
  work cache, `MapKeys` the composing, splitting and canonicalising of map keys.
- **The derived map** (`server/dt_map_derivation.py`). `Derivation` is the gate over three pieces of evidence and the
  ban on stored identity columns, `Retraction` the budgeted deletion and whole histories of runs by several sources.
- **State kept across runs.** `ImageSweep` (`server/image_sources.py`), `ConfigBackup` (`server/config_backup.py`) and
  `BatchCutter` (`server/event_constants.py`).
- **Fast reads against simple ones.** `Pivot` (`server/grid_pivot.py`), `ColumnFilter` (`server/column_filter.py`) and
  `ValueList` (`server/grid_read.py`).

`dafny verify dfyconfig.toml` checks the whole project.

## Where a promise holds only in part

Each of these is kept as the code has it, with the exact condition proved and an input that shows the other side.

- A `case` on a row judges every `when` on the whole column; without a row it stops at the first that holds. A tree
  judged not row-level has one outcome on all rows of a list (`RowIndependence.NotRowLevelTellsNoRows`), and has it on
  none too exactly where judging every `when` with no row gives what stopping gives (`NotRowLevelAnswersOnce`, over
  `Whole`): at a case whose parts agree, exactly where all its `when`s answer, or the first that does not is not stopped
  before, or is stopped before at a branch that fails with the same fault (`CaseAgreesExactly`). `LaterWhenTells` is a
  tree that is true with no row and false on a row.
- `_row_level` does not look into folds (`RowLevel.LooseExactly`): a row-wise fold of several columns and a fold's
  parameter that is a column are judged to answer once and are refused (`MissingRows.ManyColumnsAlwaysRefused`,
  `ColumnParameterAlwaysRefused`). In a tree without If and case, over rows that hold one value a name and row functions
  that answer, a tree judged not row-level is refused for want of a row exactly where it holds such a fold
  (`NotRowLevelMissesExactly`). Whether a run comes to a branch is a question of values: for trees that branch the
  refusals lie between two conditions on the tree (`RunsBetween`).
- The transformer reads a side in lower case, the wafer parameters compare it as it is written: a side spelled «Back»
  with an x offset puts the circle elsewhere (`Wafer.NormIsFrameFreeExactly`, `CapitalBackTellsFramesApart`). The
  comment beside `_frame_phys_params` promises every side.
- The bounding-box scan starts from 9999: a grid whose inside cells all lie at or past it is answered with 0
  (`FrameCaches.CircleExtentTightExactly`, `FarCellIsNotTight`).
- The valid-die work cache's key does not carry where a map's geometry comes from (`ValidDie.SharedAnswerExactly`,
  `ProvenanceIsNotInTheKey`).
- A time whose instant lies outside the years 1 to 9999 is spelled but not read back (`TimeText.TimeTextReadsBack`,
  `FirstMidnightIsLost`).
- A configuration file named `.json`, one with a line break in its name, and a clock outside 1969 to 2068 give snapshot
  names that do not read back; a day's second snapshot of such a file is written over the first
  (`ConfigBackup.NameReadsBackExactly`, `OverwrittenExactlyWhereUnreadable`, `NamelessIsWrittenOver`).
- A map key round-trips only while no part but the last holds `_` (`MapKeys.KeyPartsUndoJoin`, `JoinerInAPartTells`).
- A pivot's item filter that a blank cell passes without being recognised as taking it - a compound holding «blank» -
  drops the groups that have no row of the item, and a set that says «blank» for its type keeps groups whose shown blank
  it does not list (`Pivot.KeepsByShownCellExactly`, `HeldBlankDropsTheAbsent`, `TypedSetKeepsTheAbsent`).
- A retraction's application does not ask its plan's ids again. It takes rows of its own source alone, untouched and not
  just derived, exactly where what came between plan and application leaves every planned row as it was planned or has
  taken it already: for one write, where the writer is the same source or wrote none of the keys
  (`Retraction.WriteBetweenHarmlessExactly`); for any run of whole runs, edits, writes and other plans, by the steps
  alone (`GapHarmlessExactly`, an id that is gone not being given again: the engine mints them).
  `WriteBetweenTakesAnothersRow` is a write that makes it take another source's row.
- A stored identity column used as a join key, or as the source column, decides a row's fate: the ban on reading one
  holds in every world exactly where none is (`Derivation.BlindExactlyWhereApart`, `JoinKeyInterferes`).

## Model

| member | source | states |
|---|---|---|
| Printer.LevelBuilds | server/expression.py:698-859 | every tree any level of the parser returns, on any tokens, is one the grammar can build: arities fit, names are canonical, a case has a when |
| Printer.ReadsBack | server/expression.py:698-854 | a built tree printed for a level, before any rest that level does not go on with, is read by that level as itself with the rest left |
| Printer.PrintedParses | server/expression.py:673-859 | printing any built tree and parsing the tokens gives the tree, with nothing left |
| Printer.ParsePrintParse | server/expression.py:673-859 | for every token list: what parsed, printed and parsed again, is the same tree |
| Printer.PrintInjective | server/expression.py:673-859 | two built trees printed alike are one tree: the parentheses keep every shape apart |
| Flat.ParsedIsWritten | server/expression.py:673-859 | for every token list that parses: the tree written flat, one fixed token an operator and no parentheses, is the list without its parentheses and sign pluses, `!=` written `<>` and functions by their own names |
| Tidy.TidyReadsAlike | server/expression.py:673-859 | for every token list that parses: without its sign pluses and with `<>` for `!=` it parses to the same tree |
| Tidy.AroundReadsAlike | server/expression.py:768-797 | parentheses around any built tree, and a plus before any that a sign may stand before, change nothing |
| Scanner.ScanName | server/expression.py:646-654 | the name loop finds the closing bracket and the name with every `]]` read as one `]`, or the end of the text |
| Scanner.ScanText | server/expression.py:626-670 | the scanning loop, step by step over the text, gives what the rules give for the whole text or the same refusal |
| Scanner.SpelledScans | server/expression.py:626-670 | any writable tokens spelled with a space between scan back to those tokens |
| Scanner.ScanFits | server/expression.py:626-670 | every token the scanner gives can be written back |
| Covering.ScanKeepsText | server/expression.py:626-670 | whatever text scans is, in order, blanks and pieces that write its tokens: nothing is lost or read as another token |
| Covering.NumberExactly | server/expression.py:622 | a text is a number exactly as digits, digits.digits or .digits with an exponent or none |
| Scanner.ShownReads | server/expression.py:626-859 | a built tree shown as text reads back to itself, from characters to tree |
| Scanner.ReadShowRead | server/expression.py:911-919 | for every text: if it reads, the tree it reads to, shown and read again, is the same tree |
| ParserMachine.Cursor.Read | server/expression.py:698-811 | the recursive descent at any level leaves the cursor and answers as the grammar says, for every token list; it stops |
| ParserMachine.Cursor.LeftAssociative | server/expression.py:698-766 | the while loops of the seven left-associative levels build the grammar's left-leaning tree |
| ParserMachine.Cursor.NullLevel | server/expression.py:741-750 | `is [not] null` after an additive value, or a refusal where `null` is missing |
| ParserMachine.Cursor.Unary | server/expression.py:768-774 | signs stack from the right and a plus leaves no trace |
| ParserMachine.Cursor.PowerLevel | server/expression.py:776-781 | `^` binds before a sign on its left and takes a signed right side |
| ParserMachine.Cursor.PrimaryReads | server/expression.py:783-811 | literals, names, parentheses, calls and case, and each refusal |
| ParserMachine.Cursor.CallReads | server/expression.py:813-836 | a call's name, `distinct`, arguments and arity check as the grammar says |
| ParserMachine.Cursor.CaseReads | server/expression.py:838-854 | a case's subject, whens and else, at least one when and an `end` |
| ParserMachine.ParseAll | server/expression.py:673-859 | the whole parse agrees with the grammar and refuses what is left over |
| ParserMachine.Compile | server/expression.py:911-919 | a text compiled by the loops is the text read by the rules |
| EvaluatorMachine.Evaluator.Value | server/expression.py:1035-1081 | the memoised evaluator gives the memo-free meaning's value, refusal and marks for every node, row list and row, and keeps the memo sound |
| EvaluatorMachine.Evaluator.ColumnOf | server/expression.py:1016-1021 | a condition's column served from the memo is the column worked afresh, though list identities are reused |
| EvaluatorMachine.Evaluator.PlaceOf | server/expression.py:1024-1028 | the row index served from the memo finds the last place of the row, or reports the miss |
| EvaluatorMachine.Evaluator.FoldValue | server/expression.py:1084-1111 | folds over one column, pairs, several arguments, distinct items and by time agree with the meaning |
| EvaluatorMachine.Evaluator.IfWithRow | server/expression.py:1114-1124 | an If on a row folds its branch over exactly the rows its condition sends there |
| EvaluatorMachine.Evaluator.IfWithoutRow | server/expression.py:1114-1119 | an If with no row takes one branch over all the rows, or none for an empty condition |
| EvaluatorMachine.Evaluator.CaseWithRow | server/expression.py:1140-1146 | a case on a row judges every when on the column and folds the branch over the rows of its first true when |
| EvaluatorMachine.Evaluator.CaseWithoutRow | server/expression.py:1135-1139 | a case with no row takes the first when that holds and judges no later one |
| EvaluatorMachine.Evaluator.NewIdentity | server/expression.py:1016-1028 | a fresh row list gets any identity no held or memoised list has |
| OperatorLaws.SumsUndo | server/expression.py:957-966 | adding and taking away undo each other; the order of a sum and a zero in it do not matter |
| OperatorLaws.ProductsSpread | server/expression.py:957-968 | a product commutes, has one as its unit and spreads over a sum |
| OperatorLaws.QuotientUndone | server/expression.py:969-970 | a quotient times its divisor is what was divided |
| OperatorLaws.RemainderLies | server/expression.py:971-972 | a remainder lies between zero and the divisor, whole divisors away from what was divided |
| OperatorLaws.NegationUndone | server/expression.py:1043-1048 | a number and its negation add up to zero; the negation of no number is empty |
| OperatorLaws.EmptyExactly | server/expression.py:957-976 | a calculation is empty exactly where a side is no number, it divides by zero or the library has no such power, and a number otherwise |
| OperatorLaws.CountedExactly | server/expression.py:952-954 | a row is counted exactly where a side is there and no number |
| OperatorLaws.LogicLaws | server/expression.py:1055-1064 | and, or, xor and not in three values, of any two sides |
| OperatorLaws.NumbersCompare | server/expression.py:981-998 | the seven comparisons of numbers, and of a number with a text that reads as one, are by the numbers |
| OperatorLaws.TextsCompare | server/expression.py:981-998 | texts compare at the first place they differ, or as one the beginning of the other |
| OperatorLaws.FlagsCompare | server/expression.py:981-998 | false stands before true |
| OperatorLaws.VoidsCompare | server/expression.py:981-990 | a comparison with nothing is empty, but `<=>` is true exactly where both sides are nothing |
| OperatorLaws.StrangersCompare | server/expression.py:992-995 | two kinds that are not both numbers are not compared |
| OperatorLaws.NullLaws | server/expression.py:1065-1070 | `is null` is true exactly of nothing; several values are not nothing, and any other refusal passes |
| OperatorLaws.FailsWithItsSide | server/expression.py:1049-1064 | a side that fails fails the operator, the left one first |
| BranchLaws.IfTakes | server/expression.py:1114-1119 | with no row an If is the branch of its condition over all the rows, or nothing |
| BranchLaws.IfTakesOnRow | server/expression.py:1120-1124 | on a row it is the branch of the row's own answer over exactly the rows of that answer, in order |
| BranchLaws.CaseTakes | server/expression.py:1135-1139 | with no row a case is the then of its first when that is true, or equal to its subject, else its else or nothing |
| BranchLaws.CaseTakesOnRow | server/expression.py:1140-1146 | on a row it is the branch of the row's first such when over exactly the rows whose first it is too |
| FoldLaws.FoldSees | server/expression.py:1092-1111 | a fold of one column is the library's of the rows' items in order, once a value where it says so, with its parameters' numbers, by time where the column is of times |
| FoldLaws.PairsSeen | server/expression.py:1094-1100 | a fold of two columns is the library's of the pairs, row after row, where both sides hold a value |
| FoldLaws.ArgumentsInOrder | server/expression.py:1075-1089 | a fold of several arguments and a row function are the library's of the arguments' values in their order, or its refusal |
| FoldLaws.CountIsTheRows | server/expression.py:1086-1087 | a count with no column counts the rows |
| FoldLaws.ItemsInOrder | server/expression.py:931-935 | a list's items are its cells' one after another, however deep, nothing left out but what is nothing |
| FoldLaws.OneValueExactly | server/expression.py:938-945 | a name is refused as several exactly where two of its items differ, else it is their one value or nothing |
| FoldLaws.DistinctByValue | server/expression.py:112-116 | distinct keeps one item a value in the order the values come first |
| FoldLaws.DistinctKeepsLast | server/expression.py:1104-1106 | and of each value the last item |
| Calculator.RunTree | server/expression.py:1149-1174 | a run answers once or row by row as the static analysis says, with the meaning's values, outcome and both counts |
| Calculator.NeverCrashes | server/expression.py:1024-1028 | over every tree and rows, no run looks a row up in its list and misses it |
| Calculator.RunAnswers | server/expression.py:1149-1174 | one value over the rows, or each row's own in order; the first row that fails stops the run with its refusal; the counts are of the different rows marked |
| RowLevel.LooseExactly | server/expression.py:894-900 | what can come to «is a row's value» is exactly what the analysis calls row-level plus the two kinds of fold places it leaves |
| RowLevel.EvalSafe | server/expression.py:1035-1146 | an evaluation's row is always one of its rows, and only a tree that reads a row without one is refused for it |
| RowLevel.NotRowLevelNeverMissesARow | server/expression.py:894-900 | a tree judged not row-level with no such fold is never refused for want of a row, over any rows and library |
| MissingRows.NotRowLevelMissesExactly | server/expression.py:894-900 | a branch-free tree judged not row-level, over rows with one value a name and row functions that answer, is refused for want of a row exactly where it holds a loose fold |
| MissingRows.RefusedExactlyWhereLoose | server/expression.py:1035-1111 | over such rows, on a row or on none, a branch-free tree is refused, and for want of a row, exactly where it is loose; else it answers |
| MissingRows.RunsBetween | server/expression.py:1035-1146 | over such rows, for every tree with fitting calls: one that misses its row outside all branches is refused on every run, and one that is refused at all is refused for want of a row and loose |
| MissingRows.BuiltFits | server/expression.py:813-836 | every tree the parser builds has fitting calls: those statements take it |
| MissingRows.ManyColumnsAlwaysRefused | server/expression.py:1088-1089 | the first exception: a row-wise fold of several arguments, the first a column or any of them surely missing its row, is judged to answer once and refused for want of a row |
| MissingRows.ColumnParameterAlwaysRefused | server/expression.py:1107 | the second exception: a fold with a parameter that is a column, or surely misses its row, is judged to answer once and refused for want of a row |
| RowIndependence.SelectTakes | server/expression.py:1124 | a branch's rows are exactly the rows at the places whose answer is its own |
| RowIndependence.BranchesPartition | server/expression.py:1114-1146 | over all answers of a condition every row stands in the branch lists exactly as often as in the rows |
| RowIndependence.IfPartitions | server/expression.py:1114-1124 | an If's true, false and empty rows add up to the rows, row for row |
| RowIndependence.CasePartitions | server/expression.py:1140-1146 | a case's branches and its else take every row once, by the first true when |
| RowIndependence.OwnRowStays | server/expression.py:1006-1028 | the row a branch is asked on is one of the rows it folds |
| RowIndependence.WholeOnRow | server/expression.py:1035-1146 | a tree that can miss no row has on every row the outcome of judging all its whens with no row |
| RowIndependence.NotRowLevelTellsNoRows | server/expression.py:894-900 | a tree judged not row-level, with no loose fold, has one outcome on any two rows of a list |
| RowIndependence.NotRowLevelAnswersOnce | server/expression.py:894-900 | such a tree has the same outcome on a row as on none exactly where, with no row, judging every when gives what stopping at the first that holds gives |
| RowIndependence.CaseAgreesExactly | server/expression.py:1127-1146 | a case whose parts agree has the same outcome on a row as on none exactly where all its whens answer, or the first that does not is not stopped before, or is at a branch failing with its fault |
| RowIndependence.SameOnRow | server/expression.py:1035-1146 | a corollary: where every when answers, a tree that can miss no row has one value or outcome with a row and without |
| RowIndependence.CaseOnRowNeedsEveryWhen | server/expression.py:1140 | a case whose parts agree fails on a row as soon as one of its whens does, taken or not |
| RowIndependence.LaterWhenTells | server/expression.py:1127-1146 | a tree judged not row-level that is true with no row and false on a row |
| OrderStatistics.SortedIsSorted | server/expression.py:350-355 | sorting gives the values in order, each as often as before |
| OrderStatistics.PctGrows | server/expression.py:350-355 | for 0 <= p <= q <= 1 the percentile does not fall |
| OrderStatistics.PctBetween | server/expression.py:350-355 | a percentile lies between the least and the greatest value |
| OrderStatistics.MedianIsHalf | server/expression.py:336-339 | the median is the 50th percentile |
| OrderStatistics.FiveInOrder | server/expression.py:358-377 | LAV <= Q1 <= Median <= Q3 <= UAV |
| OrderStatistics.QuartersStand | server/expression.py:350-363 | among n sorted values a quarter's percentile stands r quarters past the k-th, where quarters times n - 1 is 4k + r |
| OrderStatistics.FencesStand | server/expression.py:358-377 | quartiles and median are those quarters, and the fences stand three halves of the range between the quartiles beyond |
| OrderStatistics.OutliersOutsideFences | server/expression.py:380-381 | the outliers counted are exactly the values outside the 1.5 IQR fences |
| OrderStatistics.OrderDoesNotMatter | server/expression.py:350-355 | two orders of the same values have the same percentiles |
| Calendar.OrdinalGrows | server/expression.py:174-202 | day numbers keep the order of Gregorian dates, leap years included |
| Calendar.OrdinalBack | server/expression.py:174-202 | every day number is the number of the real date counted up to it |
| Calendar.MonthsAreGregorian | server/expression.py:174-202 | the days of every month, leap years by fours, hundreds and four hundreds |
| TimeText.TimeTextReadsBack | server/expression.py:174-212 | a time spelled for the calculators reads back cut to milliseconds, exactly where its instant is of the years 1 to 9999, else as no time |
| TimeText.FirstMidnightIsLost | server/expression.py:174-212 | the first midnight of year 1, nine hours ahead, is spelled and read as no time |
| TimeText.IsoTextReadsBack | server/map_overlay.py:193-199 | a time spelled for a key reads back to itself, to the microsecond, under the same condition |
| TimeText.KeyTextSettles | server/map_overlay.py:193-199 | spelling a key's time twice is spelling it once, for every text, times or not |
| TimeText.OneTextExactlyOneInstant | server/map_overlay.py:193-199 | two times get one key text exactly when they are one instant, whatever offsets they are written with |
| TimeText.ClockIsLawful | server/map_overlay.py:179-182 | the zone's clock is a reader a canonical map key may use |
| TimeText.ClockIsAheadByTheDifference | server/expression.py:174-206 | on a zone's clock a time is later than written by as much as the zone is ahead of its offset |
| TimeText.FormsRead | server/expression.py:129-212 | every form a time may be written in reads to its day, time of day and offset: `T` or a blank, seconds and one to six digits or none, blanks, Z, and an offset with a colon or without |
| Frames.CellThereAndBack | server/utils/coordinate_transformer.py:48-108 | cell to die and die to cell undo each other for all rotations and sides, at every integer cell |
| Frames.GridOntoGrid | server/utils/coordinate_transformer.py:38-77 | the cells of a frame's visual grid are the dies of the physical grid, one for one |
| Frames.VisualThereAndBack | server/utils/coordinate_transformer.py:136-178 | stored coordinates to dies and back are the identity, both ways, for every start, box and y-invert |
| Frames.FirstCellIsTheStart | server/utils/coordinate_transformer.py:136-178 | the first cell of the box is written as the start, and the next to the right or down one more, or where y runs up one less |
| Frames.TransformUndone | server/map_overlay.py:1383-1450 | source to target to source is the identity for all grids, starts, boxes and coordinates |
| Frames.TransformsCompose | server/map_overlay.py:1383-1450 | going through a third frame is going straight |
| Frames.EqualFramesMoveNothing | server/map_overlay.py:1607-1609 | frames alike in every axis leave coordinates where they are: the shortcut is sound |
| Frames.LinearPartIsSigned | server/map_overlay.py:1476-1516 | the linear part of two declared frames is a signed permutation |
| Frames.LinearPartIsProduct | server/map_overlay.py:1453-1516 | it is the matrix product of the declared axes' own tables, in the source's order |
| Frames.DifferencesMoveLinearly | server/map_overlay.py:1476-1521 | coordinate differences move exactly by the linear part - row by row its entries times the differences - whatever the grids, starts and boxes |
| Frames.EquationsAreTheTransform | server/dt_frame_transform.py:27-111 | the base, sign and offset read from three probes exist for every quarter turn and equal the transform at every coordinate |
| Frames.EquationsCountTheDie | server/dt_frame_transform.py:27-111 | the stored equations count a coordinate's die from the corner of the standard box, starting with 1 |
| Frames.EquationsSeparate | server/dt_frame_transform.py:44-111 | the two stored equations never send two coordinates to one |
| Wafer.InsideIsFrameFree | server/map_overlay.py:1151-1195 | a cell is inside the wafer by a frame's parameters exactly when its die is by the raw ones, for all grids, pitches, offsets, margins, rotations and sides read alike |
| Wafer.InsideIsWithinTheMargin | server/utils/physical_wafer_engine.py:1-60 | a die is inside exactly where its chip's four corners lie within half the diameter less the margin |
| Wafer.NormIsFrameFreeExactly | server/map_overlay.py:1151-1195 | the two centre distances agree exactly when the sides are read alike, there is no x offset, or the die is on the middle column |
| Wafer.CapitalBackTellsFramesApart | server/map_overlay.py:1185-1187 | a frame with side «Back» and an offset whose cell is inside by one reading and outside by the other |
| FrameCaches.BoundingBox | server/utils/coordinate_transformer.py:110-134 | the scan over the visual grid gives the extent of the inside cells with its sentinels |
| FrameCaches.CircleExtentTightExactly | server/utils/coordinate_transformer.py:110-134 | that extent is the tight box exactly when some inside cell lies left of and some above the sentinel |
| FrameCaches.FarCellIsNotTight | server/utils/coordinate_transformer.py:110-134 | a wafer of one die at the end of 10000 columns of pitch 1, its one inside cell at column 9999, is answered with 0 for its left side |
| FrameCaches.ExtentIsTight | server/map_overlay.py:1359-1360 | the mask's box holds every masked cell and touches one on each side |
| FrameCaches.CellsOnMask | server/map_overlay.py:1352-1354 | the cells listed are exactly the cells whose die is in the mask |
| FrameCaches.ExtentOf | server/map_overlay.py:1359-1360 | the least and greatest column and row of the listed cells |
| FrameCaches.AxesBuild | server/map_overlay.py:1204-1242 | maps of equal axes build the same transformer: the key carries everything |
| FrameCaches.AxesOrigin | server/map_overlay.py:1330-1364 | maps of equal axes have the same origin box under a mask |
| FrameCaches.OriginStands | server/map_overlay.py:1330-1364 | the box is tight around the mask's cells where one is on the grid, else the circle's, which it stands on exactly without a mask |
| FrameCaches.BasisIsFrameFree | server/map_overlay.py:1330-1364 | what the box stands on is the same for every frame of one grid, and is the mask exactly when a die of it lies on the grid |
| FrameCaches.Caches.FrameTransformer | server/map_overlay.py:1204-1242 | a transformer from the cache is the one that would be built, over any sequence of calls and clearings |
| FrameCaches.Caches.OriginBox | server/map_overlay.py:1330-1364 | an origin box from the cache, and the name of its basis, are the uncached ones, branch by branch |
| FrameCaches.Caches.Bridge | server/map_overlay.py:1631-1647 | one record to another's frame: straight, refused for want of ground, or moved by both transformers |
| FrameCaches.CarriedIsTheSameDie | server/map_overlay.py:1383-1450 | a passage leads a coordinate to the coordinate of the same die in the target's own frame and box, and to no other |
| FrameCaches.GroundExactly | server/map_overlay.py:655-760 | straight exactly for equal axes; else moved exactly where both maps are of one grid, both geometries stood for and both records readable |
| FrameCaches.PassageNeedsGround | server/map_overlay.py:1591-1647 | two targets of equal axes are reached alike exactly when their geometries are alike as ground, or ground is not asked for |
| ValidDie.WrittenReadsBack | server/map_overlay.py:2329-2487 | a declaration written and read back is the declaration read; nothing unreadable is stored and a blank clears |
| ValidDie.DeclaresWhatItNames | server/map_overlay.py:2329-2400 | a text or object declares the trimmed map it names in the table it names, else in the declarer's own; a blank name is not read |
| ValidDie.SharedAnswerExactly | server/map_overlay.py:2737-2756 | two maps of one cache key get one status and one set of dies exactly when their geometries are alike as ground to compute on, or the answer never comes down to that |
| ValidDie.ProvenanceIsNotInTheKey | server/map_overlay.py:2737-2756 | a measured and a filled-in map that share a key and not an answer |
| ValidDie.Work.ResolveUncached | server/map_overlay.py:2759-2889 | the resolution's branches in their order: table, binding, chain, record, frame, cap, no data, dies |
| ValidDie.Work.Carry | server/map_overlay.py:2866-2871 | the dies are the reference's complete cells, each carried over |
| ValidDie.DiesAreTheReferences | server/map_overlay.py:2759-2889 | an answer of dies is exactly the asker's coordinates of the dies of the reference's complete cells |
| ValidDie.DiesExactlyWhere | server/map_overlay.py:2759-2889 | there is such an answer exactly where nothing refuses |
| ValidDie.Work.Resolve | server/map_overlay.py:2697-2756 | an answer is the one shared under the key or the asker's own, and what is kept is an uncached answer |
| ValidDie.Work.ResolveAll | server/map_overlay.py:2697-2756 | over any sequence of maps on any cache, records handed along or looked up, those of one key - met now or before - alike as ground or not asked for it: every answer is the uncached one |
| MapKeys.CanonicalSettles | server/map_overlay.py:139-190 | a component canonicalised by its declared type twice is canonicalised once |
| MapKeys.NothingExactly | server/map_overlay.py:139-190 | a component is no identity exactly where it is blank or a number text that float reads as none; a plain one keeps its trimmed text |
| MapKeys.TrimTakesTheEnds | server/map_overlay.py:139-190 | trimming takes the blanks at both ends and nothing else |
| MapKeys.OneIdentityExactlyOneInteger | server/map_overlay.py:139-190 | two integer texts of a number column are one identity exactly when they spell one integer |
| MapKeys.ComposeMapId | server/map_overlay.py:244-260 | the loop over the identity columns joins each component's canonical text |
| MapKeys.KeyPartsUndoJoin | server/map_overlay.py:2056-2073 | splitting a composed key returns its parts exactly when no part but the last holds the joiner |
| MapKeys.JoinerInAPartTells | server/map_overlay.py:2056-2073 | parts `A_B` and `C` come back as `A` and `B_C` |
| MapKeys.JoinSplit | server/map_overlay.py:2066-2072 | splitting a key loses none of it |
| MapKeys.CanonicalMapKey | server/map_overlay.py:2094-2112 | the loop canonicalises every piece of a key and joins them again |
| MapKeys.ComposedKeyStays | server/map_overlay.py:2094-2112 | a composed key is already canonical, whatever its components were spelled like, while it can be split |
| Derivation.ResolveIdentitySources | server/dt_map_derivation.py:378-405 | every identity column is filled from an exposed column of its name or its confirmed twin, or named as unresolved - never from the stored one |
| Derivation.HoldBack.Add | server/dt_map_derivation.py:601-628 | the counts and the first five samples are those of the rows held back, reason by reason |
| Derivation.Deriving.PassageFor | server/dt_map_derivation.py:759-772 | a transform from the cache is that of its map and frame text |
| Derivation.Deriving.EvidenceFor | server/dt_map_derivation.py:721-773 | the gates before the coordinates in their order, through both caches |
| Derivation.Deriving.FateFor | server/dt_map_derivation.py:718-815 | a row's cell or its one named reason |
| Derivation.Deriving.DeriveCells | server/dt_map_derivation.py:650-824 | the cells and the rows held back are those of the rows one by one; the call breaks exactly when a record does |
| Derivation.FrameSaysExactly | server/dt_map_derivation.py:422-457 | a frame text is read exactly as the quarter turn and the side it names, in any case and padding |
| Derivation.CellLiesByItsFrame | server/dt_map_derivation.py:718-815 | a row that becomes a cell lies, on the map its identity names, at the coordinate of the die its own coordinate is in a frame of that map turned as the row's frame text says |
| Derivation.GatesInOrder | server/dt_map_derivation.py:718-815 | the first gate a row does not pass names its reason and the key it is sampled by |
| Derivation.CellHolds | server/dt_map_derivation.py:650-716 | a cell holds its identity, its place, its source and the declared columns it carries, each with the row's or the confirmed value, and nothing else |
| Derivation.PlacesStayApart | server/dt_map_derivation.py:784-790 | under one map and frame two raw coordinates never fall on one cell |
| Derivation.ReasonsAddUp | server/dt_map_derivation.py:601-628 | beside HoldBack.Add: the counts by reason add up to the rows held back |
| Derivation.DerivationConserves | server/dt_map_derivation.py:650-824 | beside DeriveCells: derived and held rows add up to the input |
| Derivation.StoredIdentityIsNotRead | server/dt_map_derivation.py:408-415 | two rows that differ in forbidden stored identity columns alone have one fate |
| Derivation.DerivationDoesNotInterfere | server/dt_map_derivation.py:650-824 | two inputs that differ in those columns alone give equal cells and equal holds |
| Derivation.BlindExactlyWhereApart | server/dt_map_derivation.py:650-824 | the ban holds in every world, for all rows, exactly where no stored identity column is a join key or the source column |
| Derivation.JoinKeyInterferes | server/dt_map_derivation.py:721-733 | with a stored identity column as the join key the two fates differ |
| Retraction.DtMap.PlanRetraction | server/dt_map_derivation.py:868-941 | the plan counts the source's rows; it is declined exactly where the population is large enough and the retractable ones are more than the budget's share of it; else it lists exactly the stale, untouched ones |
| Retraction.DtMap.ApplyRetraction | server/dt_map_derivation.py:944-977 | chunk by chunk exactly the listed rows go, and the count is of the rows that were there |
| Retraction.DerivedKeysOf | server/dt_map_derivation.py:1091-1124 | the keys the write came back with, refused exactly when one came back without |
| Retraction.PlanTakesOnlyItsOwn | server/dt_map_derivation.py:868-941 | a row taken carried the source, was not touched and was not just derived, and an acting plan keeps within its share |
| Retraction.RunLeavesDerivedAndProtected | server/dt_map_derivation.py:868-977 | after an undeclined run its source owns exactly its derived keys and the protected rows |
| Retraction.WithinBudgetNoneIsLeft | server/dt_map_derivation.py:868-977 | after a run within the budget no stale untouched row of the source is left, and every other row is as it was |
| Retraction.DeletedOnlyByItsSource | server/dt_map_derivation.py:868-977 | in every history a row goes only by an undeclined run of the source it carries that did not derive its key and found it untouched |
| Retraction.TableIsTheLedger | server/dt_map_derivation.py:868-977 | over any history of runs by any sources and human edits, the table holds each key with the source and mark its events say, or not at all |
| Retraction.OwnedExactlyByLastWord | server/dt_map_derivation.py:868-977 | a key is a source's exactly when it derived it last and every run of it since was declined or found the row touched |
| Retraction.WriteBetweenHarmlessExactly | server/dt_map_derivation.py:944-977 | after one write between, the planned ids are all still the source's, untouched and not just derived, exactly where the writer is the source itself or wrote none of their keys |
| Retraction.RowIsItsSteps | server/dt_map_derivation.py:944-977 | a planned row at any later table is what the steps since make of it, from the steps alone |
| Retraction.GapHarmlessExactly | server/dt_map_derivation.py:944-977 | after any run of whole runs, edits, bare writes and other plans' applications between, the same, exactly where the steps leave each planned row as planned or have taken it |
| Retraction.WriteBetweenTakesAnothersRow | server/dt_map_derivation.py:944-977 | a plan applied after another source's write takes a row that source just derived |
| ImageSweep.Folder.Sweep | server/image_sources.py:473-527 | one sweep's marks and deletions, with unread columns, refused declarations, files that will not go and a state file that cannot be written |
| ImageSweep.Folder.Count | server/image_sources.py:500-504 | the marks after the pass's own look: a held picture's taken off, a new one's today |
| ImageSweep.MarkedSince | server/image_sources.py:447-470 | in every run a day in the state file is that of a completed sweep that saw the picture unreferenced, as every completed one since did |
| ImageSweep.DeletedOnlyAfterWaiting | server/image_sources.py:473-527 | in every run a picture goes only if a completed sweep at least keep_days earlier and every completed one since saw it unreferenced |
| ImageSweep.WaitedOutIsDeleted | server/image_sources.py:473-527 | in every run a picture a completed sweep saw unreferenced keep_days ago, unreferenced since, goes, unless it cannot be removed |
| ImageSweep.UnreadDeletesNothing | server/image_sources.py:482-497 | a sweep that could not read a column changes nothing, one without keep_days deletes nothing |
| ImageSweep.DamageOnlyDelays | server/image_sources.py:447-470 | two runs alike but for damage to the state file: the damaged one never has fewer pictures |
| ConfigBackup.NameReadsBackExactly | server/config_backup.py:172-205 | a snapshot's name parses to what it was built of exactly for a stem on one line and a year of 1969 to 2068 |
| ConfigBackup.ParsedIsBuilt | server/config_backup.py:195-205 | a name that parses is the name built of what it parses to |
| ConfigBackup.NameOrderIsEntryOrder | server/config_backup.py:172-237 | within a century names sort as date and letter do |
| ConfigBackup.Backups.ListSnapshots | server/config_backup.py:208-237 | a file's snapshots are exactly those of the directory, in order of date and letter |
| ConfigBackup.Backups.TakeOne | server/config_backup.py:313-349 | a file's turn skips what today's last snapshot holds, else takes a name not in the directory, or refuses past z; other files' snapshots stay |
| ConfigBackup.SkippedExactly | server/config_backup.py:313-335 | nothing is taken exactly where today's last snapshot holds the content, and no letter is left exactly where b to z are used |
| ConfigBackup.TakenTwiceIsOnce | server/config_backup.py:313-335 | taking a content twice is taking it once |
| ConfigBackup.OutsideExactly | server/config_backup.py:264-275 | a snapshot is outside the window exactly where its midnight is more than 31 days ago |
| ConfigBackup.Backups.Prune | server/config_backup.py:264-283 | pruning removes of all but the newest four exactly those outside the window, and nothing of another file |
| ConfigBackup.Backups.TakeSnapshot | server/config_backup.py:286-355 | a pass over the directory is each file's own step, taken and pruned, whatever the other files do |
| ConfigBackup.PrunedExactly | server/config_backup.py:264-283 | of a file's ordered snapshots the last four and those in the window stay as they are, and only those |
| ConfigBackup.SnapshotStaysExactly | server/config_backup.py:264-355 | over any run a snapshot stays with its content exactly until a pass finds it outside the window with four newer ones, and never comes back |
| ConfigBackup.NewestIsTheLatestTaken | server/config_backup.py:286-355 | over any run on a clock that does not run back, the newest snapshot by name holds the content taken last |
| ConfigBackup.OverwrittenExactlyWhereUnreadable | server/config_backup.py:316-340 | in any directory, the name a turn takes is there already exactly where the file's names of the day do not read back and the day's first name is there |
| ConfigBackup.NamelessIsWrittenOver | server/config_backup.py:316-340 | a file named `.json`: the day's second content takes the first one's name |
| BatchCutter.Trim | server/event_constants.py:1040-1067 | the cut is the non-empty prefix that fits the smallest cap it holds or is a single event, and one event more would not fit |
| BatchCutter.CutIsOne | server/event_constants.py:1040-1067 | there is only one such cut |
| BatchCutter.Drain | server/event_constants.py:1040-1067 | cutting again and again delivers every event once, in order, in at most as many batches as events, each fitting |
| BatchCutter.EveryCapIsKept | server/event_constants.py:1040-1067 | a batch of several passes neither the budget nor any cap in it |
| BatchCutter.SaidRowsAreKept | server/event_constants.py:1028-1067 | events counted by what they say, or else by what they name: a batch of several stays within the budget and every cap |
| ColumnFilter.TranslateCompound | server/column_filter.py:120-131 | the loop over a compound's conditions collects the ones that narrow and refuses with the first refused |
| ColumnFilter.KeepsWhatPasses | server/column_filter.py:97-255 | for every filter, column and cell, SQL's three-valued condition keeps the row exactly when the filter takes the cell |
| ColumnFilter.SetKeeps | server/column_filter.py:198-215 | a set filter keeps the cells equal to a listed value, and the blank ones exactly when a null is listed |
| ValueList.SkippedValues | server/grid_read.py:454-479 | the walk of one probe a value gives the column's values in order, stopped at the cap with nothing left out before |
| ValueList.RoutesAgree | server/grid_read.py:409-479 | the walk and the DISTINCT read give the same values, blank entry and `more`, for all rows and caps |
| ValueList.ListIsTheLeast | server/grid_read.py:409-451 | the list is the least values in order up to the cap, with the blank where a row has one and `more` exactly where a value is left off |
| ValueList.SetFiltersPartition | server/grid_read.py:409-451 | when `more` is false the set filters of the listed values keep every narrowed row under exactly one of them |
| Pivot.Narrow | server/grid_pivot.py:191-209 | the rows left are those whose group every item filter keeps; one that cannot be read refuses |
| Pivot.KeepsByShownCellExactly | server/grid_pivot.py:191-217 | an item filter keeps a group as its shown cell passes, except where the item has no row and the filter passes a blank unrecognised, and where a set typed «blank» does not list the blank cell |
| Pivot.HeldBlankDropsTheAbsent | server/grid_pivot.py:191-217 | a compound holding «blank» drops every group with no row of the item, whose shown blank it passes |
| Pivot.TypedSetKeepsTheAbsent | server/grid_pivot.py:212-217 | a set of one value typed «blank» keeps every group with no row of the item |
| Pivot.BlankTakersKeepShown | server/grid_pivot.py:191-217 | a filter recognised as taking the blank keeps exactly the groups whose shown cell passes, or is a blank a set typed «blank» does not list |
| Pivot.JoinedMinIsOwn | server/grid_pivot.py:247-253 | the joined MIN of a group is its own value of the item, missing where it has none |
| Pivot.JoinSortsByOwnValue | server/grid_pivot.py:226-255 | a page sorted by the join is the page sorted by each group's own value, missing last either way |
| Pivot.PageStands | server/grid_pivot.py:226-255 | of two groups the earlier has the smaller value, or turned round the greater, those without one last, like values by the keys |
| Pivot.RowsOfExactly | server/grid_pivot.py:285-294 | SQL selects a row for a page exactly when its keys are a group of it, absent parts included |
| Pivot.Fold | server/grid_pivot.py:297-326 | every group of the page and every shown row's cell is filled, by the last row of its group and item |
| Pivot.FoldLosesNothingExactly | server/grid_pivot.py:297-326 | unpivoting a folded page returns exactly the rows it shows, exactly when no two of them share keys and item |

## Left out

- Numbers are exact reals: floating-point rounding, NaN, infinity, overflow to empty and JavaScript's number spelling
  are not modelled, nor are the transcendental functions; the calculator's function table is a parameter with its
  shapes.
- A number's digits are 0 to 9: the scanner's and the snapshot name's patterns also take other Unicode digits.
- Lower case is that of ASCII letters: a side or a frame text with other letters that fold to ASCII is not modelled.
- A time's zone is one fixed offset of whole minutes; zones whose offset changes, and datetime objects as the database
  hands them, are not.
- Refusal sentences and positions: only which refusal it is.
- A reference's own way (`.` and `~` in a name) is refused by the parser as in the source and nothing more is said of
  it.
- Map key components come as texts or nothing: numbers, booleans and datetimes in other carriers are not modelled, and
  float's spelling is a reader with the law its spelling keeps.
- The valid-die work's `detail` sentences and declared table in the answer, and the align summary and translation shown
  beside it, are not; the binding of the reference table is four yes-or-no facts.
- The join rules of a derivation come resolved: reading them, the unique index they need and chunked loading are not
  modelled; attribution tables are maps from a key to a row.
- A human overwrite of the source column itself, which the batch write would leave standing, is not modelled: a write
  gives its rows to its source.
- `normalize_scoped_batch` and `normalize_retraction_request` check an envelope; their claims are easy beside the
  retraction's.
- The two older snapshot directories, I/O errors while taking or pruning a snapshot, names ending in a line break, and
  `due` are not modelled.
- The thumbnails kept in memory, the reading of pictures from folders, addresses and databases, and the walk that lists
  received files are not.
- `_SameKeyPart` is equality with an absent part equal to an absent part; the two dialect texts it compiles to are not.
- A pivot's carried columns, entry order, item names and its value list with groups that have no row of the item are
  not.
- MissingRows.NotRowLevelMissesExactly: says nothing of trees with an If or a case, whose refusals hang on the values
  that choose the branch; `RunsBetween` bounds them from both sides. Rows that hold several values of a name, or a row
  function that refuses, may refuse a run first.
- The count-cache key of the grid read, saved filters' JSON text and the column override of the filter are not.
- HTTP, sessions, files, logging, processes and the clients are not part of this model.
