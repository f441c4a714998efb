# Exodus: a verified model of its hard parts

Exodus is a C++ library and set of commands for multivalue databases. This project models, in Dafny, the logic of
Exodus that sits above its string type `var`, and proves what that logic is for.

A multivalued text is a string with marks (or, where only one kind of mark matters, the sequence of its values);
reading past the end gives the empty text, and a field of one empty value is the same text as an empty field.

| file | part of Exodus |
|---|---|
| `Common.dfy` | what several parts share: optional values, digits, lower case |
| `MultiValue.dfy`, `Unrolling.dfy` | the report command `nlist`: the in-step unrolling of multivalued columns into printed rows |
| `ControlBreaks.dfy`, `Report.dfy` | `nlist`: control breaks and their totals, as a reference definition and as the loop over work arrays |
| `ReportMeaning.dfy` | what such a report shows, in terms of the texts and numbers of its records alone |
| `LimitFilter.dfy` | `nlist`: deleting the values that a limit does not select from parallel fields |
| `Headings.dfy`, `HeadingTable.dfy`, `HeadingRows.dfy` | `htmllib2`: merging equal column headings into spanning cells, and putting them out row by row |
| `TagValidator.dfy`, `TextToHtml.dfy`, `TextDocument.dfy` | `htmllib2`: the tag validator, and the conversion of marked-up text to HTML |
| `TextPage.dfy`, `PageExamples.dfy` | what a reader sees of a converted page, and the pages of one and two lines word for word |
| `Tidy.dfy`, `TidyLevels.dfy`, `TidyTwice.dfy` | `htmllib2`: the HTML formatter |
| `TagNames.dfy` | `htmllib2`: tags by their names, for the validator and for the formatter |
| `AddUnits.dfy`, `DecimalNumbers.dfy` | `htmllib2` and the program runtime: adding lists of amounts with units, and numbers written in decimals |
| `RecordLock.dfy`, `DictCache.dfy` | the program runtime: record locks, and the cached dictionary lookup of `calculate` |
| `ParallelFields.dfy`, `SortArray.dfy` | the program runtime: sorting parallel fields |
| `Callable.dfy` | the life of objects made through shared libraries |
| `JobPool.dfy`, `OsThread.dfy` | parallel jobs and their results; a worker between two queues |
| `ShellQuote.dfy` | `list`: rebuilding a command line for the shell |
| `FieldSql.dfy` | `dict2sql`: the database functions that replace and remove a field |

Code that works by changing things in place is a method over a class or an array, proved equal to a function of
the old state; the properties are then lemmas about that function, among them what it means in terms of names, numbers and
texts alone. Protocols between threads or processes are
state machines, and what is claimed of them holds after every finite sequence of events.

## What the proofs found

Several laws fail in corners of the code. The code is kept as it is, and what is proved is the exact condition under
which the law holds, or an input for which it fails, or both:

- A report of exactly one record prints no totals, not even a grand total (`ControlBreaks.GrandTotalPrinted`).
- A break column that is itself totalled never has its value remembered, so it breaks between equal values
  (`ControlBreaks.RunsNeedPlainBreaks`).
- Two plain numbers added to an empty total are lost, but not when one of them ends in a point
  (`AddUnits.PlainNumbersLost`). A number that ends in a point, such as `3.`, has the point for its unit in every
  addition but that of two plain numbers, so `2` and `3.` give `5` and the unit loses what it had
  (`DecimalNumbers.PointMoves`, `AddUnits.NothingLostIff`).
- Sorting parallel fields by a key whose first values are empty leaves those rows last, whatever the order
  (`SortArray.ColumnOrdered`, `SortArray.EmptyKeyLast`).
- A dictionary record cached from the shared dictionary and found again under its name in the other case is no longer
  taken for a shared one, so that a function is looked for in the wrong library; a field is still read rightly
  (`DictCache.OtherCaseAstray`, `DictCache.CacheAgreesIff`).
- A lock asked for in a transaction stays when the call is refused for a lease (`RecordLock.FalseLeavesLocksIff`,
  `RecordLock.LeaseKeepsLock`).
- A header cell to the right of a cell marked as no cell ends up in the wrong column (`HeadingTable.TableFormsBack`,
  `HeadingTable.MarkedShifts`).
- Initialising a callable built with its library and function names reports success without an object
  (`Callable.ReadyWithoutProgram`).
- The destructor of the worker thread never returns: it waits for the worker with the lock that the worker needs
  (`OsThread.DestructorNeverReturns`).
- Words of a command line in quotes of their own do not always come back from the shell (`ShellQuote.QuotesLost`,
  `ShellQuote.WordKeptIff`, and for whole lists of words `ShellQuote.ListKeptIff`).
- A callable initialised in a second environment with the names it has keeps a library that the cache of that
  environment does not know (`Callable.TwoEnvironments`, `Callable.InitCaches`).
- Formatting a page with line breaks again adds further lines (`TidyTwice.LineBreakMoves`, `TidyTwice.TidyTwiceIsOnce`).
- A tag in a code block is copied unchanged and can break the page (`TextDocument.CodeCanBreak`); the page holds if
  the tags of each stretch of code are whole and balanced (`TextDocument.DocumentWellNested`).
- A collecting loop waits in vain exactly if more jobs of the pool have no result queue than there are jobs and results
  that a reset left uncounted (`JobPool.AskInVainIff`), and then for ever (`JobPool.InVainForEver`,
  `JobPool.StuckForEver`, `JobPool.WaitsInVain`).

Where the code and its own description differ, the model follows the code: the assertions beside the text conversion
(`cli/htmllib2.cpp:1558-1561`) take `#` to start a numbered list, but only digits followed by a dot and a space do; the
addition of units asks for a list in alphabetic order, but puts a new unit at the end.

## Model

| member | source | states |
|---|---|---|
| MultiValue.ReadTakesFirst | cli/nlist.cpp:1718 | reading a multivalued text at a cursor takes exactly the first leaf not yet read and leaves the others |
| MultiValue.NextValueNo | cli/nlist.cpp:1718 | a read passes one value mark if the leaf ends at a value mark, and none otherwise |
| Unrolling.DeepestIsMax | cli/nlist.cpp:1721-1723 | the new mark level is the deepest mark at which any column stopped |
| Unrolling.PassReads | cli/nlist.cpp:1715-1724 | every pass over the columns reads at least one leaf, so the loop back to the next row ends |
| Unrolling.RowsShowUnread | cli/nlist.cpp:1715-1724 | from any state between passes, the rows still to come show, column by column, the leaves not yet read |
| Unrolling.EveryLeafOnce | cli/nlist.cpp:1708-1752 | for any marks in any columns, every leaf of every column is shown exactly once, in order |
| Unrolling.LockStep | cli/nlist.cpp:1716-1724 | columns that stand at the same mark with the same marks ahead are read and blanked together in every row |
| Unrolling.SameMarksLockStep | cli/nlist.cpp:1716-1724 | columns of the same shape are in lock step over a whole record |
| Unrolling.ValuesSideBySide | cli/nlist.cpp:1846-1853 | values associated by number print side by side in every row, however unequal their numbers of subvalues |
| ControlBreaks.StartIsRunStart | cli/nlist.cpp:1687-1702 | a run starts at the last break of its level or above, and there is none inside it |
| ControlBreaks.BreakMeansDisagree | cli/nlist.cpp:1694-1701 | unless break columns are totalled, a level breaks between two records exactly if they differ at it or above |
| ControlBreaks.PrintedIsMaximalRuns | cli/nlist.cpp:1687-1706 | the totals rows of a level are exactly the maximal runs of consecutive records that agree on it and above, but for the rows dropped by the option of the level or for having no cell, unless there is one record |
| ControlBreaks.ReportRowsArePrinted | cli/nlist.cpp:2358-2363 | dropping the rows of a level with the option and those without a cell leaves exactly the rows of the spans printed, in order |
| ControlBreaks.PrintedOnce | cli/nlist.cpp:2177-2180 | no run is printed twice |
| ControlBreaks.RunsNeedPlainBreaks | cli/nlist.cpp:2221-2269 | the totals are those of maximal runs for all records if and only if no break column is totalled |
| ControlBreaks.TotalsConserved | cli/nlist.cpp:1874-1879 | at every level that is closed at the end and not dropped by its option the printed totals, with those of rows without a cell, add up to the sum of all records, unless there is exactly one; without the latter when a row without a cell has nothing to total |
| ControlBreaks.GrandTotalPrinted | cli/nlist.cpp:1875-1878 | a row with the sum of all records above all levels is printed if and only if it is asked for, is dropped neither by the option nor for having no cell, and there is not exactly one record |
| Report.CarryStep | cli/nlist.cpp:2225-2256 | printing a level adds its total to the next level and leaves zero |
| Report.CarryCloses | cli/nlist.cpp:2177-2256 | closing levels 1 to b leaves them empty and level b + 1 with the sum since its own last break |
| Report.ClosingRowsMeaning | cli/nlist.cpp:2177-2256 | the rows printed by closing levels are, for each, the sum over its run, the run's old break value, and for the other columns their old break values or the word Total |
| Report.HoldsStep | cli/nlist.cpp:1726-1752 | breaking and adding a record keeps: levels 1 to l together hold the sum since the last break of level l |
| Report.LastPass | cli/nlist.cpp:1846-1862 | the pass after which nothing is left completes the record's rows and its totals |
| Report.MiddlePass | cli/nlist.cpp:1846-1853 | what a record has printed and added so far, with what it still will, is the whole record, and the rest shrinks |
| Report.Engine.constructor | cli/nlist.cpp:1682-1708 | a new report is in the state of no record processed |
| Report.Engine.PrintTotal | cli/nlist.cpp:2221-2256 | one column's total is returned, carried and cleared, and no other column changes |
| Report.Engine.PrintLevel | cli/nlist.cpp:2177-2311 | one level's row has its totals, its old break value and the other cells; totals are carried and the new break value is stored |
| Report.Engine.PrintBreaks | cli/nlist.cpp:2177-2363 | levels 1 to b are printed in turn, but none for the first record, no level with the option to drop it and no row without a cell; totals are always carried |
| Report.Engine.DetectBreak | cli/nlist.cpp:1694-1701 | the level found is the highest whose column differs from its remembered value |
| Report.Engine.ReadColumn | cli/nlist.cpp:1717-1720 | a column is read if and only if it stopped at the previous mark level or deeper |
| Report.Engine.ReadPass | cli/nlist.cpp:1715-1724 | all columns of one row are read so, and the new mark level is the deepest |
| Report.Engine.AddTotals | cli/nlist.cpp:1727-1752 | what was read of totalled columns is added to level 1 and emptied, so that it is not added again |
| Report.Engine.OnePass | cli/nlist.cpp:1715-1752 | a pass prints the row of the reference definition and adds its amounts |
| Report.Engine.RecExit | cli/nlist.cpp:1711-1853 | a record's detail rows are those of the unrolling, and every leaf is added once |
| Report.Engine.RecExitSuppressed | cli/nlist.cpp:1711-1754 | without detail the first value of each totalled column is added and nothing is printed |
| Report.Engine.RecInit | cli/nlist.cpp:1666-1685 | the columns of a record are loaded and all stand at their start |
| Report.Engine.NextRecord | cli/nlist.cpp:1688-1862 | after each record the details, the totals rows, the open totals and the remembered values are those of the definition |
| Report.Engine.Run | cli/nlist.cpp:1874-1879 | for any records the report is the reference report, grand total included if asked for |
| Report.Engine.DetectedIsBreakLevel | cli/nlist.cpp:1687-1706 | the level detected is the level of the definition, and closing it remembers the new record's break values |
| ReportMeaning.MarkNumbers | cli/nlist.cpp:1718 | the six marks by their codes and numbers |
| ReportMeaning.LeavesAre | cli/nlist.cpp:1718 | the leaves of a text are what stands between its marks |
| ReportMeaning.SumIs | cli/nlist.cpp:1727-1752 | what a run adds up to is the sum of the numbers in its leaves; an empty leaf or one that is no number adds nothing; without detail only first leaves count |
| ReportMeaning.ColumnHas | cli/nlist.cpp:1718 | every column can be taken apart so, whatever its texts |
| ReportMeaning.TotalsAreSums | cli/nlist.cpp:1727-1752 | every total printed is the sum of the numbers in the leaves of the records of its span |
| ReportMeaning.GrandTotalIsSum | cli/nlist.cpp:1874-1879 | the grand total is the sum of all of them |
| ReportMeaning.TwoNumbers | cli/nlist.cpp:1738 | two records with single numbers a and b have the grand total a + b |
| ReportMeaning.RowCells | cli/nlist.cpp:2257-2311 | the other cells of a row: the value of the run in its own column, the word Total for lower levels, the values of higher levels, nothing else |
| ReportMeaning.DetailsShowLeaves | cli/nlist.cpp:1754-1846 | the detail lines show every leaf that is not empty once and in order, and without detail there are none |
| LimitFilter.Record.CountRows | cli/nlist.cpp:1605-1616 | the number of rows is the largest number of values in the group |
| LimitFilter.Record.RemoveRow | cli/nlist.cpp:1624-1627 | one value is removed from every field of the group and from no other |
| LimitFilter.Record.Apply | cli/nlist.cpp:1618-1629 | removing from the highest row down leaves in each field of the group its values at the selected rows; other fields stay |
| LimitFilter.Record.ApplyAll | cli/nlist.cpp:1600-1630 | limits are applied in turn, each calculated from what the last one left |
| LimitFilter.RemoveNext | cli/nlist.cpp:1620-1628 | dealing with one more row from above keeps the part above filtered and the part below untouched |
| LimitFilter.RowsSelected | cli/nlist.cpp:1620-1625 | the rows kept are exactly those whose value is among the selected ones, an empty value as two double quotes, in increasing order |
| LimitFilter.PickFollows | cli/nlist.cpp:1618-1629 | value i that is left in a field is its value at the i-th selected row, empty for fields too short |
| LimitFilter.LimitKeepsRows | cli/nlist.cpp:1602-1629 | after a limit all fields of its group, of unequal lengths too, hold the same rows |
| LimitFilter.LimitsKeepRows | cli/nlist.cpp:1600-1630 | so they do after any number of limits, on this group and on others, in the original order |
| Headings.PutKeepsSpanned | cli/htmllib2.cpp:1029-1071 | placing a header cell keeps: covered cells have one owner, spans do not overlap and are as long as they can be |
| Headings.SpanRight | cli/htmllib2.cpp:1033-1041 | the column span runs over equal texts to the right as far as possible |
| Headings.SpanDown | cli/htmllib2.cpp:1050-1058 | the row span runs over equal or empty texts below as far as possible |
| Headings.SpanCell | cli/htmllib2.cpp:1029-1069 | one cell is merged with its neighbours, and processing goes on after its span |
| Headings.SpanRow | cli/htmllib2.cpp:1014-1071 | after a row all its cells are covered |
| Headings.ColRowSpan | cli/htmllib2.cpp:1011-1073 | the finished grid has every live cell covered |
| HeadingTable.CoveredOnce | cli/htmllib2.cpp:1011-1073 | each cell that the caller did not mark is covered by exactly one header cell, which has its text or the cell is empty; marked ones by none |
| HeadingTable.SpansFit | cli/htmllib2.cpp:1029-1063 | spans stay inside the grid, have one direction, and end where the neighbour differs |
| HeadingTable.SpansDetermined | cli/htmllib2.cpp:1011-1073 | two finished grids of the same headings are the same: the loop's result is determined by those rules |
| HeadingTable.PutInPlace | cli/htmllib2.cpp:1076-1079 | the first free slot for the next header cell of a row is the cell's own place |
| HeadingTable.RowFormsBack | cli/htmllib2.cpp:1076-1079 | the cells of a row in which none stands to the right of a marked cell, put in first free slots, go to their own columns |
| HeadingTable.RowGoesAstray | cli/htmllib2.cpp:1076-1079 | in a row with a header cell to the right of a marked cell the cells do not all go to their own columns |
| HeadingTable.TableFormsBack | cli/htmllib2.cpp:1076-1079 | forming a table (HTML Standard, section 4.9.12.1) from the rows put out restores every cell's row and column if and only if no header cell stands to the right of a marked cell |
| HeadingTable.MarkedShifts | cli/htmllib2.cpp:1076-1079 | a marked cell followed by a text: the text's cell ends up in the marked one's place |
| HeadingTable.LeftOutRowsEmpty | exodus/exoprog.cpp:2475-2507 | the rows that the transposition leaves out at the end have no header cell, and the last one kept has |
| HeadingTable.GridCellsAll | cli/htmllib2.cpp:1076-1079 | the cells put out are all header cells of the grid, each once |
| HeadingRows.CellDone | exodus/exoprog.cpp:2484-2495 | after each cell the rows hold exactly the header cells seen so far, in column order |
| HeadingRows.InvertArray | exodus/exoprog.cpp:2475-2507 | the loops over columns and their cells give the rows of header cells, empty cells and last empty rows left out |
| HeadingRows.HeadingTableRows | cli/htmllib2.cpp:1011-1079 | for any heading, the table formed from the rows put out has each header cell of the spanned grid at its own place if and only if none stands to the right of a marked cell, so always without marked cells |
| TagValidator.AcceptsWellNested | cli/htmllib2.cpp:1981-2002 | a stack that starts and ends empty accepts exactly the well-nested sequences of tags |
| TagValidator.AcceptedIsWellNested | cli/htmllib2.cpp:1955-2003 | a text is accepted by a new validator if and only if its scanned tags are those of a well-nested document |
| TagValidator.SplitAtClose | cli/htmllib2.cpp:1985-1986 | the tags before the one that closes the innermost element form a document, and what follows closes the rest |
| TagValidator.OutcomeIsAccepted | cli/htmllib2.cpp:1955-2003 | stopping at the first error gives the answer of the whole scan |
| TagValidator.HTMLTagValidator.Process | cli/htmllib2.cpp:1955-2003 | the loop over characters returns that answer and leaves that stack, and its position grows with every step |
| TagNames.OpeningTag | cli/htmllib2.cpp:1987-1996 | an opening tag counts by its name in small letters, whatever its attributes, unless it is one of thirteen void elements |
| TagNames.SlashedTag | cli/htmllib2.cpp:1989-1991 | a slash at its end does not belong to the name and closes nothing |
| TagNames.ClosingTag | cli/htmllib2.cpp:1981-1986 | a closing tag counts by all behind its slash, in small letters |
| TagNames.Comment | cli/htmllib2.cpp:1965-1970 | a comment ends at the first end of one and nothing in it counts |
| TagNames.NoTag | cli/htmllib2.cpp:1976-1979 | a less-than sign before another character starts no tag |
| TagNames.BadTags | cli/htmllib2.cpp:1959-1963 | an empty tag and one without an end make the text invalid |
| TagNames.BadNames | cli/htmllib2.cpp:1940-1950 | so does a name with another character than letters, digits and hyphens |
| TextToHtml.ScanPieces | cli/htmllib2.cpp:1955-2003 | the validator reads back from rendered pieces exactly their tags |
| TextToHtml.ScanMore | cli/htmllib2.cpp:1955-2003 | a text of whole tags is scanned alike whatever follows it |
| TextToHtml.LinksNested | cli/htmllib2.cpp:1491-1492 | making anchors of links leaves text well nested |
| TextToHtml.LinksKeepText | cli/htmllib2.cpp:1491-1492 | making anchors of links leaves the text that a reader sees as it was |
| TextToHtml.EmphasisNested | cli/htmllib2.cpp:1497-1504 | emphasising the words before colons leaves text well nested |
| TextToHtml.TrimKeepsTags | cli/htmllib2.cpp:1518 | trimming newlines from the page changes no tag |
| TextDocument.CloseItemLeads | cli/htmllib2.cpp:1358-1378 | closing a line closes the tag that the line left open |
| TextDocument.CloseDownLeads | cli/htmllib2.cpp:1357-1370 | going to a smaller indent closes all deeper lines and lists |
| TextDocument.CloseOrOpenLeads | cli/htmllib2.cpp:1351-1405 | from any open lists, closing and opening leaves open exactly the list that the new line needs |
| TextDocument.ContentLeads | cli/htmllib2.cpp:1442-1508 | a line's content leads from its opening tag to its closing one, from term to definition for a definition line |
| TextDocument.LineLeads | cli/htmllib2.cpp:1410-1513 | one line of any kind and indent leads from the tags open before it to those open after it |
| TextDocument.CodeLeads | cli/htmllib2.cpp:1420-1433 | a line of code leads from the tags open before it to where its own tags lead |
| TextDocument.LinesLead | cli/htmllib2.cpp:1410-1513 | so do any number of lines, of text and of code |
| TextDocument.DocumentWellNested | cli/htmllib2.cpp:1325-1520 | for any lines, indents and kinds, with code whose tags are whole and balanced between one text line and the next, the page closes every tag and the validator accepts it; and if lists have only their own children in the code, they have so in the page |
| TextDocument.PlainCode | cli/htmllib2.cpp:1420-1433 | code without a less-than sign is always balanced |
| TextDocument.CodeCanBreak | cli/htmllib2.cpp:1420-1433 | a tag in a code block is copied, and the page is then refused |
| TextDocument.CloseAndOrOpen | cli/htmllib2.cpp:1351-1405 | the loop puts out the pieces of the definition and records the open kinds |
| TextDocument.ConvertLine | cli/htmllib2.cpp:1435-1511 | one line is put out as defined |
| TextDocument.Convert | cli/htmllib2.cpp:1325-1520 | the whole conversion puts out the page of the definition |
| TextPage.EscapeBack | cli/htmllib2.cpp:1436-1438 | an escaped text is read back as it was, and nothing in it can be taken for a tag |
| TextPage.Characters | cli/htmllib2.cpp:1491-1503 | the characters of links and of emphasised words, by their codes |
| TextPage.LinkBecomesAnchor | cli/htmllib2.cpp:1491-1492 | the first link of a text becomes an anchor to itself, and the rest goes on so |
| TextPage.NoAnchor | cli/htmllib2.cpp:1491-1492 | a text without the beginning of a link stays as it is |
| TextPage.PhraseEmphasised | cli/htmllib2.cpp:1497-1499 | a phrase before a double colon is emphasised with one colon |
| TextPage.WordEmphasised | cli/htmllib2.cpp:1502-1504 | otherwise a word before a colon is, with one blank behind it |
| TextPage.NothingEmphasised | cli/htmllib2.cpp:1497-1504 | and nothing without a colon |
| TextPage.LineTextIs | cli/htmllib2.cpp:1412-1415 | a line is its indent in blanks and its text |
| TextPage.CodeBlocks | cli/htmllib2.cpp:1420-1433 | where code starts and ends, by the backticks |
| TextPage.ContentShows | cli/htmllib2.cpp:1442-1508 | for each of the four markers, what is shown is the line without its marker, less one of two colons; and which tags and list the marker has, by name |
| TextPage.LineShows | cli/htmllib2.cpp:1410-1513 | a line put out shows that and nothing else, and code shows itself, white space aside |
| TextPage.DocumentShows | cli/htmllib2.cpp:1410-1515 | a document shows what its lines show, in order |
| TextPage.PageShows | cli/htmllib2.cpp:1325-1520 | outside the tags of the finished page stands just that, if code has no less-than sign |
| PageExamples.OneLine | cli/htmllib2.cpp:1551-1562 | the page of one line of words of each marker, letter by letter |
| PageExamples.TwoLines | cli/htmllib2.cpp:1551-1562 | two lines of one kind are items of one list, and two kinds stand in lists of their own, letter by letter |
| PageExamples.NestedLines | cli/htmllib2.cpp:1551-1562 | a line indented further is a list inside the item before it, letter by letter |
| Tidy.StepKeeps | cli/htmllib2.cpp:2268-2337 | a step adds and removes nothing but blanks, tabs and newlines, apart from its own character |
| Tidy.OnlyWhiteChanges | cli/htmllib2.cpp:2220-2337 | for every input, input and output are equal without blanks, tabs and newlines, up to a NUL character |
| Tidy.HtmlTidy | cli/htmllib2.cpp:2220-2337 | the formatter returns the output and the status of the definition |
| Tidy.Process | cli/htmllib2.cpp:2269-2336 | one character is processed as defined |
| Tidy.BreakLine | cli/htmllib2.cpp:2284-2292 | blanks at the end are taken away, a newline is added if needed, and then the indent |
| TidyLevels.LevelIsDepth | cli/htmllib2.cpp:2294-2306 | the level is the number of tags opened less those closed, as long as no closing tag is one too many, and those are counted |
| TidyLevels.StatusMeans | cli/htmllib2.cpp:2354-2361 | the status is 0 if and only if every closing tag closes an open one and none is open at the end, 2 if and only if some closing tag does not, and 1 otherwise |
| TidyLevels.OpeningTagLine | cli/htmllib2.cpp:2281-2295 | outside preformatted text every opening tag starts a line, after exactly as many tabs as tags are open |
| TagNames.TagStarts | cli/htmllib2.cpp:2268-2276 | where the formatter sees a tag |
| TagNames.FormatterNames | cli/htmllib2.cpp:2277-2279 | which tags are ignored, by name: six void elements and the ends of body and page |
| TagNames.LineBrokenMeans | cli/htmllib2.cpp:2284-2292 | only blanks and tabs at the end of the output go, and a newline is added unless there is one |
| TagNames.OpeningLine | cli/htmllib2.cpp:2281-2299 | an opening tag comes after such a line end and one tab for each open tag, and as it is inside preformatted text |
| TagNames.ClosingTagLine | cli/htmllib2.cpp:2300-2316 | a closing tag that starts a line is indented by one tab less than are open, and otherwise as it is |
| TagNames.TabsAre | cli/htmllib2.cpp:2293-2295 | an indent is as many tabs as its number says |
| TagNames.OtherLines | cli/htmllib2.cpp:2318-2330 | an ignored tag gets a new line and an indent, other characters are put out as they are |
| TagNames.PreIsDepth | cli/htmllib2.cpp:2297-2316 | preformatted text is counted by its opening and closing tags |
| TagNames.BodyStarts | cli/htmllib2.cpp:2236-2251 | formatting starts at the first body tag in small letters, or in capitals, one level lower, or else at the start |
| TagNames.UpToFirstNul | cli/htmllib2.cpp:2266 | it ends at the first NUL character |
| TidyTwice.RunIsItemRun | cli/htmllib2.cpp:2268-2337 | on terminated tags the formatter on characters is one on whole tags |
| TidyTwice.RunStable | cli/htmllib2.cpp:2268-2337 | without ignored tags, formatting an output again changes nothing, at every point of the run |
| TidyTwice.OutputIsSnippet | cli/htmllib2.cpp:2238-2251 | the output of a terminated snippet is a terminated snippet with the same tags |
| TidyTwice.RunNewlines | cli/htmllib2.cpp:2318-2324 | every ignored tag adds at least one newline each time |
| TidyTwice.TidyTwiceIsOnce | cli/htmllib2.cpp:2220-2337 | formatting a terminated snippet twice is formatting it once if and only if it has none of the ignored tags |
| TidyTwice.LineBreakMoves | cli/htmllib2.cpp:2318-2324 | formatting one line break twice is not formatting it once |
| AddUnits.SplitUnique | exodus/exoprog.cpp:2538-2556 | there is only one split into a number that is empty or ends in a digit and a unit without digits |
| AddUnits.AmountUnit | exodus/exoprog.cpp:2519-2558 | the backward scan finds that split, and nothing of the text is lost |
| AddUnits.AddOnePlaces | cli/htmllib2.cpp:1170-1214 | where an amount goes: the first entry of its unit is replaced, or it is appended as it is, and no other entry changes |
| AddUnits.Totals.AddAmount | cli/htmllib2.cpp:1170-1214 | one amount goes to the first entry of its unit, or to the end |
| AddUnits.Totals.AddUnits | cli/htmllib2.cpp:1143-1224 | the nested loops compute the addition of the whole list |
| AddUnits.SumReadBack | cli/htmllib2.cpp:1187-1197 | a sum written with its unit is read back as the sum of both amounts, but for the rounding of the number written |
| AddUnits.AddOneConserves | cli/htmllib2.cpp:1170-1214 | one amount changes its unit's total by itself, but for the rounding of the sum written, and no other total, unless it lacks a unit and meets an empty list |
| AddUnits.UnitsConserved | cli/htmllib2.cpp:1143-1224 | each unit's total is the sum of both lists' totals, repeated units included, but for the rounding of the sums written, the numbers that lose the point that was their unit, and exactly the leading amounts without unit that meet an empty list |
| AddUnits.NothingLostIff | cli/htmllib2.cpp:1143-1224 | when no sum is rounded, every unit keeps its total if and only if the points taken from two plain numbers and the leading amounts lost are worth nothing |
| AddUnits.AllWithUnitsConserved | cli/htmllib2.cpp:1143-1224 | when no sum is rounded, nothing is lost if the first added amount has a unit and the lists are not two plain numbers |
| AddUnits.NoPoints | cli/htmllib2.cpp:1156-1160 | nor with two plain numbers of which none ends in a point |
| AddUnits.PointTaken | cli/htmllib2.cpp:1156-1160 | a number that ends in a point, added to one that does not, takes its worth from the unit that its point is |
| AddUnits.PlainNumbersLost | cli/htmllib2.cpp:1175-1214 | what is added to nothing leaves nothing if and only if it is nothing, or no single number and wholly without units |
| AddUnits.OnePerUnitKept | cli/htmllib2.cpp:1187-1214 | a list with at most one amount for each unit stays so |
| DecimalNumbers.WrittenBack | cli/htmllib2.cpp:1187-1197 | a number written with some decimals is a number, ends in a digit, and is read back with as many |
| DecimalNumbers.SumBack | cli/htmllib2.cpp:1187-1197 | a sum written in as many decimals as either number shows is read back as the sum |
| DecimalNumbers.PointIsUnit | var/varnum.cpp:546-637 | a number that does not end in a digit ends in a point, which is its unit and adds nothing |
| DecimalNumbers.DecimalsSound | var/varnum.cpp:535-640 | numbers with sign, digits and a point anywhere meet the assumptions of the addition, and their sums are not rounded |
| DecimalNumbers.PointMoves | cli/htmllib2.cpp:1156-1160 | `3.` added to `2`: the unit that the point is had 3 and has nothing afterwards |
| RecordLock.OwnStep | exodus/exoprog.cpp:1388-1468 | a step of a call keeps the account of the caller's locks, attempts and grants |
| RecordLock.OtherStep | exodus/exoprog.cpp:1410-1411 | steps of others, leases and time do not touch it |
| RecordLock.AttemptMeans | exodus/exoprog.cpp:1410-1468 | what an attempt does to a record that is free, held by the process, with duplicates allowed or not, or held by another one |
| RecordLock.GrantedToOne | exodus/exoprog.cpp:1388-1468 | in every run at most one process holds a key that it was granted |
| RecordLock.ReturnMeans | exodus/exoprog.cpp:1388-1468 | true adds the key; false leaves the caller's locks as they were, duplicates included, unless a lease was found in a transaction; at most one attempt more than the seconds |
| RecordLock.FalseLeavesLocksIff | var/vardb.cpp:1700-1790 | false leaves the locks if and only if it was not for a lease, in a transaction, on a record not locked before |
| RecordLock.LeaseKeepsLock | var/vardb.cpp:1783-1785 | a call in a transaction that is refused for a lease leaves its record locked |
| RecordLock.TrueMeansNoLease | exodus/exoprog.cpp:1413-1447 | the answer is true exactly if no unexpired lease is found, and an expired one is removed |
| RecordLock.TrueHadNoLease | exodus/exoprog.cpp:1413-1447 | in every run a call that returned true was at the check of its lease at some step before, and found no unexpired one |
| RecordLock.EndsOrWaits | exodus/exoprog.cpp:1450-1461 | a call with seconds to wait ends in time; with negative seconds it waits as long as another process has the lock |
| RecordLock.DecideMeans | exodus/exoprog.cpp:1410-1468 | how a call goes on at each attempt, in those terms and in terms of the lease |
| RecordLock.Locker.LockRecord | exodus/exoprog.cpp:1388-1468 | the retry loop decides as the first attempt that is cancelled, locked or out of time does, and changes the caller's locks only by a grant |
| DictCache.ExoProgram.Calculate | exodus/exoprog.cpp:1101-1225 | the cached lookup updates its caches as defined and answers from them |
| DictCache.SearchAgrees | exodus/exoprog.cpp:1115-1146 | the search through caches finds a record that is used as the one of the plain search, if and only if the request does not lead the record cache astray |
| DictCache.FunctionAgrees | exodus/exoprog.cpp:1182-1224 | the function cache gives another function exactly if an earlier request had the same cache key |
| DictCache.RepeatAgrees | exodus/exoprog.cpp:1105-1106 | a repeated request is answered from what is remembered, correctly |
| DictCache.CachesAlways | exodus/exoprog.cpp:1140-1146 | as long as no request leads astray, the caches hold records that are used as those of the plain search |
| DictCache.CacheAgreesIff | exodus/exoprog.cpp:1097-1225 | over any history every answer is the record and the function of the search without caches, if and only if no request leads a cache astray |
| DictCache.OtherCaseAstray | exodus/exoprog.cpp:1117-1146 | an item of the shared dictionary asked for in one case and then the other is answered rightly the second time if and only if it calls no function; else the function is taken from the file's library |
| DictCache.RecordMeans | exodus/exoprog.cpp:1115-1140 | which of four places the record comes from, by membership in the dictionaries |
| DictCache.FunctionMeans | exodus/exoprog.cpp:1182-1208 | which function a record of kind S calls: the item in small letters, in the shared library or in the one named after the file |
| DictCache.SameFunction | exodus/exoprog.cpp:1182-1208 | the case of the item does not matter for the function |
| ParallelFields.InsertShifts | exodus/exoprog.cpp:2451-2457 | inserting a value moves the later ones on by one and fills up with empty ones |
| SortArray.InsertOrdered | exodus/exoprog.cpp:2446-2451 | inserting at the place that the search gives keeps the keys in order |
| SortArray.FollowsInsert | exodus/exoprog.cpp:2453-2458 | the same insertion in each parallel field keeps it following the common permutation |
| SortArray.SqueezePermutation | exodus/exoprog.cpp:2443-2460 | the row inserted last extends the permutation |
| SortArray.Record.CountRows | exodus/exoprog.cpp:2431-2439 | the number of rows is that of the longest field |
| SortArray.Record.InsertRow | exodus/exoprog.cpp:2453-2458 | one row is inserted in all parallel fields |
| SortArray.Record.PutBack | exodus/exoprog.cpp:2462-2468 | the sorted fields replace the old ones, other fields stay |
| SortArray.Record.SortArray | exodus/exoprog.cpp:2402-2471 | one permutation of the rows moves all the fields, the keys are in order, and only leading empty keys are missing |
| SortArray.ColumnOrdered | exodus/exoprog.cpp:2443-2462 | the key column as rows is in order if and only if the first key is not empty or no key must come after the empty one |
| SortArray.EmptyKeyLast | exodus/exoprog.cpp:2446-2451 | the keys "" and "a" come out in the wrong order |
| Callable.Callable.DeleteSharedObject | exodus/exocallable.cpp:683-707 | the object, if any, is deleted by the function that made it |
| Callable.Callable.CloseLib | exodus/exocallable.cpp:653-676 | the object is deleted and the library and its name are forgotten |
| Callable.Callable.OpenLib | exodus/exocallable.cpp:433-565 | a cached handle is used, or a new one is opened and cached, or the open fails with nothing open |
| Callable.Callable.OpenFunc | exodus/exocallable.cpp:569-610 | the old object goes, and the new function is found or the call fails without one |
| Callable.Callable.Init | exodus/exocallable.cpp:252-308 | an initialisation does as defined, in every outcome |
| Callable.Callable.AttachLib | exodus/exocallable.cpp:178-208 | so does attaching |
| Callable.Callable.AssignName | exodus/exocallable.cpp:327-341 | and assigning a library name |
| Callable.ApplyTurns | exodus/exocallable.cpp:252-308 | whatever fails, an operation keeps the object, or deletes it by its maker, or deletes it and makes the next one |
| Callable.GoodAlways | exodus/exocallable.cpp:252-308 | in every run whoever has an object has its library and the function that made it |
| Callable.ProgramsOnce | exodus/exocallable.cpp:683-707 | in every run each object made is held by exactly one callable or was deleted exactly once |
| Callable.RecordedAlways | exodus/exocallable.cpp:683-707 | every deletion is by the function that made the object, and after that |
| Callable.InitCaches | exodus/exocallable.cpp:258-265 | the library is the cached one of the new environment if and only if it was opened now or was that already |
| Callable.HandlesAreCached | exodus/exocallable.cpp:466-474 | in every run each open library is the cached handle of its name in some environment that the run used |
| Callable.OneEnvironment | exodus/exocallable.cpp:466-474 | in a run within one environment it is the cached handle of that one |
| Callable.TwoEnvironments | exodus/exocallable.cpp:258-265 | initialised in a second environment with the same names, a callable has a library that the second one's cache has not |
| Callable.ReadyMeans | exodus/exocallable.cpp:252-308 | when initialising returns true there is an object of that library and function, if and only if it was forced, the function changed, or there was one already |
| Callable.InitVerdict | exodus/exocallable.cpp:252-308 | exactly when an initialisation returns true, returns false and throws, by what the system answers |
| Callable.InitLeaves | exodus/exocallable.cpp:252-308 | the library, the object and the caches after one that returns true |
| Callable.InitLog | exodus/exocallable.cpp:252-308 | and what it deletes and makes |
| Callable.InitFails | exodus/exocallable.cpp:252-308 | what is left after one that returns false or throws |
| Callable.AttachVerdict | exodus/exocallable.cpp:178-208 | the same for attaching |
| Callable.AssignVerdict | exodus/exocallable.cpp:327-341 | and for assigning a library name |
| Callable.CloseMeans | exodus/exocallable.cpp:653-676 | what closing leaves and deletes |
| Callable.ReadyWithoutProgram | exodus/exocallable.cpp:119-122 | built with both names and initialised with them, a callable is called ready without an object |
| Callable.AssignMeans | exodus/exocallable.cpp:327-341 | the same name changes nothing, the empty name leaves nothing, another name gives a new object of that library |
| JobPool.Task.Execute | exodus/job.cpp:124-194 | on each of six ways to end the environment has its answer, is posted exactly once if there is a result queue, else passed to the promise, and failures reach the promise |
| JobPool.NextMoves | exodus/threadpool.cpp:90-145 | a step moves one job from one place to the next and makes none |
| JobPool.JobsOnce | exodus/job.cpp:124-204 | in every interleaving each accepted job is in exactly one place, so none is lost, posted or delivered twice |
| JobPool.NextKeepsInv | exodus/job_manager.cpp:49-57 | every step keeps the bound between the run count, the jobs under way and what the collecting loop waits for |
| JobPool.CountIsExact | exodus/job_manager.cpp:30-36 | without a reset the run count is the jobs queued and running, the results not counted off, and the jobs that ended without a queue |
| JobPool.NeverWaitsInVain | exodus/job_manager.cpp:49-57 | if all jobs have the queue, the loop never waits for more results than will come, even after its consumer stopped early or a reset |
| JobPool.ResultsInOrder | exodus/job.cpp:124-204 | in every run the results handed on, in hand and waiting are what the jobs posted, with their answers, in the order in which they ended |
| JobPool.StartsInOrder | exodus/threadpool.cpp:90-145 | jobs are started in the order in which they were accepted |
| JobPool.AskInVainIff | exodus/job_manager.cpp:49-57 | a loop that starts now waits for more results than will ever come if and only if more jobs that ended or are under way have no result queue than a reset left uncounted, none without a reset |
| JobPool.InVainStays | exodus/job_manager.cpp:49-57 | no event but a further job with the queue, the start or the end of the loop makes waiting in vain begin or end |
| JobPool.InVainForEver | exodus/job_manager.cpp:49-57 | so it lasts however the run goes on without those |
| JobPool.StuckForEver | exodus/job_manager.cpp:49-57 | and once no result is to come the loop stands at the same number for ever |
| JobPool.WaitsInVain | exodus/job_manager.cpp:49-57 | after one job without the queue the loop waits for one result in every continuation of the run without those events |
| OsThread.Queues.WriteInput | cli/osthread.cpp:25-31 | input is queued at the end, or refused when stopped |
| OsThread.Queues.ReadOutput | cli/osthread.cpp:33-40 | the oldest output is returned; with none, the status tells empty from stopped |
| OsThread.Queues.ReadInput | cli/osthread.cpp:43-50 | the oldest input is returned; nothing only when stopped with no input left |
| OsThread.Queues.WriteOutput | cli/osthread.cpp:52-56 | output is queued at the end |
| OsThread.StepRefines | cli/osthread.cpp:78-102 | each step of user, worker or destructor keeps the pipeline equal to the mapped inputs |
| OsThread.PipelineRefinesMap | cli/osthread.cpp:25-102 | in every interleaving what was read, with all that is on its way, is the function applied to the accepted inputs, in order |
| OsThread.ExitsWhenDone | cli/osthread.cpp:46 | from any state, in every run, a worker that has exited was stopped, has no input left, and all accepted inputs are processed |
| OsThread.DestructorNeverReturns | cli/osthread.cpp:16-23 | in no run does the worker see the stop, so the destructor does not return |
| ShellQuote.BuildCommand | cli/list.cpp:45-71 | the loop builds the line word by word, each word quoted by its kind |
| ShellQuote.QuotedMeans | cli/list.cpp:45-64 | which words are quoted and how, by the list of special characters |
| ShellQuote.NoBracketsOnly | cli/list.cpp:67-68 | the escape for brackets is never needed |
| ShellQuote.ReadReplaced | cli/list.cpp:60 | inside single quotes the replacement of single quotes reads as the original text |
| ShellQuote.RoundTrip | cli/list.cpp:45-71 | a line built from words that are kept is split and unquoted by the POSIX rules into the same words |
| ShellQuote.WordKeptIff | cli/list.cpp:45-71 | for every word at all: it comes back if and only if it has no single quote inside double quotes of its own, nothing special inside single quotes of its own, or is otherwise not empty and free of tabs and newlines unless quoted |
| ShellQuote.WordMissed | cli/list.cpp:45-71 | a word that is not kept, after any words and with any to follow, makes the shell refuse the line or read another word or no word there |
| ShellQuote.ListKeptIff | cli/list.cpp:45-71 | for every list of words: the line is split and unquoted into the same list if and only if every word is kept |
| ShellQuote.QuotesLost | cli/list.cpp:47-49 | a word in double quotes with a single quote inside does not come back |
| ShellQuote.LosslessDouble | cli/list.cpp:50-52 | if the shell removes nothing after double quotes were opened, the text had nothing special in it |
| FieldSql.FieldReplace | cli/dict2sql.cpp:1128-1161 | the database function computes the replacement in all its branches, NULL included |
| FieldSql.FieldRemove | cli/dict2sql.cpp:1085-1111 | so does the one that removes |
| FieldSql.SplitJoined | cli/dict2sql.cpp:1151-1159 | fields without the separator are read back from their joined text |
| FieldSql.JoinSplit | cli/dict2sql.cpp:1151-1159 | joining the fields of a text gives the text |
| FieldSql.ReplaceThenRead | cli/dict2sql.cpp:1151-1159 | after a replacement field n reads as replaced and every other field as before |
| FieldSql.ReplaceCount | cli/dict2sql.cpp:1151-1159 | the number of fields after a replacement |
| FieldSql.ReplaceBelow | cli/dict2sql.cpp:1135-1142 | a negative number adds a last field |
| FieldSql.WholeOrNull | cli/dict2sql.cpp:1091-1098 | number 0, NULL and negative numbers to remove |
| FieldSql.RemoveThenRead | cli/dict2sql.cpp:1103-1109 | without field n the later ones move up by one, the earlier ones stay, and there is one less |
| FieldSql.ReplaceTwice | cli/dict2sql.cpp:1151-1159 | of two replacements only the last counts |
| FieldSql.ReplaceThenRemove | cli/dict2sql.cpp:1085-1111 | removing what was replaced is removing at once, if and only if the number needs no padding beyond its own field, for every number and for NULL |

## Left out

- The `var`, `dim` and `rex` libraries: text and number conversions, formatting, regular expressions. What the modelled code needs of them (reading leaves, inserting and removing values, ordered search, the matched patterns) is written out or is a parameter with a stated assumption.
- Comparisons of `var`s are equality of texts; two numeric texts of equal value would also compare equal.
- Databases, files, shells, the compiler, terminals, dates and clocks. Their answers are parameters or events.
- Report.Engine.AddTotals: totals are integers read by a parameter; totals in HTML mode, which are lists with units, and the date grid are not modelled, nor are the display options of a row of totals and the unused count of records per level.
- Report.Engine.ReadPass: the two arrays of positions and delimiters are one array of cursors, and the two-dimensional array of totals is an array of sequences.
- Report.Engine.PrintLevel: the conversion of cells into text is not modelled; whether a row has a text in any cell is a parameter (`Layout.blank`), which never is so in text reports, where cells are padded. A text report without any totalled column prints a line instead of its rows (`cli/nlist.cpp:2368-2372`).
- Report.Engine.RecInit: the replacement of text marks in HTML and the formatting of numbered text columns are not modelled.
- LimitFilter.Record.Apply: field numbers of a group are distinct, as the source makes them (`cli/nlist.cpp:1476-1479`); calculating the limiting item is a parameter.
- LimitFilter.LimitsKeepRows: of the fields compared every limited group has all or none; a group that shared some of them only would break the association.
- Headings.ColRowSpan: the grid is a map from places to cells; only cells that are the marker are taken for marked, and removing the marker from inside longer texts, the currency replacement and the style attributes are not modelled.
- HeadingTable.RowFormsBack: requires a row without header cells to the right of a marked cell; `HeadingTable.RowGoesAstray` is the other case.
- TextDocument.DocumentWellNested: requires that the tags in each stretch of code are whole and lead back to the tags open before it, which is sufficient and not necessary: code before the first line of text may open a tag that later code closes.
- TextPage.PageShows: requires code without less-than signs; `TextPage.DocumentShows` has no such requirement. White space is compared only in the pages of `PageExamples`.
- TextDocument.Convert: of the two-column and other modes around the conversion nothing is modelled.
- TidyTwice.TidyTwiceIsOnce: requires tags that are terminated, no body tag and no NUL character.
- Tidy.HtmlTidy: messages and the line numbers in them are not modelled.
- AddUnits.UnitsConserved: amounts are numeric, and the number and the written sum of texts are parameters (`Numbers.Sound`), one function for the sum in both places; how far a written sum is rounded, as with amounts that have an exponent, is left to them and accounted for. Lists separated by subvalue marks are lists all the same.
- DecimalNumbers.DecimalsSound: exponents, the widths of integers and floating point numbers, and sums too large for them are not modelled.
- AddUnits.NothingLostIff: requires that no sum is rounded; otherwise `AddUnits.UnitsConserved` states the difference.
- RecordLock.Locker.LockRecord: opening the file and the name under which a lease is kept are not modelled; the lock of the database is exclusive, and its keys do not collide. A transaction is begun with no lock held: the end of one also forgets the locks taken before it (`var/vardb.cpp:2523`), which is not modelled.
- RecordLock.ReturnMeans: a call that waits with negative seconds makes any number of attempts.
- DictCache.FunctionMeans: letters have case in ASCII only.
- DictCache.ExoProgram.Calculate: extracting the field for the record found, the error for other types, and libraries that are missing are not modelled; the shared dictionary is read directly.
- SortArray.Record.SortArray: the ordered search is a parameter that must give a right place in an ordered list; field numbers are distinct.
- Callable.Callable.OpenLib: the path of a library file and the second place that is tried are one answer of the system; handles are never closed, as in the code.
- Callable.Callable.Init: a function that makes objects behaves as the one of `exodus/library.h:129-145`, or makes none, or one without a main function, or throws.
- JobPool.Task.Execute: the program itself is an ending; creating and shutting down worker threads is one event each.
- JobPool.NeverWaitsInVain: requires every job of the pool to have the result queue, which is what a manager gives it; `JobPool.AskInVainIff` has no such requirement.
- OsThread.PipelineRefinesMap: the processing of one message is a parameter.
- ShellQuote.RoundTrip: the options and the pipe into a pager that follow the words are not modelled; a word is taken for an argument, so that assignments and reserved words do not matter.
- FieldSql.ReplaceThenRead: requires a separator of one character and a replacement without it.
- Restoring the environment after `perform`, and everything around it.
