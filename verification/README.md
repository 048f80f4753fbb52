# X clients: models and proofs

This project models self-contained algorithms of a set of X clients and one X header in Dafny and proves what they
promise. `dafny verify dfyconfig.toml` checks everything.

Where the original changes records, arrays or linked lists in place, a class with those fields does the same, and each
of its methods is proved against a function or a relation on plain values; the promises are then proved about the
values. Pure code stays functions and lemmas.

| files | what they model |
|---|---|
| `ConditionProtocol`, `ConditionCalls`, `ConditionList` | the Win32 condition variable of `Xthreads.h`: a waiter list and one semaphore per thread. The protocol is a state machine in which every critical-section call, semaphore call and list statement is one step, taken by any number of threads in any order |
| `TextCache`, `TextLaws` | xditview's cache of text items, against drawing every run of characters at once, and what that draws for which commands |
| `Spline`, `SplineList` | xditview's spline refinement, on values and on the linked list |
| `Decimal`, `FontName`, `FontNameCode` | xditview's parser and formatter of font names |
| `ReplayFile`, `PageMap`, `CharHash` | xditview's replay of an input that cannot be searched, its page positions, its character-name hash |
| `XlfdName`, `FontIndex`, `ScalableFonts`, `SortedFields`, `FontChoice`, `FontSession` | xfontsel's per-field index of font names, from the parser to the menus, against a filter over the names |
| `GlobMatch` | xfontsel's pattern matcher, against the glob relation |
| `WorkQueue`, `WorkRuns`, `StartUp`, `StartUpIndex` | xfontsel's background work queue, the order of work from start-up, and what that work makes of the index |
| `InfixCalc`, `InfixValue`, `Calculator` | xcalc's operator and number stacks in infix mode, against the conventional value of an expression |
| `Hierarchy`, `Selection`, `SelectionList` | viewres's class hierarchy, its select menu, and its selected list with back pointers |
| `Overstrike`, `TextPlaces`, `TextStyles`, `ManPage` | xman's formatter of overstruck manual pages: which characters it draws, where, and in which style |
| `Common` | shared vocabulary |

Some points of the models:

* A thread of the condition variable owns one waiter record (`Xthreads.h:114-117`), whose semaphore starts at 0; the
  function `_Xthread_waiter`, which finds a thread's record, is defined elsewhere and is not part of this model. The
  caller's mutex nests, so `wait` gives up one level and gets it back.
* When the items of xditview's cache are used up, the flush at `parse.c:300-302` and `parse.c:308-310` passes along the
  item behind the last usable one. With 256 items that is memory behind the array, where the character buffer begins;
  with one item (`noPolyText`) it is an item nobody has written. Its content is a parameter of the model,
  `TextCache.Setup.behind`. `TextCache.Layout.Harmed` says when a run needs that item and its content spoils the picture,
  `TextCache.DviWidget.Typeset` that a document comes out as wanted exactly when no run is harmed,
  `TextCache.NoOverflowNoHarm` that none is when no run needs the item, or it has no characters and no font, and
  `TextCache.SecondRunHarmed` and `TextCache.TwoRunsSpoiled` give the smallest document that goes wrong: two runs on one
  line with a gap between them. Fonts have a width for every character and do not change during a document.
* `ParseFontNames` does not step past a rejected name (`xfontsel.c:537-541`), so the rest of a chunk behind it is lost.
  `FontSession.RejectedHidesGood` is an input, `FontSession.AcceptedAreGood` says exactly when the whole list loses no
  acceptable name; the index invariants hold regardless.
* `Matches` takes two stars at the end of a pattern to need one more character, so the glob relation is not what it
  computes there; `GlobMatch.TwoFinalStarsMiss` is an input, `GlobMatch.Matches` the exact relation, and
  `GlobMatch.ExactlyWhen` says that it is the glob relation for all names exactly when the pattern does not end so. A
  question mark that meets the end of the name is taken to match it (`xfontsel.c:883`), and the matcher reads on behind;
  `GlobMatch.StepsOver` says exactly when, and `GlobMatch.StepsOverOnlyOnMismatch` that such a name does not match.
* xcalc reduces at most one pending operator per key. `InfixValue.MinusBeforeProduct` is an expression that comes out
  wrong; `InfixValue.RightExactlyWhenSafe` says for which shapes of expressions the result is right.
  `InfixCalc.RParForgetsError` shows that a full number stack at a closing parenthesis leaves no error behind.
* A parenthesis that is still open at '=' loses the sum in it: `InfixCalc.OpenParenthesisLosesSum` gives the keys, and
  the number typed before comes out, twice on the stack.
* xman draws a run of text, up to a tab, a long gap, a struck character or a change of style, as one. On a page's first
  line a run that a tab, a long gap or the end of the line ends is drawn in bold, one that a change of style or a struck
  character ends in its own style; `TextStyles.FinalStyle` says this for every line. A line of capitals is a heading only if it is one run of
  buffered text from the margin on; behind a tab or a long gap, or with a change of style, it is printed as it says.
* `ToX` truncates after adding one half, so positions left of or above the page are not rounded to the nearest pixel but
  to one above; `TextLaws.PixelIsNearest` has both cases.
* A font name of more than fifteen parts parses like its first fifteen (`FontName.WhichPartsParse`): nothing looks at
  the rest of the string.
* `LineApprox` reads `p4->next` after `DeletePoint` has freed `p4` (`draw.c:405-407`); the model reads it before. The
  comment at `draw.c:370` hopes for the correct number of points; it is correct.
* The end of the input is copied into the replay file like a character each time it is read; `FileSeek` states exactly
  when reading from a position gives the input again.
* viewres's nodes are positions in the widget array, as its pointers are. The child and sibling links are those
  `XmuWnInitializeNodes` builds. The list of a menu entry that goes by every selected node grows while it is walked.

## Model

| member | source | states |
|---|---|---|
| ConditionProtocol.InitInv | xc/include/Xthreads.h:141-144 | an initialised condition variable satisfies the protocol's invariant with an empty queue |
| ConditionProtocol.StepKeepsInv | xc/include/Xthreads.h:147-172 | every statement of every thread keeps the invariant: one owner of the critical section, a well-linked list without repetition, what the owner knows of it, the mutex levels, and the ticket equation |
| ConditionProtocol.StepMovesQueue | xc/include/Xthreads.h:147-172 | a step leaves the logical queue alone, puts its own thread in front of it, or takes the front off, and takes it off exactly when that waiter's semaphore is released |
| ConditionProtocol.RunInv | xc/include/Xthreads.h:147-172 | the invariant holds in every state of every interleaving |
| ConditionProtocol.TicketsAlways | xc/include/Xthreads.h:147-172 | in every state of every interleaving, a thread's place on the queue plus its semaphore count is 1 exactly from its enqueue to its return from the semaphore wait and else 0; nobody is queued twice; no null pointer was followed |
| ConditionProtocol.BlockedIsQueued | xc/include/Xthreads.h:147-164 | no lost wakeup: a thread that is blocked on its semaphore is still on the queue of waiters to be released |
| ConditionProtocol.HolderAdvances | xc/include/Xthreads.h:147-172 | at most one thread is inside the critical section, and it is never blocked there |
| ConditionProtocol.WindowConservesQueue | xc/include/Xthreads.h:157-172 | while one signaller or broadcaster is inside the critical section, what it released followed by what is still queued is the queue it found, whatever the other threads do meanwhile |
| ConditionProtocol.BroadcastWakesAll | xc/include/Xthreads.h:165-172 | a broadcast releases exactly the threads queued when it entered, each once and in order, and leaves the list empty, although released threads go on and try to wait again during its walk |
| ConditionProtocol.BroadcastEnds | xc/include/Xthreads.h:165-172 | a broadcast in its critical section is never blocked and is about to leave exactly after three statements for every waiter it found and three more, whatever the other threads do |
| ConditionProtocol.SignalWakesFirst | xc/include/Xthreads.h:157-164 | while a signal is in the critical section: at its last statement there it has released exactly the front of the queue it found, or nobody when it was empty, and left the rest queued |
| ConditionProtocol.WaitRestoresMutex | xc/include/Xthreads.h:147-156 | a thread that returns from wait owns the mutex exactly as deeply as when it called |
| ConditionProtocol.WakeupsConserved | xc/include/Xthreads.h:147-172 | over any interleaving, each enqueue of a thread is answered by one release or still queued, and each release is consumed by one return or still in the semaphore |
| ConditionCalls.SignalReturns | xc/include/Xthreads.h:157-164 | a call of signal, over any interleaving: with its third own statement it releases the first thread queued when it entered, and no other, and it has returned after exactly five; when nobody was queued it releases nobody and has returned after exactly three |
| ConditionCalls.BroadcastReturns | xc/include/Xthreads.h:165-172 | a call of broadcast, over any interleaving: its own releases are the threads queued when it entered, in order, one with every third own statement from the fourth on, and it has returned after exactly five statements and three for each of them |
| ConditionCalls.WaitReturns | xc/include/Xthreads.h:147-156 | a call of wait, over any interleaving: it is in the critical section from its first own statement to its fourth, queued or released from the third to the sixth, enqueues itself once and takes one release, owns one level of the mutex less from the fifth to the seventh, and has returned after exactly seven |
| ConditionCalls.UnlockUndoesLock | xc/include/Xthreads.h:139-140 | locking takes the nesting mutex one level deeper and keeps everybody else from locking or unlocking it; unlocking gives back the state before |
| ConditionCalls.HeldUpBecause | xc/include/Xthreads.h:147-172 | a thread inside a macro is held up only while another one is in the critical section, who can go on, or by an empty semaphore while it is queued, or while another one owns the mutex that it needs to return |
| ConditionCalls.FreeToCall | xc/include/Xthreads.h:139-172 | outside the macros a thread may always signal and broadcast, may lock unless another one owns the mutex, and may unlock and wait exactly when it owns it |
| ConditionList.Condition.Enqueue | xc/include/Xthreads.h:149-152 | linking a record puts it in front of the list |
| ConditionList.Condition.Signal | xc/include/Xthreads.h:157-164 | takes the first record off the list and releases its semaphore once, or does nothing |
| ConditionList.Condition.Broadcast | xc/include/Xthreads.h:165-172 | empties the list and releases every record on it once, without writing any link |
| TextCache.DrawnSlot | contrib/programs/xditview/draw.c:115-118 | drawing the item behind the last usable one along with the cached items leaves the picture as wanted, or the graphics context with another font than believed, or the picture spoiled, by what that item holds |
| TextCache.DrawConcat | contrib/programs/xditview/parse.c:329-334 | drawing two runs of characters one after the other is drawing them as one |
| TextCache.NewItem | contrib/programs/xditview/parse.c:314-328 | a run entered as a new item, with a delta from the cache's position and a font only when it changes, adds to what the cache will draw exactly that run at its own position and in its own font; a font left wrong by the item behind the last one is set right by it |
| TextCache.WrongFont | contrib/programs/xditview/parse.c:316-324 | a run that elides its font because the graphics context is believed to have it, when it has another, spoils the picture |
| TextCache.GrowItem | contrib/programs/xditview/parse.c:298-334 | a run that goes on where the cache stands and in its font can be put into the current item |
| TextCache.DiffersStill | contrib/programs/xditview/draw.c:115-118 | a spoiled picture is not mended by drawing no fewer glyphs than wanted |
| TextCache.HarmedRun | contrib/programs/xditview/parse.c:288-328 | a run spoils the picture exactly when it is on the cache's line and fits, the current item is the last and not empty, the run has another font or start, and the item behind the last one has characters, or a font other than the one the run relies on |
| TextCache.NoOverflowNoHarm | contrib/programs/xditview/parse.c:288-313 | no run of a document is harmed when none needs the item behind the last one, or when that item draws nothing and names no font |
| TextCache.SecondRunHarmed | contrib/programs/xditview/parse.c:306-313 | with one item, two runs on one line with a gap between them are harmed by any characters in the item behind |
| TextCache.DviWidget.constructor | contrib/programs/xditview/DviP.h:83-97 | a new widget's cache is empty and in agreement with the empty screen |
| TextCache.DviWidget.XDrawText | contrib/programs/xditview/draw.c:115-118 | drawing the first n items from a position adds their glyphs to the screen and leaves the font of the last item in the graphics context; the one behind the last usable item is whatever is there |
| TextCache.DviWidget.FlushCharCache | contrib/programs/xditview/draw.c:108-127 | after a flush the cache is empty at the current position and the screen shows everything that should have been drawn, unless the index has run off the end and the item there did harm; which of these it is follows from that item |
| TextCache.DviWidget.DrawCached | contrib/programs/xditview/draw.c:113-118 | drawing the cached items completes the screen and leaves the font the cache believes it leaves, up to what the item behind the last one adds when the index has run off |
| TextCache.DviWidget.SetFont | contrib/programs/xditview/parse.c:250-258 | the cache's font is the one the state at hand asks for |
| TextCache.DviWidget.NextItem | contrib/programs/xditview/parse.c:298-313 | there is an empty item to use afterwards, by going on or by flushing, and the item behind the last one is drawn exactly in the second case |
| TextCache.DviWidget.MakeRoom | contrib/programs/xditview/parse.c:288-290 | afterwards the run fits into the character buffer and the cache is on the run's line |
| TextCache.DviWidget.MatchFont | contrib/programs/xditview/parse.c:295-305 | an item that is not empty afterwards has the run's font |
| TextCache.DviWidget.FindItem | contrib/programs/xditview/parse.c:295-313 | an item that is not empty afterwards ends where the run begins and has its font |
| TextCache.DviWidget.ExtendItem | contrib/programs/xditview/parse.c:314-328 | the current item grows by the run, or is begun with the elided font and the delta |
| TextCache.DviWidget.CopyRun | contrib/programs/xditview/parse.c:329-334 | the characters go behind those in the buffer, and the position advances by their widths |
| TextCache.DviWidget.PutCharacters | contrib/programs/xditview/parse.c:260-338 | afterwards the cache will draw what it would have drawn before followed by this run at its own position in its own font, unless the run is harmed by the item behind the last one, and exactly then it will not; the run is taken exactly when it is visible and the display is enabled; the cache bounds are kept |
| TextCache.DviWidget.ResetTypesetter | contrib/programs/xditview/parse.c:240-248 | starting over flushes the cache and leaves one first state |
| TextCache.DviWidget.Execute | contrib/programs/xditview/parse.c:208-338 | every command keeps the coupling of cache and document: what has been drawn and what is cached together are the document so far, as long as no run was harmed |
| TextCache.DviWidget.Typeset | contrib/programs/xditview/parse.c:208-338 | for every sequence of environment, position, font, text and reset commands ended by a flush, the screen shows exactly what drawing each visible run at once at its own place in its own font shows, in the same order, exactly when no run is harmed by the item behind the last one |
| TextCache.TwoRunsSpoiled | contrib/programs/xditview/parse.c:306-313 | the smallest document, typeset: the screen does not show what is wanted |
| TextLaws.RunDrawn | contrib/programs/xditview/parse.c:260-338 | a run that is shown adds its letters: the first at the run's position in pixels, each further one where the one before ends by its width in the font's table, or by the font's width when it has no table, all on the run's line and in the font asked for; one that is not shown adds nothing |
| TextLaws.PixelIsNearest | contrib/programs/xditview/DviP.h:192 | a device position in pixels is the nearest pixel, from minus one half on; below that it is the next but one above |
| TextLaws.SizeInPixels | contrib/programs/xditview/DviP.h:194 | a point size in pixels is the exact one rounded towards zero |
| TextLaws.VisibleWhenBoxMeets | contrib/programs/xditview/parse.c:276-282 | a run is shown exactly when the box of its quick extents has a point in the exposed area |
| TextLaws.DocumentParts | contrib/programs/xditview/parse.c:76-206 | a document in two parts draws the first part and then the second in the environment that the first leaves |
| TextLaws.CommandThenRun | contrib/programs/xditview/parse.c:48-150 | a run behind a move, a goto, a size, a font, a brace or a reset is drawn at the position and in the font that the command gives, everything else being as before |
| TextLaws.FirstRun | contrib/programs/xditview/parse.c:208-228 | the run behind the very first '{' is drawn at the origin in size 10 of font 1 |
| TextLaws.StartsOver | contrib/programs/xditview/parse.c:240-248 | starting over leaves one state, at the origin in size 10 of font 1 |
| TextLaws.BlockStandsAlone | contrib/programs/xditview/parse.c:208-238 | a block that closes what it opens does not depend on the saved states below it and leaves them as they are |
| TextLaws.Bracketed | contrib/programs/xditview/parse.c:208-238 | a block in braces draws what the block draws from the state at hand, and leaves the environment exactly as it was |
| Spline.ApproximatedCount | contrib/programs/xditview/draw.c:346-387 | n control points, n at least 3, become exactly 12 (n - 2) + 1 points |
| Spline.EndsStay | contrib/programs/xditview/draw.c:346-411 | the first and the last point are unchanged |
| Spline.CurvesMeetHalfway | contrib/programs/xditview/draw.c:356-370 | between the ends, neighbouring curves meet at half the sum of the coordinates of two inner control points |
| Spline.CurveIsBounded | contrib/programs/xditview/draw.c:390-411 | every point of a curve lies in the convex hull of the curve's three points, and the curve's end points are kept |
| Spline.RoundPoints | contrib/programs/xditview/draw.c:390-411 | one pass over a curve keeps its ends and puts the midpoint of every two neighbours, in coordinates, in between |
| Spline.LastRound | contrib/programs/xditview/draw.c:400-410 | ten passes are nine passes and one more |
| Spline.RoundsBackwards | contrib/programs/xditview/draw.c:390-411 | a curve drawn from its other end has the same points |
| SplineList.Outline.InsertPoint | contrib/programs/xditview/draw.c:473-481 | the point goes behind the given one, the list is otherwise unchanged |
| SplineList.Outline.DeletePoint | contrib/programs/xditview/draw.c:485-495 | the point's coordinates leave the list; it is the successor's record that goes |
| SplineList.Outline.RefineBetween | contrib/programs/xditview/draw.c:402-408 | one pass of the inner loop replaces every adjacent pair by its midpoint and keeps the ends, in place; the records outside the curve stay |
| SplineList.Outline.LineApprox | contrib/programs/xditview/draw.c:396-411 | the three points become the curve after all iterations, and the last of the three records is still the last of the curve |
| SplineList.Outline.InsertMidpoints | contrib/programs/xditview/draw.c:353-370 | the first phase puts the midpoints between the inner control points, 2 n - 3 points in all |
| SplineList.Outline.ApproxSpline | contrib/programs/xditview/draw.c:346-387 | the linked list ends up holding exactly the refined curves; with fewer than three points nothing happens |
| Decimal.ReadThenWritten | contrib/programs/xditview/XFontName.c:53-61 | reading digits with 32-bit wrap-around and writing the number gives the digits back exactly when they are a canonical numeral below 2 to the 32 |
| Decimal.CanonicalIsNumeral | contrib/programs/xditview/XFontName.c:111-125 | every string of digits without a leading zero is the numeral of its value |
| Decimal.Utoa | contrib/programs/xditview/XFontName.c:111-125 | the digits written from the end of the buffer are the number's canonical numeral, and fit |
| FontName.SplitJoin | contrib/programs/xditview/XFontName.c:138-193 | joining parts without hyphens by hyphens and cutting again gives the parts |
| FontName.JoinSplit | contrib/programs/xditview/XFontName.c:12-36 | cutting a string at its hyphens and joining the parts gives the string |
| FontName.ParseUndoesFormat | contrib/programs/xditview/XFontName.c:64-193 | what the formatter writes always parses; every attributed member comes back, except that an attributed text "*" comes back without attribute |
| FontName.MaskSurvives | contrib/programs/xditview/XFontName.c:64-193 | formatting and parsing keep the attribute mask exactly when no attributed text is "*" |
| FontName.FormatUndoesParse | contrib/programs/xditview/XFontName.c:64-193 | formatting a parsed name succeeds with the same string exactly when the string has 14 hyphens, at most 255 characters, and in every numeric field "*" or a canonical numeral below 2 to the 32 |
| FontName.XCompareFontName | contrib/programs/xditview/XFontName.c:195-226 | true exactly when all attributed members are the same |
| FontName.SameWhenWrittenTheSame | contrib/programs/xditview/XFontName.c:127-226 | two records compare as equal under a mask exactly when they are formatted as the same string under it |
| FontName.WhichPartsParse | contrib/programs/xditview/XFontName.c:64-109 | exactly the names of fourteen parts, the last not empty, or of more parse whose parts 7 to 10 and 12 are "*" or digits, with at most two characters for the slant and one for the spacing, and at most 255 of any kind elsewhere |
| FontName.WhatPartsMean | contrib/programs/xditview/XFontName.c:64-109 | such a name parses to its parts: texts as they stand, numbers by their value modulo 2 to the 32, "*" to no attribute, a missing encoding to the empty text |
| FontNameCode.ExtractStringField | contrib/programs/xditview/XFontName.c:12-36 | reads up to the next hyphen into a buffer of the given size; fails exactly at the end of the string or when the field does not fit; the attribute is missing exactly for "*" |
| FontNameCode.ExtractUnsignedField | contrib/programs/xditview/XFontName.c:38-62 | the field must be "*" or digits, the empty field counting as 0; the number is the value modulo 2 to the 32 |
| FontNameCode.StandingIsField | contrib/programs/xditview/XFontName.c:12-36 | the field the walk reads next is the corresponding part between hyphens, and the walk is at the end of the string exactly when nothing is left of it |
| FontNameCode.XParseFontName | contrib/programs/xditview/XFontName.c:64-109 | succeeds exactly on the strings that parse, a missing encoding being read as an empty one, and gives the record and mask they parse to |
| FontNameCode.XFormatFontName | contrib/programs/xditview/XFontName.c:127-193 | succeeds exactly when no attributed text holds a hyphen and the whole fits into 255 characters, and then writes the fields between hyphens |
| ReplayFile.LeadingIs | contrib/programs/xditview/lex.c:48-86 | the longest run of a kind of character and what follows it make up the input, and the rest does not go on with the kind |
| ReplayFile.Reader.GetAndPut | contrib/programs/xditview/lex.c:8-23 | delivers the next character of the input; a character that was pushed back is not copied a second time |
| ReplayFile.Reader.GetC | contrib/programs/xditview/DviP.h:164-183 | delivers the head of the logical input, the replay file's rest and then the input's, and reports the end exactly when that is empty; the replay file stays the copy of what was read |
| ReplayFile.Reader.UngetC | contrib/programs/xditview/DviP.h:185-190 | puts the character read last back in front of the logical input |
| ReplayFile.Reader.Tell | contrib/programs/xditview/page.c:63-66 | with nothing pushed back and before the end of the input, the position remembered is the one from which the logical input goes on |
| ReplayFile.Reader.FileSeek | contrib/programs/xditview/page.c:80-89 | reading goes on with the input from the position, nothing lost or repeated, exactly when nothing is pushed back and the end was not read; else it says what is delivered twice or added |
| ReplayFile.Reader.GetNumber | contrib/programs/xditview/lex.c:72-86 | skips spaces, reads the digits there are and gives their value; the rest of the input stays |
| ReplayFile.Reader.GetWord | contrib/programs/xditview/lex.c:48-70 | skips spaces and reads up to the next space; the rest of the input stays |
| PageMap.FileMap.MapPageNumberToFileMap | contrib/programs/xditview/page.c:20-31 | finds the page's mark on the list, or none exactly when the page is unknown |
| PageMap.FileMap.RememberPagePosition | contrib/programs/xditview/page.c:51-67 | sets the page's position, new or old, to where the file stands, so that with nothing pushed back and before its end the file goes on from there; the other pages keep theirs |
| PageMap.FileMap.SearchPagePosition | contrib/programs/xditview/page.c:69-78 | gives the position remembered last for the page, or -1 |
| PageMap.FileMap.GoToPage | contrib/programs/xditview/Dvi.c:464-467 | the file goes on from the position remembered for the page exactly when nothing is pushed back and its end was not read |
| CharHash.Scan | contrib/programs/xditview/DviChar.c:103-114 | the last row that holds a name before its first null entry, or -1 when none does |
| CharHash.HoldsIs | contrib/programs/xditview/DviChar.c:107-113 | a row holds exactly the names in front of its first null entry |
| CharHash.BuiltOneMore | contrib/programs/xditview/DviChar.c:107-113 | putting a synonym in front of its bucket makes every lookup agree with the rows entered so far |
| CharHash.CharNameMap.ComputeHash | contrib/programs/xditview/DviChar.c:92-115 | builds buckets in which every lookup agrees with scanning all rows |
| CharHash.CharNameMap.CharIndex | contrib/programs/xditview/DviChar.c:117-130 | gives the greatest position whose row holds the name, or -1 |
| XlfdName.IsXLFDFontName | contrib/programs/xfontsel/xfontsel.c:809-815 | true exactly for names with 14 hyphens |
| XlfdName.DelimsAreHyphens | contrib/programs/xfontsel/xfontsel.c:809-815 | the count is that of the hyphens in the name |
| XlfdName.FieldsAreParts | contrib/programs/xfontsel/xfontsel.c:543-554 | for an accepted name that starts with a hyphen, the text taken for a field is the text between its hyphen and the next |
| XlfdName.FieldsBehindFirst | contrib/programs/xfontsel/xfontsel.c:543-554 | for every accepted name, the texts taken for the fields are the parts of what follows its first character, whatever that is |
| FontIndex.ListsInvertTable | contrib/programs/xfontsel/xfontsel.c:555-595 | a font is on a value's list exactly when the font's value index names that value |
| FontIndex.MeansInNames | contrib/programs/xfontsel/xfontsel.c:522-655 | what it is for a font to match a value, said of any accepted names: the text taken for the field is the value's, or, with the scalable fonts, the field is a size, a resolution or the average width, the name has pixel size 0, and the value is not a 0 that some name has there |
| FontIndex.EnteredOk | contrib/programs/xfontsel/xfontsel.c:555-595 | entering a field of the next name keeps that field's values distinct, its lists strictly increasing and in agreement with the names |
| FontIndex.ChunkLosesNothing | contrib/programs/xfontsel/xfontsel.c:535-541 | a chunk enters all its acceptable names exactly when no rejected name stands before an acceptable one |
| FontIndex.GoodPrefixStops | contrib/programs/xfontsel/xfontsel.c:535-541 | what a chunk enters is the names before the first rejected one |
| FontIndex.FontSelector.FindValue | contrib/programs/xfontsel/xfontsel.c:555-564 | finds the value with the string, or says that there is none |
| FontIndex.FontSelector.IndexField | contrib/programs/xfontsel/xfontsel.c:555-595 | enters one field of a name and keeps the index half way through the name |
| FontIndex.FontSelector.ParseName | contrib/programs/xfontsel/xfontsel.c:543-597 | enters a whole name and keeps the index |
| FontIndex.FontSelector.ParseFontNames | contrib/programs/xfontsel/xfontsel.c:522-600 | after any chunk, for each field: strings distinct, lists strictly increasing, a font on a value's list exactly when its name has that string there and its table entry says so; the names entered are the chunk's up to the first rejected one |
| ScalableFonts.MergeStep | contrib/programs/xfontsel/xfontsel.c:624-648 | one turn of the merge keeps the result the sorted union of what was consumed, and the count right for the end |
| ScalableFonts.MergeFonts | contrib/programs/xfontsel/xfontsel.c:619-652 | the merged list is the strictly increasing union of both lists, and the count is exactly its size |
| ScalableFonts.AddScalables | contrib/programs/xfontsel/xfontsel.c:608-655 | every value of the field but "0" is now on offer for the scalable fonts too, and nothing else changed |
| ScalableFonts.NewScalables | contrib/programs/xfontsel/xfontsel.c:662-702 | every size of the resource list is a value afterwards, new ones added once with the scalable fonts; strings stay distinct |
| ScalableFonts.ZeroListIsScaled | contrib/programs/xfontsel/xfontsel.c:711-722 | the list of pixel size "0" is exactly the scalable fonts |
| ScalableFonts.WordsOfParts | contrib/programs/xfontsel/xfontsel.c:670-676 | a blank or a comma divides the list of sizes in two |
| ScalableFonts.WordAlone | contrib/programs/xfontsel/xfontsel.c:670-676 | a text without blanks and commas is one size |
| ScalableFonts.FixScalables | contrib/programs/xfontsel/xfontsel.c:711-731 | turns the index over the names into the index with scaling: in the five size fields each value's list is the union with the scalable fonts, and each menu has exactly the values of the names and, when there are scalable fonts, the sizes of its resource list; without scalable fonts nothing changes |
| SortedFields.CompareOrder | contrib/programs/xfontsel/xfontsel.c:734-769 | both comparators are total preorders |
| SortedFields.StrCmpIs | contrib/programs/xfontsel/xfontsel.c:734-748 | of two strings the one that is the other's beginning, or has the smaller character at the first difference, is not the greater |
| SortedFields.AtoiReads | contrib/programs/xfontsel/xfontsel.c:752-769 | a size is read as the number behind blanks and a sign, up to the first character that is no digit |
| SortedFields.MenuSequence | contrib/programs/xfontsel/xfontsel.c:734-798 | in a sorted menu "*" comes first, then the null string; in the pixel and point size, the resolutions and the average width digits stand by their value; in every other field a string stands before those it begins or that have the greater character at the first difference |
| SortedFields.PermutedValues | contrib/programs/xfontsel/xfontsel.c:772-806 | permuting the values of a field keeps what each value means |
| SortedFields.SortedFieldOk | contrib/programs/xfontsel/xfontsel.c:786-804 | after the values are permuted and the fonts' indices redirected, the field's index is right again |
| SortedFields.SortValues | contrib/programs/xfontsel/xfontsel.c:786-798 | the values come out in comparator order, the table of new positions is that permutation, and the borrowed field member is restored |
| SortedFields.RedirectFonts | contrib/programs/xfontsel/xfontsel.c:799-803 | every font's index in this field follows the permutation, its other indices stay |
| SortedFields.SortFields | contrib/programs/xfontsel/xfontsel.c:772-806 | every field is in menu order, which `SortedFields.MenuSequence` describes, is a permutation of what it was, and every font still denotes the same values |
| FontChoice.MarkInvalidFonts | contrib/programs/xfontsel/xfontsel.c:1093-1110 | clears exactly the marks of the fonts that are not on the value's list |
| FontChoice.ListIsFilter | contrib/programs/xfontsel/xfontsel.c:1113-1147 | enabling by lists is enabling by names: a value is enabled exactly when some font that passes every choice has it |
| FontChoice.EnableKeepsIndex | contrib/programs/xfontsel/xfontsel.c:1113-1164 | changing enable flags keeps the index |
| FontChoice.MenuState.SetCurrentFont | contrib/programs/xfontsel/xfontsel.c:1009-1051 | for every choice of values the marked fonts are exactly those whose names pass all choices, and the count is their number |
| FontChoice.MenuState.EnableItems | contrib/programs/xfontsel/xfontsel.c:1126-1143 | a value of the field is enabled exactly when a marked font is on its list |
| FontChoice.MenuState.EnableRemainingItems | contrib/programs/xfontsel/xfontsel.c:1113-1147 | with some but not all fonts matching, every field but the skipped one is enabled by its lists; else everything is enabled |
| FontSession.AcceptedAreGood | contrib/programs/xfontsel/xfontsel.c:475-541 | all chunks together enter all acceptable names of the list exactly when in no chunk a rejected name stands before an acceptable one |
| FontSession.RejectedHidesGood | contrib/programs/xfontsel/xfontsel.c:535-541 | of a rejected and an acceptable name in this order, none is entered |
| FontSession.AllGoodAccepted | contrib/programs/xfontsel/xfontsel.c:475-541 | all chunks together enter the list as it is exactly when every name is acceptable |
| FontSession.BuildIndex | contrib/programs/xfontsel/xfontsel.c:475-518 | from the list of names, all chunks, the scalable fonts and the sorting give the index of the accepted names, sorted, everything enabled, each menu with exactly the values of the names and, with scaling, the sizes of its resource list |
| FontSession.Session.constructor | contrib/programs/xfontsel/xfontsel.c:475-518 | at the start every choice is open, every menu is in order and has exactly the values that some name has and, with scaling, the sizes of its resource list, and all of them are on offer |
| FontSession.Session.SelectValue | contrib/programs/xfontsel/xfontsel.c:925-953 | after choosing a value, the fonts are filtered by all choices, the other fields offer exactly the values that leave a font, the field chosen from stays as it was, and no menu loses, gains or moves a value |
| FontSession.Session.AnyValue | contrib/programs/xfontsel/xfontsel.c:957-966 | after opening a choice again, the same for all fields |
| FontSession.FilterIgnoresEnable | contrib/programs/xfontsel/xfontsel.c:1009-1051 | which fonts pass does not depend on what is enabled |
| GlobMatch.RestIsGlob | contrib/programs/xfontsel/xfontsel.c:874-921 | for patterns that do not end in two stars, what the matcher computes is the glob relation |
| GlobMatch.RestIsShorterGlob | contrib/programs/xfontsel/xfontsel.c:874-921 | for patterns that end in two stars, it is the glob relation on the name without its last character |
| GlobMatch.TwoFinalStarsMiss | contrib/programs/xfontsel/xfontsel.c:880-893 | an input on which the matcher and the glob relation differ |
| GlobMatch.ExactlyWhen | contrib/programs/xfontsel/xfontsel.c:874-921 | the matcher decides the glob relation for all names exactly when the pattern does not end in two stars |
| GlobMatch.GlobWithoutStars | contrib/programs/xfontsel/xfontsel.c:874-921 | the glob relation without stars: as long as the pattern, and every character the pattern's, or any at a question mark |
| GlobMatch.GlobStar | contrib/programs/xfontsel/xfontsel.c:874-921 | the glob relation at any star of a pattern: the name falls into a match of what is before the star, any text, and a match of what is behind it |
| GlobMatch.StepsOverOnlyOnMismatch | contrib/programs/xfontsel/xfontsel.c:880-893 | where a question mark makes the matcher step over the end of the name, the name does not match |
| GlobMatch.QuestionAtTheEnd | contrib/programs/xfontsel/xfontsel.c:880-888 | inputs on which it does |
| GlobMatch.NoQuestionStaysInside | contrib/programs/xfontsel/xfontsel.c:880-888 | without question marks it never does |
| GlobMatch.Matches | contrib/programs/xfontsel/xfontsel.c:874-921 | for every pattern and every name without stars the recursive matcher ends; it steps over the end of the name exactly when stated, and returns true exactly when the pattern accepts the name otherwise |
| WorkQueue.InsertKeepsOrder | contrib/programs/xfontsel/xfontsel.c:376-403 | a newcomer goes behind everything of its priority number or a lower one, and the queue stays in order |
| WorkQueue.Queue.ScheduleWork | contrib/programs/xfontsel/xfontsel.c:376-403 | links one new piece at its place in the queue and leaves the other pieces in their order |
| WorkQueue.Queue.DoWorkPiece | contrib/programs/xfontsel/xfontsel.c:406-419 | the first piece and what was scheduled before it is unlinked; exactly the work it scheduled at its own priority number or a higher one stays queued; the queue stays in order |
| WorkQueue.PlannedStep | contrib/programs/xfontsel/xfontsel.c:406-419 | work scheduled while a piece runs goes behind it when its priority number is not lower, and before it otherwise |
| WorkRuns.RunLosesNothing | contrib/programs/xfontsel/xfontsel.c:406-419 | running a piece drops nothing exactly when it schedules no work below its own priority number |
| WorkRuns.RunsEverything | contrib/programs/xfontsel/xfontsel.c:365-419 | when no piece schedules work below its own priority number, everything ever scheduled runs exactly once |
| WorkRuns.TraceOrder | contrib/programs/xfontsel/xfontsel.c:365-419 | pieces run in priority order from an ordered queue on |
| WorkRuns.TraceStable | contrib/programs/xfontsel/xfontsel.c:365-419 | first come, first served over a whole run: of each priority number the pieces run in the order in which they were scheduled, whatever the pieces schedule while they run |
| WorkRuns.RunAll | contrib/programs/xfontsel/xfontsel.c:406-433 | the queue is worked off, and what ran is the trace |
| WorkRuns.FinishWork | contrib/programs/xfontsel/xfontsel.c:429-433 | everything urgent has run, only background work is left |
| StartUp.GetFontNamesPlan | contrib/programs/xfontsel/xfontsel.c:475-518 | what GetFontNames schedules: the parse chunks, and then the later stages |
| StartUp.PlanTiles | contrib/programs/xfontsel/xfontsel.c:475-497 | the parse chunks tile all names, in order, each at most a quantum |
| StartUp.PlanOrder | contrib/programs/xfontsel/xfontsel.c:475-518 | what GetFontNames schedules is in priority order and not below its own priority |
| StartUp.StartUpRun | contrib/programs/xfontsel/xfontsel.c:270-309 | from start-up GetFontNames runs, then the chunks over all names in order, then FixScalables, SortFields and SetCurrentFont, then the menus of all fields |
| StartUp.StartUpDeeds | contrib/programs/xfontsel/xfontsel.c:270-309 | the start-up in words of its own: apart from freeing memory, what runs is GetFontNames, the chunks, FixScalables if asked for, SortFields, SetCurrentFont if asked for, and the menus of fields 0 to 13 |
| StartUp.ChunkAt | contrib/programs/xfontsel/xfontsel.c:488-509 | chunk i covers the names from 25 i on, 25 of them or what is left, and there are as many chunks as are needed |
| StartUpIndex.PlanRest | contrib/programs/xfontsel/xfontsel.c:475-518 | the pieces scheduled parse every chunk once and in order, then add the scalable fonts if asked to, then sort, and nothing else touches the index |
| StartUpIndex.RunPieces | contrib/programs/xfontsel/xfontsel.c:406-433 | carrying out such pieces one after the other on an empty index gives the sorted, and if asked for scaled, index of the accepted names |
| StartUpIndex.RunStartUp | contrib/programs/xfontsel/xfontsel.c:270-309 | the trace of the start-up queue, carried out on an empty index, gives the index that parsing, scaling and sorting all names gives, its menus having exactly the values of the names and, with scaling, the sizes of the resource lists |
| InfixCalc.PressReduces | contrib/programs/xcalc/math.c:472-534 | an operator key of no higher priority than the pending operator applies that one operator and takes its place |
| InfixCalc.PressStacks | contrib/programs/xcalc/math.c:472-534 | an operator key of higher priority, or with nothing pending, is stacked with its operand |
| InfixCalc.RParFold | contrib/programs/xcalc/math.c:654-697 | closing a parenthesis folds everything pending since it was opened, from the right |
| InfixCalc.EquFold | contrib/programs/xcalc/math.c:585-627 | '=' folds everything pending from the right |
| InfixCalc.PressSum | contrib/programs/xcalc/math.c:472-697 | typing a sum leaves exactly its pending operators and operands on top of what was there |
| InfixCalc.EvaluatesGrouped | contrib/programs/xcalc/math.c:472-697 | for every well-formed expression that fits the stacks, typed and followed by '=': no error, no pending operator, parentheses balanced, one number more, and it is the value of the expression as the stacks group it |
| InfixCalc.RParForgetsError | contrib/programs/xcalc/math.c:654-697 | a closing parenthesis that finds the number stack full drops a number and ends without the error that a sign would report |
| InfixCalc.LastOperatorCounts | contrib/programs/xcalc/math.c:481-486 | of several operator keys in a row each takes the place of the one before it, and nothing else changes |
| InfixCalc.NumbersAndOperators | contrib/programs/xcalc/math.c:472-627 | a number, operator keys, a number and '=' give the last operator applied to the two numbers, said of sums, differences, products and quotients, with no error and nothing pending |
| InfixCalc.ResultGoesOn | contrib/programs/xcalc/math.c:472-627 | the result of '=' is the left operand of an operator key that follows |
| InfixCalc.IgnoredKeys | contrib/programs/xcalc/math.c:585-697 | '=' and ')' directly behind an operator do nothing, nor does ')' where nothing is open, nor any key in the error state |
| InfixCalc.OpensParenthesis | contrib/programs/xcalc/math.c:629-635 | an opening parenthesis is stacked and counted and changes nothing else; with 32 operators stacked it is an error |
| InfixCalc.OpenParenthesisLosesSum | contrib/programs/xcalc/math.c:585-627 | a parenthesis that is still open at '=' loses the sum in it |
| InfixValue.SafeSum | contrib/programs/xcalc/math.c:472-627 | an expression is grouped to its conventional value when no minus stands before a product of several factors that a further sign follows |
| InfixValue.EvaluatesSafe | contrib/programs/xcalc/math.c:472-697 | for such expressions the calculator ends with the conventional value and nothing pending |
| InfixValue.RightExactlyWhenSafe | contrib/programs/xcalc/math.c:472-627 | a shape of expression comes out right for all numbers exactly when it is of that kind |
| InfixValue.MinusBeforeProduct | contrib/programs/xcalc/math.c:472-627 | 1-2*3+4 comes out as -9 and not -1 |
| Calculator.Machine.PushOp | contrib/programs/xcalc/math.c:835-841 | pushes on the array stack, or enters the error state when it is full |
| Calculator.Machine.PopOp | contrib/programs/xcalc/math.c:844-853 | pops, or enters the error state when the stack is empty |
| Calculator.Machine.PushNum | contrib/programs/xcalc/math.c:872-887 | the same for numbers |
| Calculator.Machine.PopNum | contrib/programs/xcalc/math.c:890-905 | the same for numbers |
| Calculator.Machine.Twoop | contrib/programs/xcalc/math.c:472-534 | an operator key does to the stacks what the machine on values does; what that is, `InfixCalc.PressReduces`, `InfixCalc.PressStacks` and `InfixCalc.LastOperatorCounts` say |
| Calculator.Machine.Equf | contrib/programs/xcalc/math.c:585-627 | '=' reduces until no operator is pending |
| Calculator.Machine.Lparf | contrib/programs/xcalc/math.c:629-635 | an opening parenthesis is stacked and counted |
| Calculator.Machine.Rparf | contrib/programs/xcalc/math.c:654-697 | a closing parenthesis reduces to its opening one, and is ignored when none is open |
| Calculator.Machine.PressKey | contrib/programs/xcalc/math.c:472-697 | every key does what the machine on values does, and nothing in the error state |
| Calculator.Machine.Calculate | contrib/programs/xcalc/math.c:472-697 | the keys of a safe expression and '=' leave its conventional value as the only new number |
| Hierarchy.LinkNodes | xc/lib/Xmu/WidgetNode.c:136-190 | the backward walk makes every node's children its subclasses in the order of the array |
| Hierarchy.SubtreeIsBelow | contrib/programs/viewres/viewres.c:426-436 | the recursive walk from a node visits that node and exactly the nodes below it |
| Selection.InvertIsComplement | contrib/programs/viewres/viewres.c:601-607 | "invert" selects exactly the displayed nodes that were not selected |
| Selection.InvertTwice | contrib/programs/viewres/viewres.c:601-607 | inverting twice gives the same selection |
| Selection.ClimbedCovers | contrib/programs/viewres/viewres.c:629-643 | a walk up reaches every displayed superclass of its start, or stops below a selected node that has it above itself |
| Selection.AncestorsAreClosure | contrib/programs/viewres/viewres.c:624-644 | "ancestors" of the selection adds exactly the displayed superclasses of what was selected, although every walk up stops at the first selected node |
| Selection.WishedFromIs | contrib/programs/viewres/viewres.c:610-676 | parent, children and descendants of the selection add exactly the displayed parents, children and descendants of what was selected |
| Selection.ChosenIsMeant | contrib/programs/viewres/viewres.c:592-690 | every entry of the menu, raised on a node or on the selection, selects exactly the displayed nodes it is meant to, besides what it keeps |
| Selection.ClosuresAreClosed | contrib/programs/viewres/viewres.c:624-676 | choosing "ancestors" or "descendants" of the selection again adds nothing |
| SelectionList.SelectedList.constructor | contrib/programs/viewres/viewres.c:892-893 | the list starts empty with every node's index -1 |
| SelectionList.SelectedList.Resize | contrib/programs/viewres/viewres.c:258-285 | the array grows and keeps the selected nodes |
| SelectionList.SelectedList.AddNode | contrib/programs/viewres/viewres.c:370-386 | appends a displayed node that is not selected and keeps elements[i].selection_index = i for all selected nodes and -1 for all others |
| SelectionList.SelectedList.CopyDown | contrib/programs/viewres/viewres.c:353-367 | packs the entries over the holes in order, moves the nodes' indices with them, and counts the holes |
| SelectionList.SelectedList.RemoveNode | contrib/programs/viewres/viewres.c:388-409 | takes exactly that node out, keeps the order of the others and the indices, and says whether it was selected |
| SelectionList.WithoutAt | contrib/programs/viewres/viewres.c:388-409 | taking a node out leaves what was in front of it followed by what was behind it |
| SelectionList.SelectedList.RemoveNodes | contrib/programs/viewres/viewres.c:411-424 | takes a stretch of nodes out and keeps the indices |
| SelectionList.SelectedList.AddSubtree | contrib/programs/viewres/viewres.c:426-436 | adds the nodes of a subtree in the order of the walk |
| SelectionList.SelectedList.Select | contrib/programs/viewres/viewres.c:583-697 | every menu entry keeps the indices and leaves the selection that entry is to leave |
| SelectionList.SelectedList.Toggle | contrib/programs/viewres/viewres.c:699-715 | a click adds or removes that node |
| Overstrike.OnlyHeadingsAreBold | contrib/programs/xman/ScrollByL.c:1017-1029 | a line that is one run of buffered text from the margin on is a heading exactly when the buffer is all capitals, and drawn in bold it is the same characters in bold |
| Overstrike.AfterLine | contrib/programs/xman/ScrollByL.c:1017-1029 | drawing the rest of the buffer shows every character of the line once, in order and on its line; and in its style, or in bold in a heading, unless the line is the first of its page |
| Overstrike.PageMarks | contrib/programs/xman/ScrollByL.c:997-1043 | a page shown line by line shows each of its characters once, in order and on its line, first lines and headings included |
| Overstrike.PageStyles | contrib/programs/xman/ScrollByL.c:997-1043 | without first lines of pages and headings it shows each character in its style |
| Overstrike.WhichGlyph | contrib/programs/xman/ScrollByL.c:1011-1172 | the character at hand tells which glyph of the line is being read |
| Overstrike.WhenStillFirst | contrib/programs/xman/ScrollByL.c:1017-1029 | which line counts as the first of its page: an empty line leaves it to come, a line that ends in text is the last that counts, one that ends otherwise leaves it to come unless a character was struck |
| TextPlaces.PlacedSkip | contrib/programs/xman/ScrollByL.c:1050-1081 | behind a tab or a long gap the next character stands at the margin plus the blank columns of its visual column |
| TextPlaces.PlacedStrikes | contrib/programs/xman/ScrollByL.c:1092-1117 | a struck character and what was buffered before it stand where they would without the strikes |
| TextPlaces.PlacedAtEnd | contrib/programs/xman/ScrollByL.c:1017-1029 | when the rest of the buffer is drawn, every character of the line stands in its place: the first at the margin, each further one at the end of the one before in that one's style, one behind a tab or a long gap at its column |
| TextPlaces.DrawnLetters | contrib/programs/xman/ScrollByL.c:1187-1224 | what is seen of the draws is their letters without the blanks |
| TextStyles.OwnComesOut | contrib/programs/xman/ScrollByL.c:1092-1171 | a run that a struck character or a change of style ends is drawn in its own style |
| TextStyles.SkipComesOut | contrib/programs/xman/ScrollByL.c:1050-1081 | a run that a tab or a long gap ends is drawn in bold exactly while the formatter takes the line to be the first of its page |
| TextStyles.EndComesOut | contrib/programs/xman/ScrollByL.c:1017-1029 | so is one that the end of the line ends, and in a heading |
| TextStyles.HeadingAtEnd | contrib/programs/xman/ScrollByL.c:1020-1025 | at the end of any line the position is the margin and the buffer all capitals exactly in a heading |
| ManPage.Boldify | contrib/programs/xman/ScrollByL.c:1232-1249 | true exactly for texts of capitals and spaces |
| ManPage.Printer.DumpText | contrib/programs/xman/ScrollByL.c:1187-1224 | draws the characters of the text from the position on, each at the end of the one before, in the style, and advances by their widths |
| ManPage.Printer.PlainChar | contrib/programs/xman/ScrollByL.c:1160-1171 | a character without style ends an italic run, which is drawn in italics, and is buffered |
| ManPage.Printer.UnderlinedChar | contrib/programs/xman/ScrollByL.c:1144-1157 | an underlined character begins or continues an italic run; what is buffered without style is drawn before it begins |
| ManPage.Printer.BoldChar | contrib/programs/xman/ScrollByL.c:1092-1117 | a character struck over any number of times leaves the buffer and is drawn once in bold; all strikes are skipped |
| ManPage.Printer.TabStop | contrib/programs/xman/ScrollByL.c:1050-1059 | a tab draws the buffer, in its style or in bold on a first line, and goes on at the margin plus the blank columns up to the next multiple of eight |
| ManPage.Printer.Blank | contrib/programs/xman/ScrollByL.c:1061-1081 | one of fewer than four spaces is text, a longer run becomes blank columns |
| ManPage.Printer.Step | contrib/programs/xman/ScrollByL.c:997-1173 | every turn of the loop keeps: what is drawn and buffered is what the line says so far, each character in its place and, once drawn, in the style it is to have; the position is the margin exactly as long as the line is one run of buffered text; and h_col plus the buffer's length is the visual column |
| ManPage.Printer.EndLine | contrib/programs/xman/ScrollByL.c:997-1029 | at the end of a line everything it says has been drawn once, in order, on its line, in its place and in the style it is to have; and whether the next line counts as first is what the line tells |
| ManPage.Printer.OnFirstLine | contrib/programs/xman/ScrollByL.c:985-995 | printing starts as on a first line exactly when all lines above on the page are empty |
| ManPage.Printer.PrintText | contrib/programs/xman/ScrollByL.c:923-1175 | for any lines of plain, bold and underlined characters, tabs and spaces that fit the buffer, every character is drawn exactly once, in order, on its line, in its place and in its final style: the first at the margin, each further one at the end of the one before, one behind a tab or a long gap at its column; in its own style, except in bold in a heading and where a tab, a long gap or the end of the line ends its run on a first line of a page |

## Left out

- All toolkit and Xlib calls, widgets, menus, event loops and drawing primitives; drawing is an event in a sequence.
- Allocation failures.
- TextCache.DviWidget.PutCharacters: runs of no characters or of more than 1024, which the buffer cannot hold, are not covered; the callers pass single characters and ligatures. Neither is the order of text and drawn lines.
- Font metrics outside a font's range of characters.
- Line lengths and character names in xditview's input beyond what GetWord and GetNumber read; its drawing commands other than the spline's refinement.
- SplineList.Outline.ApproxSpline: coordinates are real numbers, without rounding; reading the coordinates from a string and drawing the segments are left out.
- ReplayFile.Reader.GetWord: the caller's buffer is not modelled; the length it passes never stops the loop, since the loop's counter stays 0.
- ReplayFile.Reader.GetNumber: does not model an overflow of the number.
- ReplayFile.Reader.UngetC: only the character read last can be put back, as all callers do.
- The registry of character-name maps and the standard maps' contents; ligatures.
- xfontsel's re-entrancy through FlushXqueue, and DisableScaled and EnableOtherValues, which mix widget sensitivity with the index.
- GlobMatch.Matches: names with stars are excluded; it ends where it steps over the end of the name, where what follows depends on the memory there; the fields it reports are not modelled.
- The selection of values from a pattern given at start-up.
- SortedFields.SortValues: the library's sorting routine is stood for by an insertion sort; atoi is modelled without overflow.
- InfixCalc.EvaluatesGrouped: one bound for both stacks, which is enough for them not to overflow; arithmetic is exact, a division by zero gives 0 in the model and is excluded where values are compared; the calculator's display, its power, root, logarithm and angle keys, memory, and reverse Polish mode are left out.
- SelectionList.SelectedList.Select: nodes carry the two properties "has new resources" and "is showing" as a list of flags; showing and hiding resources is left out.
- Hierarchy.LinkNodes: the search for the nearest superclass that is in the array is an input.
- ManPage.Printer.PrintText: escape sequences, the bullet, other backspaces, underscores as text, lines longer than the buffer and the end of the file inside a line are excluded.
- The clients' other programs, key-symbol tables, protocol headers and portability headers: data, or thin wrappers.
