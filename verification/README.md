# MD-Memo: a verified model of its hard machines

MD-Memo is a note editor with a JavaScript page and a Go host. This project models the parts of it whose
promises hold over unbounded inputs, runs or interleavings, and proves those promises:

- **Comment toggling** (Ctrl+/). A list of edits is applied to a text and carries the selection along; the result
  is accepted only when the comments of the note come out as they should. What one press writes, and where it leaves
  the selection, is told unit for unit from the texts that make up the lines; pressing the key twice gives text and
  selection back, in the line style and in the block style, and it is proved exactly when. The scanner that finds the
  comments of a note is modelled too, and it keeps the promise that the toggle is proved against.
- **Task notations** (`[[ @llm ... ]]`, `[[ $ ... ]]`, `{{ @agent ... }}`) and **result blocks**: printers and
  readers of a note, with an incremental code-fence scanner (section 4.5 of the CommonMark Spec). What is written is
  told from the text that was given, and it is read back: the instruction and the whole result come back, and it is
  proved exactly when. Of any number of tasks the one that the finder answers with is told from the note.
- **Coordinates**: byte offsets, UTF-16 indices, lines and columns (section 3 of RFC 3629, section 2.1 of RFC 2781),
  for any bytes, valid UTF-8 or not; offsets are told from the code points whose bytes stand in the text.
- **Shared state as step systems**: the config cache keyed by a stat, the search-supersede protocol, the bounded
  store of search plans.
- **The layout** of the toolbar and the context menu, which must not depend on history, and the **capture session**
  that picks windows and rectangles.
- **Replacing a skill folder** when every file operation may fail, and the smaller laws of **line endings**, the
  **text fingerprint**, **fresh names** and **safe names**.

JavaScript strings are sequences of UTF-16 code units (`Text.Str`), Go strings sequences of bytes (`Utf16.Bytes`),
file names sequences of characters. The toggle is proved for every scanner that keeps the promise
`CommentToggle.CommentScanner`, and `HtmlComments.ScannerKeepsPromise` says that the one of the page does. What the
machines call but do not contain is a parameter: the list of agents a name resolves to, lower-casing, what a
regular-expression search matched, and the clock. Failures of the file system are
nondeterministic choices, and the steps of goroutines are interleaved in every order.

A loop of the source is a method proved against a function; the properties are lemmas about those functions. Objects
the source updates in place are classes. What the functions compute is stated a second time, without them, on texts put
together from their parts: in both directions, so that a line has a form if and only if it is read as that.

Where a comment in the source promises more than the code does, the exact condition is proved, and an input that fails
is given:

- `sanitize` does not make "always a valid task": exactly when it does is told from the runs of brackets of the text
  (`TaskRoundTrip.TaskRoundTrip`, `BracketRuns.NeutralizeNests`); it fails for `[[[` (`TaskRepair.RepairCanFail`).
- The results of a stale search can still be sent after those of a newer one, exactly when it was past its finishing
  lock, with results to send, before the newer one started; the page then drops them by a number of its own, which is
  not part of this model (`SearchSupersede.OlderSendsLastIff`, `SearchSupersede.OlderMaySendLast`).
- A cached config can be stale, although every save drops the cache, exactly when a stat comes back after something
  else was in the file: two versions have one stat, and the earlier one, or one between them, has another content than
  the later one (`ConfigCache.FreshIffStatsTell`, `ConfigCache.StaleRun`).
- Pressing Ctrl+/ twice, one comment per line, gives the text back exactly when no line is a comment already and none
  reads as a tag line once it is one (`ToggleTheorem.LineRoundTrip`); with one comment around the lines, exactly when
  the line the comment ends on does not read as a tag line (`BlockTheorem.BlockRoundTrip`). "tags: a" does not come
  back (`ToggleWitness.NeverTakenBack`). A press that would make one of md-memo's own markers is never accepted
  (`ToggleTheorem.NoMarkerCommented`, `BlockTheorem.NoMarkerWrapped`, `ToggleWitness.MarkerRefused`).
- Ascending queries of the fence scanner read a line again for each query at which no fence is open
  (`Fences.AscendingReads`, `Fences.AskedTwice`).
- A safe file name can still be a device name by the part before its first dot, exactly when it has another dot
  (`AssetNames.DeviceSlips`, `AssetNames.SlippedDevice`).
- The old skill is left in the backup alone only when both the placing rename and the rollback fail
  (`SkillImport.PackImportSkill`).

## Model

| member | source | states |
|---|---|---|
| EditCalculus.MapPosition | frontend/js/comment_toggle.js:84-100 | the loop over the edits returns where a position is after them; for insertions and deletions alike it is the function the laws below are about |
| EditCalculus.ApplyEdits | frontend/js/comment_toggle.js:102-110 | the loop returns the region with sorted, non-overlapping edits applied |
| EditCalculus.SurvivorsMove | frontend/js/comment_toggle.js:84-110 | every unit that no edit deletes is found in the applied text at its mapped position |
| EditCalculus.MapPosMonotone | frontend/js/comment_toggle.js:84-100 | positions keep their order, whichever side of an insertion each of them takes |
| EditCalculus.SelectionInside | frontend/js/comment_toggle.js:112-120 | the mapped selection is in order and inside the new text, wherever the selection ends; one that ends in the region ends in what the edits made of it |
| EditCalculus.EditedKeeps | frontend/js/comment_toggle.js:84-110 | in the whole text every unit that no edit deletes is found at its mapped position, and everything before and behind the region is as it was |
| EditCalculus.InverseRestores | frontend/js/comment_toggle.js:102-110 | deleting what was inserted, where it was inserted, gives the region back |
| EditCalculus.InverseMapsBack | frontend/js/comment_toggle.js:84-100 | a position mapped through insertions and then through their inverse is where it was |
| LineCalculus.JoinSplit | frontend/js/comment_toggle.js:165 | splitting a region at its line feeds loses nothing: joined again the lines are the region, and none holds a line feed |
| LineCalculus.ApplyByLine | frontend/js/comment_toggle.js:165-223 | edits that stay inside their lines change the region line by line |
| CommentToggle.ReadLines | frontend/js/comment_toggle.js:163-185 | the loop gives every line its start, its text without a carriage return, and its kind |
| CommentToggle.CollectEdits | frontend/js/comment_toggle.js:200-222 | the edits pushed are those of each plain (or each commented) line, in order |
| CommentToggle.CollectRemoved | frontend/js/comment_toggle.js:211-221 | the spans listed as removed are the comments that are taken off |
| CommentToggle.CollectAdded | frontend/js/comment_toggle.js:224-231 | the spans listed as added are those of the new comments in the new text |
| CommentToggle.CollectSkipped | frontend/js/comment_toggle.js:190-194 | the numbers of the blocked lines |
| CommentToggle.CheckStructure | frontend/js/comment_toggle.js:136-152 | true exactly when the comments of the edited text are the kept ones, moved, and the added ones, in order |
| CommentToggle.ToggleLines | frontend/js/comment_toggle.js:160-243 | the whole line style, step by step, gives the toggle whose text, selection and answer `PressedText`, `PressedSelection` and `PressStatus` tell and that the round trip is about |
| LineForms.ShapeMatches | frontend/js/comment_toggle.js:38-41 | a line that is white space, `<!--`, at most one white-space unit, a core without `-->`, at most one white-space unit, `-->` and white space is read as one comment with exactly that core |
| LineForms.MatchHasShape | frontend/js/comment_toggle.js:38-41 | every line that is read as one comment has that form |
| LineForms.TagShapeIs | frontend/js/comment_toggle.js:47-58 | a line of blanks, `<!--`, the word tag or tags in any case, a colon, anything without arrows, `-->` and blanks is a tag line |
| LineForms.TagHasShape | frontend/js/comment_toggle.js:47-58 | every tag line has that form |
| LineForms.MarkerIsText | frontend/js/comment_toggle.js:38 | a marker is `<!--`, white space, perhaps a slash, `md-memo:`, and nothing else is |
| PressedText.PressedLines | frontend/js/comment_toggle.js:160-243 | what a press writes, for every note, selection and scanner: the region is the lines the selection touches; taking off leaves of every line that is one comment what is around and inside it, without the one white-space unit at either end of the inside; putting on writes `<!-- ` behind the blanks of every line that can take it and ` -->` at its end; every other line and every line ending is the same unit for unit |
| PressedSelection.SelectionMoves | frontend/js/comment_toggle.js:112-120 | after commenting out, a caret stands before the unit it stood before, behind an opening and before an end written there; a selection starts before and ends behind what was written at its edges |
| TakenSelection.SelectionTaken | frontend/js/comment_toggle.js:112-120 | after taking comments off, each end of the selection stands behind as many units of its line as stayed before it: all in a line left alone, and the place of the `<!--` or the `-->` for an end inside what went |
| PressedSelection.SkippedLines | frontend/js/comment_toggle.js:187-194 | the numbers reported are exactly those of the lines that hold a `-->` and are not one comment, or touch a comment over several lines, and are neither blank, marker nor tag line |
| PressStatus.KindsMean | frontend/js/comment_toggle.js:166-185 | a line is one to comment, one to uncomment or a tag line exactly when it has that form and nothing before it in the order of the tests applies |
| PressStatus.LineAnswer | frontend/js/comment_toggle.js:187-199 | nothing happens exactly when no line can be commented or uncommented, and then tag lines are blamed exactly when there are some; "uncommented" means that no line could be commented; a refusal blames an unclosed comment exactly when one starts before the end of the lines |
| ToggleTwice.SpansLinesMoves | frontend/js/comment_toggle.js:162 | a comment spans several lines after the edits exactly when it did before |
| ToggleTwice.LongCommentsMove | frontend/js/comment_toggle.js:176 | a line is blocked by a comment over several lines after the toggle exactly when it was before |
| ToggleTwice.CommentsAfter | frontend/js/comment_toggle.js:136-152 | after a passed check the comments of the new text are the old ones, moved, and the new ones, each on one line |
| ToggleTwice.KindTwo | frontend/js/comment_toggle.js:166-185 | what kind each line of the new text is, from what it was |
| RegionCarry.RegionTwo | frontend/js/comment_toggle.js:306-316 | the mapped selection touches the same lines, so a second press works on exactly the text the first one wrote |
| ToggleTheorem.CommentsBack | frontend/js/comment_toggle.js:136-152 | taking the new comments out and mapping the rest back gives the old comments, so the second structural check passes because the first did |
| ToggleTheorem.SecondEdits | frontend/js/comment_toggle.js:211-221 | the edits of the second press are exactly the inverse of those of the first |
| ToggleTheorem.LineRoundTrip | frontend/js/comment_toggle.js:160-243 | a second press after "commented" restores the text if and only if no line was a comment already and no commented-out line reads as a tag line; then it answers "uncommented" and the selection is back too, LF and CRLF alike |
| ToggleTheorem.NoMarkerCommented | frontend/js/comment_toggle.js:136-152 | a press that answers "commented" never makes a marker of a line, for every scanner that reports no markers |
| CommentBlock.ToggleBlock | frontend/js/comment_toggle.js:246-304 | the block style, step by step, gives the toggle whose text and answer `BlockPressed` and `PressStatus` tell and that its round trip is about |
| PressStatus.WholeCommentIs | frontend/js/comment_toggle.js:265-266 | a text is exactly one comment when it starts with `<!--`, ends with `-->`, has no other arrow from its third unit on and holds no marker |
| PressStatus.BlockAnswer | frontend/js/comment_toggle.js:246-297 | the answer of the block style told from the region: nothing for blank lines and for tag lines alone, refused for tag lines among others, for a marker, for a `-->`, for a comment it touches, in that order |
| BlockPressed.BlockUncommented | frontend/js/comment_toggle.js:265-283 | a press that takes the comment off leaves what is between its ends; with each end goes its line when there is only white space beside it, its line break included, else at most one blank |
| BlockPressed.UncommentedHasShape | frontend/js/comment_toggle.js:265-283 | and every region that such a press works on has that form |
| BlockPressed.BlockCommented | frontend/js/comment_toggle.js:293-297 | a press that puts the comment on writes `<!-- ` before the text and ` -->` behind it, inside the white space around it |
| BlockSelection.SelectionWrapped | frontend/js/comment_toggle.js:112-120 | after putting the comment on, a caret is behind the opening and before the end written where it stands, and a selection holds what is written at its edges |
| BlockSelection.SelectionUnwrapped | frontend/js/comment_toggle.js:112-120 | after taking it off, each end of the selection stands behind as many units of the region as stayed before it |
| BlockTheorem.SecondCheckPasses | frontend/js/comment_toggle.js:284-301 | the structural check of taking the block comment off passes because that of putting it on did |
| BlockCondition.ComesOffIff | frontend/js/comment_toggle.js:246-258 | whether a tag line stops the second press is told from the region before the comment is put on: from the line the comment will end on |
| BlockTheorem.BlockRoundTrip | frontend/js/comment_toggle.js:246-304 | a second press after "commented" restores text and selection and answers "uncommented" if and only if, in the region as it was, the line the comment will end on will not read as a tag line; otherwise it changes nothing |
| BlockTheorem.NoMarkerWrapped | frontend/js/comment_toggle.js:136-152 | a press that answers "commented" never makes a marker of the text it wraps, for every scanner that reports no markers |
| ToggleWitness.LineOutcome | frontend/js/comment_toggle.js:160-243 | with the page's scanner, for every text that is one line without angle brackets and with nothing to trim: the press is refused exactly where the comment would be a marker, and else a second press gives the line back exactly when its comment is no tag line |
| ToggleWitness.BlockOutcome | frontend/js/comment_toggle.js:246-304 | the same of the block style |
| ToggleWitness.NeverTakenBack | frontend/js/comment_toggle.js:160-304 | with the page's scanner "tags: a" is commented out in both styles and a second press does not bring it back |
| ToggleWitness.MarkerRefused | frontend/js/comment_toggle.js:136-152 | with the page's scanner "md-memo:x" is refused in both styles and stays as it is |
| HtmlComments.FenceOn | frontend/js/html_comments.js:42-50 | the fence on a line, first unit tested first, is the one the task finder sees there |
| HtmlComments.FindSpan | frontend/js/html_comments.js:66-95 | the walk over the runs of backticks gives the end of the inline code that holds an index, or nothing |
| CodeSpans.SpanIs | frontend/js/html_comments.js:64-95 | an index is answered with the end of a code span if and only if it lies in one: a run of backticks and the next run of the same length, where no earlier span reaches over the first run |
| HtmlComments.ScanLine | frontend/js/html_comments.js:128-150 | the inner loop leaves the comments that start on a line, where the line is left, and the next `<!--` |
| HtmlComments.ScanText | frontend/js/html_comments.js:99-154 | the whole pass, with its look-ahead for `<!--` and for fences, gives the comments and the unclosed index of the function the promise is about |
| HtmlComments.ScanKeepsPromise | frontend/js/html_comments.js:97-165 | for every text the comments come in order, do not overlap, run from a `<!--` to a `-->`, and none is a marker; an unclosed index is that of a `<!--` with no `-->` after it |
| CommentsFound.NoneMissed | frontend/js/html_comments.js:99-154 | every `<!--` of every text is in a comment that is reported, or in a marker, in inline code, on a line a fence is open on, or behind the unclosed index |
| CommentsFound.NoneMissedInText | frontend/js/html_comments.js:99-154 | in a text without backticks and tildes only markers and what is behind an unclosed `<!--` are left out |
| HtmlComments.ScannerKeepsPromise | frontend/js/html_comments.js:156-159 | the page's scanner is one of those that the toggle is proved for |
| HtmlComments.OutsideFences | frontend/js/html_comments.js:107-127 | when no comment goes on over a line, no comment starts where the fence scanner of the task finder says a fence is open |
| Fences.FenceScanner.Query | frontend/js/auto_selector.js:123-143 | the incremental scanner answers as the fold over all lines from the start does; it reads each line it passes once, and the queried line itself once more when no fence is open there |
| Fences.QueryAll | frontend/js/auto_selector.js:122-143 | for any sequence of indices in any order every answer is that of the text alone, and how often each line is read is told exactly |
| Fences.AscendingReads | frontend/js/auto_selector.js:122-143 | for ascending indices every line before the last one asked about is passed once, and besides that a line is read once for each query about it at which no fence is open |
| Fences.AskedTwice | frontend/js/auto_selector.js:122-143 | asked twice for the start of a one-line text the scanner reads that line twice, so "reads the text once" fails for ascending indices |
| Fences.OpenMeans | frontend/js/auto_selector.js:131-140 | a fence is open before a line exactly when some earlier line outside fences opened it and no line since closes it |
| FenceForms.TextIsFence | frontend/js/auto_selector.js:115-120 | at most three spaces, at least three backticks or tildes and a rest on one line, without backticks behind backticks, is a fence of that length |
| FenceForms.FenceHasText | frontend/js/auto_selector.js:115-120 | every fence is such a line |
| FenceForms.ClosingText | frontend/js/auto_selector.js:134 | a line closes a fence exactly when it holds at most three spaces, at least as many of the same unit, and white space |
| LinePrefix.SplitLinePrefix | frontend/js/auto_selector.js:96-112 | the loop splits a line into its prefix and the rest, and together they are the line |
| PrefixForms.PrefixIs | frontend/js/auto_selector.js:96-112 | the prefix is the longest run of blanks and single quote marks and, behind it, the longest list marker: a dash with blanks and perhaps a check box, one to three digits of one width with a closing sign and blanks, or a bullet |
| PrefixForms.LongestMarker | frontend/js/auto_selector.js:109 | no text that is a list marker is longer than the one found |
| LinePrefix.PrefixStable | frontend/js/auto_selector.js:96-112 | with a notation behind it the prefix of a line is still its prefix |
| Notations.ParseNotation | frontend/js/auto_selector.js:161-181 | the bracket scan returns where the notation ends, or nothing, with the depth limit of sixteen |
| Notations.IsBalanced | frontend/js/auto_selector.js:288-296 | the loop decides whether every pair of brackets has its partner |
| Notations.NotationEnds | frontend/js/auto_selector.js:161-181 | the scan of a written notation reaches its written end exactly when the text inside is balanced and nests at most fifteen deep |
| NotationForms.EndsWhereCut | frontend/js/auto_selector.js:161-181 | what follows a notation on its line does not matter for where it ends |
| NotationForms.BareNotationEnds | frontend/js/auto_selector.js:161-181 | with any text between that does not end in a closing bracket, the notation ends there exactly when the text is balanced and nests at most fifteen deep |
| Notations.NeutralizeLeaves | frontend/js/auto_selector.js:298-300 | spacing out leaves a pair of brackets exactly when some bracket stood three times in a row |
| NotationForms.FirstSpaced | frontend/js/auto_selector.js:298-300 | a space comes between the first two brackets that stand together, and the text behind them is spaced out in the same way |
| NotationForms.NothingSpaced | frontend/js/auto_selector.js:298-300 | a text without two such brackets together stays as it is |
| Notations.NeutralizedNests | frontend/js/auto_selector.js:298-308 | without three in a row the spaced-out text can always stand in a notation |
| Notations.NeutralizeCanFail | frontend/js/auto_selector.js:298-308 | three opening brackets are spaced out to a text that still is not balanced |
| BracketRuns.PairsOfSpaced | frontend/js/auto_selector.js:298-300 | of every run of n equal brackets spacing out leaves (n - 1) / 2 pairs, rounded down, in order |
| BracketRuns.NeutralizeNests | frontend/js/auto_selector.js:298-308 | the spaced-out text can stand in a notation if and only if the pairs its runs of brackets leave are balanced and nest at most fifteen deep |
| Tasks.CollectTasks | frontend/js/auto_selector.js:227-276 | the loop, with its cached line bounds and its fence scanner, finds the tasks of the region in order |
| Tasks.FindTaskAt | frontend/js/auto_selector.js:209-285 | the finder, step by step, gives the choice that `TaskChoice` tells from the tasks of the region |
| TaskChoice.FirstUnder | frontend/js/auto_selector.js:279 | for any number of tasks: the first one that holds the caret, from its first bracket to just behind its last, is the answer |
| TaskChoice.FirstAlone | frontend/js/auto_selector.js:280 | when none holds it: the first that is alone on the line of the caret |
| TaskChoice.FirstSelected | frontend/js/auto_selector.js:281-282 | when there is none of those either: the first of a selection, and nothing for a caret |
| TaskChoice.UnderCaret | frontend/js/auto_selector.js:209-285 | a task that stands around the caret, that no task found before it covers and none reaches the caret, is the one the finder answers with |
| TaskChoice.FoundPlace | frontend/js/auto_selector.js:252-275 | a task found knows its text, its line and its prefix, and is alone exactly when nothing but white space is beside it, in the note or in the note with its comments masked |
| TaskChoice.InlineCodeIs | frontend/js/auto_selector.js:150-154 | an index counts as inline code exactly when an odd number of backticks stands before it on its line |
| TaskForms.SquareReads | frontend/js/auto_selector.js:184-188 | between square brackets `@llm` in any case and `$`, with a blank or nothing behind, read as those tasks with the rest, trimmed, and nothing else is one |
| TaskForms.CurlyReads | frontend/js/auto_selector.js:189-193 | between curly brackets `@`, a name that resolves, blanks and perhaps a colon read as that agent with the rest, trimmed, and nothing else is one |
| Tasks.FoundMeans | frontend/js/auto_selector.js:233-276 | every task found is what its own brackets read as, outside inline code, fences and comments |
| Tasks.NothingMissed | frontend/js/auto_selector.js:233-276 | every pair of brackets of the region that reads as a task outside inline code, fences and comments is found, unless an earlier task found covers it |
| TaskWriting.WrittenParts | frontend/js/auto_selector.js:309-347 | what decorate writes keeps the prefix of the first line, and its instruction is not empty, on one line, trimmed, and balanced unless it was repaired |
| DecoratedText.DecoratedSingle | frontend/js/auto_selector.js:309-347 | a text of one line is written with its own prefix and, as instruction, the rest of it, trimmed; when that rest starts with the marker of its own kind, what is behind the marker and its blanks; spaced out when it is not balanced and may be repaired, and not at all when it is empty or may not |
| DecoratedText.DecoratedLines | frontend/js/auto_selector.js:309-347 | the same for a text of several trimmed lines that may be repaired: the instruction is those lines with one space between them |
| DecoratedText.BreakBecomesSpace | frontend/js/auto_selector.js:325 | a break, with the blanks before it and the white space behind it, becomes one space |
| SolidUnits.UnitsSurvive | frontend/js/auto_selector.js:309-347 | whatever the text and however it is repaired: its units that are not white space are those of the prefix and then those of the instruction, in order, but for the marker of its own kind it may start with |
| TaskRoundTrip.ReadsBack | frontend/js/auto_selector.js:183-193 | the inside of a written notation reads back as its kind, agent and instruction, for an agent exactly when the instruction does not start with a colon |
| TaskRoundTrip.TaskRoundTrip | frontend/js/auto_selector.js:209-347 | in a note without comments, on a line outside fences, the decorated line is found from every caret on it as the task it was made into, if and only if the pairs of brackets of its instruction, as the text says it (or those its runs leave, when they have to be spaced out), nest at most fifteen deep and for an agent it does not start with a colon |
| InstructionRoundTrip.SingleRoundTrip | frontend/js/auto_selector.js:209-347 | the round trip with the instruction told from the text: a line of text is written as the task it says, and every caret on it finds that task with that instruction, exactly when it nests and, for an agent, does not start with a colon |
| InstructionRoundTrip.NameIs | frontend/js/auto_selector.js:345 | an agent name without white space and colons is kept, and one of nothing else is "claude-code" |
| TaskRepair.RepairedNests | frontend/js/auto_selector.js:302-347 | a repaired instruction can stand in a notation if and only if the pairs the runs of the given text leave nest; so always when no bracket stands three times in a row |
| TaskRepair.RepairCanFail | frontend/js/auto_selector.js:302-347 | the text of three opening brackets is decorated, and from no caret on the line that is written any task is found |
| ResultBlocks.EscapeLeavesNone | frontend/js/auto_selector.js:364-370 | after escaping there is no marker in the result, whatever it was |
| ResultBlocks.QuietLine | frontend/js/auto_selector.js:394-404 | no line cut out of such a text is a closing line or another opener |
| ResultBlocks.OpenerMarker | frontend/js/auto_selector.js:368-388 | the written opening line reads back with the cleaned id and its attributes, exactly when every attribute is a key=value word |
| ResultBlocks.FindCloser | frontend/js/auto_selector.js:396-408 | the line loop returns the end of the closing line, or nothing when another opener or the end of the note comes first |
| ResultBlocks.FindResultAfter | frontend/js/auto_selector.js:379-410 | the finder, step by step, gives the answer that the round trip is about |
| ResultBlocks.ResultRoundTrip | frontend/js/auto_selector.js:366-410 | for every id, result and attributes, a block written on the line under a task is found from anywhere on the task's line as exactly that block with the cleaned id, if and only if every attribute is a key=value word; otherwise nothing is found |
| ResultContent.EscapeHolds | frontend/js/auto_selector.js:367 | escaping writes `&lt;` for the first unit of every marker and nothing else: every other unit is there, moved by three for each marker before it |
| ResultContent.PutsBack | frontend/js/auto_selector.js:367 | and putting `<` back at those places gives the text |
| ResultContent.ResultComesBack | frontend/js/auto_selector.js:366-410 | the block found under a task is its opening line, the whole trimmed text of the result, escaped, and its closing line; without a marker in the text that is the text itself, and with markers putting them back gives it |
| ResultContent.IdIs | frontend/js/auto_selector.js:350-352 | an id of letters and digits is kept, and one without any is "0000" |
| ResultContent.WordsAre | frontend/js/auto_selector.js:354-358 | the attributes are the words of a text, each behind one space |
| MarkerForms.AnyOpenerIs | frontend/js/auto_selector.js:399-404 | which lines open a block or a run |
| MarkerForms.MarkerUnder | frontend/js/auto_selector.js:379-410 | a marker line under a task is found with its kind, id and attributes, as a block up to the first closing line when no opening line comes before that, and else as that line alone |
| MarkerForms.FoundIsMarker | frontend/js/auto_selector.js:379-410 | and whatever is found is such a line |
| MarkerForms.NoLineUnder | frontend/js/auto_selector.js:382-383 | under the last line nothing is found |
| DiskSync.DetectEol | frontend/js/disk_sync.js:43-52 | the loop over the line feeds tells CRLF when most of them have a carriage return |
| SignatureVectors.EolIs | frontend/js/disk_sync.js:43-52 | CRLF exactly when more line feeds have a carriage return before them than have none |
| SignatureVectors.LfBreaks | frontend/js/disk_sync.js:20-22 | each of CR LF, CR and LF becomes one LF, and everything else stays |
| DiskSync.EndingsComeBack | frontend/js/disk_sync.js:20-58 | reading with LF and writing with the detected ending gives the text back if and only if it used only LF or only CRLF |
| DiskSync.Sum | frontend/js/disk_sync.js:25-41 | the fingerprint of a text, whose combined value is below 2^53, so the double arithmetic is exact |
| SignatureVectors.HelloVector | pkg/textsig/textsig_test.go:16-18 | the fingerprint that both sides of the application agree on for two words on two lines, with each line ending |
| SignatureVectors.LetterVector | pkg/textsig/textsig_test.go:15 | and for one letter |
| SignatureVectors.EmptyVector | pkg/textsig/textsig_test.go:14 | and for no text |
| DiskSync.SumIgnoresEndings | frontend/js/disk_sync.js:24-58 | writing a text with any line ending does not change its fingerprint |
| Utf16.Utf16ToByte | app_slot.go:173-191 | the loop returns the byte offset of the character that holds a UTF-16 index, clamped |
| Utf16.Cursor.ToUtf16At | app_slot.go:218-241 | whatever was asked before, the cursor answers as a fresh scan does; it decodes each character it passes once, and once more the one that holds the offset when that is inside it |
| Utf16.AscendingDecodes | app_slot.go:218-241 | for ascending offsets every character before the last one is decoded once, and one more for each query inside a character |
| Utf16.DecodedTwice | app_slot.go:232-236 | asked twice, in ascending order, for an offset inside a character the cursor decodes it twice, so the total depends on the queries too |
| Utf16.ByteToUtf16 | app_slot.go:193-197 | a byte offset becomes the UTF-16 index of the start of its character |
| Utf8.CharacterIs | app_slot.go:165-241 | a character is a code point exactly where its bytes stand, one to four by the table of section 3 of RFC 3629, the surrogates left out; every other byte is one U+FFFD |
| Utf8.EncodedPieces | app_slot.go:165-197 | for every string of code points and stray bytes the UTF-16 text is that of its code points, by section 2.1 of RFC 2781, one after another |
| Utf8.EveryStringReads | app_slot.go:165-197 | and every string of bytes is one of those |
| Utf8.OffsetsOfPieces | app_slot.go:173-241 | every byte of a character stands for the sum of the units before it, every unit of it for the sum of the bytes before it |
| Utf16.CutsAgree | app_slot.go:165-241 | cutting the UTF-16 text at the indices of two character starts gives the UTF-16 text of the bytes between them, for any bytes |
| Utf16.RoundsDown | app_slot.go:193-197 | an offset inside a character counts as the greatest character start not after it |
| Utf16.BackToByte | app_slot.go:173-197 | from bytes to units and back gives the start of the character |
| Utf16.BackToUtf16 | app_slot.go:173-197 | from units to bytes and back gives the index itself, if and only if it is not inside a surrogate pair, and one less otherwise |
| Utf16.PastTheEnd | app_slot.go:173-191 | an index at or past the end stands for the end |
| Walker.FeedIsBoundary | app_rpc_extra.go:457-473 | right before and right after a line feed byte a character starts, whatever the other bytes are |
| Walker.U16Walker.At | app_rpc_extra.go:456-473 | the walker advances to the first character start at or after the offset and tells its UTF-16 offset, line and column |
| Walker.U16Walker.To | app_rpc_extra.go:456-473 | for character starts in ascending order it tells those of the very offset asked |
| Walker.MeasureUtf16 | app_rpc_extra.go:604-611 | the loop counts the units of the UTF-16 text |
| SearchPlaces.PlaceIs | app_rpc_extra.go:456-473 | the line of a place is one more than the line feeds before it, its column one more than the units of the UTF-16 text before it on its line |
| Walker.LineColToOffset | app_rpc_extra.go:613-631 | the loop over the lines gives the offset of a line and column, clamped into the text |
| SearchPlaces.OffsetIs | app_rpc_extra.go:613-631 | the offset of a line and column is the length of the UTF-16 text before that line and the columns before that one, no further than the end; what is below one counts as one |
| SearchPlaces.OffsetPast | app_rpc_extra.go:613-631 | a line behind the last one is at the end, whatever the column |
| Walker.PlaceIsNamed | app_rpc_extra.go:456-473 | the line and column of a character start lead back to its UTF-16 offset |
| Walker.FindMatches | app_rpc_extra.go:524-547 | the loop reports the first matches that are not empty, up to the limit, and is truncated exactly when there are more |
| SearchPlaces.HitsAre | app_rpc_extra.go:524-547 | the hits are those of the first matches that are not empty, in order, as many as the limit allows |
| Walker.HitNamesMatch | app_rpc_extra.go:527-546 | both ends of a reported match name the same place by offset and by line and column, and the units between them are those of the matched bytes |
| Walker.HitsNamePlaces | app_rpc_extra.go:524-547 | both ends of every hit that a search reports name the same place by offset and by line and column, and lie in the text |
| Walker.ReplaceMatches | app_rpc_extra.go:575-596 | the loop builds the text with every match that is not empty replaced, and counts them |
| SearchPlaces.ReplacedIs | app_rpc_extra.go:575-596 | of a text put together from what stays and what is matched, what stays is written as it is and every match that is not empty as what it expands to |
| Walker.ReplaceKeeps | app_rpc_extra.go:575-596 | every byte outside the replaced matches is in the new text where the edits carry it |
| ConfigCache.Cache.Look | app_config.go:59-66 | a hit is the memoised content, and only under the same stat |
| ConfigCache.Cache.ReadConfigCached | app_config.go:48-81 | one call: the memoised content under the same stat, else what the file held at the read, and it is memoised |
| ConfigCache.FreshIffStatsTell | app_config.go:36-90 | with any number of readers, writers and invalidations in any order every call returns what the file held at some moment of the call, if and only if stats tell the versions of the file apart |
| ConfigCache.OwnStatsTell | app_config.go:28-35 | in particular when every version of the file has a stat of its own |
| ConfigCache.MatchingEntryIsCurrent | app_config.go:36-81 | an entry whose key matches the file holds what is in the file |
| ConfigCache.StaleRun | app_config.go:200-209 | with one stat for two versions a run of saves that each drop the cache ends with a stale read |
| SearchSupersede.Searches.BeginSearch | app_scrap.go:165-172 | under the lock the search before is cancelled and the fields are those of the new one |
| SearchSupersede.Searches.FinishSearch | app_scrap.go:186-190 | the cancel function is dropped only by the newest search |
| SearchSupersede.OneLiveSearch | app_scrap.go:157-206 | in every interleaving at most one search that is not cancelled is before its finishing lock, and the cancel function is its own |
| SearchSupersede.HandleIsNewest | app_scrap.go:165-190 | searchCancel is nil or belongs to the search numbered searchSeq |
| SearchSupersede.SupersededIffLate | app_deepsearch.go:527-552 | a search is answered "superseded" exactly when a newer one had started before it passed its lock, so one overtaken before never delivers results |
| SearchSupersede.RequestGoesOn | app_scrap.go:157-206 | every request that is not answered can take its next step, comes nearer to its answer, and holds up no other |
| SearchSupersede.AnsweredOnce | app_scrap.go:157-206 | each request is answered at most once, and exactly once when it is done |
| SearchSupersede.OvertakenIsSuperseded | app_scrap.go:157-206 | a search still before its finishing lock when a newer one starts is answered "superseded" in every continuation, and nothing else |
| SearchSupersede.OlderSendsLastIff | app_scrap.go:192-205 | in every reachable state, when a newer search starts, an older one that is not answered can still send its results after the newer one sent its own if and only if it is past its lock with results to send |
| SearchSupersede.OlderMaySendLast | app_scrap.go:192-205 | a run in which that happens |
| SkillImport.CopyKeepsFiles | app_pack.go:605-632 | a backup holds every regular file of the tree at its path and with its contents |
| SkillImport.Backup.Ensure | app_pack.go:575-603 | the backup folder gets a name nobody has, among the first hundred, and is made once |
| SkillImport.Backup.Save | app_pack.go:605-632 | a saved tree is in the backup folder, and nothing saved before is lost |
| SkillImport.Swap | app_pack.go:852-862 | out, in, and back: the old skill is missing only when placing and rollback both failed |
| SkillImport.Replace | app_pack.go:842-867 | unpacking, backing up and replacing leaves the new skill with a backup of the old, or the skills as they were, with that exception |
| SkillImport.PackImportSkill | app_pack.go:822-868 | for every pattern of failing operations: the new skill at the target and the regular files of the old one backed up, or a refusal with the skills as they were, except exactly when placing and rollback both fail, and then the old one is in the backup; earlier backups and everything else are untouched. It is applied exactly when there is a project, no link is in the way and no operation but the cleaning up failed. Of a link or a special file there is no backup: at the target it is replaced without one, inside a skill it is missing from the copy |
| ChromeLayout.BuildRank | frontend/js/chrome_layout.js:93-98 | the map numbers the saved order and then the default order, each id once |
| ChromeLayout.PlaceItems | frontend/js/chrome_layout.js:122-126 | moving the items one by one before the divider leaves them in the sorted order behind everything else of the group |
| ChromeLayout.SortForgets | frontend/js/chrome_layout.js:116-122 | ranked ids are sorted the same however they stood before |
| ChromeLayout.RestoredIffOthersLead | frontend/js/chrome_layout.js:120-127 | a group that was rearranged comes back as it was exactly when nothing but items came behind an item |
| ChromeLayout.PassDividers | frontend/js/chrome_layout.js:135-153 | a divider is shown exactly when the group behind it has a visible item and some group before it has one |
| ChromeSurface.DividersCount | frontend/js/chrome_layout.js:135-153 | as many dividers are shown as there are groups with a visible item, less one; before and behind each is a visible item, and between any two |
| ChromeSurface.Surface.Apply | frontend/js/chrome_layout.js:101-159 | after any history the container shows the layout given; it is rearranged unless that layout was applied last or nothing was ever customised |
| ChromeSurface.Surface.SetVisible | frontend/js/chrome_layout.js:186-192 | one item is hidden or shown, a locked one stays, every other item is as before |
| ChromeSurface.Surface.Move | frontend/js/chrome_layout.js:195-214 | an item changes places with its neighbour in its group, or nothing happens at the end of it; every other group stays |
| ChromeSurface.Surface.Reset | frontend/js/chrome_layout.js:216-220 | every item is back in its place and none hidden; without empty groups every divider is shown |
| ChromeSurface.Surface.HasVisibleItems | frontend/js/chrome_layout.js:167-171 | after an arrangement it tells whether any item is visible |
| ChromeSurface.MovedBack | frontend/js/chrome_layout.js:195-214 | moving by one and then by minus one gives the lists back |
| ChromeSurface.MoveThereAndBack | frontend/js/chrome_layout.js:195-214 | the same for the surface: every item is where it was |
| ChromeSurface.HistoryIndependent | frontend/js/chrome_layout.js:101-220 | two surfaces of one markup with one current layout have the same order, the same hidden items and, without empty groups, the same dividers, whatever was done to either |
| PlanStore.IdTellsNumber | app_deepsearch.go:139-141 | an id tells the number it was made with, so none repeats |
| PlanStore.IdIs | app_deepsearch.go:139-141 | an id is the seconds and the number, both without leading zeros |
| PlanStore.DeleteExpired | app_deepsearch.go:126-130 | the loop leaves exactly the plans that are not older than the limit |
| PlanStore.Oldest | app_deepsearch.go:132-137 | in any order of iteration the loop finds a plan that none is older than |
| PlanStore.MakeRoom | app_deepsearch.go:131-139 | the eviction loop ends with room for one, and no evicted plan is newer than one kept |
| PlanStore.Store.Put | app_deepsearch.go:122-145 | the new plan is kept under an id never given before, never more than eight are kept, the expired go, and of the others the oldest only as far as room is needed |
| PlanStore.Store.Get | app_deepsearch.go:147-156 | never a plan older than the limit; one that is, goes |
| CaptureSession.Topmost | imgcap.go:51-60 | the window answered holds the point and no window above it does |
| CaptureSession.CapSession.Move | imgcap.go:111-124 | the fields after the event are those of the state machine |
| CaptureSession.CapSession.Down | imgcap.go:126-135 | the fields after the event are those of the state machine |
| CaptureSession.CapSession.Up | imgcap.go:137-165 | the fields after the event are those of the state machine: a rectangle, a window, a window taken off again, or nothing |
| CaptureClicks.ClickPicks | imgcap.go:137-165 | a click on a window that is not picked picks the one on top there, and without Ctrl ends the session |
| CaptureClicks.ClickTakesOff | imgcap.go:152-154 | a click with Ctrl on a picked window takes that pick off and leaves the others in order; without Ctrl it ends the session with its picks |
| CaptureClicks.ClickMisses | imgcap.go:137-165 | a click on no window picks nothing |
| CaptureClicks.DragPicks | imgcap.go:146-151 | a drag of more than four pixels picks the rectangle between its ends when both sides have eight, else nothing |
| CaptureClicks.DragBack | imgcap.go:117-119 | a drag that comes back is no click |
| CaptureSession.CapSession.CtrlChanged | imgcap.go:167-179 | the fields after the event are those of the state machine |
| CaptureSession.CapSession.Escape | imgcap.go:181-183 | the fields after the event are those of the state machine |
| CaptureSession.SessionSafe | imgcap.go:78-203 | for every sequence of events no window is picked twice, window picks are windows of the list, rectangles have at least eight pixels a side, and a cancelled session is done with an empty result |
| CaptureSession.DoneIsFinal | imgcap.go:111-203 | once done a session stays done and its picks stay what they are |
| CaptureSession.OnlyCtrlKeepsOpen | imgcap.go:167-179 | a session that still runs with picks and no button down was last sent an event with Ctrl |
| CaptureSession.UpTakesLive | imgcap.go:111-228 | letting the button go at any point picks the frame that moving there shows, exactly when it is a drag or press and release are over windows of one frame; a drag picks exactly when its rectangle is large enough |
| CaptureSession.WindowNeedsPrint | imgcap.go:354-370 | the loop decides whether a picked window has to be printed |
| CaptureSession.PrintedIffHidden | imgcap.go:354-370 | that is so exactly when some point of it is off the desktop or under another window |
| AssetNames.NumberedDiffer | app_inputs.go:131-137 | no two numbers make the same name and none makes the plain one |
| AssetNames.UniqueAssetPath | app_inputs.go:115-138 | for every finite folder the unbounded search ends, with a free name: the plain one, or the least number from two on, at most one more than there are files |
| SafeNames.NumberedIs | app_inputs.go:131-132 | a numbered name is the base, a hyphen and the number without leading zeros, before the extension |
| AssetNames.SanitizeAssetFileName | app_inputs.go:152-187 | the builder loop and the checks behind it give the safe name |
| AssetNames.SanitizedIsSane | app_inputs.go:147-187 | the result is never empty, holds no separator, control or reserved character, ends in no dot or space, and what comes before its last dot is no device name |
| SafeNames.SafeNameIs | app_inputs.go:152-187 | the safe name is the last part of the path with every character cleaned and the dots and spaces at its end gone, with an underscore before a device name, or "file" when nothing is left |
| SafeNames.DeviceIs | app_inputs.go:139-145 | CON, PRN, AUX, NUL and COM or LPT with a digit from one to nine, in any case, are the devices |
| SafeNames.BaseIs | app_inputs.go:176-179 | what is compared with the devices is what comes before the last dot, unless that is the first character |
| AssetNames.DeviceSlips | app_inputs.go:140-187 | the safe name is a device by the part before its first dot if and only if that part of the cleaned name is one and another dot comes before the last |
| AssetNames.SlippedDevice | app_inputs.go:140-187 | "nul.tar.gz" is left as it is, and is a device by the part before its first dot |
| AssetNames.SanitizeIdempotent | app_inputs.go:147-187 | sanitizing twice is sanitizing once, and a name is left alone exactly when it is already sane |

## Left out

- HtmlComments.ScanText: the pass that stops at a given index, with isInsideComment, isRangeExcluded, maskComments and removeComments, is left out.
- HtmlComments.OutsideFences: a comment over several lines hides the fences in it from this scanner and not from the one of the task finder, so the two are compared where no comment does that.
- ToggleTheorem.LineRoundTrip: where an unclosed comment starts, which only picks the reason of a refusal, is an arbitrary function.
- Tasks.FindTaskAt: the comment ranges that spoil a candidate are an arbitrary predicate, and the note with its comments masked an arbitrary text; the round trip is about notes without comments.
- TaskRoundTrip.TaskRoundTrip: for an agent the name has to resolve and to hold no doubled braces, which the writer does not check.
- TaskWriting.WrittenParts: the agent list and lower-casing are arbitrary functions; how a list of agents becomes a resolver is not modelled.
- ResultBlocks.ResultRoundTrip: ids and attributes are taken after lower-casing, which Unicode tables decide.
- CommentToggle.ToggleLines: the branch for a page without a comment scanner is left out.
- PressStatus.LineAnswer: which presses are refused is decided by the comments that the scanner finds (`CommentToggle.CheckStructure`); apart from texts of one line (`ToggleWitness.LineOutcome`) no other condition is given.
- Utf16.Cursor.ToUtf16At: offsets are unbounded integers, not 64-bit ones.
- Walker.U16Walker.At: the text of the line that goes with a match, and the cutting of long texts, are left out.
- Walker.ReplaceMatches: what a replacement expands to is a function of the match; the write with the expected hash is the page's.
- ConfigCache.FreshIffStatsTell: a read fails only for a missing file, and a write is one step; the size in a stat is that of the content.
- SearchSupersede.SupersededIffLate: the search itself, and the destroyed window that no answer is sent to, are left out; the sequence number does not wrap around.
- SkillImport.Backup.Save: saving a path that was saved before is refused; in the source it is refused by the first regular file that exists.
- SkillImport.PackImportSkill: the target folder, the working folders and the backups are maps of trees, and a rename fails onto anything that exists; permissions and other volumes are not modelled. The import of agent lists and the atomic write of a single file are left out.
- ChromeSurface.Surface.Apply: ids are unique and a missing container is left out; the marking of hidden items is the set of their ids.
- PlanStore.Store.Put: what a plan holds besides its query and time is left out, and so are runs in progress.
- AssetNames.UniqueAssetPath: names that differ in case are different, and a stat that fails for another reason than a missing file counts as free in the source as it does here.
- AssetNames.SanitizeAssetFileName: a name is the text its bytes decode to; upper-casing is that of ASCII letters, which decides every device name.
- The context above a task (findContextAbove), the classification of plain text, the key of the slot configuration cache, deepNumCtx, planExternalChange, the JSON results, note formatting and everything that paints or calls the operating system are left out.
