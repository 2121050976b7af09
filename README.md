# Result display, rewards panel and speaking coach

A Dafny model of three pieces of a browser toolkit for teachers of English as a second language. A language model generates the content, and these pieces render it and turn its rubric into a rewards widget.

The renderer escapes nothing: text and cell contents reach the HTML as they are, and the model follows the code in this.

- **The result renderer** is `formatContent` in `components/common/ResultDisplay.tsx`. It turns the generated markdown into HTML.
  - A table pass comes first. Each pipe-delimited block becomes an HTML table, and a body row whose cell count differs from the header's is dropped.
  - A fixed chain of global replaces follows: headings, links, bold, italic, list items, line breaks, and three clean-up rewrites.
  - Every regular expression is modelled as its own deterministic scanner over `seq<char>`. The comments next to each scanner say why backtracking cannot pick a different match.
  - Global replaces scan left to right. Line-anchored patterns (`^` with the `m` flag) carry a flag that says whether the scan stands at a line start.
- **The rewards panel** is `components/GamificationPanel.tsx`. Extraction reads the rubric from the generated text:
  - the total-points phrase;
  - the badge marker, the badge name and its description;
  - the `**Point System:**` line, cut into clauses, with one criterion per clause that states a quantity;
  - the fallback criterion and the possible total.

  The award state is a class holding the ticked categories and the finalised flag, with the toggle and finalise handlers as methods. The badge threshold `awarded >= total * 0.8` is read exactly as `5 * awarded >= 4 * total`.
- **The speaking coach** is `components/SpeakingCoach.tsx`.
  - The generated practice is split at `---GAMIFICATION---` into the exercise and the rewards text.
  - The audio payload is the part of the recording's data URL after its comma.
  - The page state is a class. Each asynchronous handler is split into a `Start…` method and a `Finish…` method. The start method checks the guard, resets the state and returns the request for the generation service. The finish method takes the service's reply as a parameter.

Files:
- `strings.dfy`: the ECMAScript string operations used: `indexOf`, `split`, `trim`, whitespace and line terminators, `parseInt` of a run of digits.
- `inline.dfy`: links, bold and italic.
- `tables.dfy`: the table pass.
- `markdown.dfy`: the whole renderer.
- `gamification.dfy`: the rewards panel.
- `speaking.dfy`: the speaking coach.

## Model

| member | source | states |
|---|---|---|
| Strings.IndexOf | components/SpeakingCoach.tsx:39-40 | `indexOf` is -1 exactly when the pattern does not occur; otherwise it is an occurrence with none before it |
| Strings.JoinSplit | components/SpeakingCoach.tsx:40 | joining the pieces of a string split on a separator gives the string back |
| Strings.SplitPiecesFree | components/SpeakingCoach.tsx:40 | no piece of a split contains the separator |
| Strings.SplitContains | components/SpeakingCoach.tsx:39-42 | a string holding the separator splits into at least two pieces: the text before the first occurrence, then the text after it up to the next one |
| Strings.SplitAbsent | components/SpeakingCoach.tsx:43-45 | a string without the separator splits into itself alone |
| Strings.UpToSplit | components/GamificationPanel.tsx:32 | the first piece of a split is the text before the first occurrence of the separator, or the whole text |
| Strings.SecondSplitIsSplit | components/GamificationPanel.tsx:31 | `split(sep)[1]` is the second piece of the split, or empty (falsy) when there is none |
| Strings.SecondSplitAfter | components/GamificationPanel.tsx:31 | when the separator first occurs at `i`, the second piece is the text after that occurrence up to the separator's next occurrence |
| Strings.Trim | components/common/ResultDisplay.tsx:26-27 | `trim()` yields an infix that neither begins nor ends with whitespace; only whitespace is removed around it |
| Strings.TrimAllSpace | components/GamificationPanel.tsx:32 | a whitespace-only text trims to the empty string |
| Strings.FindOnLine | components/common/ResultDisplay.tsx:66-68 | the lazy `(.*?)` ends at the first occurrence of the closing text on the same line, or there is no match |
| Strings.FindOnLineAt | components/common/ResultDisplay.tsx:66-68 | the first same-line occurrence is the one the lazy group stops at |
| Inline.LinkAt | components/common/ResultDisplay.tsx:66 | a link match at `[` is exactly `[label](target)`; the label holds no `](` and the target holds no `)` |
| Inline.LinkWhole | components/common/ResultDisplay.tsx:66 | `[label](target)` with plain parts becomes exactly one anchor with that target and label |
| Inline.LinkAtWhole | components/common/ResultDisplay.tsx:66 | the link pattern matches the whole of `[label](target)` when the label holds no `]` and the target no `)` |
| Inline.LinkPassIdentity | components/common/ResultDisplay.tsx:66 | text without `[` passes the link replace unchanged |
| Inline.DelimPassIdentity | components/common/ResultDisplay.tsx:67-68 | text without the delimiter passes the bold or italic replace unchanged |
| Inline.BoldCloses | components/common/ResultDisplay.tsx:67 | the bold group closes at the `**` that follows the enclosed text |
| Inline.BoldThenItalic | components/common/ResultDisplay.tsx:67-68 | in the main text `**x**` becomes `<strong>x</strong>`, never a nested `<em>` |
| Inline.BoldSpan | components/common/ResultDisplay.tsx:67-68 | in the main text a `**x**` span between texts without `*` becomes `<strong>x</strong>`, and the text around it is copied unchanged |
| Tables.TableMatch | components/common/ResultDisplay.tsx:21 | a table block starts at a pipe and ends inside the text |
| Tables.TableMatchBlock | components/common/ResultDisplay.tsx:21 | a header line, a separator line of dash cells and any number of row lines, each held between two pipes and ending in a line feed, is matched exactly up to its last line feed when the text after it starts neither a row nor white space |
| Tables.TablePassBlock | components/common/ResultDisplay.tsx:21-59 | at a line start such a block is replaced by its table, and the replace goes on with the text after it |
| Tables.BlockLinesOfBlock | components/common/ResultDisplay.tsx:25 | the trimmed block splits into its header line, its separator line and one line per row framed by pipes, in order |
| Tables.BlockTable | components/common/ResultDisplay.tsx:25-27 | the parsed table of such a block has the header line's cells as header and the cells of each row line as rows |
| Tables.Inner | components/common/ResultDisplay.tsx:26 | `slice(1, -1)` keeps the texts between consecutive pipes, in order |
| Tables.TrimAll | components/common/ResultDisplay.tsx:26 | each cell is the trimmed text, one per piece |
| Tables.CellsOfLines | components/common/ResultDisplay.tsx:27 | one row of cells per body line, in order |
| Tables.BlockLines | components/common/ResultDisplay.tsx:25 | a trimmed block splits into at least one line |
| Tables.CellsClean | components/common/ResultDisplay.tsx:26-27 | every header and body cell is trimmed and holds no pipe |
| Tables.PipelessLineHasNoCells | components/common/ResultDisplay.tsx:45 | a line without a pipe, such as a blank line swallowed into the block, has no cells and so never matches the header width |
| Tables.SeparatorIgnored | components/common/ResultDisplay.tsx:25-27 | the second (separator) line has no influence on the parsed table |
| Tables.EmitHeader | components/common/ResultDisplay.tsx:38-40 | the header loop emits the header markup |
| Tables.HeaderHtmlAppend | components/common/ResultDisplay.tsx:38-40 | the header is one `<th>` per header cell, in order, holding the cell text as it is, not passed through `renderCellContent` |
| Tables.HeaderHtmlOne | components/common/ResultDisplay.tsx:38-40 | a single header cell becomes one `<th>` holding its text |
| Tables.EmitCells | components/common/ResultDisplay.tsx:47-49 | the cell loop emits one `<td>` per cell |
| Tables.CellsHtmlAppend | components/common/ResultDisplay.tsx:47-49 | the cells of a row are emitted one after the other: the cells of `a + b` are those of `a` followed by those of `b` |
| Tables.CellsHtmlOne | components/common/ResultDisplay.tsx:47-49 | a single cell becomes one `<td>` holding the cell rendered by `renderCellContent` |
| Tables.EmitBody | components/common/ResultDisplay.tsx:44-52 | the row loop emits the body markup: a row only when its cell count equals the header's |
| Tables.KeptRowsExactly | components/common/ResultDisplay.tsx:45 | a row is kept if and only if it has the header's cell count; every kept row has exactly that many cells |
| Tables.BodyIsKeptRows | components/common/ResultDisplay.tsx:44-52 | the body is exactly the kept rows, in their order, each as one `<tr>` |
| Tables.ConvertTable | components/common/ResultDisplay.tsx:24-54 | the callback builds the table for every block; no input takes the error path |
| Tables.RenderCellPlain | components/common/ResultDisplay.tsx:29-34 | a cell without `*` or `[` is rendered as it is |
| Tables.RenderCellBold | components/common/ResultDisplay.tsx:29-34 | in a cell, bold goes first, so `**x**` becomes `<strong>x</strong>` and is then taken neither for italics nor for a link |
| Tables.TablePassIdentity | components/common/ResultDisplay.tsx:21-22 | text without a pipe holds no table and is left unchanged |
| Markdown.LinePassIdentity | components/common/ResultDisplay.tsx:63-65 | text without the marker's first character passes a line-start replace unchanged |
| Markdown.LinePassOneLine | components/common/ResultDisplay.tsx:63-65 | a line that does not open with the marker is copied |
| Markdown.LinePassWholeLine | components/common/ResultDisplay.tsx:63-65 | a line opening with the marker becomes the opening tag, the rest of the line and the closing tag |
| Markdown.HeadingLevel3 | components/common/ResultDisplay.tsx:63-65 | `### x` becomes an h3 around `x`, never an h2 or h1 |
| Markdown.HeadingLevel2 | components/common/ResultDisplay.tsx:63-65 | `## x` becomes an h2 around `x` |
| Markdown.HeadingLevel1 | components/common/ResultDisplay.tsx:63-65 | `# x` becomes an h1 around `x` |
| Markdown.ListItemLine | components/common/ResultDisplay.tsx:69 | `- x` on its own line becomes one list item |
| Markdown.Newlines | components/common/ResultDisplay.tsx:70 | no `\n` or `\r` is left after the break replace |
| Markdown.NewlinesConcat | components/common/ResultDisplay.tsx:70 | the break replace works piecewise wherever no `\r\n` pair is cut |
| Markdown.NewlinesBreak | components/common/ResultDisplay.tsx:70 | each of `\r\n`, `\n` and a lone `\r` becomes exactly one `<br>` |
| Markdown.NewlinesIdentity | components/common/ResultDisplay.tsx:70 | text without line terminators is unchanged by the break replace |
| Markdown.CollapseNoTriple | components/common/ResultDisplay.tsx:71 | after the collapse no three `<br>` follow each other, whatever the input |
| Markdown.CollapseIdentity | components/common/ResultDisplay.tsx:71 | text without `<` is unchanged by the collapse |
| Markdown.ReplaceKeepsNoTriple | components/common/ResultDisplay.tsx:72-73 | the two final deletions never join breaks into three in a row |
| Markdown.ReplaceIdentity | components/common/ResultDisplay.tsx:72-73 | text without the pattern's first character is unchanged by a literal replace |
| Markdown.PostProcessNoTriple | components/common/ResultDisplay.tsx:71-73 | the collapse and the two deletions leave no run of three `<br>`, whatever their input |
| Markdown.Render | components/common/ResultDisplay.tsx:17-76 | for every input, the rendered HTML never holds three consecutive `<br>` |
| Markdown.RenderPlain | components/common/ResultDisplay.tsx:17-76 | one line holding none of `#`, `*`, `[`, the pipe, `-` and `<` is rendered as itself |
| Markdown.HeaderCellBold | components/common/ResultDisplay.tsx:63-68 | a header cell is emitted verbatim, so its `**x**` reaches the main pass and the cell ends up holding `<strong>x</strong>` (for `x` without `*`, `[` and line breaks) |
| Gamification.TotalAt | components/GamificationPanel.tsx:24 | a total phrase found at `i` is `totaling`, `total of` or `total:` in any letter case, white space, a run of digits, white space and `points` |
| Gamification.TotalAtShape | components/GamificationPanel.tsx:24 | conversely, every such phrase at `i` is found, with exactly its run of digits |
| Gamification.TotalPoints | components/GamificationPanel.tsx:24-25 | without a total phrase anywhere the total is 0 |
| Gamification.TotalPointsAt | components/GamificationPanel.tsx:24-25 | the total is the value of the digits of the leftmost total phrase |
| Gamification.BadgeAt | components/GamificationPanel.tsx:27 | a badge match is the marker, then a name on one line that ends at the first `**` after it |
| Gamification.BadgeMatch | components/GamificationPanel.tsx:27 | the badge match used is the leftmost one |
| Gamification.MatchTextFirstAt | components/GamificationPanel.tsx:27-31 | the matched text first occurs where it was matched, so `split` cuts the content there |
| Gamification.BadgeOfFirstMatch | components/GamificationPanel.tsx:29-33 | when the match text first occurs where it was matched, the description comes from the text after the match, up to the match text's next occurrence |
| Gamification.BadgeFromMatch | components/GamificationPanel.tsx:27-34 | for the leftmost match, the badge name is the matched name; the description is read from the text after the match, up to the match text's next occurrence |
| Gamification.BadgeExists | components/GamificationPanel.tsx:27-29 | a badge exists if and only if the marker is followed on its line by a closing `**` |
| Gamification.DropDash | components/GamificationPanel.tsx:32 | a leading `- ` is removed; a text not starting with `- ` is left alone |
| Gamification.FirstLine | components/GamificationPanel.tsx:32 | `split('\n')[0]` is the longest prefix without a line feed: it stops at the first `\n` or at the end |
| Gamification.Description | components/GamificationPanel.tsx:32 | with no text after the match the description is the default text; otherwise it is the first line of the trimmed text without its leading `- `, up to the first line feed or the end; a whitespace-only text gives the empty description |
| Gamification.PointSystemLine | components/GamificationPanel.tsx:37 | there is a point-system text exactly when `**Point System:**` occurs in any letter case; it holds no line break |
| Gamification.PointSystemLineAt | components/GamificationPanel.tsx:37 | the point-system text is the rest of the line after the leftmost marker |
| Gamification.ExampleAt | components/GamificationPanel.tsx:40 | a match at `i` opens with `(e.g.,` in any letter case and closes at the first `)` on the same line; an opening with no `)` on its line is no match |
| Gamification.UnwrapExample | components/GamificationPanel.tsx:40 | the text is left alone exactly when no `(e.g.,` group matches |
| Gamification.UnwrapExampleAt | components/GamificationPanel.tsx:40 | at the leftmost match the `(e.g.,` and its `)` are removed and the text between them kept |
| Gamification.CutTotaling | components/GamificationPanel.tsx:41 | nothing is cut exactly when no `,? totaling` tail runs to the end of the text; otherwise the result is the text before the leftmost such tail |
| Gamification.RemoveEtc | components/GamificationPanel.tsx:42 | nothing is removed exactly when `etc.` does not occur in any letter case |
| Gamification.RemoveEtcAt | components/GamificationPanel.tsx:42 | the four characters removed are the leftmost `etc.` |
| Gamification.SplitClauses | components/GamificationPanel.tsx:45 | splitting yields at least one clause, and no clause holds a comma or `and` between white space |
| Gamification.SeparatorsOf | components/GamificationPanel.tsx:45 | each separator split at is a comma or a lower-case `and` between two white-space characters |
| Gamification.SplitClausesRejoin | components/GamificationPanel.tsx:45 | the clauses, with the separators put back between them, give back the text |
| Gamification.QuantityAt | components/GamificationPanel.tsx:49 | a quantity after `k` is white space, at most one `(` or `:` and white space, a run of digits, white space and `pt`, `pts`, `point` or `points` in any letter case |
| Gamification.QuantityAtShape | components/GamificationPanel.tsx:49 | conversely, every quantity of that shape after `k` is found, with exactly its run of digits |
| Gamification.CategoryEnd | components/GamificationPanel.tsx:49 | the lazy category ends at the first place on its line where a quantity follows |
| Gamification.CriterionOf | components/GamificationPanel.tsx:49-54 | a criterion's category is trimmed |
| Gamification.ColonClause | components/GamificationPanel.tsx:49-54 | `category: N points` yields the trimmed category worth N |
| Gamification.ClauseCriteria | components/GamificationPanel.tsx:47-56 | at most one criterion per clause |
| Gamification.ScoreClauses | components/GamificationPanel.tsx:47-56 | the clause loop pushes, in order, the criterion of each non-empty clause that states a quantity |
| Gamification.PointSystemOf | components/GamificationPanel.tsx:37 | the marker at the start of a text followed by a line without breaks gives exactly that line |
| Gamification.UnwrapNone | components/GamificationPanel.tsx:40 | a text without `(` has no example group and is left alone |
| Gamification.CutAt | components/GamificationPanel.tsx:41 | a text in which no `t` comes right before an `o`, followed by `, totaling` and the rest of its line, is cut back to exactly that text |
| Gamification.RemoveEtcNone | components/GamificationPanel.tsx:42 | a text without `.` holds no `etc.` and is left alone |
| Gamification.SplitTwo | components/GamificationPanel.tsx:45 | two texts without a comma and without white space before an `a`, joined by a comma, split into exactly those two clauses |
| Gamification.WorkedCriteria | components/GamificationPanel.tsx:36-61 | `**Point System:** A: m points, B: n points, totaling N points`, with letter-only category words that hold no `t` and do not start with a lower-case `a`, yields exactly the criteria A worth m and B worth n, in that order, whatever the total |
| Gamification.PointSystemExample | components/GamificationPanel.tsx:36-61 | `**Point System:** Fluency: 25 points, Accuracy: 25 points, totaling 50 points` yields Fluency worth 25 and Accuracy worth 25 |
| Gamification.StatedCriteria | components/GamificationPanel.tsx:36-57 | the criteria read from the point-system line are those of its clauses, or none when there is no such line |
| Gamification.Extract | components/GamificationPanel.tsx:23-70 | the extraction returns the possible total, the badge and the criteria |
| Gamification.PossiblePointsSource | components/GamificationPanel.tsx:63-66 | the possible total is the sum of the stated criteria when positive, otherwise the detected total or 0 |
| Gamification.FallbackCriteria | components/GamificationPanel.tsx:59-61 | with no stated criteria the rubric is exactly one `Exercise Completion` entry worth the detected total, or empty when there is no total |
| Gamification.ShownWithTotal | components/GamificationPanel.tsx:59-61 | a positive total always yields a rubric, so the panel is shown |
| Gamification.AwardPanel.Visible | components/GamificationPanel.tsx:98-100 | the panel is shown exactly when the text yields criteria or a badge, and always when it states a positive total |
| Gamification.AwardedAtMostSum | components/GamificationPanel.tsx:72-79 | the awarded points never exceed the sum of all criteria |
| Gamification.AwardedMonotone | components/GamificationPanel.tsx:72-79 | ticking more categories never lowers the score |
| Gamification.AwardedEverything | components/GamificationPanel.tsx:72-79 | with every category ticked the score is the full sum |
| Gamification.AwardedWithinPossible | components/GamificationPanel.tsx:63-79 | the awarded points never exceed the possible total |
| Gamification.ToggleSet | components/GamificationPanel.tsx:83-88 | the given category's membership flips; every other category keeps its membership |
| Gamification.ToggleTwice | components/GamificationPanel.tsx:81-90 | toggling the same category twice restores the set |
| Gamification.UnlockBoundary | components/GamificationPanel.tsx:96 | exactly 80% of the total unlocks the badge; one point less does not |
| Gamification.FullMarksUnlock | components/GamificationPanel.tsx:96 | when the stated points add up to something, ticking every criterion and finalising unlocks the badge |
| Gamification.AwardPanel.constructor | components/GamificationPanel.tsx:20-23 | the panel starts from the extraction of its content, with nothing ticked and not finalised |
| Gamification.AwardPanel.Score | components/GamificationPanel.tsx:72-79 | the shown score never exceeds the possible total |
| Gamification.AwardPanel.BadgeUnlocked | components/GamificationPanel.tsx:96 | the badge is never unlocked before finalising, without a possible total, or with a zero score |
| Gamification.AwardPanel.Toggle | components/GamificationPanel.tsx:81-90 | a no-op once finalised; otherwise flips exactly the given category |
| Gamification.AwardPanel.Finalize | components/GamificationPanel.tsx:92-94 | sets the finalised flag unconditionally and leaves the ticks alone; no method clears the flag |
| Speaking.SplitResult | components/SpeakingCoach.tsx:39-46 | neither the exercise nor the rewards text contains the separator |
| Speaking.SplitResultSegments | components/SpeakingCoach.tsx:39-46 | without the separator, the exercise is the whole result and the rewards text is empty. With it, the exercise is the text before the first occurrence and the rewards text is the text between the first and second |
| Speaking.SplitResultRejoins | components/SpeakingCoach.tsx:39-46 | with a single separator, exercise, separator and rewards text together give back the result |
| Speaking.ExerciseShownWhen | components/SpeakingCoach.tsx:123-126 | the exercise and the recorder are shown exactly when the generated text is non-empty and does not open with the separator |
| Speaking.RewardsShownWhen | components/SpeakingCoach.tsx:124 | the rewards panel is shown exactly when the separator occurs and what follows it is neither empty nor a second separator |
| Speaking.DataUrlPayload | components/SpeakingCoach.tsx:57 | there is a payload exactly when the data URL has a comma; it is the text after the first comma up to any second one |
| Speaking.PayloadOfDataUrl | components/SpeakingCoach.tsx:57 | the payload of `header,data` is `data` |
| Speaking.Coach.constructor | components/SpeakingCoach.tsx:12-21 | level B1 and every other field empty or off |
| Speaking.Coach.EditForm | components/SpeakingCoach.tsx:93-108 | the form fields change and nothing else does |
| Speaking.Coach.StartSubmit | components/SpeakingCoach.tsx:25-37 | an empty topic or scenario issues no request and changes nothing; otherwise loading starts, the exercise, rewards text, recording and feedback are cleared, and the request carries the form |
| Speaking.Coach.FinishSubmit | components/SpeakingCoach.tsx:39-48 | the reply is split into exercise and rewards text and loading ends; afterwards the exercise and the rewards panel are shown under the conditions of `ExerciseShownWhen` and `RewardsShownWhen` |
| Speaking.Coach.SetRecording | components/SpeakingCoach.tsx:130 | the recorder's result becomes the recording and nothing else changes |
| Speaking.Coach.StartFeedback | components/SpeakingCoach.tsx:63-72 | without a recording or an exercise there is no request and nothing changes; otherwise analysis starts, the feedback is cleared and the request carries the payload of the recording |
| Speaking.Coach.FinishFeedback | components/SpeakingCoach.tsx:73-79 | the reply, or the fixed apology on failure, becomes the feedback, and analysis always ends |

## Left out

- Tables.TableMatch: its own contract states only where a match starts and that it ends inside the text. `Tables.TableMatchBlock` states the match for blocks with dash-only separator cells, no white space around the pipes of the separator line and none after the closing pipes. Other blocks the pattern accepts (alignment colons, padded separator cells, trailing white space) are covered only by the scanner.
- Clipboard copy, its timer (components/common/ResultDisplay.tsx:11-15) and the HTML injection into the page: these are side effects on the page. No sanitisation is modelled, because the source performs none.
- Tables.ConvertTable: the `catch` branch at components/common/ResultDisplay.tsx:55-58 is not modelled. None of the split, slice, trim and map steps can throw on a string, so the branch is unreachable.
- Markdown.HeaderCellBold: the main pass over a header cell is followed only for a `**x**` cell whose text has no `*`, `[` or line break. Header cells holding links or several marks are covered only by the definitions of the passes.
- The generation services (services/geminiService.ts, api/genai.ts) are not part of this model. Their requests are the `PracticeRequest` and `FeedbackRequest` values the `Start…` methods return, and their replies are parameters of the `Finish…` methods. `generateSpeakingPractice` catches its own errors and returns text, so a submit always reaches its finish step.
- The recorder and the file reader in `blobToBase64` (components/SpeakingCoach.tsx:51-61) are not part of this model. A recording is given as its data URL and MIME type, and a reader error is the `Rejected` reply of `FinishFeedback`.
- React scheduling: the asynchronous handlers are split into a start and a finish method, and the start and finish calls may come in any order; no property about interleavings is stated. The memoisation of the extraction is not modelled either; the panel computes it once, in its constructor.
- `alert` messages on a refused submit or feedback request are user-interface output only.
- The user-interface guards are not modelled: the disabled checkboxes after finalising (components/GamificationPanel.tsx:120-121), the disabled finalise button (173-174) and the disabled submit button while loading (components/SpeakingCoach.tsx:115). The methods follow the handlers, which do not check these conditions themselves.
- Gamification.Unlocked: the floating-point comparison `awarded >= total * 0.8` is modelled as the exact integer comparison `5 * awarded >= 4 * total`. Both agree for every total below 5·2^50 (about 5.6·10^15). Above that the rounded product can unlock the badge one point early, which the model does not capture.
- Strings.DigitsValue: `parseInt` is modelled as exact. Numbers of more than 2^53 lose precision in the source, and the model does not capture that.
- Strings.Upper: case folding under the `i` flag covers only the ASCII letters. All case-insensitive patterns here are ASCII, and non-Unicode regular expressions never fold a non-ASCII character onto an ASCII letter.
- Gamification.WorkedCriteria: the extraction is followed end to end only for a line of two `category: N points` clauses whose categories are letter words without `t` and not starting with a lower-case `a`. Other rubric lines are covered by the contracts of the single steps (`PointSystemLineAt`, `UnwrapExampleAt`, `CutTotaling`, `RemoveEtcAt`, `SplitClausesRejoin`, `ColonClause`).
- Gamification.CriterionOf: its contract states only that the category is trimmed. The full criterion is stated for the `category: N points` form (`Gamification.ColonClause`), and the other forms (`category (N pts)`, `category N points`) are only covered by the scanner itself.
- Gamification.ClauseCriteria: its own contract bounds the count only. The order and content of the criteria are given by its definition, which `Gamification.ScoreClauses` is proved equal to; `Gamification.ColonClause` states the criterion of one clause.
- The proficiency-level labels of types.ts are not modelled; only the six levels are.
- The other components and the build configuration are not part of this model: App.tsx, Sidebar.tsx, LessonPlanner.tsx, WorksheetGenerator.tsx, FeedbackTool.tsx, ProDev.tsx, FormElements.tsx, Loader.tsx, PageHeader.tsx and vite.config.ts.
