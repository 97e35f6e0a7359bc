# HR toolbox: name list, prize draw and group generator

This is a Dafny model of the logic in a small single-page HR toolbox. The toolbox has three screens:

- **The list editor.** A textarea of names is split on runs of newlines and commas. Each piece is trimmed and blank pieces are dropped. The editor can remove repeated names, append the names read from a file, or load a sample list.
- **The prize draw.** A click picks a winner from the pool and starts a slot-machine animation. A timer callback then publishes the winner, records it in the history and, unless repeats are allowed, removes it from the pool.
- **The group generator.** After a short delay the participants are shuffled and cut into consecutive groups of a chosen size. The groups can be exported as CSV text.

The shell owns the participant list. It turns a committed list of names into participants whose ids combine the clock reading taken for each name with the name's index. It shows a notice instead of the draw or grouping screen while the list is empty.

Modules:

- `Types` (types.dfy): the records `Participant`, `Group` and `ViewType`, the names of a list, unique ids and subsequences.
- `Text` (text.dfy): JavaScript's `trim` with the ECMAScript whitespace and line-terminator characters, `join`, and the decimal rendering `${n}` with a proof that it can be read back.
- `ParticipantInput` (participant_input.dfy): the parser, dedup by first occurrence, the duplicate counts and the `NameEditor` class (the textarea state).
- `LuckyDraw` (lucky_draw.dfy): the `DrawEngine` class. `startDraw` is split into `BeginDraw` (the click) and `CompleteDraw` (the timer callback).
- `GroupGenerator` (group_generator.dfy): the chunking loop `Partition`, proved against the recursive `Chunks`; the CSV text; and the `GroupPanel` class.
- `App` (app.dfy): `Commit` (what `handleUpdateParticipants` computes), `Render` (`renderContent`) and the `Shell` class.

Randomness, time and the browser enter as parameters:

- The values of `Math.random()` are reals in `[0, 1)`. An index is `Math.floor(r * n)`, which is `PickIndex`.
- The random-comparator shuffle is any permutation of the captured list.
- `Date.now()` is called once per name inside the `map` callback. Its readings are a function `clock` from the name's index to a natural number, so `clock(k)` is the reading for name `k`. The readings may be equal or differ from one name to the next.
- A timer callback is a pending value that holds what its closure captured. For the draw this is the winner and the repeat setting. For grouping it is a queue of jobs holding the list and the size.

## Model

| member | source | states |
|---|---|---|
| Types.Names | components/ParticipantInput.tsx:19 | `participants.map(p => p.name)`: one name per participant, in order |
| Types.NamesConcat | components/ParticipantInput.tsx:19 | the names of two lists joined are their names joined |
| Types.SubsequenceElements | components/LuckyDraw.tsx:52 | a filtered list is no longer than the original and keeps only its elements |
| Types.SubsequenceTrans | components/LuckyDraw.tsx:52 | filtering a filtered list still gives a subsequence of the original |
| Text.TrimStartShape | components/ParticipantInput.tsx:42 | leading trim drops exactly a whitespace prefix, and what is left does not start with whitespace |
| Text.TrimEndShape | components/ParticipantInput.tsx:42 | trailing trim drops exactly a whitespace suffix, and what is left does not end with whitespace |
| Text.TrimSlice | components/ParticipantInput.tsx:42 | `trim` returns a slice of its input cut only at whitespace, with non-whitespace ends |
| Text.TrimChars | components/ParticipantInput.tsx:42 | every character of a trimmed string occurs in the original |
| Text.TrimEmptyIff | components/ParticipantInput.tsx:42 | a string trims to `''` exactly when it is all whitespace |
| Text.TrimIdempotent | components/ParticipantInput.tsx:42 | trimming twice is trimming once |
| Text.TrimOfTrimmed | App.tsx:16 | a string without whitespace at either end is its own trim |
| Text.NatToString | components/GroupGenerator.tsx:29 | `${n}` is a non-empty string of decimal digits with no leading zero: it starts with `0` exactly when `n` is 0, and then it is `"0"` |
| Text.NatToStringRoundTrip | components/GroupGenerator.tsx:29 | reading the digits of `${n}` back gives `n` |
| Text.NatToStringInjective | App.tsx:15 | different numbers render differently |
| ParticipantInput.SepIndexFirst | components/ParticipantInput.tsx:42 | the split position is the first `\n` or `,`, or the end when there is none |
| ParticipantInput.SepIndexNone | components/ParticipantInput.tsx:42 | text without separators is not split |
| ParticipantInput.SepIndexPrefix | components/ParticipantInput.tsx:42 | appending text does not move a separator already present |
| ParticipantInput.SkipSeparators | components/ParticipantInput.tsx:42 | drops exactly the leading run of separators: every dropped character is a separator, text starting with a non-separator is kept whole, and what is left does not start with one |
| ParticipantInput.SplitRuns | components/ParticipantInput.tsx:42 | `split(/[\n,]+/)`: at least one piece, no piece holds a separator, interior pieces are non-empty |
| ParticipantInput.TrimAllConcat | components/ParticipantInput.tsx:42 | `.map(n => n.trim())` distributes over concatenation |
| ParticipantInput.DropEmptyConcat | components/ParticipantInput.tsx:42 | `.filter(n => n !== '')` distributes over concatenation |
| ParticipantInput.CleanConcat | components/ParticipantInput.tsx:42 | trimming and then dropping blanks distributes over concatenation |
| ParticipantInput.SplitEachSkip | components/ParticipantInput.tsx:42 | after cleaning, extra leading separators make no difference |
| ParticipantInput.RunsAgreeWithEach | components/ParticipantInput.tsx:42 | after cleaning, splitting at separator runs equals splitting at every separator |
| ParticipantInput.SplitEachFirstPiece | components/ParticipantInput.tsx:42 | separator-free text followed by a separator is the first piece |
| ParticipantInput.SplitEachKeepsPiece | components/ParticipantInput.tsx:42 | appending text keeps the first piece of text that holds a separator |
| ParticipantInput.SplitEachConcat | components/ParticipantInput.tsx:42 | splitting at every separator breaks `a + sep + b` into the pieces of `a` followed by those of `b` |
| ParticipantInput.ParseConcat | components/ParticipantInput.tsx:42 | the names of `a + sep + b` are the names of `a` followed by the names of `b`: order is kept |
| ParticipantInput.CleanValid | components/ParticipantInput.tsx:42 | cleaning separator-free pieces gives only non-empty, trimmed names without `\n` or `,` |
| ParticipantInput.ParseValid | components/ParticipantInput.tsx:42 | no parsed name is empty, untrimmed, or contains `\n` or `,` |
| ParticipantInput.ParseName | components/ParticipantInput.tsx:42 | a valid name on its own parses to exactly itself |
| ParticipantInput.ParseJoinRoundTrip | components/ParticipantInput.tsx:48 | valid names joined with `\n` parse back to the same list |
| ParticipantInput.SeparatorsOrWhitespaceSplit | components/ParticipantInput.tsx:42 | around a separator, text is only separators and whitespace exactly when both sides are |
| ParticipantInput.CleanEmptyIff | components/ParticipantInput.tsx:42 | cleaning the per-separator pieces gives nothing exactly when the text is only separators and whitespace |
| ParticipantInput.ParseEmptyIff | components/ParticipantInput.tsx:42 | text parses to no names exactly when it holds only separators and whitespace |
| ParticipantInput.FirstIndex | components/ParticipantInput.tsx:47 | the first position of a name in a list |
| ParticipantInput.Dedup | components/ParticipantInput.tsx:47 | `Array.from(new Set(names))` has the same names as its input, each once |
| ParticipantInput.FirstIndexPrefix | components/ParticipantInput.tsx:47 | the first occurrence in a list is not moved by appending to the list |
| ParticipantInput.DedupFirstOccurrenceOrder | components/ParticipantInput.tsx:47 | the deduplicated names appear in the order of their first occurrences |
| ParticipantInput.DedupOfDistinct | components/ParticipantInput.tsx:47 | a list without repeats is left as it is |
| ParticipantInput.DedupIdempotent | components/ParticipantInput.tsx:47 | deduplicating twice is deduplicating once |
| ParticipantInput.NameCounts | components/ParticipantInput.tsx:24-30 | the counts have a key for exactly the names present, and `get(x)`, defaulting to 0, is the number of entries named `x` |
| ParticipantInput.NameCountsSnoc | components/ParticipantInput.tsx:27 | one `counts.set` step of the loop adds one entry to the counts |
| ParticipantInput.Duplicates | components/ParticipantInput.tsx:24-30 | the `forEach` loop over participants builds exactly those counts |
| ParticipantInput.CountedTwice | components/ParticipantInput.tsx:34 | a name counted more than once makes the list not duplicate-free |
| ParticipantInput.RepeatCounted | components/ParticipantInput.tsx:27 | a name at two positions is counted more than once |
| ParticipantInput.HasDuplicatesIff | components/ParticipantInput.tsx:32-35 | some count exceeds one exactly when some name occurs at least twice |
| ParticipantInput.SumCountsAppend | components/ParticipantInput.tsx:24-30 | sums of counts over concatenated key lists add up |
| ParticipantInput.SumCountsSnoc | components/ParticipantInput.tsx:27 | one more entry adds one to the sum over the distinct names when its name is among the keys |
| ParticipantInput.NameCountsSum | components/ParticipantInput.tsx:24-30 | the counts over all distinct names sum to the number of participants |
| ParticipantInput.MockNamesRoundTrip | components/ParticipantInput.tsx:68-71 | the sample list written one per line parses back to itself |
| ParticipantInput.ImportParses | components/ParticipantInput.tsx:62-63 | after an import, the text parses to its old names followed by the file's names |
| ParticipantInput.NameEditor.constructor | components/ParticipantInput.tsx:19 | the textarea opens with the participants' names, one per line |
| ParticipantInput.NameEditor.SetText | components/ParticipantInput.tsx:37-39 | typing replaces the text |
| ParticipantInput.NameEditor.Apply | components/ParticipantInput.tsx:41-44 | the names applied are the parse of the text, all valid |
| ParticipantInput.NameEditor.RemoveDuplicates | components/ParticipantInput.tsx:46-50 | the unique names in first-occurrence order are written back one per line and returned for commit |
| ParticipantInput.NameEditor.ImportFile | components/ParticipantInput.tsx:60-64 | the text becomes `prev + '\n' + joined` when `prev` is non-empty, else `joined` |
| ParticipantInput.NameEditor.Clear | components/ParticipantInput.tsx:141 | the text is emptied and an empty list is committed |
| ParticipantInput.NameEditor.GenerateMockData | components/ParticipantInput.tsx:68-71 | the sample names are written one per line and committed |
| ParticipantInput.ReseedRoundTrip | components/ParticipantInput.tsx:19 | reopening the editor on valid participants and applying gives back their names |
| ParticipantInput.RemoveDuplicatesRoundTrip | components/ParticipantInput.tsx:47-49 | after removing repeats, applying the text commits the same unique names |
| LuckyDraw.PickIndex | components/LuckyDraw.tsx:42 | `Math.floor(Math.random() * n)` is an index into a list of length `n` |
| LuckyDraw.AnimationNames | components/LuckyDraw.tsx:38-40 | one name per random value, each a name in the pool |
| LuckyDraw.Without | components/LuckyDraw.tsx:52 | `filter(p => p.id !== id)` keeps order; every entry with another id keeps its multiplicity and every entry with the id is gone |
| LuckyDraw.WithoutShrinksByOne | components/LuckyDraw.tsx:52 | with unique ids, removing a pool member's id shortens the pool by one |
| LuckyDraw.WithoutAbsent | components/LuckyDraw.tsx:52 | removing an id nobody has changes nothing |
| LuckyDraw.DrawEngine.constructor | components/LuckyDraw.tsx:12-17 | initial state: not drawing, no winner, no names, no repeats, empty history, the whole list available |
| LuckyDraw.DrawEngine.Pool | components/LuckyDraw.tsx:28 | the pool is `participants` with repeats allowed, else `availableList` |
| LuckyDraw.DrawEngine.StartDisabled | components/LuckyDraw.tsx:124 | on a non-empty list, the button is disabled exactly when a click would do nothing |
| LuckyDraw.DrawEngine.SetAllowRepeat | components/LuckyDraw.tsx:111 | the checkbox changes only the repeat setting |
| LuckyDraw.DrawEngine.BeginDraw | components/LuckyDraw.tsx:25-44 | no-op while drawing; with an empty pool nothing changes; otherwise the winner is `pool[floor(r * n)]`, and the 41 display names are pool names ending with the winner's |
| LuckyDraw.DrawEngine.CompleteDraw | components/LuckyDraw.tsx:46-61 | publishes the winner, prepends it to the history, removes its id from the pool unless repeats were allowed at the click, and fires the confetti once |
| LuckyDraw.DrawEngine.Reset | components/LuckyDraw.tsx:64-69 | full pool, empty history and names, no winner; a second reset changes nothing |
| LuckyDraw.DrawEngine.OnParticipantsChanged | components/LuckyDraw.tsx:19-23 | the same as a reset, except that the display names are kept |
| LuckyDraw.DrawUntilEmpty | components/LuckyDraw.tsx:26-33 | without repeats, two participants are drawn once each and a third click finds the pool empty |
| GroupGenerator.FlattenSnoc | components/GroupGenerator.tsx:43-47 | the members of one more group follow those already listed |
| GroupGenerator.ChunksFlatten | components/GroupGenerator.tsx:26-32 | the groups' members, in order, are exactly the shuffled list |
| GroupGenerator.OffsetDiv | components/GroupGenerator.tsx:26-28 | after `c` steps of `i += size`, `i` is `c * size` and `Math.floor(i / size)` is `c` |
| GroupGenerator.ChunksCount | components/GroupGenerator.tsx:26 | the group count is the least `c` whose `c` steps of `size` reach `n` |
| GroupGenerator.ChunksLabels | components/GroupGenerator.tsx:28-29 | group `k` (0-based) has id `k + 1` and label `第 ${k + 1} 組` |
| GroupGenerator.ChunksSizes | components/GroupGenerator.tsx:30 | every group but the last has exactly `size` members, and the last has 1 to `size` |
| GroupGenerator.GroupCount | components/GroupGenerator.tsx:26 | there are `ceil(n / size)` groups, and a single group when `size >= n >= 1` |
| GroupGenerator.ChunksStep | components/GroupGenerator.tsx:30 | one loop step takes `slice(i, i + size)` and chunking continues after it |
| GroupGenerator.Partition | components/GroupGenerator.tsx:24-32 | the loop that steps `i` by `groupSize` builds exactly `Chunks(shuffled, groupSize, 1)` |
| GroupGenerator.OccurrencesConcat | components/GroupGenerator.tsx:45 | line breaks of concatenated text add up |
| GroupGenerator.OccurrencesAbsent | components/GroupGenerator.tsx:45 | text without a line break has none |
| GroupGenerator.GroupLinesCount | components/GroupGenerator.tsx:44-46 | a group with single-line names contributes one line per member |
| GroupGenerator.CsvRowsCount | components/GroupGenerator.tsx:43-47 | the rows hold one line per member of every group |
| GroupGenerator.CsvLineCount | components/GroupGenerator.tsx:42-47 | the CSV text has one line more than there are members |
| GroupGenerator.GroupLabelSingleLine | components/GroupGenerator.tsx:29 | a group label has no line break |
| GroupGenerator.ChunksSingleLine | components/GroupGenerator.tsx:26-32 | generated groups of single-line names have single-line labels and names |
| GroupGenerator.GroupPanel.constructor | components/GroupGenerator.tsx:11-13 | size 4, no groups, not generating |
| GroupGenerator.GroupPanel.SetGroupSize | components/GroupGenerator.tsx:91 | the number field sets the size, unchecked |
| GroupGenerator.GroupPanel.BeginGenerate | components/GroupGenerator.tsx:17-22 | below two participants nothing changes; otherwise generating is set and a callback capturing the list and the size is queued |
| GroupGenerator.GroupPanel.CompleteGenerate | components/GroupGenerator.tsx:22-36 | the oldest callback replaces the groups by the chunks of a permutation of its list, whose members are that list as a multiset, and clears the generating flag |
| GroupGenerator.GroupPanel.ExportToCsv | components/GroupGenerator.tsx:39-49 | nothing without groups; otherwise the BOM, the header `組別,姓名\n` and one line `group,member\n` per member in group-then-member order |
| App.DashAfterDigits | App.tsx:15 | in `${t}-${index}` the first `-` comes right after the digits of `t` |
| App.IdInjective | App.tsx:15 | two ids are equal only when both the clock readings and the indices are |
| App.NumberedEntries | App.tsx:14-16 | mapped entry `k` is name `k` trimmed, with id `${clock(k)}-${k}` |
| App.NumberedUniqueIds | App.tsx:14-16 | the mapped entries have pairwise distinct ids, whatever the clock reads for each name |
| App.NumberedNames | App.tsx:16 | the mapped names are the input names trimmed |
| App.KeepNamedSubsequence | App.tsx:17 | the filter keeps order and keeps exactly the entries with a non-empty name |
| App.KeepNamedNames | App.tsx:17 | the filter's names are the input names with the empty ones dropped |
| App.UniqueIdsCons | App.tsx:14-17 | a list has unique ids exactly when its tail does and the head's id is not in the tail |
| App.KeepNamedUniqueIds | App.tsx:17 | filtering keeps ids pairwise distinct |
| App.CommitOrder | App.tsx:14-17 | a commit keeps relative order and yields at most as many participants as names |
| App.NumberedMember | App.tsx:14-16 | every mapped entry is some input name `k`, trimmed, with id `${clock(k)}-${k}` |
| App.CommitEntries | App.tsx:14-17 | each committed participant is input name `k`, trimmed, with id `${clock(k)}-${k}` |
| App.CommitNames | App.tsx:14-17 | the committed names are the input names, trimmed, blanks dropped |
| App.CommitTrimmed | App.tsx:16-17 | every committed name is non-empty and its own trim |
| App.CommitUniqueIds | App.tsx:14-17 | ids within one commit are pairwise distinct, whatever the clock reads for each name |
| App.CommitEmptyIff | App.tsx:13-18 | a commit is empty exactly when every name is blank, so an empty list gives no participants |
| App.CleanOfValid | App.tsx:16-17 | trimming and dropping blanks leaves valid names unchanged |
| App.CommitParsed | App.tsx:16-17 | names as the editor parses them are committed unchanged and in order |
| App.Render | App.tsx:21-52 | the empty notice exactly when the list is empty and the view is not the editor, else the current view's panel |
| App.RenderAfterCommit | App.tsx:22 | after committing a non-blank name every view shows its own panel |
| App.Shell.constructor | App.tsx:10-11 | no participants and the editor view |
| App.Shell.HandleUpdateParticipants | App.tsx:13-19 | the participant list becomes the commit of the names under the per-name clock readings `clock`; the view is unchanged |
| App.Shell.SetView | App.tsx:33 | a navigation button changes only the view |
| App.Shell.RenderContent | App.tsx:21-52 | the main area shows the empty notice exactly when the current list is empty and the view is not the editor |
| App.LeaveNotice | App.tsx:32-37 | from the empty notice, its button leads to the editor, which is then shown |

## Left out

- JSX, Tailwind classes, icons, the colour cycling of group cards, the drag-over highlight and the per-row duplicate badge are presentation. The badge is the `CountOf(counts, name) > 1` test already modelled.
- The confetti call is imported from a CDN and is a foreign call. It is modelled only as the `celebrations` counter, which goes up by one per completed draw.
- Timer delays (2000 ms and 800 ms) are not modelled as time. Each timer callback is an explicit second step that runs with the values its closure captured.
- `Math.random` is taken as input, so nothing about uniformity is modelled. The draw receives the forty animation values and the pick value. The shuffle receives some permutation of its list.
- Files for `FileReader` are given as their text content. The Blob, object URL and download link of the export are not modelled; `ExportToCsv` returns the text the Blob would hold. `alert`, `window.print`, `Date.now()` and `toLocaleDateString` are environment: the alert shows up as the `EmptyPool` outcome and the time shows up as the parameter `clock`.
- React's state batching and re-rendering are not modelled. Each handler runs whole on one object. The draw and grouping panels keep their own copy of the participant list, and `OnParticipantsChanged` is the call that brings the draw panel up to date. In the app itself that call never reaches a mounted panel: `renderContent` returns a different component for each view, so every view switch unmounts the draw and grouping panels and drops their history, pool and groups, and names are committed only from the editor view. A new list therefore reaches the draw panel by a fresh `DrawEngine` (the constructor) followed by the effect's `OnParticipantsChanged`. Unmounting is not modelled.
- GroupGenerator.GroupPanel.CompleteGenerate: requires a group size of at least one. With a size of zero or below, the `for` loop at components/GroupGenerator.tsx:26 never ends, because `i += groupSize` does not advance. The size comes from `Number(e.target.value)` and is not checked against the field's `min`.
- GroupGenerator.GroupPanel.SetGroupSize: sizes are integers. A non-integer or `NaN` size from the number field is not modelled.
- The `default: return null` branch of `renderContent` cannot be reached, because a `ViewType` is always one of the three views.
- The empty notice's button and the next button are `SetView(Input)` and `SetView(LuckyDraw)`. The list editor's `onUpdate` is `HandleUpdateParticipants` applied to the names that `Apply`, `RemoveDuplicates`, `Clear` or `GenerateMockData` return.
