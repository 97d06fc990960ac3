# Telegram markdown conversion engine, modelled in Dafny

This project models the conversion engine of a Telegram bot
(`src/format.js`). The engine turns chat markdown into a flat text plus
formatting spans ("entities": bold, italic, strikethrough, code, pre,
text link, each with an offset and a length). It then cuts that pair into
length-bounded chunks for Telegram messages. It can also go the other way
and put markdown markers back around a text's entities.

The model has six modules:

- `Entities` (`entities.dfy`): the entity record and its kinds. It also
  defines the invariant "the span lies inside the text".
- `Text` (`text.dfy`): the string built-ins the engine relies on: `trim`,
  `trimEnd`, `split` on one character, `join`, `repeat`, and the first word
  of an info string. It also proves split/join round trips.
- `EntityBuilder` (`builder.dfy`): `closeEntity` and `markdownToEntities`.
  - The tokenizer's output is an input datatype: block tokens, and an
    `Inline` token that carries inline tokens.
  - Pure step functions (`Close`, `InlineStep`, `BlockStep`, `Convert`)
    specify what the builder does.
  - The class `Builder` holds the text buffer, the entity list, the span
    stack and the list-item depth. Its methods (`Append`, `EnsureLineStart`,
    `AppendBlockGap`, `OpenEntity`, the inline and block switches) are
    proved against those step functions.
- `ChunkSplitter` (`splitter.dfy`): `sliceEntitiesForRange`,
  `splitTelegramWithEntities` and the plain `splitTelegram`. Each loop is a
  method proved equal to a recursive specification. The specification's
  properties are proved as lemmas: the chunks rebuild the text, every chunk
  is non-empty and within the limit, and each chunk's entities are valid in
  it. When an entity starts inside a chunk's range and crosses its candidate
  end, the chunk ends at or before the entity's start and carries none of it.
  An entity that starts at or before the chunk start is clipped to the chunk
  instead. The fallback to the unshrunk end is dead.
- `TableReflow` (`table.dfy`): the callback the preprocessor runs on each
  detected pipe table. It works from the header lines and the body lines
  to the framed, column-aligned plain text.
- `MarkdownMarkers` (`markers.dfy`): `entityToMarkers` and
  `applyEntitiesToMarkdown`. The output is specified position by position.
  At each position, the closing markers come first, shortest entity
  first, and the opening markers follow, longest entity first.

Where the repository's test expectations and its code disagree, the model
follows the code. In particular, the table test expects a `pre` entity
around the reflowed table. The callback, however, returns plain text framed
by newlines (src/format.js:143-144), and no entity is made for it.

## Model

| member | source | states |
|---|---|---|
| Text.Repeat | src/format.js:134 | `" ".repeat(n)` / `"-".repeat(w)`: exactly n copies of the character |
| Text.TrimStart | src/format.js:118 | drops exactly the leading whitespace: the result is a suffix, starts with a non-space, and everything dropped is whitespace |
| Text.TrimEnd | src/format.js:115 | drops exactly the trailing whitespace: the result is a prefix, ends with a non-space, and everything dropped is whitespace |
| Text.SplitOn | src/format.js:116 | `split` on one character gives at least one piece, and no piece contains the separator |
| Text.JoinSplitOn | src/format.js:116 | joining the pieces of a split with the separator gives the string back |
| Text.SplitOnJoin | src/format.js:144 | pieces free of the separator, joined by it, split back into the same pieces |
| Text.SplitOnJoinCons | src/format.js:144 | one separator-free piece in front of a joined run of pieces splits off as the first piece |
| Text.FirstWord | src/format.js:353 | the language tag `info.trim().split(/\s+/)[0]`: the longest whitespace-free prefix |
| Text.Trim | src/format.js:118 | `trim`: `TrimEnd` after `TrimStart`; the properties are the two halves' contracts and `Text.TrimWithout` |
| Text.Join | src/format.js:135 | `join`: the pieces with the separator between consecutive ones; `Text.JoinSplitOn` and `Text.SplitOnJoin` tie it to `split` |
| Text.EndsWith | src/format.js:246-252 | `endsWith`: the string's last characters are the suffix |
| EntityBuilder.TopmostOf | src/format.js:223-225 | the downward search finds the topmost entry of the kind, or reports that none exists |
| EntityBuilder.Close | src/format.js:222-232 | the reference definition of `closeEntity`, as a pair of new entity list and stack; `CloseWithoutOpen` and `CloseTopmost` state what it does |
| EntityBuilder.LineStart | src/format.js:245-248 | the reference definition of `ensureLineStart` on the text; `LineStartShape` states its properties |
| EntityBuilder.BlockGap | src/format.js:249-255 | the reference definition of `appendBlockGap` on the text; `BlockGapShape` states its properties |
| EntityBuilder.InlineStep | src/format.js:263-312 | the reference definition of one turn of the inline switch; `InlineStepKeeps`, `CodeInlineCovers`, `ImageAppendsAlt` and `WrappedText` state its properties |
| EntityBuilder.BlockStep | src/format.js:317-371 | the reference definition of one turn of the block switch; `BlockStepKeeps`, `ListItemLayout` and the list lemmas state its properties |
| EntityBuilder.CodeBlockStep | src/format.js:346-362 | the reference definition of the fence and code block case; `CodeBlockCovers` and `CodeBlockKeeps` state its properties |
| EntityBuilder.Language | src/format.js:352-354 | the language tag: the first word of the trimmed info string, empty without one |
| EntityBuilder.CodeBlockCovers | src/format.js:346-362 | a fence or code block brings the text to a blank line, then appends one `pre` entity at that point covering exactly the content without its final newline and tagged with the language; earlier entities and the stack are kept |
| EntityBuilder.LayoutGrows | src/format.js:319-370 | the paragraph close, list, item and rule tokens only append to the text and leave the entities and the stack alone |
| EntityBuilder.OpenKeeps | src/format.js:257-259 | opening a span keeps the state well formed and only extends it |
| EntityBuilder.Builder.HandleChild | src/format.js:263-312 | one turn of the inline loop performs exactly one inline step |
| EntityBuilder.CloseWithoutOpen | src/format.js:222-232 | closing a kind with no open entry leaves the entities and the stack unchanged |
| EntityBuilder.CloseTopmost | src/format.js:226-229 | closing removes exactly the topmost entry of the kind, keeps the other entries in order, and appends one entity over its span if and only if the length is positive |
| EntityBuilder.CloseEntity | src/format.js:222-232 | the loop with its splice computes exactly `Close` |
| EntityBuilder.LineStartShape | src/format.js:245-248 | `ensureLineStart` leaves an empty text empty and a text ending in a newline unchanged, and appends exactly one newline otherwise; the result is empty or ends in a newline, and a second call adds nothing |
| EntityBuilder.BlockGapShape | src/format.js:249-255 | `appendBlockGap` leaves an empty text or one ending in a blank line unchanged, appends exactly one newline to a text ending in a single newline, and exactly two otherwise; the result is empty or ends in a blank line, and a second call adds nothing |
| EntityBuilder.DropFinalNewline | src/format.js:350 | content ending in a newline is the result plus exactly that one newline; any other content is returned unchanged |
| EntityBuilder.CloseAtKeeps | src/format.js:275 | a close token keeps the state well formed and the text unchanged, and only appends to the entity list |
| EntityBuilder.InlineStepKeeps | src/format.js:261-314 | every inline token keeps the state well formed, and the text and entity list only grow at their ends |
| EntityBuilder.InlineRunKeeps | src/format.js:262-313 | the same for a whole run of inline tokens |
| EntityBuilder.GrowKeeps | src/format.js:242-244 | appending to the buffer keeps the state well formed |
| EntityBuilder.AddEntityKeeps | src/format.js:355-360 | recording an entity that lies inside the text, non-empty when it is a stacked kind, keeps the state well formed and only extends it |
| EntityBuilder.BlockStepKeeps | src/format.js:317-371 | every block token keeps the state well formed, and the text and entity list only grow |
| EntityBuilder.CodeBlockKeeps | src/format.js:346-362 | a fence or code block keeps the state well formed; its `pre` entity lies inside the text |
| EntityBuilder.BlockRunKeeps | src/format.js:316-372 | the same for a whole token stream |
| EntityBuilder.ConvertWellFormed | src/format.js:237-259 | in a conversion every stack offset and every entity lies inside the text, and every stack-made entity has positive length |
| EntityBuilder.CodeInlineCovers | src/format.js:299-304 | an inline code span appends its content, keeps the stack, and appends exactly one `code` entity at the old text length, covering exactly that content |
| EntityBuilder.ImageAppendsAlt | src/format.js:305-308 | an image appends its alt text and emits no entity |
| EntityBuilder.ListItemLayout | src/format.js:337-344 | a list item starts with "• " straight on an empty text or one ending in a newline, and after one added newline otherwise; it ends with one newline; `paragraph_close` adds nothing while the depth is positive; the depth never drops below zero; an item opened right after `list_item_close` adds no blank line |
| EntityBuilder.WrappedText | src/format.js:271-282 | an inline `**word**` or `*word*` appends the word and emits one entity of that kind over it |
| EntityBuilder.BulletItem | src/format.js:337-344 | a bullet item holding one wrapped word becomes "• word\n" with the entity at offset + 2 |
| EntityBuilder.TwoItems | src/format.js:333-344 | a bullet list of a bold item and an italic item, each one word, becomes two bullet lines, with the bold entity at 2 and the italic one at the word length + 5 |
| EntityBuilder.ListScenario | test/index.test.js:8-16 | the list "- **bold**\n- __bold__" becomes "• bold\n• bold\n" with bold at 2/4 and italic at 9/4 |
| EntityBuilder.Builder.constructor | src/format.js:237-240 | the builder starts with an empty text, no entities, an empty stack and depth 0 |
| EntityBuilder.Builder.Append | src/format.js:242-244 | `append` extends the text and changes nothing else |
| EntityBuilder.Builder.EnsureLineStart | src/format.js:245-248 | `ensureLineStart` computes `LineStart` on the text and changes nothing else |
| EntityBuilder.Builder.AppendBlockGap | src/format.js:249-255 | `appendBlockGap` computes `BlockGap` on the text and changes nothing else |
| EntityBuilder.Builder.OpenEntity | src/format.js:257-259 | `openEntity` pushes a span starting at the current text length |
| EntityBuilder.Builder.CloseSpan | src/format.js:275 | a close token runs `closeEntity` at the current text length |
| EntityBuilder.Builder.HandleInline | src/format.js:261-314 | `handleInline` performs the inline steps in order |
| EntityBuilder.Builder.HandleBlock | src/format.js:317-371 | the main switch performs one block step |
| EntityBuilder.Builder.HandleCodeBlock | src/format.js:346-362 | the fence and code block case: gap, the content as a `pre` entity with its language, gap |
| EntityBuilder.MarkdownToEntities | src/format.js:234-375 | the conversion of a token stream returns `Convert`'s text and entities; every entity lies inside the text, and stack-made entities are non-empty |
| ChunkSplitter.ClipMeaning | src/format.js:380-390 | an entity survives slicing if and only if it overlaps the range; it keeps its kind and extra data and is cut to the overlap |
| ChunkSplitter.Clip | src/format.js:380-390 | the reference definition of slicing one entity; `ClipMeaning` states what it keeps |
| ChunkSplitter.Sliced | src/format.js:377-393 | the reference definition of `sliceEntitiesForRange`; `SlicedValid`, `SlicedAppend`, `SlicedInside` and `SlicedHas` state its properties |
| ChunkSplitter.SlicedHas | src/format.js:379-391 | every entity that overlaps the range is in the slice, clipped to the overlap |
| ChunkSplitter.SplitFrom | src/format.js:402-421 | the reference definition of the split loop from `pos` on; `SplitFromConcat` and `SplitFromChunks` state its properties |
| ChunkSplitter.Split | src/format.js:398-424 | the reference definition of `splitTelegramWithEntities`; `SplitContract` states its properties |
| ChunkSplitter.CrossingEntityClipped | src/format.js:379-391 | an entity that starts at or before `pos` and runs past the chunk end is in the chunk's entities, cut to run from the chunk start to its end |
| ChunkSplitter.PlainFrom | src/format.js:216-220 | the reference definition of the plain loop from `i` on; `PlainFromShape` states its properties |
| ChunkSplitter.SplitPlain | src/format.js:216-220 | the reference definition of `splitTelegram` |
| ChunkSplitter.SlicedValid | src/format.js:377-393 | every sliced entity has offset ≥ 0, length > 0 and end ≤ end − start |
| ChunkSplitter.SlicedAppend | src/format.js:379-391 | slicing works entity by entity and keeps the input order |
| ChunkSplitter.SlicedInside | src/format.js:377-393 | entities already inside [0, end) with positive length come out unchanged |
| ChunkSplitter.SliceEntitiesForRange | src/format.js:377-393 | the loop computes `Sliced` |
| ChunkSplitter.Shrink | src/format.js:406-413 | the single pass never raises the candidate end, and never lowers it to `pos` or below |
| ChunkSplitter.ChunkEnd | src/format.js:403-415 | every chunk end lies after `pos` and at most `max` past it, inside the text |
| ChunkSplitter.SplitTelegramWithEntities | src/format.js:398-424 | the while loop computes `Split` |
| ChunkSplitter.SplitFromConcat | src/format.js:402-421 | the chunk texts from `pos` on concatenate to the rest of the text |
| ChunkSplitter.SplitFromChunks | src/format.js:402-421 | every chunk is non-empty and at most `max` long, and its entities are valid in it |
| ChunkSplitter.SplitContract | src/format.js:398-424 | the chunks rebuild the text; an empty text, and only an empty text, gives no chunks; every chunk is non-empty, within `max`, with valid entities |
| ChunkSplitter.SplitFits | src/format.js:398-424 | a text that fits is one chunk, with its valid entities unchanged |
| ChunkSplitter.ShrinkWithoutCrossing | src/format.js:406-413 | when nothing reaches past the candidate end, the end stays |
| ChunkSplitter.ShrinkStopsBefore | src/format.js:406-413 | an entity that starts after `pos` and crosses the candidate end keeps the chunk end at or before its start, whatever the order |
| ChunkSplitter.CrossingEntityDeferred | src/format.js:403-413 | for an entity that starts after `pos` and crosses the candidate end, the chunk at `pos` ends at or before the entity's start and carries none of it |
| ChunkSplitter.FallbackNeverTaken | src/format.js:415 | the fallback `safeEnd === pos` never applies when `max ≥ 1` |
| ChunkSplitter.HelloWorldScenario | test/index.test.js:18-29 | "hello world" with "world" bold at max 7 gives "hello " without entities and "world" bold at 0/5 |
| ChunkSplitter.OrderDependence | src/format.js:406-413 | the shrink depends on entity order: with bold at 2/4 before italic at 5/15 and max 10, the first two chunks are [0, 5) with bold 2/3 and [5, 15) with bold 0/1 and italic 0/10; with the italic span listed first, the first chunk ends at 2 |
| ChunkSplitter.SplitTelegram | src/format.js:216-220 | the plain loop computes `SplitPlain` |
| ChunkSplitter.NoEntitiesIsPlain | src/format.js:216-220 | without entities, the entity-aware splitter cuts the same chunks as the plain one, with no entities |
| ChunkSplitter.PlainFromShape | src/format.js:216-220 | the plain chunks rebuild the text; each is non-empty and at most `max`; all but the last are exactly `max` |
| ChunkSplitter.SevenThousandOneScenario | src/format.js:216-218 | 7001 characters at the default 3500 give chunks of 3500, 3500 and 1 |
| TableReflow.Cells | src/format.js:116-122 | a line gives at least one cell |
| TableReflow.Rows | src/format.js:115-123 | a table gives at least one row |
| TableReflow.StripPipes | src/format.js:119-120 | drops one leading and then one trailing pipe; `StripPipesFramed` states it on a framed line |
| TableReflow.ColumnMax | src/format.js:126-131 | the widest cell of one column over the rows that reach it; `WidthsAreMaxima` states its meaning |
| TableReflow.Widths | src/format.js:126-131 | the column widths; `WidthsAreMaxima` and `ColumnWidths` state its properties |
| TableReflow.Pad | src/format.js:134 | `pad`; `PadExact` and `PadLength` state its properties |
| TableReflow.ToLine | src/format.js:135 | `toLine`; `LineColumns` states where each padded cell and separator sits |
| TableReflow.Rule | src/format.js:140 | the dash rule; `RuleColumns` states where each run of dashes and "-+-" sits |
| TableReflow.Framed | src/format.js:144 | the lines joined by newlines between a leading and a trailing newline; `FramedSplit` states that they split back |
| TableReflow.WidthsAreMaxima | src/format.js:125-131 | there are as many widths as the longest row has cells; each width is the length of some cell of its column, and no cell of the column is longer |
| TableReflow.ColumnMaxBeyond | src/format.js:126-131 | a column no row reaches has width 0 |
| TableReflow.ColumnWidths | src/format.js:126-131 | the width loop over ragged rows computes `Widths` |
| TableReflow.TableLines | src/format.js:138-141 | there is one line per row plus the rule |
| TableReflow.TableLinesOrder | src/format.js:138-141 | the header line comes first, the rule second, then the body rows in order |
| TableReflow.BuildLines | src/format.js:138-141 | the push loop computes `TableLines` |
| TableReflow.ReflowTable | src/format.js:113-145 | the callback returns the table lines joined by newlines, framed by a newline on each side |
| TableReflow.PadLength | src/format.js:134 | a cell no wider than its column is padded to exactly the column width |
| TableReflow.PadExact | src/format.js:134 | `pad` keeps the cell as a prefix, adds only spaces, reaches exactly the width when the cell fits, and never cuts |
| TableReflow.JoinAt | src/format.js:135 | in cells joined by a three-character separator, each cell and the separator after it sit at the column's start, and the joined text ends right after the last cell |
| TableReflow.LineColumns | src/format.js:134-135 | in a line of a row with at most as many cells as widths, each column is the cell padded to exactly its width, followed by the space-pipe-space separator unless it is the row's last cell, after which the line ends |
| TableReflow.RuleColumns | src/format.js:140 | in the rule, each column is `w` dashes, followed by "-+-" unless it is the last column, after which the rule ends |
| TableReflow.ColumnsAligned | src/format.js:133-141 | in every row, short rows included, each cell padded to its width sits exactly above the rule's dashes, and the space-pipe-space separator after it sits above the rule's "-+-"; a line ends after its last cell and the rule after its last column |
| TableReflow.CellsSingleLine | src/format.js:115-123 | no cell holds a line break |
| TableReflow.LineSingle | src/format.js:135 | a line made of such cells holds no line break |
| TableReflow.RuleSingle | src/format.js:140 | the rule holds no line break |
| TableReflow.TableLinesSingle | src/format.js:138-141 | no table line holds a line break |
| TableReflow.FramedSplit | src/format.js:144 | framed lines split back into an empty line, the lines, and an empty line |
| TableReflow.FramedLines | src/format.js:113-145 | the replacement is an empty line, the header line, the rule, the body lines, and an empty line; the separator row is not among them |
| TableReflow.SingleLineTable | src/format.js:138-144 | the same for any table whose cells hold no line break |
| TableReflow.TwoByTwoScenario | src/format.js:113-145 | a header line and a body line of two one-character cells each, in pipes (as in the A, B over 1, 2 table), become a newline, the header cells joined by the space-pipe-space separator, a newline, "--+--", a newline, the body cells joined likewise, and a final newline |
| TableReflow.FramedPairs | src/format.js:125-144 | the rows [[a, b], [c, d]] of one-character cells reflow to that text |
| TableReflow.TwoByTwoRows | src/format.js:115-123 | those two lines parse to the rows [[a, b], [c, d]] |
| TableReflow.TwoByTwoWidths | src/format.js:125-131 | two rows of two one-character cells have widths [1, 1] |
| TableReflow.PairLine | src/format.js:135 | two one-character cells in width-1 columns give the two cells joined by the space-pipe-space separator |
| TableReflow.UnitRule | src/format.js:140 | widths [1, 1] give the rule "--+--" |
| TableReflow.TwoByTwoLines | src/format.js:138-144 | the framed lines of such a table |
| TableReflow.CellsOfPair | src/format.js:116-122 | a line of two one-character cells in pipes, padded by spaces, gives the cells [a, b] |
| TableReflow.TrimSpaced | src/format.js:122 | " c " trims to "c" |
| TableReflow.SplitLines | src/format.js:116 | two lines joined by a newline split back into the two |
| Text.SplitOnWithout | src/format.js:121 | a string without the separator splits into itself |
| Text.SplitOnPrefix | src/format.js:121 | a separator-free prefix followed by the separator becomes the first piece |
| Text.SplitOnPieces | src/format.js:121 | a character missing from a string is missing from each of its pieces |
| Text.TrimWithout | src/format.js:118 | a character missing from a string is missing from its trim |
| Text.JoinWithout | src/format.js:135 | pieces and separator without a character join into a string without it |
| TableReflow.StripPipesFramed | src/format.js:119-120 | a line framed by two pipes loses exactly those pipes |
| TableReflow.TrimClean | src/format.js:118 | a string with no whitespace at either end is its own trim |
| TableReflow.CellsExample | src/format.js:116-122 | a line made of two pieces free of pipes, between and around three pipes, has the two pieces, trimmed, as its cells |
| MarkdownMarkers.EntityToMarkers | src/format.js:151-166 | a kind has markers if and only if it is not a link; the opening marker is non-empty and the closing marker is its mirror image |
| MarkdownMarkers.MarksInText | src/format.js:174-185 | marks are queued only at positions inside the text |
| MarkdownMarkers.OpensAt | src/format.js:174-185 | the marks queued at a start position, in input order; `QueueEmpty`, `QueueSnoc` and `MarksInText` state its properties |
| MarkdownMarkers.ClosesAt | src/format.js:174-185 | the marks queued at an end position, in input order; the same lemmas state its properties |
| MarkdownMarkers.QueueEmpty | src/format.js:174-185 | the queue at a position is empty if and only if no entity with markers has its boundary there, and every queued mark writes a non-empty opener and closer |
| MarkdownMarkers.Insert | src/format.js:187-192 | one step of the stable length sort; `InsertSorted`, `InsertPermutes` and `InsertStable` state its properties |
| MarkdownMarkers.SortBy | src/format.js:187-192 | the stable length sort; `SortBySorted` and `SortByStable` state its properties |
| MarkdownMarkers.SortByVisible | src/format.js:187-192 | the sort keeps the length of the list, and when every input mark writes a non-empty opener and closer, so does every sorted mark |
| MarkdownMarkers.MarkersAt | src/format.js:194-206 | what is inserted at one position: the sorted closers, then the sorted openers; `MarkersAtEmpty` and `SingleMarks` state its properties |
| MarkdownMarkers.Decorated | src/format.js:194-211 | the reference output: the text with each position's markers in front of its character; `ApplyEntitiesToMarkdown` computes it, `DecoratedPlain` and `SingleEntity` state its properties |
| MarkdownMarkers.InsertBehind | src/format.js:187-192 | inserting keeps a mark that precedes everything in front |
| MarkdownMarkers.InsertSorted | src/format.js:187-192 | inserting into a sorted list keeps it sorted |
| MarkdownMarkers.InsertPermutes | src/format.js:187-192 | inserting adds exactly the one mark |
| MarkdownMarkers.SortBySorted | src/format.js:187-192 | the length sort orders the list (longest first for opens, shortest first for closes) and is a permutation |
| MarkdownMarkers.WithLengthAppend | src/format.js:187-192 | picking the marks of one length distributes over concatenation |
| MarkdownMarkers.InsertStable | src/format.js:187-192 | inserting puts a mark after all the marks of its length |
| MarkdownMarkers.NoneOfLength | src/format.js:187-192 | a sorted list whose first mark is beyond a length holds no mark of that length |
| MarkdownMarkers.SortByStable | src/format.js:187-192 | the sort is stable: marks of equal length keep their input order |
| MarkdownMarkers.MarkersAtEmpty | src/format.js:174-206 | nothing is inserted at a position if and only if no entity with markers starts or ends there |
| MarkdownMarkers.Gap | src/format.js:199-207 | positions with no markers copy the text through unchanged |
| MarkdownMarkers.DecoratedPlain | src/format.js:168-212 | entities without markers (links) leave the text unchanged |
| MarkdownMarkers.NoMarks | src/format.js:174-176 | link entities queue nothing |
| MarkdownMarkers.Wrap | src/format.js:197-211 | markers at two positions only wrap the text between them |
| MarkdownMarkers.SingleMarks | src/format.js:174-192 | one entity queues its opening marker at its start and its closing marker at its end, and nothing elsewhere |
| MarkdownMarkers.SingleEntity | src/format.js:168-212 | one entity with markers gives text before + open + covered text + close + text after |
| MarkdownMarkers.TracksAdd | src/format.js:178-185 | taking an entity with markers into account appends its mark to the queue at its start (opens) or end (closes), creating the queue when missing, and leaves every other queue alone |
| MarkdownMarkers.TracksSkip | src/format.js:175-176 | an entity without markers (a link) leaves every queue as it was |
| MarkdownMarkers.QueueSnoc | src/format.js:174-185 | the queue at a position after one more entity is the queue before, plus that entity's mark exactly when it has markers and its boundary is that position |
| MarkdownMarkers.Enqueue | src/format.js:180-184 | pushing a mark onto the list at a key, creating the list first when the key is missing, changes only that key |
| MarkdownMarkers.CollectOne | src/format.js:174-185 | one turn of the first loop keeps both maps equal to the queues of the entities seen so far |
| MarkdownMarkers.CollectMarks | src/format.js:171-185 | the first loop builds maps holding exactly the non-empty open and close queues, in input order |
| MarkdownMarkers.SortLists | src/format.js:187-192 | each list of the map is sorted by length, and the keys are kept |
| MarkdownMarkers.MinExists | src/format.js:195 | a non-empty set of positions has a least element |
| MarkdownMarkers.OrderedPositions | src/format.js:194-195 | the positions come out strictly increasing, each key exactly once |
| MarkdownMarkers.ClosersAt | src/format.js:201-203 | the closing markers queued at a position, in queue order, and nothing when no entity ends there |
| MarkdownMarkers.OpenersAt | src/format.js:204-206 | the opening markers queued at a position, in queue order, and nothing when no entity starts there |
| MarkdownMarkers.EmitStep | src/format.js:198-207 | one turn of the output loop extends the output from the interleaving up to the previous position to the interleaving up to the next listed one |
| MarkdownMarkers.EmitTail | src/format.js:210 | copying the text after the last listed position completes the interleaving of the whole text |
| MarkdownMarkers.EmitAt | src/format.js:200-206 | one loop step: the text up to the position, then its closers, then its openers |
| MarkdownMarkers.Unlisted | src/format.js:199 | a position strictly between two consecutive ordered positions is not listed |
| MarkdownMarkers.Emit | src/format.js:197-211 | the output loop and the tail interleave the text with the markers of every position |
| MarkdownMarkers.ApplyEntitiesToMarkdown | src/format.js:168-212 | the output is the text with, at each position, the closers (shortest first) and then the openers (longest first) of the entities ending and starting there |

## Left out

- `mdToTelegramHtml` (src/format.js:27-81): a chain of regular-expression rewrites over HTML from the external markdown renderer, whose output the model cannot see.
- The markdown tokenizer (`md.parse`, src/format.js:236) and `attrGet("href")`: the token stream is an input datatype, and the link URL is part of the `LinkOpen` token.
- The regular-expression parts of `preProcessMd` (src/format.js:86-112): CRLF normalisation, the `__…__` to `*…*` rewrite, heading and rule rewrites, and table detection. The reflow callback takes the detected header and body blocks as inputs. The list scenario starts from the tokens of the rewritten input.
- src/index.js: network and I/O plumbing. Its `splitTelegram` duplicates src/format.js:216-220.
- Unicode: one `char` stands for one UTF-16 code unit. `trim` and `split(/\s+/)` use a fixed ASCII whitespace set, not every Unicode space.
- The table test's expectation of a `pre` entity around a reflowed table: the code (src/format.js:143-144) returns plain text and makes no entity. The model follows the code.
- EntityBuilder.CloseEntity: takes the entity list and the stack as values and returns new ones. In the source it mutates the arrays it is given, and the builder's own fields stand in for that aliasing.
- ChunkSplitter.SplitTelegramWithEntities: requires `max ≥ 1`, because with 0 the source never terminates. The default of 3500 is the constant `TelegramMaxLen`.
- ChunkSplitter.SplitTelegram: requires `max ≥ 1` for the same reason.
- MarkdownMarkers.ApplyEntitiesToMarkdown: requires the start and end of every entity that has markers to lie inside the text. JavaScript's clamping of out-of-range and negative `slice` indices is not modelled. The builder's entities always meet this (`EntityBuilder.ConvertWellFormed`).
- MarkdownMarkers.SortLists: the built-in array sort is modelled as a stable insertion sort by length. That is what a stable sort with this comparator yields.
- JavaScript `Map` and `Set`: modelled as Dafny maps and sets. Only the sorted list of positions depends on their order.
