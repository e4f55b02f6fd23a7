# Foldable JSON outline renderer and received-document store, in Dafny

This project models two parts of a desktop tool that receives JSON documents over
HTTP, keeps them in a list and shows each one as a foldable, syntax-coloured outline.

The outline renderer (`src/components/json_highlight.rs`) takes a document's lines and
makes three passes over them.

- **The block matcher** (`calculate_collapse_counts`) walks the trimmed lines once. It
  keeps an indentation level and a stack of open blocks. On well-nested documents (no
  line both starts with a closer and ends with an opener), for every line that opens a
  block and is later closed back to its level, it records how many lines lie strictly
  between the opener and its first such closer.
- **The line tokenizer** (the inner loop of `highlight_json`) splits one trimmed line
  into quoted strings, the six structural characters `{ } [ ] : ,` and bare characters.
  It tags each token with whether it is a key and whether it was a string.
- **The fold renderer** (the outer loop of `highlight_json`) keeps the indentation level
  and a `skip_depth`. For each line it either suppresses it, because the line lies
  inside a collapsed block, or emits one row. A row holds:
  - the line index;
  - a toggle;
  - the indentation level;
  - the coloured tokens;
  - for a collapsed opener, a marker with the hidden-line count and the closing bracket.

The iced widgets are replaced by a `RenderLine` value per row. The colour resolver
(`color_for_token`) maps a token to one of seven named palette tones.

The store (`src/storage.rs`) is an ordered list of `(id, value)` entries.
- `add_json` appends an entry.
- `delete` drops every entry with the given id and reports whether any was dropped.
- `get_all` copies the list.
- Every change is written out in full.

The file system is a flag saying whether a write succeeds, plus a log of the lists
written.

Modules, one per file:

- `Text` (`text.dfy`): Rust's `char::is_whitespace` set, `str::trim`, the opener and
  closer conditions on a trimmed line, and saturating decrement.
- `Colors` (`colors.dfy`): the tones and `ColorForToken`.
- `Tokenizer` (`tokenizer.dfy`): the scanner as a step function `Step`/`Run`/`Tokens`,
  the loop as the method `Tokenize` proved equal to it, and the token-shape, key-tagging,
  text and escape lemmas.
- `Collapse` (`collapse.dfy`): the matcher as a fold `MatchLine`/`MatchPrefix`, the loop
  as the method `CalculateCollapseCounts` proved equal to it, and soundness and
  completeness of the map it builds.
- `Render` (`render.dfy`): the renderer as a fold `FoldLine`/`FoldPrefix`, the loop as
  the method `HighlightJson` proved equal to it, and an independent reference:
  - `Hidden` holds for a line after a collapsed opener while the level stays above the
    opener's;
  - `RowFor` is the row a shown line gets.

  The fold is proved to emit exactly the reference rows of the non-hidden lines, in
  order.
- `Storage` (`storage.dfy`): the class `Storage` with the list and the write log, and the
  removal function `Without` with its lemmas.

Behaviours of the code that the model keeps as written:

- A line is hidden while the level is above the collapsed opener's level. This condition
  runs before the closing line lowers the level, so the block's closing line is
  suppressed too. The marker's closing bracket stands in for it.
- Outside a string the tokenizer flushes its buffer before every character. A bare
  literal such as `123` or `true` therefore comes out one character per token, and the
  number colour applies to each digit on its own.
- The escape rule looks only at the previous character, so `\\"` inside a string also
  counts as an escaped quote.
- The in-string branch for an unescaped quote cannot be reached. It is kept, with a
  comment. The emptiness condition before tokenizing a collapsed line always passes, because a
  collapsible line ends in a bracket.
- When an opener and a closer share a line (`], [`), the matcher pops before it pushes,
  and it pushes the mixed line with the level from before its own closer
  (`src/components/json_highlight.rs:43,45-58`). In
  `{` / `"a": [` / `[` / `], [` / `]` / `]` / `}`, line 3 is pushed with level 3. No
  later line closes back to level 3, so that entry stays on top of the stack. It then
  blocks the enclosing opener on line 1 from being popped at its closer on line 5, and
  line 1 gets no entry (`MixedLineLeavesOpenerUnmatched`).

## Model

| member | source | states |
|---|---|---|
| Colors.ColorForToken | src/components/json_highlight.rs:7-27 | Each of the seven tones is returned exactly when its case of the precedence table applies: string key, string value, bracket, colon, comma, numeric, anything else. |
| Collapse.CalculateCollapseCounts | src/components/json_highlight.rs:32-65 | The loop builds the matcher fold's map. Every key is an opening line other than line 0, and the line `key + count + 1` closes back to the level before the opener. |
| Collapse.MatchOneLine | src/components/json_highlight.rs:38-62 | One loop iteration takes the level, stack and map to the fold's next state. |
| Collapse.CollapseCountsSound | src/components/json_highlight.rs:40-62 | Every key of the map is a line other than 0 that ends in `{` or `[`. Its count places a line that starts with `}`/`]` and whose lowered level equals the opener's level. |
| Collapse.CollapseCountsMatchBlocks | src/components/json_highlight.rs:40-62 | On well-nested lines, an opener has an entry if and only if some later line closes back to its level. The entry's count is `close - key - 1` for the first such line. |
| Collapse.ClosedOpenerCounted | src/components/json_highlight.rs:45-62 | On well-nested lines, an opener that is closed back to its level gets an entry. |
| Collapse.MixedLineLeavesOpenerUnmatched | src/components/json_highlight.rs:43-58 | On a document with a `], [` line, the mixed line's stale stack entry keeps the enclosing opener (line 1, closed back to its level on line 5) out of the map. The whole map is `{2: 0}`. |
| Collapse.CloseRestoresDepth | src/components/json_highlight.rs:45-62 | On well-nested lines, the level after an opener's first closer is the level before the opener. |
| Collapse.DepthAboveUntilClose | src/components/json_highlight.rs:45-62 | Between an opener and its first closer, inclusive, the level stays above the opener's level. |
| Tokenizer.Tokenize | src/components/json_highlight.rs:105-170 | The loop emits exactly the tokens of the scanner run on the line. Every token has the bare-token shape, except the last one when the line ends inside a string that holds text. |
| Tokenizer.TokensShape | src/components/json_highlight.rs:144-170 | Each token that was not closed as a string is one character that is neither whitespace nor `"`. A structural character is tagged not-key. Non-string tokens are never empty. Only the last token is exempt, and only when the line ends inside a string whose buffer is not empty. |
| Tokenizer.TokensKeyContext | src/components/json_highlight.rs:105-158 | A string token is tagged key exactly when the last structural token before it is `,` `{` `[` or none, rather than `:`. |
| Tokenizer.TokensReconstructLine | src/components/json_highlight.rs:112-170 | On a line without backslashes, the tokens' texts concatenated give the line without its quotes and without the whitespace outside strings. |
| Tokenizer.RunInsideString | src/components/json_highlight.rs:141-143 | Inside a string, characters other than `"` and `\` are appended to the buffer unchanged. |
| Tokenizer.UnterminatedString | src/components/json_highlight.rs:113-170 | After any prefix that ends outside a string, a quote that is never closed leaves the scan inside the string. The tokens are the prefix's tokens, flushed at the quote, then the string's text (if any) as one last token. That token is tagged not-in-string and carries the key flag in force after the prefix. |
| Tokenizer.EscapedQuoteExample | src/components/json_highlight.rs:113-158 | `"a\"b": 1` tokenizes to the key string `a"b`, the colon and the value `1`. |
| Tokenizer.RunAppend | src/components/json_highlight.rs:112-166 | Scanning a concatenation scans the first part, then the second from where the first ended. |
| Render.Paint | src/components/json_highlight.rs:173-183 | There is one span per token, with the token's text and the tone the colour resolver gives it. |
| Render.HighlightJson | src/components/json_highlight.rs:67-250 | The method emits exactly the rows of the renderer fold over the trimmed lines, with the matcher's map. |
| Render.HighlightLines | src/components/json_highlight.rs:75-247 | The outer loop emits the rows of the fold over all lines. |
| Render.HighlightLine | src/components/json_highlight.rs:83-246 | One loop iteration takes the level, skip and rows to the fold's next state. |
| Render.SkipLine | src/components/json_highlight.rs:84-91 | A suppressed line moves the level by the same close/open rule as a shown line. |
| Render.ShowLine | src/components/json_highlight.rs:97-246 | A shown line appends its row and sets the skip exactly when it is a collapsed opener. |
| Render.RowElement | src/components/json_highlight.rs:102-235 | The row built for a line is the reference row at the level before its own close. |
| Render.HighlightRows | src/components/json_highlight.rs:80-246 | There are at most as many rows as lines. Rows are in strictly increasing line order. Each row's indent is its line's nesting depth. |
| Render.RenderMatchesReference | src/components/json_highlight.rs:83-246 | After each prefix, the fold's level is the nesting depth and its rows are the reference rows of the non-hidden lines. Its skip is set exactly as the reference predicts. |
| Render.SkipDecidesHidden | src/components/json_highlight.rs:83-95 | The `skip_depth` condition suppresses a line if and only if it lies inside a collapsed block, as the reference `Hidden` defines. |
| Render.RenderedIffShown | src/components/json_highlight.rs:83-95 | A line has a row if and only if it is not hidden. |
| Render.ShownRowIsReference | src/components/json_highlight.rs:97-237 | Every line that is not hidden has a row equal to its reference row. |
| Render.NoOpenerCollapsedShowsEveryLine | src/components/json_highlight.rs:83-103 | When no collapsible line is collapsed, there is exactly one row per line, in order. Each has its nesting depth, a down caret exactly on collapsible lines, and no marker. |
| Render.LevelIgnoresCollapsed | src/components/json_highlight.rs:84-100 | The level after each line is the nesting depth whatever the collapsed set is. |
| Render.CollapsingKeepsIndent | src/components/json_highlight.rs:97-100 | Every row has the same indent as its line has when nothing is collapsed. |
| Render.CollapsedBlockHidden | src/components/json_highlight.rs:83-95 | On well-nested lines, collapsing one opener hides exactly the lines after it up to and including its first closer. |
| Render.BlockHidden | src/components/json_highlight.rs:83-95 | On well-nested lines, with any set of lines collapsed, every line after a collapsed opener up to and including its first closer is hidden. |
| Render.FoldRowsAreReference | src/components/json_highlight.rs:97-237 | Every rendered row is the reference row of the line it names. |
| Render.CollapsingHidesBlock | src/components/json_highlight.rs:83-243 | On well-nested lines, with any set of lines collapsed, no row renders a line after a collapsed opener up to and including its first closer. If the opener itself has a row, that row has an up caret and a marker counting the lines between, with the matching closing bracket. |
| Render.CollapsedMarkerCount | src/components/json_highlight.rs:218-220 | A collapsed opener's row has an up caret. Its marker counts the lines strictly between the opener and its first closer, with `}` after `{` and `]` after `[`. |
| Render.CollapsingOneBlock | src/components/json_highlight.rs:218-243 | On well-nested lines, collapsing opener `s` whose first closer is `e` leaves a row for every line except `s+1..e`. Row `s` has an up caret and a marker with count `e - s - 1` and the matching closing bracket. |
| Render.ClosersRenderFlat | src/components/json_highlight.rs:97-100 | When every line only closes, there is one row per line and all are at level 0. |
| Render.ExtraClosersStayAtLevelZero | src/components/json_highlight.rs:97-100 | A document of `}` lines renders one row per line, all at level 0, because the level saturates at 0. |
| Storage.Initial | src/storage.rs:15-43 | Start-up fails exactly when the file cannot be read. It starts from the parsed entries when the file parses, and from an empty list otherwise. |
| Storage.Without | src/storage.rs:66-74 | The kept entries are exactly the entries whose id differs, and none carries the id. |
| Storage.WithoutAppend | src/storage.rs:68-74 | Removal distributes over concatenation, so the kept entries keep their order. |
| Storage.ShrinksIffPresent | src/storage.rs:67-75 | The list gets shorter if and only if some entry has the id. |
| Storage.WithoutAbsent | src/storage.rs:66-75 | Removing an absent id leaves the list unchanged. |
| Storage.WithoutIdempotent | src/storage.rs:66-74 | Removing the same id twice is the same as removing it once. |
| Storage.DeleteUndoesAdd | src/storage.rs:45-74 | Deleting an id right after adding an entry under it gives the same list as deleting it before the add. |
| Storage.RetainOthers | src/storage.rs:68-74 | The `retain` loop keeps exactly `Without(entries, id)`. |
| Storage.Storage.constructor | src/storage.rs:39-42 | The store starts from the loaded list and nothing written. |
| Storage.Storage.SaveToFile | src/storage.rs:85-97 | The list is unchanged. It is logged as written exactly when the disk write succeeds, and the result says so. |
| Storage.Storage.AddJson | src/storage.rs:45-56 | Exactly one entry is appended, whatever the save's outcome, and earlier entries are unchanged. The result is `Ok` exactly when the save succeeds. |
| Storage.Storage.GetAll | src/storage.rs:58-61 | The result is the list in stored order, and nothing changes. |
| Storage.Storage.Delete | src/storage.rs:63-83 | Every entry with the id is dropped and the others stay in order. `found` holds exactly when some entry had the id. An absent id leaves the list unchanged and writes nothing. A failed write is an error, and the entries are already gone. |

## Left out

- Widget construction in `highlight_json` is not modelled, as it is UI: iced rows, texts, buttons, SVG icon bytes, the `{:>3}` line number, style closures and the two spaces per level. A row records the level and the marker's parts instead.
- `json.lines()` is not modelled: the lines are the input.
- `token.trim().parse::<f64>()` is not modelled: it is a foreign floating-point parser, so the colour resolver takes it as the predicate `isNumeric`.
- The palette's actual colours are not modelled: they depend on the theme, so tones are names.
- `HashMap`/`HashSet` hashing is not modelled: the collapse map is a `map` and the collapsed set a `set`.
- Collapse.CollapseCountsMatchBlocks: completeness is proved only for well-nested documents, where no line both starts with a closer and ends with an opener. `MixedLineLeavesOpenerUnmatched` shows that it fails otherwise.
- Render.CollapsedBlockHidden and Render.CollapsingOneBlock: the "exactly these lines are hidden" direction is stated for well-nested documents with a single collapsed opener. For any collapsed set, `BlockHidden` and `CollapsingHidesBlock` prove that a collapsed opener hides its block, and `RenderMatchesReference` with `Hidden` gives the whole picture.
- Render.CollapsedMarkerCount, Render.BlockHidden and Render.CollapsingHidesBlock: they are stated for well-nested documents, where the block matcher finds every block.
- Tokenizer.TokensReconstructLine: it is stated only for lines without a backslash, because an escape drops the backslash from the text.
- Tokenizer.TokensShape and Tokenizer.Tokenize: the shape is not claimed for the last token when the line ends inside a string holding text, because that token is the string's text.
- Storage file I/O and serialisation are not modelled. The outcome of opening, reading, parsing and writing the file, and of creating the data directory, is a parameter (`Load`, `diskOk`). The written content is recorded as the list in `saves`.
- `Utc::now()` is not modelled: `add_json` takes the id as a parameter.
- The `Arc<Mutex<…>>` around the list is not modelled, as locking and sharing across threads are concurrency.
- The HTTP server, the application loop, the document list view and the storage event loop are not part of this model. They are async I/O and UI.
