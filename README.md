# Shape viewer: instruction extractor and grid compositor

This project models the core of the chat-bot command `sbe:viewer`
(`src/commands/viewer.js`). The command scans a chat message for shape
instructions written as `{key+modifier+...}`. It hands each instruction to a
shape builder, keeps at most 64 of the resulting shapes, and composes their
56 x 56 pixel tiles into one image, row by row, with at most eight columns.

Modules:

- `Text` (`text.dfy`): JavaScript's `split` and `indexOf` for a one-character
  separator, plus `Join`, the inverse of `Split`.
- `Extractor` (`extractor.dfy`): `extractShapes`. The imperative loop
  `ExtractShapes` is proved equal to the specification function `Extract`,
  and the lemmas beside it state what `Extract` does: fragments, instruction
  bodies, the all-or-nothing modifier limit, and the in-order concatenation.
- `Grid` (`grid.dfy`): the layout arithmetic of `renderShapes` (`GridLayout`,
  `TileOffset`) and its drawing loop (`RenderShapes`). Each `drawImage` call is
  recorded as a `Tile` holding the index, the shape and the pixel offset.
- `Viewer` (`viewer.dfy`): `execute`. It caps the shapes at 64, stays silent
  when there are none, and otherwise renders.

The shape builder `handleInstruction` is the parameter
`build: (string, seq<string>) -> seq<D>`, from a key and its modifiers to
descriptors of any type `D`. The error thrown as "Limit of modifiers reached"
becomes `Err(ModifierLimitReached)` in `Extract`, and `Failed(...)` in
`Execute`'s reply.

## Model

| member | source | states |
|---|---|---|
| `Text.Split` | src/commands/viewer.js:13 | `split` on one character gives at least one piece, and no piece contains the separator |
| `Text.IndexOf` | src/commands/viewer.js:21 | `indexOf` is -1 exactly when the character is absent; otherwise it is a position holding the character with no earlier occurrence |
| `Text.JoinSplit` | src/commands/viewer.js:27 | joining the pieces of a split with the separator gives back the original string |
| `Text.SplitJoin` | src/commands/viewer.js:27 | splitting a join of separator-free pieces gives back those pieces, in order |
| `Text.SplitAtSeparator` | src/commands/viewer.js:13 | splitting `a + sep + b` gives the pieces of `a` followed by the pieces of `b` |
| `Text.SplitWithoutSeparator` | src/commands/viewer.js:13-18 | a string without the separator splits into itself alone |
| `Extractor.Fragments` | src/commands/viewer.js:13 | no fragment after a `{` contains another `{` |
| `Extractor.ParseInstruction` | src/commands/viewer.js:27-28 | the key is the first `+`-piece of the body and the modifiers are the remaining pieces, in order; neither key nor any modifier contains `+` |
| `Extractor.TokenOf` | src/commands/viewer.js:21-26 | a fragment holds at most one instruction, and it holds none exactly when it has no `}` |
| `Extractor.InstructionBody` | src/commands/viewer.js:21-26 | the instruction body is the fragment's text before its first `}`, whatever follows that `}` (including more `}`) |
| `Extractor.ParseThenJoin` | src/commands/viewer.js:26-28 | parsing loses nothing: key and modifiers joined with `+` give back the body |
| `Extractor.JoinThenParse` | src/commands/viewer.js:27-28 | `+`-free key and modifiers joined with `+` parse back to that key and those modifiers, in order |
| `Extractor.TerminatedFragment` | src/commands/viewer.js:21-28 | a fragment `body}rest` with no `}` in `body` holds exactly the instruction parsed from `body`, whatever `rest` holds |
| `Extractor.WithinLimit` | src/commands/viewer.js:30 | the limit test as a predicate: every instruction has at most 10 modifiers (11 or more is over the limit) |
| `Extractor.Extract` | src/commands/viewer.js:12-38 | the specification of `extractShapes`: the modifier-limit error when any instruction of the message is over the limit, otherwise the builder results of its instructions concatenated in order |
| `Extractor.ExtractShapes` | src/commands/viewer.js:12-38 | the loop returns exactly `Extract(message, build)`: the error when any instruction has more than 10 modifiers, otherwise the concatenated builder results |
| `Extractor.FlatMapAppend` | src/commands/viewer.js:34 | appending each step's results (`push(...)`) over two runs gives the first run's results followed by the second's |
| `Extractor.TokensStep` | src/commands/viewer.js:20-26 | one more fragment adds its instruction, if it has one, after those of the earlier fragments |
| `Extractor.ExpandStep` | src/commands/viewer.js:34 | one more instruction appends its builder result after the shapes collected so far |
| `Extractor.OverLimitPoisons` | src/commands/viewer.js:30-31 | one fragment whose instruction has more than 10 modifiers makes the whole message fail, whatever the other fragments hold |
| `Extractor.ExtractFragmentsAppend` | src/commands/viewer.js:20-35 | all or nothing, in order: two runs of fragments succeed together exactly when each succeeds, and then yield the first run's shapes followed by the second's |
| `Extractor.UnterminatedFragmentSkipped` | src/commands/viewer.js:21-24 | a fragment without `}` contributes nothing and does not change what the fragments after it yield |
| `Extractor.UnterminatedInstructionIgnored` | src/commands/viewer.js:13-24 | in a whole message `pre{f{post`, where `f` has no `{` and no `}`, removing `{f` (the brace together with its unterminated text) does not change the result |
| `Extractor.NoOpenBraceNoShapes` | src/commands/viewer.js:13-18 | a message without `{` yields the empty sequence, not an error |
| `Extractor.OneInstructionBody` | src/commands/viewer.js:13-28 | the message `pre{body}post`, with no other `{` and no `}` in `body`, holds exactly one instruction, the one parsed from `body` |
| `Extractor.OneInstruction` | src/commands/viewer.js:30-34 | a message with a single instruction yields that instruction's builder result, or the error when it has more than 10 modifiers |
| `Extractor.SingleInstruction` | src/commands/viewer.js:26-34 | the message `pre{key+m1+...+mn}post` yields `build(key, [m1..mn])` when n <= 10 (so exactly 10 is accepted) and the modifier-limit error when n > 10 |
| `Extractor.ParseExample` | src/commands/viewer.js:26-28 | `key+a+b+c` parses to key `key` and modifiers `a`, `b`, `c` |
| `Extractor.SkipExample` | src/commands/viewer.js:20-34 | `a {bad b {valid}` yields only `build("valid", [])` |
| `Grid.GridLayout` | src/commands/viewer.js:46-51 | for n > 0 tiles: `min(n, 8)` columns (between 1 and 8); the least number of rows that holds n tiles (`ceil(n / columns)`); width and height of 56 pixels per column and per row |
| `Grid.CeilingDivision` | src/commands/viewer.js:48 | `(n + c - 1) div c` rows of c hold n tiles, and one row fewer does not |
| `Grid.TileOffset` | src/commands/viewer.js:59-60 | tile i is drawn at x = (i mod columns) * 56 and y = (i div columns) * 56 |
| `Grid.OffsetThenIndex` | src/commands/viewer.js:59-60 | offsets are row-major: the tile at tile i's offset is tile i, so distinct tiles get distinct cells |
| `Grid.IndexThenOffset` | src/commands/viewer.js:59-60 | every grid-aligned offset inside the columns is the offset of the tile it names |
| `Grid.TileInside` | src/commands/viewer.js:50-60 | each of the n tiles lies entirely inside the image |
| `Grid.TilesDisjoint` | src/commands/viewer.js:59-60 | two different tiles share no pixel |
| `Grid.Placements` | src/commands/viewer.js:56-62 | one tile per shape, of the same length and in input order, tile i holding shape i at `TileOffset(i, columns)` |
| `Grid.PlacementsWellPlaced` | src/commands/viewer.js:47-61 | every tile of the layout lies inside the image, and no two tiles overlap |
| `Grid.RenderShapes` | src/commands/viewer.js:45-66 | the layout is `GridLayout(n)`; one tile per shape, in input order, at its row-major offset; all tiles inside the image and pairwise disjoint |
| `Grid.TenTilesExample` | src/commands/viewer.js:46-60 | 10 tiles: 8 columns, 2 rows, 448 x 112; tile 8 at (0, 56) and tile 9 at (56, 56) |
| `Grid.OneTileExample` | src/commands/viewer.js:46-51 | 1 tile: 1 column, 1 row, a 56 x 56 image |
| `Viewer.Cap` | src/commands/viewer.js:82 | the kept shapes are the leading prefix of the extracted ones, of length `min(n, 64)` |
| `Viewer.CapExample` | src/commands/viewer.js:82 | 100 shapes are cut to the first 64 |
| `Viewer.Execute` | src/commands/viewer.js:71-91 | an extraction error is passed on, and the reply is `Failed` exactly when extraction fails; no reply exactly when extraction yields no shapes; otherwise an image of the first `min(n, 64)` extracted shapes, in order, laid out by `GridLayout`, each drawn at its row-major offset (`Placements`), all inside the image and non-overlapping |

## Left out

- The direct-call guard (`sbe:viewer` prefix) and the role check against `viewerAccessRoles` in `execute`. Both depend on the chat platform and on external configuration.
- The message watcher: the bot-author filter, the quick `{` test, error swallowing with `console.log`, and subscribing and unsubscribing in `load`/`unload`. These are event wiring and logging. The quick `{` test agrees with `Extractor.NoOpenBraceNoShapes`.
- Posting the image as a `MessageAttachment` and the `async`/`await` around it. `Execute` returns the reply as a value.
- The canvas (`createCanvas`, `getContext`, `drawImage`) and PNG encoding (`toBuffer`). These are foreign drawing code. Each drawing call is recorded as a `Grid.Tile`.
- `renderShape` is not part of this model. A tile records the shape it was drawn for, not its pixels.
- `handleInstruction` is not part of this model. It is the total function parameter `build`, so any error it throws is not modelled.
- `Extractor.Extract`: the source calls the builder for the instructions before the first one over the limit, and then throws. With a side-effect-free `build`, those earlier calls are not observable, so the model reports only the error.
- `Grid.RenderShapes` requires at least one shape. The source's only caller guarantees this (src/commands/viewer.js:83); with no shapes the source divides by zero.
- JavaScript number semantics: `Math.ceil` and `Math.floor` over floating point, and `for...in` producing string indices. The model uses natural-number `/` and `%`, which agree for the at most 64 tiles drawn.
- JavaScript strings are sequences of UTF-16 code units. Here a `string` is a `seq<char>`; only `{`, `}` and `+` matter to the parser.
