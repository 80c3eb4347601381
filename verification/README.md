# swagrLite editor text helpers, modelled in Dafny

swagrLite is a browser editor for OpenAPI documents written in YAML. This
project models three pure text components behind its toolbar and its error
panel, and proves what they do.

- `addOrReplaceInfoInSpec` (module `Info`) gives the document the canonical
  `info` section. It works on the text's lines only. Without an `openapi:`
  line, the template and a newline go in front of the whole text, whether or
  not there is an `info:` line. Otherwise the first `info:` line and the
  indented block under it are replaced by the 13-line template, and without
  an `info:` line the template goes right after the first `openapi:` line.
- `addOrReplacePathsInSpec` (module `Paths`) does the same for `paths` with a
  27-line template that ends in an empty line. Without a `paths:` line the
  template goes after the first `info:` line, or else after the first
  `openapi:` line, or else in front of the text.
- `getLineFromOffset` and `validateOpenAPI` (module `Validation`) turn the
  schema validator's findings into the error list the editor shows. Each
  error's instance path is walked down the parsed document to a node. The
  line that node starts on is computed from its offset, and one is added.

Shared line machinery lives in module `Sections`:

- the first header line for a key (`line.trim().startsWith(key)`);
- the indented block under a header;
- `Array.prototype.splice`.

JavaScript's `split`, `join`, `trim` and `startsWith` are in `Text`;
`slice`'s end index is `Validation.SliceEnd`.
`Options` holds the optional value that stands for `-1`, `undefined` and `??`.

The handlers are defined over a template parameter, `UpsertInfo` and
`UpsertPaths`. The general lemmas are stated for any template of the right
shape. The concrete snippets are shown to have that shape line by line
(`InfoSnippetShape`, `PathsSnippetShape`).

Parsing the YAML and running the schema validator happen in libraries. Their
combined outcome is the parameter `Outcome`: either an exception message or
the document plus the validator's errors. The document keeps only what the
node lookup sees: maps with keyed entries, sequences, scalars and aliases,
each with its start offset. `get` is modelled as the `yaml` library does it:

- a map gives the first entry with the key;
- a sequence reads the key as a decimal index;
- scalars come back as plain values with no position, so the walk stops there;
- an empty path leaves the document itself.

`validateOpenAPI` calls a state setter. Here it is a function from the
previous error list to the new one. Blank text leaves the previous list
unchanged because the setter is never called.

Points where the code does less than its names or comments suggest; the model
follows the code:

- both handlers edit text; they never parse the YAML;
- `paths` is inserted after the `info:` header line, not after the `info`
  section as the comment at src/utils/pathSnippetHandler.ts:29 says;
- an exception gets no line;
- blank text keeps the previous errors.

## Model

| member | source | states |
|---|---|---|
| Text.SplitFacts | src/utils/infoSnippetHandler.ts:17 | `split` gives one more piece than there are separators, and no piece contains the separator |
| Text.JoinSplit | src/utils/infoSnippetHandler.ts:35-36 | joining the pieces of a split at the same separator gives the original text back |
| Text.SplitJoin | src/utils/infoSnippetHandler.ts:35-36 | splitting a join of separator-free pieces gives the pieces back |
| Text.TrimFacts | src/utils/yamlUtils.ts:16 | `trim()` leaves nothing exactly when every character is whitespace; otherwise what is left starts and ends with non-whitespace |
| Sections.FindHeader | src/utils/infoSnippetHandler.ts:18-20 | `findIndex` of a header line is `None` exactly when no line is a header; otherwise it is the first header line |
| Sections.ScanIndented | src/utils/infoSnippetHandler.ts:28-34 | the `while` loop stops at the first line from its start that is not indented, or at the end, and every line it passes is indented |
| Sections.SectionEnd | src/utils/infoSnippetHandler.ts:28-34 | the end index bounds exactly the indented block under the header |
| Sections.SplicedLines | src/utils/infoSnippetHandler.ts:35-36 | splicing template lines into the split text and joining gives text whose lines are the old lines with the range replaced; nothing is merged or lost |
| Sections.SpliceInstallsTemplate | src/utils/infoSnippetHandler.ts:35 | a splice at the first header with no header before it puts the template at the first header of the result |
| Info.AddOrReplaceInfo | src/utils/infoSnippetHandler.ts:16-24 | with no `openapi:` line the result is the snippet, a newline and the old text, whatever `info:` lines there are |
| Info.InfoSnippetShape | src/utils/infoSnippetHandler.ts:1-13 | the snippet has 13 lines; the first is its only `info:` header; none is an `openapi:` header; the rest are indented; splitting it gives the lines back |
| Info.InfoReplace | src/utils/infoSnippetHandler.ts:25-36 | the lines before the first `info:` header and from the end of its block on are kept in order around exactly the 13 snippet lines |
| Info.InfoInsert | src/utils/infoSnippetHandler.ts:37-41 | with no `info:` line, the snippet's lines follow the first `openapi:` line, all old lines stay in order, and the text grows by 13 lines |
| Info.InfoTemplateInstalled | src/utils/infoSnippetHandler.ts:16-42 | in every branch, the result's first `info:` header starts the 13 snippet lines |
| Info.InfoIdempotentAfterReplace | src/utils/infoSnippetHandler.ts:18-36 | when the first `openapi:` line lies outside the replaced section, a second application changes nothing |
| Info.InfoReapplyPrependsWhenOpenapiInsideInfo | src/utils/infoSnippetHandler.ts:18-36 | when the only `openapi:` line is inside the replaced `info` block, the first run deletes it and the second run prepends another snippet |
| Paths.InsertAfter | src/utils/pathSnippetHandler.ts:36-39 | the insertion point is `None` exactly when there is neither an `info:` nor an `openapi:` line; it is the first `info:` line if any, else the first `openapi:` line |
| Paths.AddOrReplacePaths | src/utils/pathSnippetHandler.ts:56-62 | with no `paths:`, `info:` or `openapi:` line the result is the snippet, a newline and the old text |
| Paths.PathsSnippetShape | src/utils/pathSnippetHandler.ts:1-27 | the snippet has 27 lines; the first is its only `paths:` header and is not indented; the 25 lines after it are indented; the last is empty; splitting gives the lines back |
| Paths.PathsReplace | src/utils/pathSnippetHandler.ts:41-55 | the lines before the first `paths:` header and from the end of its block on are kept in order around exactly the 27 snippet lines |
| Paths.PathsInsert | src/utils/pathSnippetHandler.ts:56-64 | with no `paths:` line, the snippet's lines follow the chosen `info:` or `openapi:` line, all old lines stay in order, and the text grows by 27 lines |
| Paths.PathsTemplateInstalled | src/utils/pathSnippetHandler.ts:30-66 | in every branch, the result's first `paths:` header starts the 27 snippet lines |
| Paths.PathsReapplyAddsBlankLine | src/utils/pathSnippetHandler.ts:41-55 | a second application keeps the installed section's empty last line and adds the snippet's own, so there is one more blank line each time |
| Paths.PathsNeverIdempotent | src/utils/pathSnippetHandler.ts:1-27 | for every text, applying the handler twice differs from applying it once |
| Paths.PathsInsertDetachesInfoBody | src/utils/pathSnippetHandler.ts:57-64 | as written, inserting after the `info:` line shrinks the `info` section to its header line and moves its old body below the snippet |
| Paths.PathsInsertKeepsInfoSection | src/utils/pathSnippetHandler.ts:29 | inserting after the whole `info` section keeps that section's header and body intact, with the snippet right after it |
| Validation.GetLineFromOffset | src/utils/yamlUtils.ts:7-10 | the line is one more than the number of newlines before the clamped offset: 1 at offset 0, and the text's line count at or past the end |
| Validation.LineMonotone | src/utils/yamlUtils.ts:7-10 | a later non-negative offset is never on an earlier line |
| Validation.LineWithinText | src/utils/yamlUtils.ts:7-10 | every offset is on one of the text's lines |
| Validation.OffsetLiesOnLine | src/utils/yamlUtils.ts:7-10 | the text before the offset is the lines above it, whole, followed by the start of the offset's own line |
| Validation.SplitPath | src/utils/yamlUtils.ts:25 | the path's segments are non-empty and slash-free, and there are none for a missing path |
| Validation.NonEmpty | src/utils/yamlUtils.ts:25 | `filter(Boolean)` keeps every non-empty string and only those |
| Validation.NonEmptyAppend | src/utils/yamlUtils.ts:25 | `filter(Boolean)` keeps order and repeats: filtering a concatenation filters each part in turn, and a single string survives exactly when it is non-empty |
| Validation.SplitPathJoin | src/utils/yamlUtils.ts:25 | a path made of slash-free pieces, empty ones included (as with `//` or a trailing `/`), splits into exactly its non-empty pieces, in order |
| Validation.SplitPathRoundTrip | src/utils/yamlUtils.ts:25 | a path written as `/` and the segments joined by `/` splits back into the segments |
| Validation.ParseIndex | src/utils/yamlUtils.ts:26 | a segment names a sequence index exactly when it is non-empty and all digits |
| Validation.ParseIndexDecimal | src/utils/yamlUtils.ts:26 | the decimal digits of `n` name index `n` |
| Validation.FindEntry | src/utils/yamlUtils.ts:26 | a map lookup finds the first entry with the key, and finds none exactly when no entry has it |
| Validation.Child | src/utils/yamlUtils.ts:26 | a map step gives the value of the first entry with the key, a sequence step the item at the key read as a decimal index within bounds; nothing otherwise, and nothing when that value is a scalar; scalars and aliases have no children |
| Validation.Resolve | src/utils/yamlUtils.ts:26 | once a step finds nothing so does the rest of the walk, and the empty path stays where it started |
| Validation.ResolveAppend | src/utils/yamlUtils.ts:26 | walking a path in two parts is walking the first part and then the second from where it ended |
| Validation.ErrorOffset | src/utils/yamlUtils.ts:26-27 | the empty path gives the document's own start; a non-empty path gives an offset exactly when the walk from the contents finds a node, and then it is that node's start |
| Validation.MissingStepLosesLine | src/utils/yamlUtils.ts:26-31 | when a prefix of the path already leads nowhere, the error gets no line |
| Validation.ReportedLine | src/utils/yamlUtils.ts:27-31 | the reported line is two more than the number of newlines before the node |
| Validation.MapError | src/utils/yamlUtils.ts:24-33 | the message is the validator's, or "Unknown error"; there is a line exactly when the node is found, and then it is the reported line of its start |
| Validation.ValidateOpenAPI | src/utils/yamlUtils.ts:13-42 | all-whitespace text keeps the previous list; an exception gives one error with the prefixed message and no line; otherwise one mapped error per validator error, in order |
| Validation.ReportedLinesInRange | src/utils/yamlUtils.ts:24-35 | every reported line is at least 2 and at most one past the text's last line |
| Validation.CorrectedMapError | src/utils/yamlUtils.ts:24-33 | with the path decoded and no extra one, the line is one more than the number of newlines before the node |
| Validation.CorrectedLineHoldsNode | src/utils/yamlUtils.ts:27 | with the correction, the reported line is a line of the text and is the line the node starts on |
| Validation.UnescapeEscape | src/utils/yamlUtils.ts:25 | decoding a JSON Pointer segment undoes encoding it (section 4 of RFC 6901) |
| Validation.DecodedPathRoundTrip | src/utils/yamlUtils.ts:25 | decoding the pointer for any list of non-empty keys gives the keys back |
| Validation.SlashKeyNeverSelected | src/utils/yamlUtils.ts:25-26 | as written, no step along a path's segments selects a map entry whose key holds a slash |
| Validation.EscapedKeyNotFound | src/utils/yamlUtils.ts:25-31 | as written, the error about the `/users` entry under `paths` gets no line |
| Validation.EscapedKeyFoundWhenDecoded | src/utils/yamlUtils.ts:25-31 | with decoded segments, the same error gets the line the `/users` entry starts on |

## Left out

- `createAddInfoHandler` and `createAddPathsHandler` only hand the functions to React's state setter. They are not modelled.
- `parseDocumentForPreview` is not modelled. It wraps `yaml.parse` and a state setter and holds no logic of the core.
- YAML parsing and the OpenAPI schema validator are library code. Their combined result is the `Outcome` parameter.
- The document's node structure is reduced to what `get` and `range[0]` see. Key types other than strings are abstracted as `None` keys, because they never equal a path segment.
- Every parsed node carries its start offset. The `node?.range` test at src/utils/yamlUtils.ts:27 fails only for plain scalar values, which the walk already turns into "no node".
- Sequence lookup accepts plain decimal digits only. The library's other integer spellings of an index are not modelled.
- Offsets and string positions count Unicode scalar values. JavaScript counts UTF-16 code units, so texts with characters outside the Basic Multilingual Plane are out of scope.
- `err.message` of a thrown value that is not an `Error` (JavaScript's `undefined`) is not modelled. The exception's message is a string parameter.
- Persistence, debouncing, file and URL handling, and the React components are not part of this model.
- Info.InfoIdempotentAfterReplace: idempotence is proved only for texts where the first run takes the replace branch. Texts where the first run inserts or prepends the snippet are not covered.

## Findings

| source | as written | input that shows it | evidently intended | confidence | as-written member | corrected member |
|---|---|---|---|---|---|---|
| src/utils/yamlUtils.ts:27-31 | the line shown is `getLineFromOffset(...) + 1`, but `getLineFromOffset` already gives a 1-based line; the editor jumps to it as a 1-based line number (src/App.tsx:77-87) | an error about the whole document, whose node starts at offset 0 on line 1, is shown on line 2 | show the 1-based line the node starts on | not executed | Validation.MapError, with Validation.WholeDocumentReportedOnLineTwo | Validation.CorrectedMapError, with Validation.CorrectedLineHoldsNode |
| src/utils/yamlUtils.ts:25-26 | instance-path segments are JSON Pointer segments, but are used as keys without decoding `~1` and `~0` | the error at `/paths/~1users` about the `/users` path item looks up the key `~1users`, finds nothing and gets no line | decode each segment (section 4 of RFC 6901) before the lookup | not executed | Validation.SplitPath, with Validation.EscapedKeyNotFound | Validation.DecodedPath, with Validation.DecodedPathRoundTrip and Validation.EscapedKeyFoundWhenDecoded |
| src/utils/pathSnippetHandler.ts:57-64 | the snippet is inserted right after the `info:` header line, though the comment at line 29 says after the `info:` section | `openapi: 3.0.0` / `info:` / `  title: A` with no `paths:` line gives `info:` directly followed by the paths snippet, with `  title: A` after the snippet and no longer under `info:` | insert after the end of the indented `info` block | not executed | Paths.AddOrReplacePaths, with Paths.PathsInsertDetachesInfoBody | Paths.AddOrReplacePathsAfterInfoSection, with Paths.PathsInsertKeepsInfoSection |
