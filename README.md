# innerText for PHP's DOM, modelled in Dafny

This project models `Zegnat\Innertext\Innertext` (`src/Innertext.php`), a PHP class that
computes the `innerText` of a DOM node the way the HTML standard describes it ("the
innerText getter steps" and "the inner text collection steps"), adapted for use without a
CSS engine. The code walks the tree once and collects a flat list of strings and integers.
The integers are positive required line break counts and two sentinels, `BLOCK_START` and
`BLOCK_END`. The walk then cleans the list and joins it into a single string.

- `Dom`: the read-only tree the walk sees. Element and text nodes, attribute lookup, and
  ASCII lower-casing (`strtolower`).
- `Rendering`: `isBeingRendered` and `isBlockLevel` as predicates over a tag, its
  attributes and its parent's tag.
- `Whitespace`: `normaliseWhitespace`, the chain of eight rewrites from section 4.1 of CSS
  Text Module Level 3 that the code applies to each merged run of text. Each rewrite is an
  explicit character scan.
- `Items`: the mixed list as one datatype, `Str | Brk(count) | BStart | BEnd`. PHP's
  `is_int` is `IsInt`. It also holds the nesting and positivity invariants of the list.
- `Merge`: step 9.5, the merge pass. It joins consecutive strings, normalises them (unless
  white-space is pre) and wraps the list in block markers, copying nested blocks through
  unchanged. It has three forms:
  - `Scan`, the loop as a function;
  - `MergeRef`, an independent chunk-by-chunk description, proved equal to `Scan`;
  - `MergePass`, the loop itself as a method.
- `Collection`: `textCollection`. `Collect` is the recursion as a function. `TextCollection`
  is the method with the child loop, proved to return `Collect`'s result.
- `InnerText`: `innerText` steps 2 to 6. These drop empty strings, strip the integer runs at
  both ends, turn each inner run into max-many line feeds, and concatenate. The method
  `InnerText` and its step methods are proved against the functions `DropEmpty`,
  `StripEnds`, `Expand` and `Concat`.
- `Scenarios`: whole-document consequences of the code as written, proved for all trees of
  the given shape.

The model follows the code where it departs from the HTML standard:

- A `p` element adds a required line break count of 1 on each side, not 2
  (`PARAGRAPH_REQ_LINE_BREAKS`, `src/Innertext.php:14`). Being block level, it gets a second
  count of 1. Two paragraphs therefore end up one line feed apart
  (`Scenarios.ParagraphsOneLineFeedApart`).
- The block markers are integers to the code. They take part in the runs that step 4 strips
  and step 5 collapses, but `max` never picks them, so a run of markers alone inserts no
  line feed.
- The merge loop has no flush after its last item. A run of strings still pending when the
  items run out is dropped. A run inside a block always ends before the block's closing
  break count, so only the outer element loses text this way. For example, the inner text
  of `<span><br>tail</span>` is a single line feed (`Scenarios.OuterInlineLosesTrailingText`).
- When the merge loop appends nothing, `$new_items` is never assigned and the code fails at
  line 300 (see `Merge.Merge` under "Left out"). This happens exactly when every item is a
  string (`Merge.NothingAppendedIff`). Only an outer element that is neither block level
  nor a caption can reach that case (`Collection.MergeAppendsNothingIff`).
- `pre` is passed down the walk and only decides how the merge pass treats strings. Text
  nodes are not processed by themselves: they are normalised only when a block-level
  ancestor or the outer node merges them.
- An `img` with neither `alt` nor `src` leaves `$value` undefined. PHP uses null, which
  contributes the same text as the empty string: nothing for the outer node, two spaces
  otherwise.

## Model

| member | source | states |
|---|---|---|
| Dom.LowerChar | src/Innertext.php:392 | strtolower on one character: A-Z move to a-z, everything else is unchanged |
| Dom.Lower | src/Innertext.php:392 | strtolower keeps the length, lowers each character, and leaves no upper-case ASCII letter |
| Dom.LowerIdempotent | src/Innertext.php:440 | lower-casing an already lower-cased name changes nothing |
| Dom.GetAttr | src/Innertext.php:416 | getAttribute gives the attribute's value, or the empty string when it is absent |
| Rendering.RenderedIff | src/Innertext.php:390-433 | an element is not rendered exactly when one of the five rules applies: a listed name, `hidden` (except on embed), input of type hidden, dialog without `open`, or a form whose parent is a table part |
| Rendering.ClassesIgnoreCase | src/Innertext.php:438-475 | block level and being rendered do not depend on the letter case of the tag |
| Whitespace.ReplaceAllAbsent | src/Innertext.php:319 | str_replace leaves a subject unchanged when it lacks a character of the pattern |
| Whitespace.Subst | src/Innertext.php:355-361 | str_replace of one character keeps the length and replaces exactly the occurrences |
| Whitespace.SubstsRemoveLFAndTab | src/Innertext.php:355-361 | after steps LF-to-space and tab-to-space no line feed or tab is left |
| Whitespace.SubstAbsent | src/Innertext.php:355-361 | replacing an absent character changes nothing |
| Whitespace.Squeeze | src/Innertext.php:371 | a `c+` to `c` replacement leaves no two adjacent c, adds no character and keeps the first character |
| Whitespace.SqueezeUnchanged | src/Innertext.php:338 | a string without two adjacent c is its own squeeze |
| Whitespace.SqueezeIsFilter | src/Innertext.php:338 | the `c+` to `c` replacement keeps every character except a c that follows a c, in order, so each maximal run of c becomes one c and nothing else changes (the same for `@\n\n*@` at line 338 and `@ +@` at line 371) |
| Whitespace.StripAroundLF | src/Innertext.php:326 | the `[ \t]*\n[ \t]*` replacement keeps a first character that is not blank |
| Whitespace.StripAroundLFShape | src/Innertext.php:326 | after the replacement no space or tab stands next to a line feed |
| Whitespace.StripAroundLFUnchanged | src/Innertext.php:326 | a string without line feeds is unchanged by it |
| Whitespace.Trim | src/Innertext.php:380 | trim returns a contiguous slice that starts after a prefix of trimmed characters, is followed only by trimmed characters, and neither starts nor ends with one |
| Whitespace.TrimUnchanged | src/Innertext.php:380 | a string that does not start or end with a trimmed character is its own trim |
| Whitespace.SqueezeTrimCollapsed | src/Innertext.php:371-380 | collapsing and trimming spaces in a run without line feeds or tabs gives the collapsed shape |
| Whitespace.NormaliseWhitespace | src/Innertext.php:314-383 | the result has no line feed, no tab, no two adjacent spaces and no space at either end |
| Whitespace.NormaliseFixesCollapsed | src/Innertext.php:314-383 | every string already in that shape is a fixed point of the whole chain |
| Whitespace.NormaliseIdempotent | src/Innertext.php:314-383 | normaliseWhitespace applied twice equals applied once |
| Merge.Merge | src/Innertext.php:299-301 | the merged list starts with BLOCK_START and ends with BLOCK_END |
| Merge.MergeItem | src/Innertext.php:263-297 | one loop iteration: flushes a pending run before a non-string, counts nesting, copies nested items, accumulates top-level strings, and passes other items through |
| Merge.MergePass | src/Innertext.php:259-302 | the loop over all items yields exactly the scanned list between the two markers |
| Merge.RunFlushApply | src/Innertext.php:267-273 | a finished run is kept verbatim under pre and normalised otherwise |
| Merge.StepKeepsNonStrings | src/Innertext.php:263-297 | one iteration outputs its item if that is not a string, plus at most a string |
| Merge.ScanKeepsNonStrings | src/Innertext.php:263-298 | the loop keeps every non-string item, in order, and adds only strings |
| Merge.MergeKeepsNonStrings | src/Innertext.php:259-302 | the merge pass's non-string items are the input's, in order, between two new markers |
| Merge.MergeWellFormed | src/Innertext.php:259-302 | merging keeps block markers properly nested and break counts positive |
| Merge.NothingAppendedIff | src/Innertext.php:263-299 | the loop appends nothing to $new_items exactly when every item is a string |
| Merge.FlushBeforeNonString | src/Innertext.php:266-275 | a pending run is emitted through the flush before the next non-string item |
| Merge.ScanStringRun | src/Innertext.php:266-298 | a pending run absorbs the following strings and is flushed as one string at the first non-string, or dropped at the end of the list |
| Merge.ScanNestedStep | src/Innertext.php:277-289 | inside a nested block an item is copied and the depth follows its marker |
| Merge.ScanNestedScope | src/Innertext.php:277-289 | inside nested blocks every item is copied up to the matching BLOCK_END |
| Merge.ScanFromString | src/Innertext.php:263-298 | at top level a run of strings becomes one flushed string, or nothing when it ends the list |
| Merge.ScanFromScope | src/Innertext.php:277-289 | at top level a nested block is copied whole |
| Merge.ScanIsMergeRef | src/Innertext.php:263-298 | the loop equals the chunk-by-chunk reference: flushed string runs, copied blocks, copied counts, a trailing run dropped |
| Merge.MergeChunks | src/Innertext.php:259-302 | the merge pass is the reference description between two markers |
| Merge.ScanAppend | src/Innertext.php:263-298 | scanning a + b is scanning a, then b from the state a leaves |
| Merge.ScanBreak | src/Innertext.php:266-297 | a break count flushes any pending run and is copied, leaving nothing pending |
| Merge.ScanBreakCopied | src/Innertext.php:291-297 | with nothing pending, a break count is copied and the state is unchanged |
| Merge.ScanEndsWithBreaks | src/Innertext.php:263-298 | a list ending in n break counts scans to a list ending in the same n counts |
| Merge.ScanOnlyBreaks | src/Innertext.php:291-297 | a list of break counts scans to itself |
| Collection.Collect | src/Innertext.php:109-309 | every node's items are well nested in block markers and carry only positive break counts |
| Collection.CollectChildren | src/Innertext.php:131-138 | the concatenation of the children's items keeps that invariant |
| Collection.TextCollection | src/Innertext.php:109-309 | the method with the child loop returns exactly the collected items |
| Collection.CollectChildrenAppend | src/Innertext.php:131-138 | collecting children in two parts concatenates the parts' items |
| Collection.TextChildren | src/Innertext.php:180-183 | text children contribute their data verbatim, one string each, in order |
| Collection.HiddenChildErased | src/Innertext.php:162-166 | a child that is not being rendered can be removed without changing its parent's items |
| Collection.Leaves | src/Innertext.php:162-240 | text gives its data; a hidden non-outer element gives nothing; br gives [BLOCK_START, "\n", BLOCK_END]; img gives its value, space-padded unless outer |
| Collection.ImgValueChoice | src/Innertext.php:229-234 | alt wins over src, both are trimmed of PHP's default characters, and neither gives "" |
| Collection.InlinePassesThrough | src/Innertext.php:248-302 | a rendered non-outer inline element passes its children's items through untouched |
| Collection.CaptionBreaks | src/Innertext.php:248-251 | a non-outer caption gets one break count on each side and is not merged |
| Collection.BlockBreaks | src/Innertext.php:212-302 | a block-level element is merged between the markers with one break count inside each, and a p with two |
| Collection.BlockFraming | src/Innertext.php:248-302 | the merge of a block's items between its break counts keeps those counts just inside the markers |
| Collection.CollectBlock | src/Innertext.php:212-302 | a rendered block element's items are its children's, framed by its break counts, then merged |
| Collection.CollectOuterInline | src/Innertext.php:259-302 | the outer inline element's children's items are merged with no break counts added |
| Collection.MergeAppendsNothingIff | src/Innertext.php:248-299 | an element's merge appends nothing exactly when it is neither block level nor a caption and its children give only strings |
| Collection.MergeBetweenBreaks | src/Innertext.php:248-302 | merging a list framed by k break counts on each side keeps them just inside the markers |
| Collection.AfterOnlyBreaks | src/Innertext.php:291-297 | a run of break counts leaves nothing pending and the depth unchanged |
| InnerText.IntValue | src/Innertext.php:11-12 | break counts are their count, both markers are negative integers |
| InnerText.DropEmpty | src/Innertext.php:46-48 | an item survives step 3 exactly when it was present and is not the empty string |
| InnerText.DropEmptyKeepsInts | src/Innertext.php:46-48 | step 3 keeps every integer item, in order |
| InnerText.DropEmptyUnchanged | src/Innertext.php:46-48 | a list without empty strings passes step 3 unchanged |
| InnerText.DropEmptyAppend | src/Innertext.php:46-48 | step 3 filters item by item: it distributes over concatenation and keeps a single item exactly when it is not the empty string, so every other item survives in order with its repetitions |
| InnerText.LeadingInts | src/Innertext.php:55-69 | $start is the length of the leading run of integer items |
| InnerText.TrailingInts | src/Innertext.php:55-69 | $trailing is the length of the trailing run of integer items |
| InnerText.StripEnds | src/Innertext.php:55-75 | step 4 keeps one contiguous stretch that starts and ends with a string, everything outside it is an integer, and it is empty exactly when all items are integers |
| InnerText.StripEndsCases | src/Innertext.php:70-75 | the array_slice with a null length for zero trailing items and a negative one otherwise |
| InnerText.CountIntRuns | src/Innertext.php:55-69 | the counting loop computes the leading run, and the trailing run when a string exists |
| InnerText.StripIntRuns | src/Innertext.php:55-75 | the counting loop followed by the slice performs step 4 |
| InnerText.CleanedList | src/Innertext.php:42-75 | after steps 3 and 4 no empty string is left, no integer at either end, and an all-integer list becomes empty |
| InnerText.IntegersOnlyText | src/Innertext.php:42-103 | a list of integer items alone (counts or markers) gives the empty string |
| InnerText.StripEndsFrame | src/Innertext.php:55-75 | a list framed by integer runs around a stretch that starts and ends with a string is stripped to that stretch |
| InnerText.LineFeeds | src/Innertext.php:91 | str_repeat gives n line feeds |
| InnerText.MaxWith | src/Innertext.php:88 | $breaks becomes the larger of itself and a count; markers never raise it |
| InnerText.MaxBreak | src/Innertext.php:84-96 | the largest count in a run, bounding every count and attained by one, or 0 |
| InnerText.RunRaisesBreaks | src/Innertext.php:86-89 | a run of integer items emits nothing and raises $breaks to the run's largest count |
| InnerText.RunBecomesMax | src/Innertext.php:84-96 | a run between strings becomes max(counts) line feeds, never their sum; markers alone insert nothing |
| InnerText.ExpandStringsOnly | src/Innertext.php:84-97 | without integer items step 5 emits the strings unchanged, in order |
| InnerText.ExpandBreaks | src/Innertext.php:84-97 | the step 5 loop computes Expand |
| InnerText.ConcatAppend | src/Innertext.php:103 | implode over two lists is the concatenation of the two results |
| InnerText.TextNodeInnerText | src/Innertext.php:180-183 | the inner text of a text node is its data, with no white-space processing |
| InnerText.InnerText | src/Innertext.php:23-104 | the method returns InnerTextOf(root), the composition of steps 2 to 6 |
| Scenarios.BreakThenTextItems | src/Innertext.php:259-302 | an outer inline element holding a rendered br and then a text collects to BLOCK_START, the br's block, BLOCK_END: the pending text is dropped |
| Scenarios.ScanBlockThenText | src/Innertext.php:263-298 | the loop copies a nested block and drops the text run that ends the list |
| Scenarios.NestedBreakText | src/Innertext.php:42-103 | steps 3 to 6 on those items give a single line feed |
| Scenarios.OuterInlineLosesTrailingText | src/Innertext.php:259-302 | the inner text of such an element is one line feed and the text is lost: the last run is never flushed |
| Scenarios.ParagraphCollect | src/Innertext.php:212-302 | a rendered p holding collapsed text collects to BLOCK_START, 1, 1, the text, 1, 1, BLOCK_END |
| Scenarios.DivCollect | src/Innertext.php:109-309 | a div holding two such paragraphs collects to both paragraph blocks between its own counts and markers |
| Scenarios.BetweenParagraphs | src/Innertext.php:84-96 | the six integer items between the two texts become one line feed |
| Scenarios.ParagraphsOneLineFeedApart | src/Innertext.php:217-251 | the inner text of that div is text1, one line feed, text2 |

## Left out

- The PHP DOM API itself is not modelled. Nodes are a datatype, and the parent of a node is
  the tag the walk passes down. A node without a parent element only occurs as the outer
  node, where the parent is never consulted.
- Comment, CDATA and processing-instruction nodes are not modelled: only element and text
  nodes exist.
- Step 2 of the collection steps and step 1 of innerText are not modelled, because the code
  skips them too: there is no visibility check and no textContent fallback. Step 1, the
  recursion over the children, is modelled by CollectChildren and the TextCollection loop. Nor is
  the select/option special-casing, or steps 6 and 7, which the code leaves as TODO.
- Regular expressions and UTF-8 are modelled on characters, not bytes. The zero-width space
  is one character, and the three PCRE patterns become explicit scans with the same
  leftmost, greedy matching.
- An `img` without `alt` or `src` reads the undefined `$value`. PHP warns and uses null, and
  null reaches the result as the empty string. The model uses "" and does not model the
  warning.
- Merge.Merge: when the loop appends nothing (every item is a string, or there are none),
  `$new_items` is undefined. `array_unshift` at `src/Innertext.php:300` then throws a
  TypeError, so innerText fails. The model returns `[BLOCK_START, BLOCK_END]` there. It does
  not model the exception, only when it happens: Merge.NothingAppendedIff and
  Collection.MergeAppendsNothingIff characterise the inputs.
- The constructor does nothing and is not modelled.
- Dom.Lower: assumes PHP 8.2 or later, where `strtolower` changes only the ASCII letters A-Z
  whatever the locale. Before 8.2 it follows `LC_CTYPE`, and a single-byte locale can
  lower-case further letters. The model leaves every non-ASCII character as it is.
- InnerText.IntValue: assumes a 64-bit PHP build. On a 32-bit build `BLOCK_END`
  (-9999999999, `src/Innertext.php:12`) does not fit in an integer and is a float. The
  `is_int` tests at lines 59 and 87 then treat it as a string, and `implode` at line 103
  prints it. The model treats both markers as integers throughout.
- InnerText.Concat and InnerText.InnerTextOf carry no contract of their own. Their partners
  are InnerText.ConcatAppend and the InnerText method.
- Whitespace.StripAroundLF: its contract covers the first character and, through
  StripAroundLFShape, the absence of blanks next to line feeds. It does not state in closed
  form which characters survive.
- Whitespace.NormaliseWhitespace: its contract states the output's shape, fixed points and
  idempotence. It does not state which non-blank characters survive, or the
  zero-width-space rule (DropLFAroundZWSP has no contract).
