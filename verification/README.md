# Verified models of gsx

gsx compiles HTML templates with embedded Go to Go code. It also has a small HTML runtime and a
development loop. This project models the parts of it whose correctness is hardest to see from the
code, in Dafny, and proves what they promise.

`dafny verify dfyconfig.toml` checks everything. Nothing here is executed.

## How to read it

Code that works step by step is modelled by methods with loops, arrays and classes, each proved
against a specification; the theorems are lemmas about the specification. Protocols are state machines:
an enabled step, the state after it, an invariant, and theorems over every run. The methods of the
classes beside them are the atomic sections of the Go code, so every interleaving of calls is a run.

| files | source | subject |
|---|---|---|
| Subsequences, EditScripts, Diff, Hunks, Patch | gen/diff.go | the line diff: minimal scripts, and hunks that replay |
| Source, Spans, ScanTrace, Scanners, HoleGrammar, ElementGrammar | parser/boundary.go, parser/goexpr.go | the scanners for holes, literals and elements |
| Declarations, DeclarationGrammar, StyleMerge | style_merge.go | merging two style attributes |
| AttrNames, Attrs, AttrMerge, AttrChains, AttrSpread | attrs.go, internal/htmlattr/name.go | attribute bags, merged early or resolved when written |
| ImageUrls, Srcset, SrcsetStandard, Css, CssEscapes, Utf8 | escape.go | sanitizing image URLs and srcset values; decoding and filtering CSS values |
| Js, JsLiterals | js.go | escaping for JavaScript literals, and reading it back |
| StatusSender | gen/statussender.go | a latest-wins mailbox with one sender |
| FrontDoor | gen/frontdoor.go | the supervisor of the front-door process |
| WatchDirty | gen/watch_dirty.go | the transactional dirty set of the watch loop |
| CacheStore, WarningPaths, CachePipeline | gen/cachestore.go, gen/cache.go, gen/cache_pipeline.go | the persistent cache |
| LspModules | gen/lsp.go | who holds the unsaved bytes of an open buffer |
| Clone | ast/clone.go | deep copies of syntax trees |
| Bytes, Text, Options | | byte order, sorted names and hexadecimal digits, white space and case, optional values |

## What is assumed

- The Go tokenizer reports tokens in order, inside the scanned region, and each punctuation token on a
  character of its own (`SourceText.Source.TokenizerOk`). On text without `<` and backticks it is not used at all.
  Where it is used, `ElementGrammar.HoleReads` says of a hole that its tokens are the ones written, up to each
  embedded element or literal.
- A cache entry's warnings: when the JSON form can be read back, it is read back as what was written
  (`CachePipeline.Faithful`). Generating a directory is a function of its cache key
  (`CachePipeline.Keyed`), and what is generated without errors has plain file names and clean paths
  (`CachePipeline.Sane`).
- Gates, HTTP answers, timers, process exits, verification of a respawn, module roots and regeneration
  results are inputs that may take any value.

## Where the code does not do what it says

Each of these is proved, with the exact condition and a failing input.

- gen/frontdoor.go: a long-lived instance sets the counter of rapid exits to one, not to zero, so three
  rapid exits after it are enough to give up (`FrontDoor.GivesUpAtFour`; `FrontDoor.LongLifeCountsAsOne` is
  such a run).
- gen/frontdoor.go: `start` opens the gate without looking at `done`. A shutdown before that leaves the
  gate open for good (`FrontDoor.DoneMeansClosed`, `FrontDoor.RacedShutdownLeavesGateOpen`); the dev loop
  never calls them in that order.
- attrs.go: the comments say that a merged and a concatenated bag render the same. They do not when the
  last pair of a class or style is a `Toggle` that is not from the first bag and not the only pair
  (`AttrChains.MergeResolvesAsConcat`, `AttrMerge.SwallowedToggle`), and the text of a class differs when
  there is loose white space between its values (`AttrChains.MergeRendersAsConcat`,
  `AttrChains.ClassTextMayDiffer`).
- style_merge.go: a root style that leaves a quote or parenthesis open may swallow the caller's
  declarations (`StyleMerge.MergedReadsBack` says exactly when, `StyleMerge.OpenRootExample` shows it).
- escape.go: dropping the descriptor of a blocked srcset candidate joins the replacement to the next URL
  when no white space follows the comma (`Srcset.CandidatesKept`, `Srcset.RunsTogether`). The scan is called
  a port of the HTML Standard's, but it ends a descriptor at every comma; the Standard does not do so
  between parentheses. They differ exactly when a candidate follows a descriptor that leaves a parenthesis
  open (`SrcsetStandard.GrammarsAgree`, `SrcsetStandard.ParenthesesDisagree`).
- gen/cache.go: `absWarnings` is called the inverse of `relWarnings`; it is, exactly for clean file
  names (`WarningPaths.WarningsRoundTrip`, `WarningPaths.DotPartIsLost`).
- gen/lsp.go: a module ignores the bytes of a path that it does not own, while the record takes them. The
  module then holds nothing, or the bytes it had before (`LspModules.ModuleSet.BufferChanged` says exactly
  when the held bytes are the recorded ones; `LspModules.UnownedIsNotHeld`, `LspModules.OldBytesStay`).

## Model

| member | source | states |
|---|---|---|
| Subsequences.LcsIsUpperBound | gen/diff.go:115-126 | no common subsequence of two files is longer than the recurrence that the table is filled with |
| Subsequences.LcsIsAttained | gen/diff.go:115-126 | some common subsequence is as long as the recurrence says |
| Subsequences.LcsTrim | gen/diff.go:88-95 | taking a common prefix and suffix off two files takes exactly their lengths off the longest common subsequence |
| EditScripts.LongestKeepIsMinimal | gen/diff.go:85-86 | of all scripts between two files, one that keeps a longest common subsequence has the fewest changes |
| Diff.Trim | gen/diff.go:88-95 | the two trimming loops find the longest common prefix, and then the longest common suffix that stays clear of it |
| Diff.SuffixLcsBound | gen/diff.go:109-126 | while the middles have at most the allowed number of cells, no table entry exceeds 2048, so an int32 cannot overflow |
| Diff.FitsByLines | gen/diff.go:12-15 | middles of at most 2048 lines each always fit the table, and larger ones on both sides never do |
| Diff.FillTable | gen/diff.go:115-126 | the in-place loops leave in every cell the longest-common-subsequence length of the two suffixes it stands for |
| Diff.InsertKeepsNeed | gen/diff.go:127-142 | the walk inserts only while every longest alignment still needs the current old line, and goes on needing it |
| Diff.NeededIsKept | gen/diff.go:127-142 | a line that is still needed is not deleted, whatever the table comparison with equal entries prefers |
| Diff.Walk | gen/diff.go:127-142 | the walk turns the middles into each other, keeps as many lines as their longest common subsequence has, and never deletes right after an insertion |
| Diff.Replace | gen/diff.go:109-114 | a middle too big for the table becomes one replacement that keeps nothing, deletions first |
| Diff.TrimmedLcs | gen/diff.go:88-100 | trimming loses nothing: prefix, longest common subsequence of the middles and suffix add up to that of the whole files |
| Diff.DiffOps | gen/diff.go:87-150 | the script turns a into b, its line numbers count the lines before each op, it keeps a longest common subsequence of the whole files while the table fits, so that no script between them has fewer changes, and exactly prefix and suffix otherwise, and in every run of changes deletions precede insertions |
| Diff.DiffIsMinimal | gen/diff.go:85-150 | a script that keeps as many lines as diffOps does while the table fits has the fewest changes of all scripts between the two files, and no common subsequence is longer |
| Hunks.ExtendGroup | gen/diff.go:21-43 | a group of changes is extended over at most two contexts of unchanged lines, and ends with a change before a longer pause |
| Hunks.GroupHunks | gen/diff.go:21-66 | hunks are in order and disjoint, hold every change, start and end with at most three unchanged lines (fewer only at the ends of the file), and print the line numbers of their ops |
| Hunks.ThreeLinesShown | gen/diff.go:8-43 | a hunk shows three unchanged lines on each side of its changes, or all that the file has there, and never seven unchanged lines in a row between them |
| Patch.HeaderReads | gen/diff.go:44-75 | the printed ranges of a hunk give back where it starts in either file and how many lines it has there, empty ranges included |
| Patch.HunksReplay | gen/diff.go:19-67 | a strict reader that applies the hunks of a script to its old file produces its new file |
| Patch.UnifiedDiff | gen/diff.go:19-67 | the hunks turn a into b, reversed they turn b into a, and there are none exactly when a equals b |
| Patch.EqualFilesHaveNoHunks | gen/diff.go:19-67 | equal files give no hunk, because a script between them that keeps a longest common subsequence changes nothing |
| Scanners.BacktickEscapedIn | parser/boundary.go:214-220 | a delimiter is escaped exactly when an odd number of backslashes stands before it |
| Scanners.SkipQuotedOrComment | parser/boundary.go:222-270 | strings, runes, raw strings and comments are skipped to just past their end, and an unfinished one is reported |
| Scanners.GoExprEnd | parser/boundary.go:15-17 | terminates on every source; the reported end is the first brace at depth zero among the tokens outside of literals and elements, and without angle brackets and backticks it is the brace that closes the hole |
| Scanners.GoDepth1End | parser/boundary.go:47-80 | the same from one level deep, whether by the byte loop or by the token scan |
| Scanners.FastLoop | parser/boundary.go:47-80 | the byte loop finds the first brace that brings the bracket depth to zero, through strings, comments and prefixed literals with their holes |
| Scanners.SkipGSXEmbeddedLiteral | parser/boundary.go:143-160 | a literal with a language prefix at an identifier boundary is skipped to exactly the end of that literal, anything else not at all |
| Scanners.EmbeddedLiteralEndHoleAware | parser/boundary.go:196-212 | the end is just past the first delimiter that is neither escaped nor in a hole, or the end of the text; holes recurse into the scanner |
| Scanners.ScanGoExpr | parser/goexpr.go:87-208 | terminates on every source; it meets the tokens outside of the literals and elements one after the other, leaves none out, and reports exactly the delimiters, spans and closing brace of what it met |
| Scanners.RecordToken | parser/goexpr.go:168-205 | each token moves the depth and adds to the report what it does at that depth: the closing brace, a comma, a colon, or a pipe made of two adjoining tokens |
| Scanners.SkipSpan | parser/goexpr.go:95-166 | a span is skipped exactly at a prefixed literal and at an element where an operand is expected, to exactly where the literal or element ends |
| Scanners.ElementSpanEnd | parser/goexpr.go:651-697 | an element ends at the tag after which as many tags were closed as opened, self-closing tags apart, or at the end of the text; tags are found between their angle brackets, quoted values and holes skipped |
| Scanners.ScanTagClose | parser/goexpr.go:705-724 | a tag is closed by the first angle bracket that is in no quoted value and no hole, strictly after its start |
| Scanners.SkipAttrQuoted | parser/goexpr.go:730-738 | a quoted attribute value ends at the next occurrence of its own quote, and an unfinished one at the end of the text |
| Spans.PrefixIsOpening | parser/goexpr.go:219-230 | looking back from a delimiter finds a language prefix exactly where a literal that opens with this delimiter starts, identifier boundary included |
| ScanTrace.SpansAreOpaque | parser/goexpr.go:71-86 | skipped spans are in order and disjoint, and every reported delimiter stands on its character outside of all of them |
| ScanTrace.EveryDelimiter | parser/goexpr.go:82-86 | a comma, a colon or a pipe made of two adjoining tokens is reported exactly if as many brackets were closed as opened before it |
| ScanTrace.DelimitersAscend | parser/goexpr.go:168-205 | the delimiters of each kind are reported in the order of the text |
| ScanTrace.CloseIsFirst | parser/goexpr.go:82-86 | the reported end is the first closing brace before which as many brackets were closed as opened, and nothing is scanned after it |
| ScanTrace.TokensInOrder | parser/goexpr.go:102-118 | between two starts of the tokenizer the scan meets its tokens in order, up to the one that starts a span |
| ScanTrace.FinishedEnds | parser/boundary.go:72-79 | what the token scan reports as the closing brace is what the specification of the hole scanners says, on every source |
| HoleGrammar.BodyScanned | parser/boundary.go:47-80 | scanning any well-formed body leaves the scanner behind it at the depth it had |
| HoleGrammar.SegmentsScanned | parser/boundary.go:196-212 | no delimiter that is escaped or inside a hole is taken for the end of a literal, at any nesting |
| HoleGrammar.HoleIsDelimited | parser/boundary.go:15-80 | every well-formed hole body, printed between braces and followed by any text free of angle brackets and backticks, is delimited exactly by its own brace |
| ElementGrammar.TagCloses | parser/goexpr.go:705-724 | a well-formed tag, with quoted values, prefixed values and holes of any nesting, is closed at its own angle bracket |
| ElementGrammar.LiteralEnds | parser/boundary.go:196-212 | a well-formed literal ends at its own delimiter, also when its holes hold elements and further literals |
| ElementGrammar.ElementIsDelimited | parser/goexpr.go:651-697 | every well-formed element, with tags, text, holes and elements nested without limit and followed by any text, is spanned exactly |
| ElementGrammar.ChildDoesNotClose | parser/goexpr.go:651-697 | the element `<a><b></b>x</a>` ends at its last tag, not at that of its first child |
| ElementGrammar.HoleIsDelimited | parser/goexpr.go:87-208 | every well-formed hole with embedded elements and literals is delimited exactly by its own brace |
| Declarations.PiecesLossless | style_merge.go:8-39 | the pieces between top-level semicolons, joined again, are the text |
| Declarations.SplitIsSeparable | style_merge.go:8-39 | every declaration is trimmed, not empty and in one piece, all but the last are closed, and the last is closed exactly when the text is |
| Declarations.SplitOfJoin | style_merge.go:8-39 | declarations that were joined are split into the same declarations |
| Declarations.SplitJoinSplit | style_merge.go:8-39 | splitting, joining and splitting again changes nothing, for every text |
| Declarations.SplitSwallowed | style_merge.go:8-39 | a text that is not closed does not split as before once another declaration follows |
| DeclarationGrammar.SplitsOutside | style_merge.go:8-39 | declarations are separated at exactly the semicolons outside quoted strings and parenthesized groups, nested without limit |
| DeclarationGrammar.PropIsBeforeColon | style_merge.go:45-72 | the property is what stands before the first colon outside strings and groups, and without such a colon there is none |
| DeclarationGrammar.SameProperty | style_merge.go:63-68 | two names are the same property exactly when they are equal up to surrounding white space, or, unless custom, up to ASCII case |
| StyleMerge.SplitDecls | style_merge.go:8-39 | the byte loop splits a text at its top-level semicolons, trims the pieces and drops the empty ones |
| StyleMerge.ScanProp | style_merge.go:45-72 | the property of a declaration is the trimmed text before its first top-level colon, in lower case unless it is a custom property |
| StyleMerge.Compact | style_merge.go:120-145 | compacting the declarations inside the array that is still being read leaves exactly those that no later one overrides, in order |
| StyleMerge.StyleMerged | style_merge.go:81-156 | both paths write the value of one specification: the texts joined when no property repeats, the last-wins declarations joined otherwise, nothing when there are none |
| StyleMerge.LastWinsKeepsWinner | style_merge.go:120-145 | for every property the deduplicated list has the same winning declaration as the whole list |
| StyleMerge.LastWinsUnique | style_merge.go:120-145 | no property occurs twice after deduplication |
| StyleMerge.LastWinsKeepsFragments | style_merge.go:120-145 | fragments without a property are all kept, in order |
| StyleMerge.MergedReadsBack | style_merge.go:81-156 | the written value splits into the last-wins declarations of both contributors if and only if the root text does not run into the caller's; always when it closes its quotes and parentheses |
| StyleMerge.OpenRootExample | style_merge.go:81-156 | an open root for which the caller's declaration is swallowed |
| AttrNames.SameName | internal/htmlattr/name.go:55-65 | two names are the same attribute exactly when their folded spellings are equal |
| AttrNames.ValidByFold | internal/htmlattr/name.go:18-46 | either every spelling of an attribute may be written, or none |
| AttrNames.ValidIsStandard | internal/htmlattr/name.go:5-46 | the names that may be written are exactly those that section 13.1.2.3 of the HTML Standard allows, without the four characters kept for tags and literals |
| AttrNames.NameIsReadBack | internal/htmlattr/name.go:16-30 | the tokenizer of the HTML Standard reads a valid name back whole and in lower case, and ends it where it was ended |
| Attrs.AggregateOf | attrs.go:102-115 | class and style join the values of all their pairs, in any spelling, class values trimmed and style values filtered |
| Attrs.Has | attrs.go:159-166 | a key is present exactly when some pair names its attribute |
| Attrs.Get | attrs.go:130-149 | class and style answer the value of all their pairs, any other attribute that of its last pair |
| Attrs.GetShowsLeaf | attrs.go:117-149 | what Get answers is what the leaf shows, unless the last pair is a Toggle |
| Attrs.StylePutBack | attrs.go:117-149 | a style taken out of a bag and put into another renders as it did, without being filtered twice |
| Attrs.StyleIsFiltered | rawcss.go:10-19 | whatever the filter promises of its results holds of a whole style, if it holds of the RawCSS values in it and joining keeps it |
| AttrMerge.JoinAllConcat | attrs.go:645-656 | joining is a monoid: joining two lists of pieces and then the results is joining the whole list |
| AttrMerge.FieldsJoinAll | attrs.go:645-656 | the tokens of joined class values are the tokens of the values, in order |
| AttrMerge.FieldsTrim | attrs.go:102-115 | trimming a class value changes none of its tokens |
| AttrMerge.RemoveNamed | attrs.go:603-612 | compacting a slice into its own array keeps exactly the pairs that are not dropped, in order |
| AttrMerge.MergeScalar | attrs.go:554-567 | the new pair takes the place of the last pair of its attribute, the earlier ones go, and it is appended when there is none |
| AttrMerge.MergeAggregate | attrs.go:574-599 | the first pair of a class or style takes the incoming spelling and the join of all values, and the later pairs go |
| AttrMerge.Merge | attrs.go:334-348 | the merged bag lies in an array of its own and neither bag is modified, although the compaction is in place |
| AttrMerge.ConcatAttrs | attrs.go:362-375 | the bags in order, every pair kept |
| AttrMerge.MergedNamed | attrs.go:318-348 | the pairs of each attribute in the merged bag depend on its pairs in the two bags alone, and are at most one as soon as the incoming bag names it |
| AttrMerge.MergeKeepsOthers | attrs.go:318-348 | every pair that the incoming bag does not name stays, in its order |
| AttrMerge.LeafAgrees | attrs.go:318-375 | for one attribute, the merged pairs show what all pairs show, exactly unless a Toggle of a class or style was swallowed |
| AttrMerge.PairResolves | attrs.go:318-348 | merging one bag into another and concatenating them resolve at the leaf to the same attributes, spellings and values (class values by tokens), for any excluded names, if and only if no Toggle of a class or style is swallowed |
| AttrChains.MergeResolvesAsConcat | attrs.go:318-375 | the same of a whole chain of merges and the concatenation of all its bags |
| AttrChains.ClassTextAgrees | attrs.go:574-599 | the merged class keeps its text if and only if the incoming bags name no class or there is no loose white space between the values |
| AttrChains.MergeRendersAsConcat | attrs.go:351-361 | a chain of merges and the concatenation write the same attributes, spellings and values to the character if and only if no Toggle is swallowed and the text of the class is kept |
| AttrChains.ClassTextMayDiffer | attrs.go:351-361 | two class values whose merged and concatenated texts differ in white space |
| AttrMerge.SwallowedToggle | attrs.go:351-361 | a Toggle that decides on presence in the concatenated bag and becomes a token in the merged one |
| AttrSpread.LastValidAttrIndexes | attrs.go:616-624 | the table maps exactly the valid names of the bag, folded, each to its last pair |
| AttrSpread.Select | attrs.go:436-467 | the walk writes a leaf for exactly the last pairs of the valid attributes that are not excluded, in the order of the bag |
| AttrSpread.SelectionIsLeaves | attrs.go:436-467 | no attribute is written twice, dropped, or under an earlier spelling |
| ImageUrls.AcceptedExactly | escape.go:136-157 | a URL is accepted as it is if and only if it is a relative reference, or has the scheme http, https, mailto or tel in any case, or is an image data URL; schemes as in section 3.1 of RFC 3986 |
| Srcset.FirstSplits | escape.go:175-204 | what the scan takes for separators, URL and descriptor are parts of the text with the shapes of the grammar |
| Srcset.SplitsFirst | escape.go:175-204 | there is only one such reading: any text put together from such parts is scanned into them |
| Srcset.SrcsetSanitize | escape.go:175-214 | the cursor loops terminate and write each candidate with its URL and descriptor, or the replacement exactly if the URL is not a permitted one |
| Srcset.UnchangedWhenAccepted | escape.go:175-214 | a value without a blocked URL is returned as it is |
| Srcset.OutputIsSafe | escape.go:140-214 | scanning the output again finds only permitted URLs, in the terms of RFC 3986, and such that begin with the replacement |
| Srcset.CandidatesKept | escape.go:175-214 | the second scan finds the same candidates, the blocked ones replaced, if and only if no replacement runs into the URL after it |
| Srcset.RunsTogether | escape.go:196-210 | a value whose blocked candidate and the URL after it are read as one URL in the output |
| SrcsetStandard.GrammarsAgree | escape.go:163-174 | the scan and the one of section 4.8.4 of the HTML Standard find the same URLs in a text if and only if no candidate follows a descriptor that leaves a parenthesis open |
| SrcsetStandard.BrowserAgrees | escape.go:163-214 | they find the same URLs in the output if and only if, in the value, no candidate follows an accepted one whose descriptor leaves a parenthesis open |
| SrcsetStandard.StandardFindsSafe | escape.go:163-214 | then the Standard's scan too finds only permitted URLs and replacements in the output |
| SrcsetStandard.ParenthesesDisagree | escape.go:163-214 | a value with a parenthesis that passes unchanged and in which that scan finds a URL of a foreign scheme |
| Utf8.DecodeEncoded | escape.go:337-369 | the encoding of section 3 of RFC 3629 is undone by decoding, whatever follows |
| Css.HexDecode | escape.go:375-391 | up to six digits are read as a number that fits Go's rune |
| Bytes.HexDigitsAre | escape.go:371-391 | the hexadecimal digits are the ten digits and the first six letters in either case, and stand for their places |
| Css.EscapeShrinks | escape.go:353-362 | an escape stands for at least one byte and for fewer bytes than it takes, also when its last digit is given back |
| Css.DecodeCSS | escape.go:337-369 | the buffer reserved for the input suffices for every write, and the result is the decoded text, no longer than the input |
| Css.DecodedIsShorter | escape.go:337-369 | decoding shortens a text with an escape and leaves any other as it is |
| CssEscapes.HexEscapeDecodes | escape.go:352-360 | an escape of one to six hexadecimal digits with one white space after it stands for the code point of that number |
| CssEscapes.LargeEscapeDecodes | escape.go:357-360 | of six digits that are no code point the first five are decoded and the last one is left in the text |
| CssEscapes.OtherEscapeDecodes | escape.go:363-366 | a backslash before any other character stands for that character |
| CssEscapes.EscapedDecodes | escape.go:337-369 | a text whose every code point is written as an escape decodes to the text |
| Css.CssValueFilter | escape.go:302-323 | the result is the decoded value if that is safe, and the placeholder otherwise |
| Css.FilteredIsSafe | escape.go:302-323 | every result is free of the forbidden bytes, of escapes, of double hyphens and of the two identifiers |
| Css.FilterIsIdempotent | escape.go:302-323 | filtering a filtered value changes nothing |
| Css.FilterKeeps | escape.go:302-323 | a value passes unchanged exactly when it is safe and has no escape |
| CssEscapes.SafeExactly | escape.go:302-335 | the values that pass are exactly those without any of sixteen bytes, without two hyphens in a row, and in which the letters, digits and underscores nowhere spell expression or mozbinding, in any case and whatever stands between them |
| CssEscapes.FilteredIsPlain | escape.go:302-323 | nothing in a filtered value starts a string, a block, a comment, an at-keyword, an escape or an end tag, or ends the declaration |
| CssEscapes.FilteredStaysInside | escape.go:302-323 | a filtered value put after any text neither splits the declaration it is in nor leaves a quote or parenthesis open |
| Js.Replace | js.go:249-280 | copying chunks between replacements gives, for every table, what replacing rune by rune gives |
| Js.KeptDecodes | js.go:249-280 | a rune that is not replaced is read again from the output, although what follows has changed, malformed text included |
| Js.RunesOfOutput | js.go:249-280 | the runes of the output are the runes of the input, each replaced on its own |
| JsLiterals.JsStrRoundTrip | js.go:60-62 | a text escaped for a string literal is read back, by section 12.9.4 of ECMA-262, as the same runes |
| JsLiterals.JsTmplRoundTrip | js.go:83-85 | a text escaped for a template literal is read back, by section 12.9.6 of ECMA-262, as the same runes |
| JsLiterals.OutputIsHarmless | js.go:282-340 | neither output contains a quote, backtick, angle bracket, ampersand, plus sign, control character or line break, every slash in it follows a backslash, and that for templates has no dollar sign or brace |
| JsLiterals.EscapeBoth | js.go:60-85 | both escapers satisfy the two properties on every text |
| StatusSender.StepKeepsInv | gen/statussender.go:71-154 | every step of a depositor, the sender or the cancellation keeps the invariant |
| StatusSender.IdleMeansSettled | gen/statussender.go:71-154 | whenever the sender is idle, no depositor is mid-step and nothing was cancelled, the newest deposit was delivered, dropped by its gate or URL, or failed ten attempts of its own |
| StatusSender.NoLostWakeup | gen/statussender.go:71-99 | a waiting sender with a post in the mailbox has a token, or a depositor is about to offer one |
| StatusSender.DeliveriesInOrder | gen/statussender.go:111-154 | over a whole run attempts never go back to an older deposit and deliveries strictly advance |
| StatusSender.PostsKeepTargets | gen/statussender.go:71-77 | in every state of a run, the post with number n, in the mailbox or in the hands of the sender, has the URL of the n-th accepted deposit |
| StatusSender.AcceptsAbsolute | gen/statussender.go:68-74 | at any time exactly the deposits of absolute URLs are accepted: not empty ones, and not paths |
| StatusSender.EventsHaveReasons | gen/statussender.go:71-154 | every attempt and delivery goes to the URL of its own deposit, and a post is dropped, given up, overwritten or superseded only for the reason that the source names |
| StatusSender.EachDepositOnce | gen/statussender.go:71-154 | every deposit is in exactly one place, ends at most once, has at most ten attempts, and only an older one is overwritten or superseded |
| StatusSender.StoppedIsFinal | gen/statussender.go:59-66 | once the sender has stopped it posts nothing |
| StatusSender.SenderRests | gen/statussender.go:84-154 | over any stretch of a run the sender takes at most 42 steps for each deposit in it, and what it had to do before; a whole run has at most one step more |
| StatusSender.StuckMeansWaiting | gen/statussender.go:84-154 | a sender that cannot take a step has stopped, or waits without a token and was not told to stop |
| StatusSender.Mailbox.Put | gen/statussender.go:71-77 | the section under the lock overwrites the mailbox; a disabled or same-origin target changes nothing |
| StatusSender.Mailbox.Signal | gen/statussender.go:78-81 | a token is offered, and one that is already there is enough |
| StatusSender.Mailbox.TryOnce | gen/statussender.go:126-137 | the budget, the gate and the request are examined in this order before an attempt |
| StatusSender.Mailbox.Answer | gen/statussender.go:138-143 | an answer delivers the post, a failure counts one attempt |
| StatusSender.Mailbox.EndSleep | gen/statussender.go:144-152 | after a sleep a newer post takes over with a budget of its own, unless the sender stops |
| FrontDoor.StepKeepsInv | gen/frontdoor.go:97-255 | every step of start, run, giveUp, shutdown and of a child keeps the invariant |
| FrontDoor.AtMostOneChild | gen/frontdoor.go:135-206 | at most one child is alive, and run returns only when every child has exited |
| FrontDoor.GateIsVetted | gen/frontdoor.go:95-206 | before done is set the gate is open if and only if run awaits the published instance and that is the first one or was verified after its spawn; an open gate never belongs to another one |
| FrontDoor.VerifiedWasAsked | gen/frontdoor.go:185-194 | an instance counts as verified exactly when the verification of that instance said yes earlier in the run |
| FrontDoor.RestartsAreInstances | gen/frontdoor.go:184-190 | the number of restarts that is reported is the number of the published instance |
| FrontDoor.DoneMeansClosed | gen/frontdoor.go:97-133 | once done is set the gate is closed, exactly unless the shutdown came before start had published its child |
| FrontDoor.RacedShutdownLeavesGateOpen | gen/frontdoor.go:97-133 | three steps after which the gate is open although done is set |
| FrontDoor.DoneIsPermanent | gen/frontdoor.go:119-235 | done, a shutdown that took effect and the return of run are never undone |
| FrontDoor.NoGivenUpWithShutdown | gen/frontdoor.go:220-235 | giving up is reported at most once, as the last report, and never together with a shutdown that took effect |
| FrontDoor.AfterShutdown | gen/frontdoor.go:117-133 | after shutdown has returned, only a child that run spawned meanwhile can be alive, and run is about to kill it |
| FrontDoor.DoneMeansReturning | gen/frontdoor.go:140-206 | over any run, once done is set, start and run take at most seven more steps of their own, and run has then returned |
| FrontDoor.RunIsNotStuck | gen/frontdoor.go:140-206 | run can always take a step once the child it waits for has exited |
| FrontDoor.CounterIsStreak | gen/frontdoor.go:152-156 | the counter is the number of rapid exits in a row, plus one as soon as any instance has lived long |
| FrontDoor.GivesUpAtFour | gen/frontdoor.go:41-55 | the loop gives up exactly at a count of four; that is the fourth consecutive rapid exit if and only if this is not the third one after a long life |
| FrontDoor.LongLifeCountsAsOne | gen/frontdoor.go:152-156 | a run that gives up after three rapid exits in a row, since its first instance had lived long |
| FrontDoor.Supervisor.CountExit | gen/frontdoor.go:143-156 | after an exit run returns if done is set; otherwise it closes the gate and counts |
| FrontDoor.Supervisor.ApplyPolicy | gen/frontdoor.go:157-163 | the delays are half a second, two and five seconds, and then the loop gives up |
| FrontDoor.Supervisor.PublishNext | gen/frontdoor.go:176-184 | a child spawned after a shutdown is killed, any other is published before it is verified |
| FrontDoor.Supervisor.BeginShutdown | gen/frontdoor.go:119-129 | a shutdown takes effect once, closes the gate, and learns which child to kill |
| WatchDirty.AppendSet | gen/watch_dirty.go:194-208 | the union of two sets of paths, sorted and without repetition |
| WatchDirty.PublishableStartupResults | gen/watch_dirty.go:230-244 | a complete startup is published as it is, a failed one without effects and without the rows that say nothing else |
| WatchDirty.ReportsHideEffects | gen/watch_dirty.go:230-244 | a failed startup publishes no effect of any directory |
| WatchDirty.ReportsAreComplete | gen/watch_dirty.go:230-244 | a failed startup publishes every row with an error, a diagnostic or a failure |
| WatchDirty.DirtySet.RetainEffects | gen/watch_dirty.go:151-166 | the entry of a directory, shared with no other, gains the paths of the result; the retained effects stay those of all attempts since the last commit |
| WatchDirty.DirtySet.RetainOperational | gen/watch_dirty.go:103-127 | after a failure all effects are retained, the dirty inputs do not shrink, and every failed directory is tried again |
| WatchDirty.DirtySet.AbsorbWarmup | gen/watch_dirty.go:137-149 | the warm-up's effects are retained, its written and failed directories become dirty, and a cycle is asked for exactly when something was written or removed |
| WatchDirty.DirtySet.CommitEffects | gen/watch_dirty.go:168-192 | each directory gets its retained effects on its own row, or on one new plain row; nothing else in the rows changes, and the set forgets them |
| WatchDirty.DirtySet.Regenerate | gen/watch_dirty.go:67-95 | a failed attempt publishes nothing and loses nothing; a complete one publishes per directory exactly the effects of every attempt since the last commit and clears the set; a rebuild is asked for exactly when a dependency or Go source was dirty |
| WatchDirty.DirtySet.Startup | gen/watch.go:149-150 | each effect of the startup is published or retained, never both |
| WatchDirty.DirtySet.ClassifyDirtyFile | gen/watch.go:448-468 | an edit adds its directory to one lane and takes nothing out |
| WatchDirty.UntilCommitted | gen/watch_dirty.go:67-127 | over any run of attempts with edits in between, inputs never shrink, the rebuild flag stays once it is true, and the commit publishes exactly what all attempts did |
| CacheStore.ValidNameIsLocal | gen/cachestore.go:176-178 | the accepted file names are exactly those that end in .x.go and have neither a slash nor a zero byte, so none can leave its directory |
| CacheStore.TakeChunk | gen/cachestore.go:165-190 | a length is compared with what is left before it is converted and used to slice |
| CacheStore.DecodeEntry | gen/cachestore.go:147-208 | decoding is total: on any bytes it gives the entry, or refuses, without an index out of range or an overflow |
| CacheStore.EncodeEntry | gen/cachestore.go:118-145 | an entry is written with its files sorted by name, each with its lengths, and its warnings last |
| CacheStore.LayoutDecodes | gen/cachestore.go:147-208 | files with valid names written in any order are read back, and refused only when the warnings are |
| CacheStore.AcceptsExactlyLayouts | gen/cachestore.go:147-208 | an input is accepted as an entry if and only if it is a layout of that entry with valid names: nothing missing, nothing left over |
| CacheStore.DecodeOfEncode | gen/cachestore.go:118-208 | an encoded entry decodes to itself exactly when it has no warnings, or they may be stored and their JSON form is read back as what it was |
| CacheStore.EncodeOfDecode | gen/cachestore.go:118-208 | encoding what an input was accepted as gives the input back if and only if it lists its names in order and its warnings as the codec writes them |
| WarningPaths.CleanIffFixed | gen/cache.go:215-255 | cleaning changes exactly the paths that are not clean |
| WarningPaths.CleanRules | gen/cache.go:215-255 | cleaning takes out empty and dot parts, a plain part together with the two dots after it, and two dots at the root |
| WarningPaths.LocalIffBelow | gen/cache.go:216-225 | a relative path is local exactly when its target is the base or below it |
| WarningPaths.RelWarningsAccepts | gen/cache.go:211-236 | the warnings of a directory are refused exactly when a file name lies outside the module root |
| WarningPaths.WarningsRoundTrip | gen/cache.go:211-255 | reading stored warnings back gives the original ones if and only if every file name was clean |
| WarningPaths.DotPartIsLost | gen/cache.go:211-255 | a file name with a dot part comes back without it |
| WarningPaths.Relocatable | gen/cachestore.go:18-26 | stored warnings can be read below any root and stored from there again |
| CachePipeline.ClassifyCache | gen/cache_pipeline.go:299-361 | every directory is a hit, a miss or uncacheable, the hits carry what their entries decode to, and misses and uncacheable directories are listed in order |
| CachePipeline.Restore | gen/cache.go:162-184 | the outputs of a directory are on disk unless one of them cannot be written, exactly those that were not current are written, and nothing else changes |
| CachePipeline.WriteDirOutcome | gen/cache.go:279-304 | a directory's output, or poison for its errors, is on disk; only an error-free output is handed on for storing |
| CachePipeline.RestoreCacheHits | gen/cache_pipeline.go:434-448 | all hits are on disk with their warnings, in any order of directories |
| CachePipeline.WriteGeneratedOutputs | gen/cache_pipeline.go:453-480 | the generated directories join the restored ones; the candidates are exactly the error-free cacheable misses whose outputs are on disk and whose warnings can be stored, each under the key of its directory |
| CachePipeline.PutKeepsOk | gen/cache_pipeline.go:482-492 | whatever is written under a key decodes to the error-free generation of that key, or not at all |
| CachePipeline.StoreGeneratedOutputs | gen/cache_pipeline.go:482-492 | under each key of a candidate that can be written the store holds an encoding of the last such candidate, every other key is as it was, and the store stays sound |
| CachePipeline.HitsAreGenerated | gen/cache_pipeline.go:299-408 | a hit of a sound store has the files and the diagnostics that generation would give, none of them an error |
| CachePipeline.CommitCache | gen/cache_pipeline.go:371-408 | restoring hits and generating the rest together account for every directory exactly once |
| CachePipeline.GenerateModule | gen/cache.go:102-143 | from any sound store, a run leaves the files and reports the diagnostics that depend on its sources alone, the store stays sound, and after a run without failures every cacheable directory can be found in it |
| CachePipeline.SameOutcome | gen/cache.go:102-143 | a run with the cache and one without leave the same files, the same multiset of diagnostics and the same written paths |
| CachePipeline.SecondRunHits | gen/cache_pipeline.go:299-492 | after a run without failures a second one on the same sources classifies every cacheable directory as a hit, with the entry that was generated |
| CachePipeline.History | gen/cache_pipeline.go:299-492 | over any history of runs, edits of outputs, lost and corrupted entries, files and reports are those of a world without a cache |
| LspModules.ModuleSet.DetachOverride | gen/lsp.go:136-152 | the record of a buffer is gone while its module still holds the bytes |
| LspModules.ModuleSet.SetOverride | gen/lsp.go:81-103 | the record names the new module and no other holds bytes of the path; the module holds the new bytes if it owns the path, and what it held before otherwise |
| LspModules.ModuleSet.ClearOverride | gen/lsp.go:128-134 | nobody holds the bytes of a closed buffer, also when its saved state is unreadable |
| LspModules.ModuleSet.EvictRoots | gen/lsp.go:118-126 | forgetting modules, with their directives and configurations, leaves every buffer with its holder |
| LspModules.ModuleSet.MoveBuffers | gen/lsp.go:192-220 | exactly the buffers of a root go over to its new module, with their recorded bytes where it owns their paths and with nothing elsewhere |
| LspModules.ModuleSet.ModuleFor | gen/lsp.go:174-225 | a module that fits is reused and nothing moves; otherwise one is opened, the root has it, and exactly the buffers of the root follow; a buffer in transition stays where it is |
| LspModules.ModuleSet.BufferChanged | gen/lsp.go:368-411 | a changed buffer is recorded with the module of its root and held by no other; the held bytes are the recorded ones if and only if the module owns the path just then or had the same bytes before; if root or module cannot be had, nobody holds it; what is held of every other buffer is stated exactly; an error is reported if and only if that fails, or bytes are given up whose saved state is unreadable |
| LspModules.UnownedIsNotHeld | gen/lsp.go:368-411 | a buffer that its module does not own is recorded and held by nobody |
| LspModules.OldBytesStay | gen/lsp.go:368-411 | a buffer that its module no longer owns is recorded with the new bytes and held with the old |
| LspModules.ModuleSet.Rebind | gen/lsp.go:516-537 | replaying buffers after an eviction records each with its bytes at the module that its root has in the end, and keeps the held bytes where the paths are owned; a buffer is lost exactly when its own transition fails, and then nobody holds it; one that is not replayed keeps its record but for its holder |
| Clone.CloneItems | ast/clone.go:33-71 | a slice is copied into a new backing array of the same worth, and a nil slice stays nil |
| Clone.CloneFields | ast/clone.go:73-142 | copying a node and cloning each of its slice and pointer fields gives a tree of the same worth over new nodes and arrays; a field left out does not verify |
| Clone.CloneMarkup | ast/clone.go:73-142 | every markup node type has its case, so the panic is unreachable, and is copied deeply |
| Clone.FamiliesCoverKinds | ast/clone.go:73-235 | every node type below a file has a place: it is of some interface or struct field |
| Clone.CloneAttr | ast/clone.go:183-235 | every attribute node type has its case and is copied deeply |
| Clone.CloneComposedPart | ast/clone.go:275-285 | a part of a composed attribute is copied with its stages, overlays, segments and control flow |
| Clone.CloneValueIf | ast/clone.go:298-311 | a value-form if is copied with its arms and its chain of else-ifs |
| Clone.CloneValueSwitch | ast/clone.go:313-328 | a value-form switch is copied with its cases |
| Clone.CloneFile | ast/clone.go:24-31 | the clone of a file is worth the same, and each of its nodes and backing arrays is newly allocated |
| Clone.MutateClone | ast/clone.go:5-16 | whatever is written to the clone, the original keeps its worth |
| Clone.MutateOriginal | ast/clone.go:5-16 | whatever is written to the original, the clone keeps the worth it was given |

## Left out

- Unicode beyond the property: class and style text is a sequence of characters; letters are folded in ASCII, white space is Unicode's.
- ElementGrammar.HoleIsDelimited: which tokens a Go text has is the Go tokenizer's affair; the theorem is for holes whose tokens are the ones written.
- The textual form of diffs, which omits the marker for a missing final newline and cannot be inverted; hunks are values here.
- The writing half of Spread: sinks for URLs, event handlers, boolean names and HTML escaping.
- AttrChains.MergeResolvesAsConcat: the position of class and style, which the source says differs, is not compared.
- Which data: URLs are images (`isImageDataURL`) is a parameter of the srcset model.
- JsLiterals.JsStrRoundTrip: the reader refuses escapes that the tables never write (backslash x, braces, digits, line continuations).
- JSON values and regular expressions in js.go.
- HTTP, timers, signals and process groups: their outcomes are inputs of the state machines.
- CachePipeline.SameOutcome: runs with operational errors (unwritable files, a failing generator) are not compared, since a cached run may get further; soundness of the store is proved for them too.
- CachePipeline.History: one module root; that entries survive a move of the module is `WarningPaths.Relocatable`.
- The orphan sweep, cache keys, cache reports and the go list graph cache.
- LspModules.ModuleSet.BufferChanged: the sets of affected directories that the transitions return are not modelled.
- LspModules.ModuleSet.Rebind: which of the replayed buffers report an error although they are bound is not stated.
- Clone.CloneFile: strings, positions and flags of a node are one immutable value; nil interfaces inside slices, on which the Go code panics, do not occur.
- The template parser, code generator, printer, configuration and command line.
