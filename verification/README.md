# Verified models of Reader Core

Reader Core is a reading engine: Rust crates that fetch, clean and store book chapters, a Harmony
SDK that talks to the engine through one event queue, and Python tools that compare the output of
four platforms and decide whether a release is blocked. The Dafny modules here model its most
intricate parts and prove what they guarantee.

| part | modules |
|---|---|
| table-of-contents refresh and reading progress | `TocRefresh` |
| chapter bodies, documents, the document library | `Chapter`, `ChapterNormalForm`, `ChapterParagraphs`, `DuplicateTitle`, `Documents`, `DocumentTheorems`, `Library` |
| URL DSL and loose JSON | `LooseJson`, `LooseJsonTheorems`, `LooseArrays`, `UrlDsl`, `UrlDslTheorems` |
| Harmony event demultiplexer | `EventDemux`, `EventDemuxTheorems` |
| evidence chain: tree diff, blocker register, collector, packager | `TreeDiff`, `DiffResult`, `RenderedPaths`, `BlockerRegister`, `RegisterLaws`, `GateCount`, `Collector`, `CollectorLaws`, `Packager` |
| JSON Schema validator of the protocol linter | `SchemaLint`, `SchemaLintTheorems`, `SchemaRefs`, `SchemaKeywords`, `Rankings` |
| shared: strings, ordering, JSON values | `Text`, `Ordering`, `Json` |

Code that loops or updates state is modelled by methods and classes whose contracts equate the
result with a specification function; the lemmas are about those functions. Cursors in the Rust
code count bytes and here count characters, which changes no branch. Hash functions, the identity
normaliser of the table of contents, the JSON decoder, regular-expression search and sibling
schema files are parameters, so every result holds whatever they do.

## What the proofs show about the code

Where the code does not do what its comments or names suggest, the model follows the code, one
lemma gives an input, and another says exactly when it happens:

- `diff_toc` is documented not to collapse chapters, but its title fallback can send two old
  chapters to one new chapter, with a URL match involved (`TitleFallbackCanMerge`) or without
  (`TitleCountersCanMerge`). Over all tables of contents with positional indexes it happens exactly
  when the title key of a chapter not matched by URL leads to a chapter that another reaches by its
  URL or by its own title key (`MergesExactly`).
- Diffing a table of contents with itself can move the reader away from a chapter that has neither
  URL nor title (`SelfDiffCanMoveReader`; exactly when: `SelfDiffExactly`; never when every chapter
  has one: `NamedSelfDiff`).
- The brace scanner of `normalize_legado_json` ignores escapes, so an escaped quote before a brace
  makes it cut inside a text (`EscapedQuoteCutsShort`). Loose and strict objects with escaped quotes
  normalise to their strict print exactly when the cut falls at their end
  (`LooseToStrictExactlyCut`, `StrictIsFixedExactlyCut`).
- An unquoted value is documented to be put into quotes. It is not if it begins with a digit, a
  sign, `t`, `f` or `n`: `{k:test}` becomes `{"k":test}` (`BareWordStaysBare`, `TestIsSuchAWord`). A
  backslash in one is not doubled (`BackslashIsMisread`), and a semicolon after one does not separate
  (`SemicolonAfterUnquoted`). An object in any styles normalises to its strict print exactly when it
  has none of these three (`UnderstoodExactly`).
- `normalize_legado_json` takes what follows a comma in an array for a key, so in `[true,false]` the
  second word becomes a text (`SecondWordBecomesText`). A strict object with an array of texts, words
  and plain numbers keeps its text exactly when no word stands after the first element
  (`StrictArrayFixedExactly`).
- A URL without options that is followed by a JS tail keeps the blanks before the tail
  (`PlainUrl`); with options they are dropped (`DslRoundTrip`).
- `normalize_chapter_content` is idempotent exactly when the first non-blank line of its input does
  not start with a byte order mark once the leading marks are gone (`IdempotentExactly`,
  `BomBehindBlankLine`).
- A chapter title that starts with a separator is never recognised as repeated
  (`SeparatorTitleNeverCut`), nor is one that starts with a blank-free book title
  (`BookTitleInTitleNeverCut`), because both are skipped over first; `CutExactly` says what is cut.
- The cache key joins the ids with `:` and does not escape it, so two books of two sources can share
  keys (`CacheKeysCollide`; exactly when: `CacheKeysEqualExactly`; never when no book id holds a
  colon: `CacheKeysTellIds`).
- A document whose ids carry white space at the ends is valid (`UntrimmedIsAccepted`) and stored by
  `upsert_document`, but can be neither found nor removed (`GetAfterUpsertExactly`,
  `UntrimmedIsUnreachable`).
- A waiter without a handler puts its `host.request` back at the tail of the side buffer, which can
  reorder its own request's events (`RequeueCanReorder`). A request's order holds throughout a run
  exactly when each such step finds no different event of that request in the buffer
  (`OrderHoldsExactly`); other requests do not matter.
- `collect_differences` uses Python's `==`, under which `True` equals `1` (`BlindToBooleans`). It is
  silent about trees that differ as JSON exactly when Python finds them equal and somewhere a
  boolean meets the number it equals (`SilentWronglyExactly`), and so is the release gate
  (`GateMistakesExactly`). Below,
  "equal" for trees means Python's equality unless JSON equality is named.
- Paths are rendered without escaping keys and serve as the register's keys, so a reported
  divergence can go unregistered (`PathStringsCollide`, `CollidingPathsLoseBlockers`). The gate counts
  every divergence exactly when no candidate has two with one path text (`OpenCountExactly`), which
  holds whenever no key is empty or contains `.` or `[` (`PlainTreesAreCounted`).
- The packager recomputes a manifest's figures from the register file that the manifest names. Over
  all manifests its two checks can be passed exactly when all trees equal the canonical one, the
  three hosts are present and some packaged file shaped like a register has no open blocker of the
  run (`PassableExactly`). That the fourth platform is present follows when the run's own register
  is the only such file (`PassableAfterRegistering`).
- `_const_eq` tells booleans from numbers at the top level but not inside arrays and objects
  (`NestedBooleanPassesAsNumber`; exactly when: `ConstIsStrictExactly`).

## Model

| member | source | states |
|---|---|---|
| TocRefresh.Matcher.TocIdentities | crates/reader-content/src/lib.rs:2767-2795 | Each chapter is identified by its normalised URL, else its normalised title, else its index, with the number of earlier chapters so identified; the two counter maps hold exactly these ranks. |
| TocRefresh.Matcher.TitleOccurrenceFor | crates/reader-content/src/lib.rs:2803-2816 | The title key of the first entry with an index, counted over all titled chapters, also those with a URL. |
| TocRefresh.Matcher.BuildTables | crates/reader-content/src/lib.rs:2323-2351 | The two lookup tables after the loop over the new chapters, with both title counters writing the same table in program order. |
| TocRefresh.Matcher.MapOldChapters | crates/reader-content/src/lib.rs:2352-2382 | Each old chapter gets the URL match, else the title match; the taken indexes and the removed chapters are collected alongside. |
| TocRefresh.Matcher.DiffToc | crates/reader-content/src/lib.rs:2323-2396 | The whole diff equals the specification `Diff` that the theorems below are about. |
| TocRefresh.Matcher.DiffIsComplete | crates/reader-content/src/lib.rs:2349-2396 | For all tables of contents: one mapping for each old chapter, in order; the removed chapters are exactly the old ones whose mapping leads nowhere and the inserted ones exactly the new ones that no mapping leads to, each in order and once. |
| TocRefresh.Matcher.MappingLabel | crates/reader-content/src/lib.rs:2767-2795 | A mapping is labelled with the normalised URL if there is one, else the normalised title, else the index in decimal. |
| TocRefresh.NormalizationLaws | crates/reader-content/src/lib.rs:2818-2828 | White space around a locator, its letter case and what follows its first `#` do not matter; a locator with nothing else is none. |
| TocRefresh.LowerLaws | crates/reader-content/src/lib.rs:2827 | Character by character, ASCII capitals become small and nothing else changes. |
| TocRefresh.Matcher.UrlTableHit | crates/reader-content/src/lib.rs:2323-2351 | The URL table sends (u, k) to the k-th new chapter with URL u. |
| TocRefresh.Matcher.TitleTableHit | crates/reader-content/src/lib.rs:2323-2351 | The title table holds, for (t, k), the last of the at most two chapters that write it under the URL-less count and under the count of all chapters. |
| TocRefresh.Matcher.OwnTitleKey | crates/reader-content/src/lib.rs:2797-2816 | With positional indexes the title key of a chapter is its own title with its own rank. |
| TocRefresh.Matcher.UrlOccurrenceMatching | crates/reader-content/src/lib.rs:2323-2381 | The k-th old chapter with URL u maps to the k-th new one, and is matched by URL exactly when there is one. |
| TocRefresh.Matcher.UrlMatchCount | crates/reader-content/src/lib.rs:2323-2381 | For each URL exactly min(old count, new count) chapters match by URL. |
| TocRefresh.Matcher.UrlMatchesNeitherMergeNorCross | crates/reader-content/src/lib.rs:2323-2381 | URL matches never share a target, and chapters with one URL keep their order. |
| TocRefresh.Matcher.InsertionKeepsChapter | crates/reader-content/src/lib.rs:2323-2381 | When chapters with fresh identities are inserted anywhere, an old chapter maps to its shifted position. |
| TocRefresh.Matcher.InsertionStability | crates/reader-content/src/lib.rs:2318-2396 | Insertion: every mapping is the shifted position, nothing is removed, and the inserted list is exactly the added chapters in order. |
| TocRefresh.Matcher.InsertionKeepsReader | crates/reader-content/src/lib.rs:2399-2444 | After an insertion the reader stays in the same chapter at the same offset. |
| TocRefresh.Matcher.SelfDiffExactly | crates/reader-content/src/lib.rs:2323-2381 | A self-diff keeps a chapter exactly when it has a URL or no later chapter takes its title key. |
| TocRefresh.Matcher.TitleFallback | crates/reader-content/src/lib.rs:2352-2382 | A chapter not matched by URL, with or without one of its own, goes exactly where the last writer of its title key is, if there is one. |
| TocRefresh.Matcher.MergesExactly | crates/reader-content/src/lib.rs:2318-2381 | Over all positional tables of contents, two old chapters collapse into one exactly when the title key of an unmatched one leads to a chapter that another reaches by URL or by its own title key. |
| TocRefresh.Matcher.NamedSelfDiff | crates/reader-content/src/lib.rs:2323-2381 | When every chapter has a URL or a title, a self-diff sends each to itself. |
| TocRefresh.NextSurvivingIsNearest | crates/reader-content/src/lib.rs:2830-2838 | The forward fallback is the image of the nearest later chapter that survives, and fails only if none does. |
| TocRefresh.PreviousSurvivingIsNearest | crates/reader-content/src/lib.rs:2839-2846 | The backward fallback is the image of the nearest earlier chapter that survives. |
| TocRefresh.ProgressStaysValid | crates/reader-content/src/lib.rs:2399-2444 | Against a non-empty table of contents the remapped index is in range: the own chapter with the same offset, or the nearest survivor with the offset reset. |
| TocRefresh.EmptyTocResets | crates/reader-content/src/lib.rs:2399-2413 | Against an empty table of contents the reader goes to the start of chapter zero. |
| TocRefresh.TitleFallbackCanMerge | crates/reader-content/src/lib.rs:2318-2322 | An input on which a title match joins a URL match. |
| TocRefresh.TitleCountersCanMerge | crates/reader-content/src/lib.rs:2352-2382 | An input on which two title matches meet, because one new chapter writes the keys of both counters. |
| TocRefresh.SelfDiffCanMoveReader | crates/reader-content/src/lib.rs:2777-2783 | An input whose self-diff moves a chapter. |
| Chapter.NormalizeChapterContent | crates/reader-content/src/lib.rs:2596-2622 | The loop with its blank-run counter and the two stripping loops compute the text `Normalized` that the theorems below are about. |
| ChapterNormalForm.NormalizedIsGroups | crates/reader-content/src/lib.rs:2596-2622 | The result is the maximal groups of non-blank lines, trimmed at their ends, in order, with one blank line between neighbours. |
| ChapterNormalForm.NormalizedIsNormal | crates/reader-content/src/lib.rs:2596-2622 | No carriage return, no white space at a line's end, no two adjacent blank lines, first and last lines not blank. |
| ChapterNormalForm.NormalIsFixed | crates/reader-content/src/lib.rs:2596-2622 | A text in normal form that does not start with a byte order mark is left unchanged. |
| ChapterNormalForm.IdempotentExactly | crates/reader-content/src/lib.rs:2596-2622 | Normalising twice is normalising once exactly when the first non-blank line, after the leading marks, does not start with a byte order mark. |
| ChapterNormalForm.BomBehindBlankLine | crates/reader-content/src/lib.rs:2597-2600 | An input on which the second pass changes the text. |
| ChapterNormalForm.LeadingMarksIgnored | crates/reader-content/src/lib.rs:2597-2600 | Any number of byte order marks at the very start makes no difference. |
| ChapterParagraphs.NonBlankLinesKept | crates/reader-content/src/lib.rs:2603-2614 | All non-blank lines survive, in order, apart from white space at their ends. |
| ChapterParagraphs.ParagraphsAreGroups | crates/reader-content/src/lib.rs:2741-2748 | The paragraphs of a normalised body are its groups of lines, each trimmed; none is dropped. |
| ChapterParagraphs.JoinBackExactly | crates/reader-content/src/lib.rs:2741-2748 | Joining the paragraphs with blank lines gives the body back exactly when no paragraph starts with white space. |
| DuplicateTitle.SkipPrefixTokens | crates/reader-content/src/lib.rs:2672-2688 | One round of the skip loop: all separators, then the book title if it stands there. |
| DuplicateTitle.MatchFlexibleTitleAt | crates/reader-content/src/lib.rs:2690-2710 | The cursor loop computes the greedy match. |
| DuplicateTitle.LeadingDuplicateChapterTitleEnd | crates/reader-content/src/lib.rs:2636-2670 | The skip loop ends because the cursor strictly grows within the text; the result is the specified cut. |
| DuplicateTitle.GreedyFindsAll | crates/reader-content/src/lib.rs:2690-2710 | For a title that ends in a non-blank character the greedy match agrees with the declarative one, in which each white-space character stands for any run. |
| DuplicateTitle.SkippedAreTokens | crates/reader-content/src/lib.rs:2650-2657 | What is skipped is separators and book titles in any order, and neither comes next. |
| DuplicateTitle.CutExactly | crates/reader-content/src/lib.rs:2636-2670 | On all inputs a prefix is cut at k exactly when it is separators and usable book titles as far as they go, then the title, then white space or the end, with k after that white space. |
| DuplicateTitle.SeparatorsAre | crates/reader-content/src/lib.rs:2712-2739 | The separators are white space, every visible ASCII character but letters and digits, and the listed marks. |
| DuplicateTitle.CutWhenInSight | crates/reader-content/src/lib.rs:2636-2670 | Any prefix of separators and book titles followed by the title is cut, unless the title starts with a separator or the book title stands in its place. |
| DuplicateTitle.SeparatorTitleNeverCut | crates/reader-content/src/lib.rs:2650-2659 | A title that starts with a separator is never found. |
| DuplicateTitle.BookTitleInTitleNeverCut | crates/reader-content/src/lib.rs:2650-2659 | A title that starts with a blank-free book title is never found. |
| DuplicateTitle.RemoveLeadingDuplicateChapterTitle | crates/reader-content/src/lib.rs:2624-2634 | The body is unchanged if nothing is cut, else the normalised rest. |
| DuplicateTitle.KeptTextIsSuffixExactly | crates/reader-content/src/lib.rs:2624-2634 | On a normalised body the kept text is the untouched suffix exactly when that does not start with a byte order mark. |
| Documents.NormalizeChapter | crates/reader-content/src/lib.rs:2283-2316 | The error for a blank source id, book id or body, in that order, else the chapter with its paragraphs, length, fingerprint and cache key. |
| Documents.ChapterLaws | crates/reader-content/src/lib.rs:2283-2316 | A chapter is accepted exactly when its ids are not blank and text remains; its content is then in normal form and its paragraphs join back to it unless one is indented. |
| Documents.RepeatedTitleIsGone | crates/reader-content/src/lib.rs:2283-2298 | For every raw text: with a repetition of the chapter title, the content is the normalised rest after it and its white space; without one it is the normalised text; nothing left, or a blank id, is the error named. |
| Documents.OneLeftOver | crates/reader-content/src/lib.rs:2624-2670 | There is always exactly one such rest. |
| Documents.HeadedChapter | crates/reader-content/src/lib.rs:2291-2298 | A text that normalises to book title, separators, chapter title, white space and a rest yields exactly the rest. |
| Documents.ValidateContentDocument | crates/reader-content/src/lib.rs:2464-2558 | The field reported is that of the first check that fails, entry by entry. |
| Documents.ValidExactly | crates/reader-content/src/lib.rs:2464-2558 | Validation passes exactly the documents whose table of contents, chapters, ids and fingerprints all agree. |
| DocumentTheorems.ErrorNamesFirstFault | crates/reader-content/src/lib.rs:2464-2558 | The error names the first thing that is wrong: blank ids, no chapters, lists of different length, then position by position and field by field, then the fingerprint. |
| Documents.NewContentDocument | crates/reader-content/src/lib.rs:521-540 | The document with the trimmed source id and the given parts is returned exactly when it is valid. |
| Documents.BuildThenValidate | crates/reader-content/src/lib.rs:521-540 | A document built from accepted chapters is accepted exactly when its table of contents is non-empty and positional and the source id is trimmed. |
| DocumentTheorems.CacheKeysEqualExactly | crates/reader-content/src/lib.rs:2299-2303 | With hexadecimal fingerprints two cache keys are equal exactly when index, fingerprint and `source:book` are. |
| DocumentTheorems.CacheKeysTellIds | crates/reader-content/src/lib.rs:2299-2303 | If no book id holds a colon, equal cache keys mean equal ids, index and fingerprint. |
| DocumentTheorems.CacheKeysCollide | crates/reader-content/src/lib.rs:2299-2303 | Otherwise two books of two sources can share all their keys. |
| DocumentTheorems.SameTextExactly | crates/reader-content/src/lib.rs:2582-2594 | Documents with a chapter for each entry hash the same text exactly when ids, titles, locators and chapter fingerprints agree, if none holds the separator U+001F. |
| Library.ValidateSnapshot | crates/reader-content/src/lib.rs:562-579 | The first problem of a snapshot: version, an invalid document, or a repeated key. |
| Library.SnapshotValidExactly | crates/reader-content/src/lib.rs:562-579 | It passes exactly the snapshots of the current version with valid documents under distinct keys. |
| Library.SnapshotErrorNamesFirstFault | crates/reader-content/src/lib.rs:562-579 | The error names the first thing that is wrong: the version, then document by document its own error or, if it is valid, that its key was there before. |
| Library.ContentDocumentLibrary.UpsertDocument | crates/reader-content/src/lib.rs:608-616 | A valid document is stored under its own key and nothing else changes; an invalid one changes nothing and its error is reported. |
| Library.ContentDocumentLibrary.GetDocument | crates/reader-content/src/lib.rs:618-625 | The document under the trimmed ids, or the blank id's error. |
| Library.ContentDocumentLibrary.GetChapter | crates/reader-content/src/lib.rs:633-647 | In a valid library the search by chapter index finds the chapter at that position, also when the 32-bit index wraps. |
| Library.ContentDocumentLibrary.RemoveDocument | crates/reader-content/src/lib.rs:649-656 | With ids that are not blank, the library without the key of the trimmed ids, and whether it was there; with a blank id its error and no change. |
| Library.RemovedIsGone | crates/reader-content/src/lib.rs:649-656 | After any run a removed document is not found, every other one is untouched, and its key is not there to be removed again. |
| Library.BlankRemovesNothing | crates/reader-content/src/lib.rs:2560-2570 | With a blank id nothing is removed or found. |
| Library.ContentDocumentLibrary.ListDocuments | crates/reader-content/src/lib.rs:627-631 | Exactly the stored documents, strictly ascending by source and book. |
| Library.ContentDocumentLibrary.ExportSnapshot | crates/reader-content/src/lib.rs:658-670 | Export never fails and lists exactly the stored documents in strict order. |
| Library.ContentDocumentLibrary.ReplaceWithSnapshot | crates/reader-content/src/lib.rs:672-683 | A valid snapshot becomes the whole contents; a rejected one leaves the library unchanged. |
| Library.RunKeepsStored | crates/reader-content/src/lib.rs:603-684 | On every run each document is valid and stored under its own key. |
| Library.AscendsOnlyOnce | crates/reader-content/src/lib.rs:2572-2580 | The sorted listing is unique, whatever order the hash map yields. |
| Library.ExportImportRestores | crates/reader-content/src/lib.rs:658-683 | Replacing the contents of any library with an exported snapshot restores the exporter's documents. |
| Library.GetAfterUpsertExactly | crates/reader-content/src/lib.rs:2560-2570 | After any run, a document just stored is found under its own ids exactly when these are trimmed. |
| Library.UntrimmedIsAccepted | crates/reader-content/src/lib.rs:2464-2471 | A valid document with an untrimmed book id. |
| Library.UntrimmedIsUnreachable | crates/reader-content/src/lib.rs:2560-2570 | A stored document with untrimmed ids cannot be found or removed under any ids. |
| Library.LatestIsFound | crates/reader-content/src/lib.rs:608-683 | A lookup returns the latest document stored under its key, whatever happens to other keys. |
| LooseJson.TruncateAtMatchingBrace | crates/reader-content/src/analyze_url.rs:571-612 | The input is cut where the quote and depth scan closes the first brace, or not at all. |
| LooseJson.NormalizeLegadoJson | crates/reader-content/src/analyze_url.rs:415-569 | The cursor loop with its quote state and key/value position computes the translation that the theorems are about. |
| LooseJsonTheorems.CutAfterObject | crates/reader-content/src/analyze_url.rs:571-612 | Whatever follows an object printed in any styles is cut off, and nothing else. |
| LooseJsonTheorems.TranslatesToStrict | crates/reader-content/src/analyze_url.rs:415-569 | For every array-free object that is understood, in any mix of styles, the translator alone writes the strict print; double-quoted bodies keep all their escapes. |
| LooseJsonTheorems.LooseToStrict | crates/reader-content/src/analyze_url.rs:415-612 | Any such print without escaped double quotes, followed by any text, normalises to the strict print. |
| LooseJsonTheorems.StrictIsFixed | crates/reader-content/src/analyze_url.rs:415-612 | Strict array-free objects without escaped double quotes, other escapes included, are fixed points, whatever follows. |
| LooseJsonTheorems.LooseToStrictExactlyCut | crates/reader-content/src/analyze_url.rs:415-612 | Any loose print, escaped quotes included and followed by any text, normalises to the strict print exactly when the brace scan ends where the object does. |
| LooseJsonTheorems.StrictIsFixedExactlyCut | crates/reader-content/src/analyze_url.rs:415-612 | A strict object, followed by any text, is a fixed point exactly when the brace scan ends where the object does. |
| LooseJsonTheorems.UnderstoodExactly | crates/reader-content/src/analyze_url.rs:415-612 | An object in any styles without escaped double quotes normalises to its strict print exactly when no unquoted value is followed by a semicolon, begins with a digit, a sign, `t`, `f` or `n`, or holds a backslash. |
| LooseJsonTheorems.CharacterClasses | crates/reader-content/src/analyze_url.rs:614-637 | Which characters start and make up a bare key, start a value that gets no quotes, and end one that does. |
| LooseJsonTheorems.StrayClosingBrace | crates/reader-content/src/analyze_url.rs:571-612 | A closing brace before the object does not count. |
| LooseArrays.ArrayNormalizes | crates/reader-content/src/analyze_url.rs:415-569 | For every key and every array of texts, words and plain numbers in any style, each text gets double quotes, and so does each word but the first. |
| LooseArrays.StrictArrayFixedExactly | crates/reader-content/src/analyze_url.rs:415-569 | A strict object with an array keeps its text exactly when no word stands after the first element. |
| LooseArrays.SecondWordBecomesText | crates/reader-content/src/analyze_url.rs:415-569 | Of any two words in an array the second becomes a text. |
| LooseJsonTheorems.BareWordStaysBare | crates/reader-content/src/analyze_url.rs:622-637 | A family of inputs on which a bare word is copied without quotes. |
| LooseJsonTheorems.TestIsSuchAWord | crates/reader-content/src/analyze_url.rs:622-637 | `test` belongs to that family: it is no JSON literal and is taken for one. |
| LooseJsonTheorems.BackslashIsMisread | crates/reader-content/src/analyze_url.rs:415-569 | Inputs on which a backslash in a bare value is not doubled. |
| LooseJsonTheorems.EscapedQuoteCutsShort | crates/reader-content/src/analyze_url.rs:571-612 | A family of strict objects that is cut inside a text. |
| LooseJsonTheorems.SemicolonAfterUnquoted | crates/reader-content/src/analyze_url.rs:415-569 | A family of inputs on which the semicolon and what follows become part of the value. |
| UrlDsl.SplitJsSuffix | crates/reader-content/src/analyze_url.rs:301-341 | The scan for a JS marker outside quotes and braces computes the specified split. |
| UrlDsl.FindDslSeparator | crates/reader-content/src/analyze_url.rs:371-405 | The scan for the comma before a single brace computes the specified position. |
| UrlDslTheorems.SeparatorFound | crates/reader-content/src/analyze_url.rs:371-405 | In "url, options" the separator found is the comma that was written, past every template, text in quotes and part in brackets. |
| UrlDslTheorems.SplitWritten | crates/reader-content/src/analyze_url.rs:301-341 | Exactly the tail that was appended is split off, `@js:` to the end or a script up to the first closing tag or the end; without a tail nothing is, also when a marker occurs in a template or an options string. |
| UrlDslTheorems.DslRoundTrip | crates/reader-content/src/analyze_url.rs:222-353 | Parsing "url, options" recovers exactly that URL and hands exactly that options text to the normaliser; a tail sets the JS fields to its trimmed expression and changes nothing else. |
| UrlDslTheorems.PlainUrl | crates/reader-content/src/analyze_url.rs:222-255 | Without options the URL is the text as written before the tail, a method name and commas included, with the default options; the JS fields are the tail's or, without one, the URL's own. |
| UrlDslTheorems.TailOnly | crates/reader-content/src/analyze_url.rs:236-242 | A text that is only a tail has the empty URL, the default options and that tail. |
| UrlDslTheorems.BlankText | crates/reader-content/src/analyze_url.rs:222-226 | A blank text has the empty URL, the default options and no JS. |
| UrlDslTheorems.LegacyWhole | crates/reader-content/src/analyze_url.rs:244-249 | After a method name the whole text before the tail is the URL, options included. |
| UrlDslTheorems.LegacyMethods | crates/reader-content/src/analyze_url.rs:355-366 | Exactly the seven method names count, in any letter case and with white space around, and only before a comma. |
| UrlDslTheorems.ClassifyLaws | crates/reader-content/src/analyze_url.rs:639-661 | All that follows the first `@js:` is the expression; failing one, what stands between the first `<js>` and the last `</js>`, if in that order; failing that there is none. |
| UrlDslTheorems.MarksAre | crates/reader-content/src/analyze_url.rs:301-341 | The three JS marks are matched in any letter case. |
| UrlDslTheorems.ParseIgnoresPadding | crates/reader-content/src/analyze_url.rs:222-228 | White space around the text does not matter. |
| UrlDslTheorems.LooseIsEnclosed | crates/reader-content/src/analyze_url.rs:371-612 | Every loose print is an options text on which the scanners agree. |
| UrlDslTheorems.LooseOptionsRoundTrip | crates/reader-content/src/analyze_url.rs:222-612 | End to end: loosely printed options reach the decoder as their strict print, beside exactly the URL written and the tail trimmed. |
| EventDemux.RuntimeState.RuntimeEventCallback | bindings/harmony/native/reader_napi.cpp:28-44 | An event is appended unless the runtime is destroyed. |
| EventDemux.RuntimeState.TakeEvent | bindings/harmony/native/reader_napi.cpp:220-235 | The oldest event is removed and returned, if there is one. |
| EventDemux.RuntimeState.Destroy | bindings/harmony/native/reader_napi.cpp:180-198 | The queue is emptied for good. |
| EventDemux.ReaderCoreRuntime.Close | bindings/harmony/sdk/reader_core.ts:190-197 | Both queues are emptied and the runtime refuses further reads. |
| EventDemux.ReaderCoreRuntime.TakePendingForRequest | bindings/harmony/sdk/reader_core.ts:367-376 | The first buffered event of the request is removed, all others keep their places. |
| EventDemux.ReaderCoreRuntime.WaitIteration | bindings/harmony/sdk/reader_core.ts:284-327 | One iteration of a waiter is the atomic step `WaitStep` on the shared state. |
| EventDemux.ReaderCoreRuntime.ReadEvent | bindings/harmony/sdk/reader_core.ts:220-229 | One direct read is the atomic step `ReadStep`. |
| EventDemuxTheorems.WaitOutcomes | bindings/harmony/sdk/reader_core.ts:284-327 | What each outcome of an iteration means, in terms of the event it obtains: idle without change, a malformed entry dropped, another request's event buffered at the end, its own delivered or refused for want of a handler. |
| EventDemuxTheorems.ReadOutcomes | bindings/harmony/sdk/reader_core.ts:220-229 | A direct read fails after close, else takes the oldest buffered event, else the oldest native entry, and fails on a malformed one. |
| EventDemuxTheorems.InterleavedWaiters | bindings/harmony/sdk/reader_core.ts:275-330 | In every interleaving in which no host.request of r is put back behind a different event of r, delivered, then buffered, then unread events of r are exactly those emitted for it, in order; after close, a prefix. |
| EventDemuxTheorems.OrderHoldsExactly | bindings/harmony/sdk/reader_core.ts:275-330 | The order of r holds after every step of a run exactly when no step does that. |
| EventDemuxTheorems.RequeueCanReorder | bindings/harmony/sdk/reader_core.ts:303-306 | Runs from the start that lose the order of a request. |
| EventDemuxTheorems.WaitersGetTheirOwn | bindings/harmony/sdk/reader_core.ts:275-330 | No waiter is handed another request's event, handlers or not. |
| EventDemuxTheorems.NothingAfterClose | bindings/harmony/sdk/reader_core.ts:190-197 | After close nothing is delivered or accepted. |
| EventDemuxTheorems.QueueSafety | bindings/harmony/native/reader_napi.cpp:28-44 | In every interleaving what is read from the native queue, then what waits in it, is what was enqueued before close, in order; after close nothing more is read. |
| EventDemuxTheorems.NothingLostOrDuplicated | bindings/harmony/sdk/reader_core.ts:275-330 | Even with missing handlers and malformed entries, until close every event is delivered or held exactly as often as emitted. |
| EventDemuxTheorems.RequeueKeepsOrderExactly | bindings/harmony/sdk/reader_core.ts:303-306 | Re-queuing an unhandled host.request keeps its request's order exactly when no different event of that request is buffered. |
| EventDemuxTheorems.BoundedProgress | bindings/harmony/sdk/reader_core.ts:284-327 | An event at position p of the native queue is handed out within p + 1 iterations of its waiters, whatever the others do. |
| TreeDiff.CollectDifferences | tools/cross-platform-diff/cross_platform_diff.py:171-237 | The recursion over objects and lists computes the list `Differences`. |
| TreeDiff.DiffIsExact | tools/cross-platform-diff/cross_platform_diff.py:171-237 | A difference is reported exactly at the topmost positions where the trees disagree, with the right kind and values. |
| TreeDiff.DiffIsAntichain | tools/cross-platform-diff/cross_platform_diff.py:171-237 | No reported path is a prefix of another, and none is reported twice. |
| TreeDiff.EmptyExactlyOnEqual | tools/cross-platform-diff/cross_platform_diff.py:171-237 | The list is empty exactly when Python finds the trees equal. |
| TreeDiff.SilentWronglyExactly | tools/cross-platform-diff/cross_platform_diff.py:228-237 | The list is empty for trees that differ as JSON exactly when they are equal in Python and a boolean meets the number it equals. |
| TreeDiff.AgreeOutside | tools/cross-platform-diff/cross_platform_diff.py:171-237 | Outside the reported paths the trees agree. |
| TreeDiff.DiffSwaps | tools/cross-platform-diff/cross_platform_diff.py:171-237 | Swapping the arguments swaps missing with unexpected and the two values, position by position. |
| TreeDiff.BlindToBooleans | tools/cross-platform-diff/cross_platform_diff.py:228-237 | `true` against `1` is not reported, for any key. |
| DiffResult.BuildDiffResult | tools/cross-platform-diff/cross_platform_diff.py:254-297 | The loop keeps the last result of each name and totals and conjoins all of them. |
| DiffResult.LastResultsKept | tools/cross-platform-diff/cross_platform_diff.py:254-297 | For any list of results the dictionary holds each name once, in the order of first occurrence, with its last result. |
| DiffResult.MatchExactly | tools/cross-platform-diff/cross_platform_diff.py:254-297 | The document matches exactly when its total is zero, which is exactly when every candidate equals the canonical tree. |
| RenderedPaths.RenderIsInjective | tools/cross-platform-diff/cross_platform_diff.py:165-168 | Paths whose keys are not empty and contain neither `.` nor `[` are identified by their text. |
| RenderedPaths.PlainTreesRenderApart | tools/cross-platform-diff/cross_platform_diff.py:171-237 | In trees with only such keys no two differences have one path text. |
| RenderedPaths.PathStringsCollide | tools/cross-platform-diff/cross_platform_diff.py:165-168 | A family of tree pairs with two reported differences under one path text. |
| BlockerRegister.FormatIdInjective | tools/release-blocker-register/release_blocker_register.py:154-155 | Different numbers have different ids, beyond four digits too. |
| BlockerRegister.FormatIdText | tools/release-blocker-register/release_blocker_register.py:154-155 | An id is `BLK-` and the number, in four digits if they suffice. |
| BlockerRegister.Register.AddBlockersFromDiff | tools/release-blocker-register/release_blocker_register.py:305-321 | The register after adding each draft whose key is new, including keys added in the same call, and the list of those added. |
| BlockerRegister.Register.AddManualBlocker | tools/release-blocker-register/release_blocker_register.py:324-347 | One open blocker is appended, without looking for duplicates. |
| BlockerRegister.Register.WaiveBlocker | tools/release-blocker-register/release_blocker_register.py:353-371 | Only that blocker becomes waived, with the stripped rationale; missing, closed and blank-rationale cases change nothing. |
| BlockerRegister.Register.CloseBlocker | tools/release-blocker-register/release_blocker_register.py:374-378 | Only that blocker becomes closed, once. |
| BlockerRegister.Register.ReopenBlocker | tools/release-blocker-register/release_blocker_register.py:381-385 | Only that blocker becomes open, without waiver or resolution. |
| BlockerRegister.Register.GateEvaluate | tools/release-blocker-register/release_blocker_register.py:388-414 | The number of open blockers of the run, and their number for each platform. |
| RegisterLaws.OpenCountCounts | tools/release-blocker-register/release_blocker_register.py:388-400 | The count is the number of open blockers of the run, or of all runs if none is given. |
| RegisterLaws.BreakdownCounts | tools/release-blocker-register/release_blocker_register.py:388-414 | The breakdown names exactly the platforms with an open blocker of the run, each with the number of its own. |
| RegisterLaws.GateMoves | tools/release-blocker-register/release_blocker_register.py:388-400 | Changing one blocker moves the count by that blocker alone. |
| RegisterLaws.DraftsExactly | tools/release-blocker-register/release_blocker_register.py:238-302 | An entry is derived exactly for each required platform that is missing and each divergence of a candidate that does not match. |
| RegisterLaws.AddedExactly | tools/release-blocker-register/release_blocker_register.py:305-321 | Registering appends exactly one open blocker for each entry that is the first of its key, in order, numbered on; all else stays. |
| RegisterLaws.ManualLaw | tools/release-blocker-register/release_blocker_register.py:324-347 | A manual entry is always appended, with the stock reason if none is given. |
| RegisterLaws.UnknownIdChangesNothing | tools/release-blocker-register/release_blocker_register.py:350-385 | An unknown id changes nothing. |
| RegisterLaws.WaiveLaw | tools/release-blocker-register/release_blocker_register.py:353-371 | A rationale that is not blank waives a blocker that is not closed, with who and when; no other blocker changes. |
| RegisterLaws.CloseLaw | tools/release-blocker-register/release_blocker_register.py:374-378 | Closing works from every status, keeps the waiver, and keeps the first closing time. |
| RegisterLaws.ReopenLaw | tools/release-blocker-register/release_blocker_register.py:381-385 | Reopening works from every status and takes waiver and resolution back. |
| RegisterLaws.ReopenUndoes | tools/release-blocker-register/release_blocker_register.py:353-385 | On every sound register reopening undoes a waiver or a closing of an open blocker entirely. |
| BlockerRegister.ApplyKeeps | tools/release-blocker-register/release_blocker_register.py:305-385 | Every operation keeps the numbering and life-cycle invariant, and no blocker disappears or changes identity. |
| BlockerRegister.RunKeeps | tools/release-blocker-register/release_blocker_register.py:305-385 | The same over every sequence of operations. |
| BlockerRegister.IdsDistinct | tools/release-blocker-register/release_blocker_register.py:154-161 | On every run ids are pairwise distinct. |
| BlockerRegister.ReAddAddsNothing | tools/release-blocker-register/release_blocker_register.py:305-321 | Registering the same diff for the same run again, after any operations, changes nothing. |
| BlockerRegister.RegisteredForRun | tools/release-blocker-register/release_blocker_register.py:305-321 | For a run without blockers, the open count equals the number of distinct (platform, path) keys. |
| BlockerRegister.NoDraftsExactly | tools/release-blocker-register/release_blocker_register.py:238-302 | A built diff-result yields no blocker exactly when all four platforms are present and all trees are equal. |
| BlockerRegister.GateIsCorrect | tools/release-blocker-register/release_blocker_register.py:401-414 | End to end from trees to gate: the open count is the number of distinct keys, and zero exactly when all four platforms are present and equal. |
| GateCount.OpenCountExactly | tools/release-blocker-register/release_blocker_register.py:305-321 | The open count is at most missing platforms plus reported differences, and reaches that exactly when no candidate has two differences with one path text. |
| GateCount.PlainTreesAreCounted | tools/release-blocker-register/release_blocker_register.py:305-321 | It reaches that whenever no key in the trees is empty or contains `.` or `[`. |
| GateCount.CollidingPathsLoseBlockers | tools/release-blocker-register/release_blocker_register.py:223-235 | A family of trees for which a reported difference is never registered. |
| GateCount.GateMistakesExactly | tools/release-blocker-register/release_blocker_register.py:401-414 | The gate is open over trees that differ as JSON exactly when all are present and equal in Python and in one a boolean meets its number. |
| Collector.BuildHostParity | tools/corpus-real-run-collector/corpus_real_run_collector.py:542-583 | Presence, match, total and per-platform figures of the three hosts, computed in one loop. |
| Collector.BuildCorpusProof | tools/corpus-real-run-collector/corpus_real_run_collector.py:623-785 | The proof has the conditions and the reasons of its inputs, and passes exactly when it has no reasons, which is when every condition holds. |
| Collector.ReasonsApply | tools/corpus-real-run-collector/corpus_real_run_collector.py:724-760 | A reason is given exactly when what it names fails. |
| CollectorLaws.ConditionsTell | tools/corpus-real-run-collector/corpus_real_run_collector.py:623-785 | Each condition in terms of the inputs: the source manifest field by field, and presence, full match and host match in terms of the trees. |
| CollectorLaws.ParityTells | tools/corpus-real-run-collector/corpus_real_run_collector.py:542-583 | Host parity in terms of the trees: presence, match, each host's verdict and number of divergences, and their sum; other candidates do not matter. |
| CollectorLaws.MissingExactly | tools/corpus-real-run-collector/corpus_real_run_collector.py:632-633 | The missing platforms are exactly the required ones without a candidate, in ascending order. |
| Collector.CollectRealRun | tools/corpus-real-run-collector/corpus_real_run_collector.py:921-1103 | A refused run leaves the register alone; otherwise the register gains the run's blockers, the manifest says how many, and describes diff and register truthfully. |
| Packager.HostParityFromDiff | tools/benchmark-run-packager/benchmark_run_packager.py:412-453 | The packager's own loop computes the same host parity as the collector's. |
| Packager.RegisterOpenState | tools/benchmark-run-packager/benchmark_run_packager.py:456-472 | The packager's own count agrees with the register's gate. |
| Packager.ValidateCollectorConsistency | tools/benchmark-run-packager/benchmark_run_packager.py:475-576 | It reports exactly the faults there are, and none exactly when every recomputed figure agrees and a pass is justified. |
| Packager.ValidateRequiredCorpusProof | tools/benchmark-run-packager/benchmark_run_packager.py:890-941 | It accepts exactly a passing proof with host parity, all conditions, no open blocker and empty lists, and else names exactly what is wrong. |
| Packager.ProducerMeetsVerifier | tools/benchmark-run-packager/benchmark_run_packager.py:475-576 | Whatever the collector writes passes the recomputation, and the proof check accepts it exactly when the collector's status is pass. |
| Packager.PassableExactly | tools/benchmark-run-packager/benchmark_run_packager.py:475-576 | Over all manifests for a run, the named register file included, one passes both checks exactly when every candidate equals the canonical tree, the three hosts are present and some packaged register-shaped file has no open blocker of the run. |
| Packager.PassableAfterRegistering | tools/benchmark-run-packager/benchmark_run_packager.py:890-941 | When the diff-result was registered for a new run and that register is the only one packaged, exactly when all four platforms are present and equal. |
| Packager.PassExactly | tools/benchmark-run-packager/benchmark_run_packager.py:890-941 | End to end: accepted exactly when the source manifest is fully bound, all four trees equal the canonical one and the run had no open blocker before. |
| SchemaLint.ResolveRef | tools/protocol-schema-lint/protocol_schema_lint.py:151-182 | The loops over reference parts compute the referenced node and the root it switches to, or nothing. |
| SchemaRefs.InternalReference | tools/protocol-schema-lint/protocol_schema_lint.py:157-164 | `#/` and keys without `/` resolves to v in the referring document exactly when the keys lead there to v, and v is not null. |
| SchemaRefs.FileReference | tools/protocol-schema-lint/protocol_schema_lint.py:165-181 | `file#/` and non-empty keys resolves to v in the sibling, whose root it switches to, exactly when the sibling is there and the keys lead to v in it. |
| SchemaRefs.OtherReferences | tools/protocol-schema-lint/protocol_schema_lint.py:151-182 | A file with an empty fragment is the whole file; without the file, the `#` or the file name there is nothing. |
| SchemaRefs.ReferenceMeansTarget | tools/protocol-schema-lint/protocol_schema_lint.py:200-206 | A value satisfies a reference exactly when it resolves and the value satisfies its target. |
| SchemaRefs.TargetRefersWithinItsDocument | tools/protocol-schema-lint/protocol_schema_lint.py:157-182 | A reference inside the target of a reference to a file resolves against that file. |
| SchemaLint.Validate | tools/protocol-schema-lint/protocol_schema_lint.py:193-290 | On ranked schemas it terminates by value size and in-place rank, finds no error exactly when the value satisfies the schema, and places every error at or below the value's path. |
| SchemaLint.ValidateOneOf | tools/protocol-schema-lint/protocol_schema_lint.py:260-267 | The counter accepts exactly when one branch, and only one, is satisfied. |
| SchemaLint.ValidateConditional | tools/protocol-schema-lint/protocol_schema_lint.py:274-284 | `then` is applied exactly when `if` is satisfied, `else` exactly when it is not. |
| SchemaKeywords.TypeMeans | tools/protocol-schema-lint/protocol_schema_lint.py:206-208 | The seven type names; a boolean is no number, an integer is a number, any other name accepts everything. |
| SchemaKeywords.TypesMean | tools/protocol-schema-lint/protocol_schema_lint.py:206-208 | A list of types accepts what one of them accepts. |
| SchemaKeywords.ConstMeans | tools/protocol-schema-lint/protocol_schema_lint.py:210-212 | A constant accepts what `_const_eq` finds equal to it. |
| SchemaKeywords.EnumMeans | tools/protocol-schema-lint/protocol_schema_lint.py:214-216 | A list of constants accepts what equals one of them. |
| SchemaKeywords.BoundsMean | tools/protocol-schema-lint/protocol_schema_lint.py:233-239 | Bounds are inclusive and concern numbers only. |
| SchemaKeywords.TextsMean | tools/protocol-schema-lint/protocol_schema_lint.py:218-231 | A least length is inclusive, and it and a pattern concern texts only; an invalid pattern accepts no text. |
| SchemaKeywords.RequiredMeans | tools/protocol-schema-lint/protocol_schema_lint.py:241-244 | Required names must be there, in an object. |
| SchemaKeywords.ClosedMeans | tools/protocol-schema-lint/protocol_schema_lint.py:245-252 | Without properties, `additionalProperties` of false leaves the empty object, and any other value allows everything. |
| SchemaLintTheorems.RankedExactly | tools/protocol-schema-lint/protocol_schema_lint.py:193-290 | A finite, closed set of well-typed schema nodes has a ranking exactly when no cycle of references and combining keywords returns to a node without descending into the value. |
| Rankings.GoesDownExactly | tools/protocol-schema-lint/protocol_schema_lint.py:193-290 | The termination argument: a step relation on a finite closed set can be ranked downwards exactly when it has no cycle. |
| SchemaLintTheorems.SatIndependentOfRanking | tools/protocol-schema-lint/protocol_schema_lint.py:193-290 | What satisfies a schema does not depend on the ranking chosen. |
| SchemaLintTheorems.SelfReferenceCannotBeRanked | tools/protocol-schema-lint/protocol_schema_lint.py:200-206 | A schema that refers to itself is outside every ranking. |
| Json.PyEqIsStrictExactly | tools/protocol-schema-lint/protocol_schema_lint.py:140-148 | Python's equality is JSON equality exactly where no boolean meets the number it equals. |
| SchemaLintTheorems.ConstIsStrictExactly | tools/protocol-schema-lint/protocol_schema_lint.py:140-148 | `_const_eq` departs from JSON equality exactly on equal arrays or objects in which a boolean meets its number. |
| SchemaLintTheorems.NestedBooleanPassesAsNumber | tools/protocol-schema-lint/protocol_schema_lint.py:140-148 | The constant `[true]` accepts `[1]`. |

## Left out

- The runtime behind `rc_runtime_*`, the host bus, the rule engine, the JS sandbox, Chinese
  conversion, HTTP and all file-system, zip, git, command-line and rendering code.
- SHA-256 and FNV fingerprints, timestamps and snippets: parameters or omitted; no collision
  freedom is claimed.
- `chapter_progress` is a real number that is only copied or set to zero; NaN and the infinities
  of Python floats are not modelled.
- Fields of `Book`, `Source`, events and blockers that no modelled decision reads.
- String canonicalisation before the tree diff: the trees are the canonical ones.
- LooseJson.TruncateAtMatchingBrace: the 32-bit brace depth is unbounded, so overflow past 2^31 nested
  braces is not modelled.
- LooseJsonTheorems.LooseToStrict: arrays are not part of the printed objects; `LooseArrays` treats one array of texts, words and numbers without letters as the only member, not nested arrays, objects in arrays or numbers with exponents. Control characters in texts, unknown escapes and blanks that JSON does not know are carried over as they are, so with these the strict print is not JSON.
- LooseJsonTheorems.LooseToStrictExactlyCut: with escaped double quotes the condition is where the brace scan ends, because its quote state carries over from one text to the next.
- EventDemux.RuntimeState.TakeEvent: models the native wait from the moment it ends; deadlines, polling delays, mutexes and the host-response id counter are left out, and a timeout is a waiter that takes no further step. Request ids are given, not allocated.
- EventDemuxTheorems.BoundedProgress: asks for well-formed events, because a malformed entry ends the waiter that reads it.
- BlockerRegister.Register.WaiveBlocker: blockers are values in a sequence, found by id and replaced in place, so aliases of an entry are not modelled; Python's `strip` is modelled by the Unicode white-space set, without U+001C to U+001F.
- Collector.CollectRealRun: asks for all four candidate trees, as the command line does; validation of the source manifest is the parameter `accepted`.
- Packager.ValidateCollectorConsistency: takes a manifest and a diff-result of the right shape; malformed ones are reported by branches that are not modelled.
- SchemaLint.Validate: says when there are errors, and that each lies at the path of the value or below it (of a field or an item, at its path or below), not which keyword raised it or its text; keyword values of the wrong type, on which the program raises an exception or iterates over characters, are excluded by `WellTyped`.
- Library.ContentDocumentLibrary.ListDocuments: the library sort is modelled by insertion into a sorted list.
