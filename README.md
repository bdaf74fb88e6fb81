# fontdeck in Dafny

A model of the catalog and ingestion core of fontdeck, a browser font manager.
Users drop font files, which are size-checked, parsed in batches of ten, hashed
for deduplication and merged into a catalog. The catalog is then filtered by
provider, favorites, collections and a search term, grouped by family, and shown
row by row with a weight and style guessed from the subfamily name. A family
page picks a representative font and its glyphs. A small memory game runs in the
empty-catalog lobby.

One module per source file:

| module | file | source |
|---|---|---|
| `Common` | `common.dfy` | JavaScript helpers the source uses: `filter`, `Set` insertion order, `includes`, `join`, `split('.').pop()`, ASCII case mapping |
| `FontTypes` | `types.dfy` | the `FontMetadata`, `FontData` and `Collection` records, and an uploaded `File` |
| `Hasher` | `hasher.dfy` | `src/utils/hasher.ts`: the digest bytes as lower-case hex |
| `FontParser` | `font_parser.dfy` | `src/utils/fontParser.ts`: `sanitizeString`, `getFontFormat`, `getFontName`, `getSupportedChars`, and the success / fallback / reject decision of `parseFontFile` |
| `CatalogStore` | `store.dfy` | `src/store/useStore.ts`: `filterFonts`, and the store as a class `Store` whose methods are the actions |
| `FontLoader` | `font_loader.dfy` | `src/hooks/useFontLoader.ts`: `loadFiles` (size filter, batch loop, classification, notices, final merge) and `handleDrop` |
| `FontRow` | `font_row.dfy` | `src/components/Font/FontRow.tsx`: the weight and style cascade, `isRTL`, `isFav` |
| `FontList` | `font_list.dfy` | `src/components/Font/FontList.tsx`: the grouping loop, the sorted family names, the empty-state overlay |
| `FontDetails` | `font_details.dfy` | `src/components/Font/FontDetailsView.tsx`: family fonts, representative, glyph list, format label |
| `MemoryGame` | `memory_game.dfy` | `src/components/UI/FontMemoryGame.tsx`: the deck and a class `Game` over an array of cards |

How the model is built:

- Pure source code is pure here: the catalog filter, the parser helpers, the
  hex encoding, and the row and detail rules.
- Code that works by steps is imperative here:
  - The store is a class. Its actions reassign its fields.
  - `loadFiles` is a set of methods with loops. Each loop is proved against a
    specification function.
  - The `groupedFonts` loop builds a map.
  - The game mutates an `array<Card>`.
- Foreign calls become parameters:
  - The SHA-256 digest is a function `digest`.
  - The OpenType parser's verdict is an argument, `ParsedOk(...)` or
    `ParseFailed`.
  - Per-file parsing in the loader is an outcome function `parse: File -> Settled`.
  - `Date.now()` is a number `now`.
  - The blob URL is a string `url`.
  - `crypto.randomUUID()` is `newId`.
  - The shuffled deck is the constructor's argument.
- Toasts are recorded as a list of `Notice` values (kind, parameters, duration).
- Font registration is the `registered` part of a parse's result.

Three behaviours of the code that are easy to miss:

- **Unknown collection id.** When the active provider is a collection id that
  names no collection, `filterFonts` leaves the list unfiltered
  (`src/store/useStore.ts:370-376`). See `UnknownCollectionKeepsAll` and
  `DeletedCollectionShowsAll`.
- **Duplicates within a batch.** `addFonts` compares incoming hashes only with
  the fonts already in the catalog, so two equal hashes in one batch are both
  added (`src/store/useStore.ts:152`). See `BatchDuplicatesKept`.
- **Fallback code points.** The fallback record's `supportedChars` is `[]`
  (`src/utils/fontParser.ts:44`). The family page treats an empty list like
  a missing one.

## Model

| member | source | states |
|---|---|---|
| Common.Filter | src/store/useStore.ts:358-384 | `filter` keeps exactly the elements satisfying the predicate and never grows the list |
| Common.FilterIsSubsequence | src/store/useStore.ts:380-383 | what `filter` keeps stays in its original order (an order-preserving subsequence) |
| Common.FilterAppend | src/store/useStore.ts:152-158 | filtering a concatenation is the concatenation of the filters |
| Common.FilterFilter | src/store/useStore.ts:378-383 | two filters in a row equal one filter by the conjunction |
| Common.Distinct | src/components/Font/FontDetailsView.tsx:154 | `Array.from(new Set(s))` holds exactly the values of `s` |
| Common.DistinctNoDuplicates | src/components/Font/FontDetailsView.tsx:154 | a `Set`'s values are listed once each |
| Common.DistinctOrder | src/components/Font/FontDetailsView.tsx:154 | the values come in the order of their first occurrence |
| Common.ContainsAt | src/store/useStore.ts:381-382 | `includes` holds exactly when the substring occurs at some position |
| Common.ContainsTransitive | src/components/Font/FontRow.tsx:23-24 | an occurrence inside an occurrence is an occurrence |
| Common.ContainsInside | src/hooks/useFontLoader.ts:32 | what a piece contains, any string built around the piece contains |
| Common.JoinContains | src/hooks/useFontLoader.ts:73 | each part of `parts.join(sep)` occurs in the joined string |
| Common.LastSegment | src/utils/fontParser.ts:117 | `split('.').pop()` is a dot-free suffix, preceded by a dot or making up the whole name |
| Common.LastSegmentUnique | src/utils/fontParser.ts:117 | any dot-free suffix preceded by a dot, or making up the whole name, is that last segment |
| Common.LastSegmentToLower | src/utils/fontParser.ts:117 | lower-casing before or after taking the last segment gives the same extension |
| Common.EndsWithDotExtension | src/hooks/useFontLoader.ts:101 | a name ends in `.ext` exactly when it has a dot and its last segment is `ext` |
| Common.ToLower | src/store/useStore.ts:379 | lower-casing keeps the length and maps each character |
| Common.ToUpper | src/hooks/useFontLoader.ts:52 | upper-casing keeps the length and maps each character |
| Common.NatToDecimal | src/utils/fontParser.ts:49 | `String(n)` for a size or time: decimal digits that spell `n`, with no leading zero |
| Hasher.HexByte | src/utils/hasher.ts:11 | `b.toString(16).padStart(2, '0')` is two lower-case hex digits whose value is `b` |
| Hasher.ToHex | src/utils/hasher.ts:10-11 | the encoding has twice as many characters as the digest has bytes, all in `0-9a-f` |
| Hasher.HexRoundTrip | src/utils/hasher.ts:10-11 | decoding the hex string gives back the digest bytes |
| Hasher.HexAt | src/utils/hasher.ts:11 | characters `2k` and `2k+1` are the two digits of byte `k` |
| Hasher.HexInjective | src/utils/hasher.ts:11 | equal hash strings come from equal digests |
| Hasher.ComputeFileHash | src/utils/hasher.ts:1-12 | `computeFileHash` is the hex of the digest of the payload's bytes: twice as long as the digest, hex digits only, decodable back to the digest |
| Hasher.HashIgnoresWrapper | src/utils/hasher.ts:3-7 | a file and a raw buffer with the same bytes hash alike |
| Hasher.HashDeterminesDigest | src/utils/hasher.ts:9-11 | equal hashes mean equal digests of the two payloads |
| FontParser.StripControl | src/utils/fontParser.ts:113 | the `/[\x00-\x1F\x7F]/g` replacement is the input filtered to its non-control characters: none is left, and every other character stays, in order |
| FontParser.StripControlSplices | src/utils/fontParser.ts:113 | a control character between two clean runs vanishes and the runs meet, so the replacement drops exactly the control characters |
| FontParser.TrimStart | src/utils/fontParser.ts:113 | the leading-whitespace part of `trim`: a suffix that starts with non-whitespace, and only whitespace is dropped |
| FontParser.TrimEnd | src/utils/fontParser.ts:113 | the trailing part of `trim`: a prefix that ends with non-whitespace, and only whitespace is dropped |
| FontParser.Trim | src/utils/fontParser.ts:113 | `trim()` is the end trim of the start trim, leaving no whitespace at either end and only characters of its input |
| FontParser.TrimStartOfPadded | src/utils/fontParser.ts:113 | the start trim removes exactly the leading whitespace in front of non-whitespace text |
| FontParser.TrimEndOfPadded | src/utils/fontParser.ts:113 | the end trim removes exactly the trailing whitespace behind non-whitespace text |
| FontParser.TrimDropsPadding | src/utils/fontParser.ts:113 | `trim()` of whitespace, text, whitespace is the text |
| FontParser.SanitizeString | src/utils/fontParser.ts:110-114 | a non-empty input gives the first 500 characters (or all, if fewer) of the control-stripped, trimmed input; `''` gives `''`; so the output has no control character, at most 500 characters, no leading whitespace, and only characters of the input |
| FontParser.SanitizeTrimsPadding | src/utils/fontParser.ts:110-114 | a clean name of at most 500 characters padded with whitespace, tabs and line breaks included, comes out as the name itself |
| FontParser.SanitizeKeepsCleanName | src/utils/fontParser.ts:110-114 | a name already clean at both ends is returned unchanged |
| FontParser.CutAfterTrimLeavesTrailingSpace | src/utils/fontParser.ts:113 | when the 500-character cut ends on whitespace, the output ends in whitespace and a second pass shortens it: sanitizing is not idempotent |
| FontParser.SanitizeSanitized | src/utils/fontParser.ts:113 | on an already sanitized string only the end trim has an effect |
| FontParser.TrimEndShortens | src/utils/fontParser.ts:113 | trailing whitespace is removed |
| FontParser.TagOf | src/utils/fontParser.ts:118-131 | the tag chain answers `UNKNOWN` exactly for an extension outside the 13 known ones |
| FontParser.GetFontFormat | src/utils/fontParser.ts:116-132 | `getFontFormat` is `UNKNOWN` exactly when the lower-cased last segment (the whole name when there is no dot) is not a known extension |
| FontParser.TagSpellsExtension | src/utils/fontParser.ts:118-130 | each tag spells its extension letter by letter in upper case |
| FontParser.FormatIsUpperCaseExtension | src/utils/fontParser.ts:116-130 | for a known extension the format is that extension in upper case |
| FontParser.LookupLang | src/utils/fontParser.ts:105 | `table[lang]` is an entry of the table under `lang`, or there is none |
| FontParser.FirstTruthyOfThree | src/utils/fontParser.ts:105 | `a \|\| b \|\| c \|\| ''` picks the first present non-empty value |
| FontParser.GetFontName | src/utils/fontParser.ts:102-107 | the sanitized `en` value, else `en-US`, else the first entry, else `''`; an empty value falls through; a missing table gives `''`; the result is always sanitized |
| FontParser.LeastFrom | src/utils/fontParser.ts:154 | counting up from a lower bound reaches the least code point of the set |
| FontParser.MinOf | src/utils/fontParser.ts:154 | the least element of a non-empty set of code points |
| FontParser.SortedAscending | src/utils/fontParser.ts:154 | the set's elements in strictly increasing order, each once, none added |
| FontParser.GetSupportedChars | src/utils/fontParser.ts:148-159 | the cmap keys in strictly ascending order, exactly the keys; `[]` when the map is absent or unreadable |
| FontParser.IdParts | src/utils/fontParser.ts:49 | a built id starts with its head and contains the size |
| FontParser.FallbackIdShape | src/utils/fontParser.ts:49 | the fallback id `<name>-<size>-<now>` starts with the file name and contains the size |
| FontParser.ParsedIdShape | src/utils/fontParser.ts:81 | the parsed id `<postscriptName> -<size> -<now> ` starts with the PostScript name and contains the size |
| FontParser.FallbackRecord | src/utils/fontParser.ts:34-61 | the fallback record: every name is the file name, subfamily `Regular`, 0 glyphs, empty author, copyright and license, `[]` code points, no tags; the id starts with the name and contains the size |
| FontParser.ParsedRecord | src/utils/fontParser.ts:66-93 | the parsed record: sanitized names from the name table, `designer` as author, the glyph count, sorted code points, no tags; the id starts with the PostScript name and contains the size |
| FontParser.ParseFontFile | src/utils/fontParser.ts:5-99 | rejected exactly when the parse fails on a metadata-only format, with `Format <tag> not supported` and no registration; otherwise a record carrying the content hash, registered under its full name, the fallback on failure and the parsed record on success |
| FontParser.FallbackIsRegistered | src/utils/fontParser.ts:34-52 | a failed parse of a renderable format still gives a record registered under the file name |
| FontParser.UnknownFormatNeverRejected | src/utils/fontParser.ts:23-29 | a name with no known extension is never rejected |
| CatalogStore.FindCollection | src/store/useStore.ts:372 | `collections.find` gives the first collection with the id, or none exactly when no collection has it |
| CatalogStore.FirstMatch | src/store/useStore.ts:372 | when some collection has the id, a first one exists |
| CatalogStore.NarrowByProvider | src/store/useStore.ts:359-376 | the provider step keeps exactly the fonts the provider admits (tag keywords, favorites, `all`, collection membership, or everything for an unknown id) |
| CatalogStore.ProviderAdmits | src/store/useStore.ts:361-376 | the provider test of one font, one branch per provider name and the collection lookup for any other name; `ProviderKeywords` and `CollectionNarrows` state what each branch keeps |
| CatalogStore.MatchesTerm | src/store/useStore.ts:378-383 | the lower-cased family or subfamily contains the lower-cased term; `SearchNarrows` states that the search keeps exactly those fonts |
| CatalogStore.Visible | src/store/useStore.ts:358-383 | a font is listed when its provider admits it and the term is empty or matches it; `FilterFonts` states that the list is the catalog filtered by it |
| CatalogStore.FilterFonts | src/store/useStore.ts:358-384 | the result is the visible fonts of the catalog in catalog order: an order-preserving subsequence holding exactly the admitted fonts that match the search |
| CatalogStore.ProviderKeywords | src/store/useStore.ts:362-369 | `local` and `google` keep fonts with that tag, `added` those with neither, `favorites` the favorite ids, `all` everything |
| CatalogStore.UnknownCollectionKeepsAll | src/store/useStore.ts:370-376 | a provider naming no collection leaves the list unfiltered |
| CatalogStore.CollectionNarrows | src/store/useStore.ts:370-375 | a collection id keeps exactly the fonts listed by the first collection with that id |
| CatalogStore.SearchNarrows | src/store/useStore.ts:378-383 | the search only narrows the provider's list, keeping a font exactly when the term is empty or its lower-cased family or subfamily contains the lower-cased term |
| CatalogStore.UniqueByHash | src/store/useStore.ts:152 | `filter` of the incoming fonts by an unseen hash: every such font, copies included, in incoming order |
| CatalogStore.AddFontsTwiceAddsNothing | src/store/useStore.ts:150-158 | adding the same batch a second time adds nothing |
| CatalogStore.BatchDuplicatesKept | src/store/useStore.ts:152 | two equal hashes within one batch are both kept |
| CatalogStore.EmptyHashCollides | src/store/useStore.ts:152 | once a record with the empty hash is in the catalog, no further empty-hash record is added |
| CatalogStore.MergeById | src/store/useStore.ts:314 | `filter` of the saved fonts by an unseen id: every such font, copies included, in saved order |
| CatalogStore.MergeTwiceAddsNothing | src/store/useStore.ts:314-315 | merging the same saved fonts twice adds nothing the second time |
| CatalogStore.MergeKeysDiffer | src/store/useStore.ts:312-315 | a copy with the same hash and a new id is dropped by `addFonts` but kept by the persistence merge |
| CatalogStore.Toggled | src/store/useStore.ts:257-258 | the id's membership flips, the other ids keep their order, and a new id is appended at the end |
| CatalogStore.ToggleTwice | src/store/useStore.ts:256-258 | toggling a non-favorite twice restores the list |
| CatalogStore.AddToCollections | src/store/useStore.ts:249 | `fId` is appended to every collection with id `cId`, even one that lists it already; the others are unchanged |
| CatalogStore.DeleteCollections | src/store/useStore.ts:241 | `filter` of the collections by another id: exactly those are kept, copies included, in order |
| CatalogStore.AddedFontIsListed | src/store/useStore.ts:248-254 | after `addToCollection(cId, fId)`, listing `cId` shows the font with id `fId` |
| CatalogStore.DeletedCollectionShowsAll | src/store/useStore.ts:370-376 | after the viewed collection is deleted, its id lists the whole catalog |
| CatalogStore.ValidAccent | src/store/useStore.ts:196-197 | the stored colour is the input exactly when it is `#` and six hex digits, `#00E676` otherwise |
| CatalogStore.Store.constructor | src/store/useStore.ts:103-121 | the initial state: empty catalog and list, provider `all`, empty search, default accent; the list is in sync |
| CatalogStore.Store.Refilter | src/store/useStore.ts:169 | the listed fonts become `filterFonts` of the state; nothing else changes |
| CatalogStore.Store.AddFonts | src/store/useStore.ts:150-171 | the old catalog is kept as a prefix, followed by the incoming fonts with an unseen hash; the list is in sync; the other fields are unchanged |
| CatalogStore.Store.SetSearchTerm | src/store/useStore.ts:187-192 | new term, list in sync, scroll reset to 0 and page to 1 |
| CatalogStore.Store.SetActiveProvider | src/store/useStore.ts:224-229 | new provider, list in sync, scroll reset to 0 and page to 1 |
| CatalogStore.Store.ToggleFavorite | src/store/useStore.ts:256-268 | favorites become the toggled list, the id's membership flips, the list is in sync |
| CatalogStore.Store.CreateCollection | src/store/useStore.ts:231-238 | one empty collection is appended; the fonts, favorites and listed fonts are untouched |
| CatalogStore.Store.DeleteCollection | src/store/useStore.ts:240-246 | the collections with that id are removed; the fonts, favorites and listed fonts are untouched |
| CatalogStore.Store.AddToCollection | src/store/useStore.ts:248-254 | the id is appended to the matching collections; the fonts, favorites and listed fonts are untouched |
| CatalogStore.Store.SetAccentColor | src/store/useStore.ts:194-203 | the stored colour is always a valid `#rrggbb`: the input when valid, the default otherwise |
| CatalogStore.Store.LoadFromPersistence | src/store/useStore.ts:286-353 | without consent only the initial-load flag clears; with consent the saved fonts with a new id are appended, stored settings replace present ones, the list is in sync and the scroll resets |
| CatalogStore.Store.Restore | src/store/useStore.ts:312-348 | the consented state step: merge by id, favorites, collections when any are stored, accent when non-empty, scroll and page reset |
| CatalogStore.AddToViewedCollectionIsStale | src/store/useStore.ts:248-254 | the collection actions do not refilter: after adding the viewed font to the viewed collection the stored list misses it |
| FontLoader.Names | src/hooks/useFontLoader.ts:73 | `map(f => f.name)`: the name of each item, position by position; the oversized list and the failed list both use it |
| FontLoader.ValidFiles | src/hooks/useFontLoader.ts:22-28 | the files of at most 20 MiB, in input order |
| FontLoader.OversizedNames | src/hooks/useFontLoader.ts:22-28 | exactly the names of the oversized files |
| FontLoader.OversizedMessage | src/hooks/useFontLoader.ts:32 | the message lists the names joined by `, `: all of them when there are at most three, otherwise the first three followed by `...` |
| FontLoader.OversizedMessageNamesFirstThree | src/hooks/useFontLoader.ts:32 | each of the first three oversized names appears in the message |
| FontLoader.OversizedNotices | src/hooks/useFontLoader.ts:31-34 | one notice exactly when some file is oversized: the message for the oversized names, shown for 5000 ms |
| FontLoader.SizeBoundary | src/hooks/useFontLoader.ts:15-23 | a file of exactly 20 MiB is kept, one byte more is not |
| FontLoader.Batch | src/hooks/useFontLoader.ts:38 | `slice(i, i + 10)`: one to ten consecutive files starting at `i` |
| FontLoader.BatchesCover | src/hooks/useFontLoader.ts:37-38 | the batches, concatenated in order, give the valid files back, and each holds one to ten files |
| FontLoader.FailedFormat | src/hooks/useFontLoader.ts:52 | the upper-cased last segment of the name when it is non-empty, and `UNKNOWN` exactly when it is empty |
| FontLoader.SuccessOf | src/hooks/useFontLoader.ts:46-48 | a fulfilled parse contributes its font |
| FontLoader.FailureOf | src/hooks/useFontLoader.ts:54-55 | a rejection with an `Error` whose message contains `not supported` contributes a failed entry |
| FontLoader.ErrorOf | src/hooks/useFontLoader.ts:56-57 | every other rejection contributes its reason to the logged errors |
| FontLoader.ClassificationIsExclusive | src/hooks/useFontLoader.ts:45-59 | each outcome lands in exactly one of the three lists |
| FontParser.UnsupportedMessage | src/utils/fontParser.ts:27 | the rejection text `Format <fmt> not supported`; `RejectionMessageMatches` states that the loader's `not supported` test recognises it |
| FontLoader.RejectionMessageMatches | src/hooks/useFontLoader.ts:54 | the parser's `Format X not supported` rejection is recognised as an unsupported format |
| FontLoader.FailedFormatIsTag | src/hooks/useFontLoader.ts:52 | for a known extension the loader's format is the classifier's tag |
| FontLoader.ParserRejectionIsReported | src/hooks/useFontLoader.ts:52-55 | a rejection from `parseFontFile` becomes one failed entry with the file's name and tag |
| FontLoader.FormatRejectionIsReported | src/hooks/useFontLoader.ts:52-55 | the rejection for a metadata-only format becomes one failed entry under the classifier's tag |
| FontLoader.UpperOfLower | src/hooks/useFontLoader.ts:52 | raising the case after lowering it is raising it |
| FontLoader.DedupByName | src/hooks/useFontLoader.ts:63 | one entry per name, in first-occurrence order, each one of the failures |
| FontLoader.DisplayNames | src/hooks/useFontLoader.ts:74 | names up to 300 characters unchanged; longer ones become their first 300 characters followed by `...` |
| FontLoader.FailureNotices | src/hooks/useFontLoader.ts:66-81 | no notice for no failure; the single-file notice with the name and format for 5000 ms for one; for more, one multi-file notice with the count and the display form of the names joined by `, `, lasting `count * 5000` ms |
| FontLoader.MultiFileNoticeNamesEachFile | src/hooks/useFontLoader.ts:73-78 | when the joined names fit in 300 characters, the multi-file notice names every failed file |
| FontLoader.NoticesStep | src/hooks/useFontLoader.ts:37-81 | the batch at offset `i` reports before the later batches |
| FontLoader.RepeatedFailureReportedOnce | src/hooks/useFontLoader.ts:63-71 | a batch holding two copies of one failing file shows the single-file notice once |
| FontLoader.ValidFilesStep | src/hooks/useFontLoader.ts:22-28 | one more file extends the kept files exactly when it is small enough |
| FontLoader.OversizedNamesStep | src/hooks/useFontLoader.ts:23-24 | one more file extends the oversized names exactly when it is too large |
| FontLoader.SplitBySize | src/hooks/useFontLoader.ts:22-28 | the loop yields the kept files and the oversized names, both in input order |
| FontLoader.ClassifyBatch | src/hooks/useFontLoader.ts:43-60 | the settled results are sorted into fonts, failed entries and errors, each in batch order |
| FontLoader.ClassifyStep | src/hooks/useFontLoader.ts:45-60 | one more settled result extends each of the three lists by its own share |
| FontLoader.BatchStep | src/hooks/useFontLoader.ts:37-60 | the files through the end of a batch give what the earlier files give, then the batch's results |
| FontLoader.Successes | src/hooks/useFontLoader.ts:46-49 | every fulfilled result's font, in file order; `ProcessBatches` states that the batch loop collects exactly these |
| FontLoader.Errors | src/hooks/useFontLoader.ts:50-57 | every rejection that is not an unsupported-format `Error`, in file order; `ProcessBatches` states that the batch loop logs exactly these |
| FontLoader.NoticesFrom | src/hooks/useFontLoader.ts:37-81 | the failure notices of the batches from offset `i` on, batch by batch; `NoticesStep` and `ProcessBatches` state the order |
| FontLoader.LoadNotices | src/hooks/useFontLoader.ts:29-81 | the oversized notice, then every batch's failure notices; `LoadFiles` states that these are the toasts shown |
| FontLoader.ProcessBatches | src/hooks/useFontLoader.ts:37-84 | the batch loop collects every parsed font and logged error in file order and each batch's notices in batch order |
| FontLoader.LoadFiles | src/hooks/useFontLoader.ts:13-94 | the notices are the oversized notice followed by each batch's failure notices; when something parsed, `addFonts` gets all of it in order, the provider becomes `added`, the list is in sync and scrolled to the top, and favorites, collections, search term, accent colour and the initial-load flag are unchanged; otherwise the store is unchanged |
| FontLoader.HandleDrop | src/hooks/useFontLoader.ts:96-107 | only names ending in a dot and a known extension, in any case, are loaded, and nothing happens when none is left; otherwise the notices, errors and store are those of `loadFiles` on the kept files; every loaded name has a known format |
| FontLoader.DropAllowed | src/hooks/useFontLoader.ts:101 | the extension pattern as an ends-with test over the 13 extensions after lower-casing; `DropAllowedIffKnownExtension` relates it to `getFontFormat` |
| FontLoader.DropAllowedIffKnownExtension | src/hooks/useFontLoader.ts:101 | the drop filter accepts a name exactly when it has a dot and `getFontFormat` knows its extension |
| FontRow.CascadeIsLastMatch | src/components/Font/FontRow.tsx:18-28 | the reassignments amount to: the last rule that fires decides, and `normal` stays when none fires |
| FontRow.LastFiringExists | src/components/Font/FontRow.tsx:21-28 | when some rule fires, a last one does |
| FontRow.FontStyle | src/components/Font/FontRow.tsx:19-30 | `italic` exactly when the lower-cased subfamily contains `italic` or `oblique`, `normal` otherwise |
| FontRow.FontStyleOf | src/components/Font/FontRow.tsx:32-36 | the family list starts with the quoted family, holds the quoted full name and PostScript name, and ends with `sans-serif`; the weight is the rule cascade as written and the style the italic test |
| FontRow.RowNamesRegisteredFace | src/utils/fontParser.ts:52 | for every record the parser fulfils, the family name it registered the face under is quoted in the row's font-family list, on the fallback and the parsed path alike |
| FontRow.ExtraLightRowStyle | src/components/Font/FontRow.tsx:16-36 | the row shows an extra-light font with no heavier keyword at weight 300 |
| FontRow.PlainSubfamilyIsNormal | src/components/Font/FontRow.tsx:17-19 | a subfamily with no keyword gets weight and style `normal` |
| FontRow.FontWeightAsWritten | src/components/Font/FontRow.tsx:18-28 | the weight cascade in source order; `FontWeightIsLastMatch` states that the last firing rule decides and `AsWrittenNever200` that 200 never comes out |
| FontRow.FontWeight | src/components/Font/FontRow.tsx:18-28 | the cascade with `light` tested before `extra light`, the corrected rule; `ExtraLightWeight` states that extra-light then gets 200 |
| FontRow.FontWeightIsLastMatch | src/components/Font/FontRow.tsx:21-28 | in either rule order the last firing rule's weight is the result |
| FontRow.ExtraLightFiresLight | src/components/Font/FontRow.tsx:23-24 | both extra-light spellings contain `light` |
| FontRow.AsWrittenNever200 | src/components/Font/FontRow.tsx:23-24 | as written, no subfamily gets weight 200 |
| FontRow.OnlyExtraLightGives200 | src/components/Font/FontRow.tsx:21-28 | only the extra-light rule sets 200 |
| FontRow.ExtraLightWeight | src/components/Font/FontRow.tsx:23-24 | an extra-light subfamily with no heavier keyword gets 300 as written and 200 with the intended order |
| FontRow.CascadeSkip | src/components/Font/FontRow.tsx:21-28 | a rule that does not fire can be dropped |
| FontRow.OrdersAgreeWithoutExtraLight | src/components/Font/FontRow.tsx:21-28 | the two orders agree on every subfamily where the extra-light rule does not fire |
| FontRow.IsRtl | src/components/Font/FontRow.tsx:88-91 | `isRTL` holds exactly when some character lies in U+0591-U+07FF, U+FB1D-U+FDFD or U+FE70-U+FEFC |
| FontRow.TextDirection | src/components/Font/FontRow.tsx:76-77 | the direction and alignment pair of the preview style; `DirectionFollowsScript` states when each is chosen |
| FontRow.DirectionFollowsScript | src/components/Font/FontRow.tsx:76-77 | direction `rtl` with right alignment exactly for such text, `ltr` with left alignment otherwise |
| FontRow.IsFavorite | src/components/Font/FontRow.tsx:14 | `isFav` holds exactly when the font's id is in `favorites` |
| FontRow.FavoriteFlipsOnToggle | src/components/Font/FontRow.tsx:14 | toggling a font flips its own mark and no other row's |
| FontList.Families | src/components/Font/FontList.tsx:45 | each font's family, position by position |
| FontList.GroupSnoc | src/components/Font/FontList.tsx:47 | pushing a font extends its own family's group and no other |
| FontList.GroupOfAbsentFamily | src/components/Font/FontList.tsx:46 | a family no font has has an empty group |
| FontList.GroupsStep | src/components/Font/FontList.tsx:45-47 | one push turns the groups of the fonts so far into the groups of one more font |
| FontList.KeysStep | src/components/Font/FontList.tsx:46 | a new family joins the keys at the end; a known one leaves them as they were |
| FontList.GroupingCore | src/components/Font/FontList.tsx:44-48 | one iteration keeps the dictionary and its key order equal to the grouping of the fonts so far |
| FontList.GroupingStep | src/components/Font/FontList.tsx:44-48 | the same step on the loop's prefix |
| FontList.GroupByFamily | src/components/Font/FontList.tsx:42-50 | the keys are the distinct families in first-seen order, and each group is that family's fonts in list order |
| FontList.EachFontInOneGroup | src/components/Font/FontList.tsx:44-47 | a font is in its own family's group and in no other |
| FontList.GroupsAreNonEmpty | src/components/Font/FontList.tsx:46-47 | every group holds at least one font |
| FontList.CountOnce | src/components/Font/FontList.tsx:52 | a key of a duplicate-free list occurs once |
| FontList.SumSizesSplit | src/components/Font/FontList.tsx:43-48 | taking off one font takes one off its family's group |
| FontList.GroupSizesSum | src/components/Font/FontList.tsx:43-48 | the group sizes add up to the number of listed fonts |
| FontList.OwnStep | src/components/Font/FontList.tsx:44-47 | one iteration on a family that is an own or a missing key keeps the partial grouping |
| FontList.GroupByFamilyAsWritten | src/components/Font/FontList.tsx:42-50 | on a plain object the loop throws exactly when some family names an inherited member; otherwise the keys are exactly the families and each holds its family's fonts |
| FontList.BelowTotal | src/components/Font/FontList.tsx:52 | the default string order is total |
| FontList.BelowTransitive | src/components/Font/FontList.tsx:52 | the default string order is transitive |
| FontList.Insert | src/components/Font/FontList.tsx:52 | inserting into a sorted list keeps it sorted and adds exactly the one name |
| FontList.SortStrings | src/components/Font/FontList.tsx:52 | `sort()` gives an ascending permutation of the keys |
| FontList.StrictlyAscending | src/components/Font/FontList.tsx:52 | distinct keys sort strictly ascending |
| FontList.SortKeepsNames | src/components/Font/FontList.tsx:52 | sorting neither adds nor drops a name |
| FontList.FamiliesCovered | src/components/Font/FontList.tsx:44-46 | every font's family is a key |
| FontList.FamilyNames | src/components/Font/FontList.tsx:42-52 | in a browser, rendering fails exactly when some family names an `Object.prototype` member; otherwise the groups' keys and the family names are exactly the families, the names strictly ascending, each group the non-empty list of its family's fonts, and the group sizes add up to the list length |
| FontList.EmptyState | src/components/Font/FontList.tsx:60-73 | an overlay only over an empty list: no-results when a search term is set, the lobby otherwise |
| FontDetails.FamilyFonts | src/components/Font/FontDetailsView.tsx:12-14 | `filter` of the catalog by the selected family: exactly those fonts, copies included, in catalog order; none without a selection |
| FontDetails.ShowsNotFound | src/components/Font/FontDetailsView.tsx:16 | no selection, the empty name, or no family fonts; `NotFoundIff` states it in terms of the catalog |
| FontDetails.NotFoundIff | src/components/Font/FontDetailsView.tsx:16-18 | the not-found message shows exactly when the selection is missing or empty or no font has that family |
| FontDetails.ListGroupWithinFamily | src/components/Font/FontDetailsView.tsx:12-14 | a family's list group is its family fonts that pass the list filter |
| FontDetails.FindRegular | src/components/Font/FontDetailsView.tsx:20 | `find` gives the first `Regular` font, and none exactly when no font is `Regular` |
| FontDetails.Representative | src/components/Font/FontDetailsView.tsx:20 | the `find` for a `Regular` subfamily, falling back to the first font; `RepresentativeChoice` states that it is the first `Regular` font, else the first font |
| FontDetails.RepresentativeChoice | src/components/Font/FontDetailsView.tsx:20 | the representative is the first `Regular` font of the family, else the first font |
| FontDetails.FirstRegularExists | src/components/Font/FontDetailsView.tsx:20 | some `Regular` font means a first one |
| FontDetails.Range | src/components/Font/FontDetailsView.tsx:96-98 | `Array.from({length}, (_, i) => start + i)` |
| FontDetails.FallbackCandidatesAre | src/components/Font/FontDetailsView.tsx:94-101 | 307 candidates: exactly 32-126, 160-255, U+0590-U+05FF and the four currency signs |
| FontDetails.GlyphsToShow | src/components/Font/FontDetailsView.tsx:89-113 | at most 2000 glyphs; the first ones of the font's own code points when it has any, the canvas-checked candidates otherwise |
| FontDetails.ShowsDisclaimer | src/components/Font/FontDetailsView.tsx:139 | the code point list is missing or empty; `DisclaimerMarksFallback` ties it to the glyph list's fallback path |
| FontDetails.DisclaimerMarksFallback | src/components/Font/FontDetailsView.tsx:139-143 | the disclaimer shows exactly when the glyphs are the canvas-checked candidates; otherwise every glyph is one of the font's code points |
| FontDetails.NoGlyphsOnlyOnFallback | src/components/Font/FontDetailsView.tsx:115-116 | the empty-glyph message only appears on the fallback path |
| FontDetails.UpperFormats | src/components/Font/FontDetailsView.tsx:154 | each family font's format in upper case, position by position |
| FontDetails.FormatLabel | src/components/Font/FontDetailsView.tsx:154 | `Array.from(new Set(formats upper-cased)).join(', ')`; `FormatLabelParts` states what the parts are |
| FontDetails.FormatLabelParts | src/components/Font/FontDetailsView.tsx:154 | the label joins each upper-cased format once, exactly the formats used, in first-use order |
| MemoryGame.PairsDeal | src/components/UI/FontMemoryGame.tsx:40-43 | each family of a duplicate-free list gives one face-down `Aa` card and one `gG` card, and nothing else |
| MemoryGame.InitialDeck | src/components/UI/FontMemoryGame.tsx:17-43 | the deck has 16 cards: each of the eight families once as `Aa` and once as `gG`, face down and unmatched |
| MemoryGame.ShuffledDeckSize | src/components/UI/FontMemoryGame.tsx:46 | any order of the deck still has 16 cards |
| MemoryGame.ShuffledDeck | src/components/UI/FontMemoryGame.tsx:46-47 | in any order of the deck every card is face down and unmatched |
| MemoryGame.Deal | src/components/UI/FontMemoryGame.tsx:47 | the cards laid out in a fresh array in the given order |
| MemoryGame.Game.constructor | src/components/UI/FontMemoryGame.tsx:35-48 | the dealt board is valid, nothing is flipped, it is unlocked and not won |
| MemoryGame.Game.HandleCardClick | src/components/UI/FontMemoryGame.tsx:57-101 | a click while locked, or on a face-up or matched card, changes nothing; otherwise exactly that card turns face up and joins the flipped list, and a second card locks the board and schedules the outcome of the pair; the board stays valid |
| MemoryGame.Game.Resolve | src/components/UI/FontMemoryGame.tsx:71-98 | a match marks both cards matched and face up, a mismatch turns only those two face down; no matched card is unmatched; the list clears and the board unlocks |
| MemoryGame.FlippedAreUnmatched | src/components/UI/FontMemoryGame.tsx:58-65 | the flipped cards are face up and unmatched |
| MemoryGame.Game.IsWon | src/components/UI/FontMemoryGame.tsx:52 | the board is non-empty and every card is matched; `PendingMeansNotWon` and `WonBoardIsSettled` state what a won board looks like |
| MemoryGame.Game.Pending | src/components/UI/FontMemoryGame.tsx:69-71 | the outcome the two flipped cards schedule: a match exactly when their families agree; `Game.Resolve` states what each outcome does |
| MemoryGame.PendingMeansNotWon | src/components/UI/FontMemoryGame.tsx:52 | a flipped, unresolved card means the game is not won |
| MemoryGame.WonBoardIsSettled | src/components/UI/FontMemoryGame.tsx:51-58 | a won board has nothing flipped and is unlocked |
| MemoryGame.FaceDownBoardIsValid | src/components/UI/FontMemoryGame.tsx:41-47 | a board of face-down unmatched cards with nothing flipped satisfies the game invariant |

## Left out

- The SHA-256 digest is a parameter `digest`. The model covers only its hex encoding.
- `opentype.parse` is an oracle argument. Unexpected parser exceptions are not modelled. Nor are `FileReader` errors, apart from the opaque `NonError` rejection reason.
- Browser calls are parameters or left out:
  - `FileReader`;
  - `Blob`, `URL.createObjectURL` and the URL is a parameter;
  - `FontFace` loading, where only the registration (family name, URL) is recorded;
  - `Date.now()`, where the time is a parameter `now`.
- `Promise.allSettled` concurrency and the zero-delay yield are modelled as a sequential loop. Results are indexed by position, so the lists come out the same.
- Toast timers and the i18n message templates are left out. A notice records its kind, parameters and duration.
- Persistence is left out:
  - the consent flag is a parameter;
  - the IndexedDB reads are parameters;
  - every save side effect is dropped.
- Reviving saved fonts is left out: URL recreation, legacy hashing, and the `previewText`, `previewSize`, locale, theme and sidebar settings. The model takes the revived fonts and the stored favorites, collections and accent colour as arguments.
- `setListScrollTop`, `setListPage`, the context menu, the active view and the selected family are not part of the store model.
- Case mapping is ASCII only. JavaScript's full Unicode `toLowerCase` / `toUpperCase` is not modelled.
- String lengths count characters, not UTF-16 code units. This affects the 500- and 300-character cuts for text beyond the Basic Multilingual Plane.
- The JavaScript `sort()` on family names compares UTF-16 code units. The model compares characters, which is the same order within the Basic Multilingual Plane.
- `Object.keys` lists integer-like keys first. The model's key order is plain insertion order; after `sort()` the names agree.
- `getFontFormat`'s 13 `if` tests are a lookup in two parallel tables, `Extensions` and `Tags`. This gives the same answer for every input.
- The canvas test `isGlyphSupported` is a predicate parameter.
- The row and details UI is left out: clipboard, tabs, the waterfall view, the `DetailCard` fallbacks (`Unknown`), glyph titles, and scroll handling.
- The game's random card ids and the `Math.random` shuffle are left out. The shuffle is the constructor's argument; `ShuffledDeck` shows that any order of the deck meets the constructor's precondition.
- The two `setTimeout` callbacks are the explicit `Resolve` step. The win callback `onWin` and its 500 ms delay are left out; the win test is `IsWon`.
- The match callback copies the `cards` it captured at click time. React state updates are modelled as taking effect in order, so that copy is the current board.
- The Sidebar's non-empty-name guard is not modelled. `CreateCollection` accepts any name, as the store does.
- `MemoryGame.Game.constructor`: requires only that the deck is face down and unmatched, not that it is an order of the full deck. `ShuffledDeck` proves every shuffle meets this.

## Findings

| source | as written | input that shows it | evidently intended | confidence | as-written member | corrected member |
|---|---|---|---|---|---|---|
| src/components/Font/FontRow.tsx:23-24 | the `light` test runs after the `extra light` / `extralight` test and overwrites its `200` with `300` | subfamily `ExtraLight` gets weight 300 | extra-light fonts get weight 200 | high, not executed | FontRow.AsWrittenNever200, FontRow.ExtraLightWeight | FontRow.FontWeight, FontRow.ExtraLightWeight, FontRow.FontWeightIsLastMatch |
| src/components/Font/FontList.tsx:43-47 | groups live in a plain object `{}`, so a family named after an `Object.prototype` member reads that member: `!groups[family]` is false and `push` is called on a function | a font whose family is `toString` throws `TypeError` and the list does not render | a dictionary with no inherited keys (`Object.create(null)` or a `Map`) | high, not executed | FontList.GroupByFamilyAsWritten | FontList.GroupByFamily |
