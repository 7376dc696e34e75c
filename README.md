# Track renamer: a verified model of the tag and Serato cores

The project models the core of a music-library tool. The tool reads the
artist and title tags of audio files, normalises them, builds a file name of
the form "artist - title" and renames the file. It also decodes the binary
frames that the Serato DJ software stores inside the ID3 tags.

The tool exists in a Rust version (`src/`) and an older Python version
(`renamer.py`, `rename/`). The model covers both where the core is
duplicated. It contains:

- **Text normalisers.** These are the Rust `format_tags_for_artist_and_title`
  (`src/formatting.rs`), the earlier `format_tags` (`src/formatter.rs`) and
  the Python `Formatter.format_tags` (`rename/formatter.py`). The model
  includes their parenthesis helpers: closing, opening, nested, the
  "mix" rewrite, the featuring-artist move, the BPM stripping, wrapping and
  dash splitting. It also covers the file-name and album formatting.
- **Renamer helpers.** These are the early `add_missing_closing_parentheses`
  (`renamer.py`), the Rust `format_track` (`src/renamer.rs`), splitting
  "artist - title" file names (`rename/renamer.py`, `src/utils.rs`), the
  duplicate-file marker and `contains_subpath`.
- **Genre formatting** (`src/genre.rs`).
- **Tracks and tags.** These are the file formats (`src/file_format.rs`,
  `src/fileformat.rs`), the Rust `Track` (`src/track.rs`), the Python
  `Track` (`rename/track.py`) and `Tags` (`src/tags.rs`).
- **Serato decoders.** These are the tag kinds, the analysis version, the
  overview blocks, the beat grid and the Markers2 frame (its base64 payload
  and its cue, loop, colour and BPM-lock entries). The model also covers the
  timestamp, byte-string and hexdump text they print (`src/serato/*.rs` and
  the older `src/serato.rs`).

Loops in the source are Dafny methods with loop invariants. Each method is
proved against a function that specifies it. The properties are proved
about those functions as lemmas.

The state a method changes is a value, never a reference. The source
functions that take `&mut String` are modelled as functions from the old
text to the new one. The Rust `Track` is a class, because `show` updates its
flag in place.

Where the Rust and Python versions share an algorithm, module `Parens` holds
the shared character scans. Their parameters are the opener, the closer and
the text inserted.

Modules: `Strings`, `Bytes`, `Patterns` (the hand-written regular
expressions), `Parens`, `Formatting`, `EarlyFormatter`, `PyFormatter`,
`LegacyRenamer`, `RustRenamer`, `FileNames`, `Genre`, `GenreExamples`,
`FileFormats`, `TrackTags`, `Paths`, `Tracks`, `PyTracks`, `SeratoTags`,
`SeratoText`, `SeratoMarkers`.

## Model

| member | source | states |
|---|---|---|
| `Patterns.FixWhitespace` | src/formatting.rs:480-482 | The result has no two adjacent white-space characters and no leading or trailing white space. |
| `Patterns.FixWhitespaceIdempotent` | src/formatting.rs:480-482 | Fixing white space twice gives the same text as fixing it once. |
| `Patterns.CollapseSpaces` | src/formatting.rs:354 | Replacing each white-space run by one space leaves no adjacent white space, and the only white space left is ' '. |
| `Patterns.ReplaceRunsNoAdjacent` | src/formatting.rs:52-109 | A run replacement (`\s{2,}` or `\s+` by one character) leaves no two adjacent matching characters. |
| `Patterns.DropEmptyGroups` | src/renamer.rs:71 | `\(\s*?\)` only deletes characters: the result is no longer than the input and every character comes from it. `DropEmptyGroupsUnchanged` and `DropEmptyGroupsCounts` state what is deleted. |
| `Patterns.DropEmptyGroupsUnchanged` | src/renamer.rs:71 | The pass changes the text exactly when it holds a "(" followed by white space only and a ")". |
| `Patterns.DropEmptyGroupsCounts` | src/renamer.rs:71 | Only whole groups go: every character other than "(", ")" and white space keeps its count, and as many "(" as ")" are deleted. |
| `Patterns.SpaceBeforeOpen` | src/renamer.rs:72 | `(\S)\(` → `$1 (` only adds spaces: the result is no shorter and every character is from the input or a space. `SpaceBeforeOpenUnchanged` and `SpaceBeforeOpenCounts` state the rest. |
| `Patterns.SpaceBeforeOpenUnchanged` | src/renamer.rs:72 | The pass changes the text exactly when some "(" follows a character that is not white space. |
| `Patterns.SpaceBeforeOpenCounts` | src/renamer.rs:72 | Every character other than a space occurs as often as in the input. |
| `Parens.AddMissingClosing` | src/formatting.rs:538-565 | The result is the input with the given token inserted at some points and a final ")" possibly appended. Deleting the insertions gives back the input. |
| `Parens.ClosingShape` | src/formatting.rs:538-565 | At most one group is ever open. Each insertion is the token placed right before a '('. A single ")" is appended exactly when a group is still open at the end. |
| `Parens.CounterAtMostOne` | src/formatting.rs:538-565 | The open counter never exceeds one, so at most one ")" is appended at the end. |
| `Parens.ClosingKeepsOpenCount` | src/formatting.rs:538-565 | The closing pass adds no '(' when its token has none. |
| `Parens.ClosingDoesNotAlwaysBalance` | src/formatting.rs:538-565 | "A (B (C" becomes "A (B ) (C", which still has two '(' and one ')'. The pass closes at most one group. |
| `Parens.AddMissingOpening` | src/formatting.rs:567-594 | The reversed scan with "( " insertions, read forward, is the opening-pieces rendering of the input. |
| `Parens.RustOpeningRender` | src/formatting.rs:567-594 | Reversing the output of the backwards scan gives the forward description of the opening pass. |
| `Parens.PyAddMissingOpening` | rename/formatter.py:291-312 | The Python opening pass equals the same forward description, with " (" as the inserted text. |
| `Parens.OpeningOriginals` | src/formatting.rs:567-594 | The opening pass keeps every input character in order. |
| `Parens.OpeningInsertsAfterClose` | src/formatting.rs:567-594 | Every insertion other than a leading one comes directly after a ')'. |
| `Parens.OpeningPrependsOne` | src/formatting.rs:567-594 | At the front, at most one "(" is added. |
| `Parens.BalanceParenthesis` | src/formatting.rs:485-493 | Equal counts leave the title unchanged. More '(' runs the closing pass with ") ", and more ')' runs the opening pass with "( ". |
| `Parens.FixNestedParentheses` | src/formatting.rs:615-658 | The stack loop computes the flattening scan followed by the four clean-up replacements. |
| `Parens.PyFixNestedParentheses` | rename/formatter.py:173-203 | The Python stack loop computes the flattening scan, keeping unmatched ')', followed by its two replacements. |
| `Parens.NestChar` | src/formatting.rs:620-645 | The body of the Rust loop for one character. The stack holds only '(' and grows or shrinks by one, and the emitted text is that character's part of the scan. |
| `Parens.PyNestChar` | rename/formatter.py:178-199 | The same as `NestChar` for the Python loop. |
| `Parens.CloseRemaining` | src/formatting.rs:647-650 | The final loop appends one ')' per group still on the stack. |
| `Parens.NestOutAtFlat` | src/formatting.rs:615-658 | The Rust scan never nests. Its balance is 1 exactly when a group is open. |
| `Parens.NestOutAtMostOne` | rename/formatter.py:173-203 | The Python scan never has two groups open at once. |
| `Parens.NestRawBalanced` | src/formatting.rs:615-658 | The flattened text is flat and balanced if and only if the input never nests more than one level deep. Otherwise its balance is off by the missing closers. |
| `Parens.NestDoubledGroup` | src/formatting.rs:790 | "a ((w))" becomes "a (w)". |
| `Parens.NestLeadingGroup` | src/formatting.rs:791 | "((w) v)" becomes "(w v)". |
| `Formatting.MixShape` | src/formatting.rs:596-613 | Without " - " the title is unchanged. Otherwise the length is kept, the first " - " becomes " (", and there is exactly one more '(' and one more ')'. |
| `Formatting.MixWrapsToEnd` | src/formatting.rs:737-740 | "a - b" becomes "a (b)". |
| `Formatting.MixClosesBeforeGroup` | src/formatting.rs:742-745 | "a - b (c" becomes "a (b) (c". |
| `Formatting.FeatClose` | src/formatting.rs:660-668 | Locates the first "(feat. " and the first ')' after it, or says that one is missing. |
| `Formatting.ExtractFeatRemovesTwo` | src/formatting.rs:660-668 | Exactly that '(' and that ')' are removed and the rest is kept. Without both, nothing changes. |
| `Formatting.ExtractFeatUnwraps` | src/formatting.rs:749-754 | "a(feat. b)" becomes "afeat. b". |
| `Formatting.RemoveUnmatchedClosingParenthesis` | src/formatting.rs:495-500 | The trimmed text loses its final ')' only when it has no '('. Nothing else changes. |
| `Formatting.RemoveBpmInParenthesesFromEnd` | src/formatting.rs:670-696 | A title ending in a skip suffix such as " (4U)" is kept. Otherwise the result is the title or a non-empty trimmed text, and a non-empty title never becomes empty. |
| `Formatting.RemovesBpmInParentheses` | src/formatting.rs:764 | A trailing " (NNN)" BPM group is removed. |
| `Formatting.KeepsSkipSuffix` | src/formatting.rs:759 | " (4U)" is kept. |
| `Formatting.WrapKeepsBalance` | src/formatting.rs:698-723 | Wrapping trailing text keeps the '(' / ')' balance. |
| `Formatting.WrapWithoutClosing` | src/formatting.rs:698-723 | Text without ')' is left as it is. |
| `Formatting.WrapsTrailingText` | src/formatting.rs:806 | "a (b) c" becomes "a (b) (c)". |
| `Formatting.WrapAsWrittenAgrees` | src/formatting.rs:715-721 | Whenever the byte-indexed original does not panic, it gives the corrected result. |
| `Formatting.WrapPanicsOnMultibyte` | src/formatting.rs:715-718 | "A (B)é" makes the original insert inside the two bytes of 'é'. The corrected version gives "A (B)é()". |
| `Formatting.FilenameCharsOneForOne` | src/formatting.rs:295-308 | Each forbidden character becomes one '-' and every other character is kept. |
| `Formatting.FormatFilename` | src/formatting.rs:460-471 | Both fields are free of forbidden characters, quotes and repeated white space. |
| `Formatting.FormatFilenameFieldClean` | src/formatting.rs:460-471 | One file-name field is clean in the same sense. |
| `Formatting.FeatText` | src/formatting.rs:310 | The featuring text, if present, starts with "feat. " and occurs in the title. It is absent exactly when no position matches. |
| `Formatting.MoveFeatShape` | src/formatting.rs:502-536 | Without featuring text nothing moves. Otherwise the artist gains " feat. <name>" and the title, trimmed, loses the featuring text. Names are removed with the corrected removal of the second Findings row. |
| `Formatting.MoveFeatFromTitleToArtist` | src/formatting.rs:502-536 | The in-place update computes the move that `MoveFeat` specifies, with the corrected removal. |
| `Formatting.RemoveFeatArtistsLoop` | src/formatting.rs:522-530 | The corrected nested loop of the second Findings row: it removes each non-empty featured name with each delimiter. |
| `Formatting.MoveSingleFeat` | src/formatting.rs:502-536 | One featured name absent from the artist is appended once, and the featuring text is cut from the title. |
| `Formatting.MoveFeatFound` | src/formatting.rs:502-536 | Once the featuring text is found, the move is: strip the names (corrected removal), append " feat. <name>", and delete the text from the title. |
| `Formatting.AppendFeat` | src/formatting.rs:532-535 | " feat. <names>" is appended only when the artist does not already contain it. Afterwards the artist always contains it. |
| `Formatting.RemoveFeatArtistsKeepsOthers` | src/formatting.rs:522-530 | An artist that names none of the featured artists is left unchanged. |
| `Formatting.RemoveFeatArtistsAsWrittenJoinsArtists` | src/formatting.rs:522-530 | An empty featured name makes the original delete the delimiters, so "A, B" becomes "AB". The corrected version keeps "A, B". |
| `Formatting.ReplaceDashInParentheses` | src/formatting.rs:725-729 | Splitting "(a - b)" groups keeps the balance and the length. The text changes exactly when it holds such a group, so a text without " - " is unchanged. |
| `Formatting.ReplaceDashGroupsUnchanged` | src/formatting.rs:725-729 | From any position on, the pass changes the text exactly when a group starts at or after it. |
| `Formatting.ReplaceDashGroupsFirst` | src/formatting.rs:725-729 | The text before the leftmost group is kept, that group becomes "(x) (y)", and the pass goes on after it. |
| `Formatting.DashGroupSplit` | src/formatting.rs:725-729 | In the result, everything before the leftmost "(x - y)" group is unchanged and the group itself reads "(x) (y)". |
| `Formatting.SplitsDashGroup` | src/formatting.rs:725-729 | "(A - B)" becomes "(A) (B)". |
| `Formatting.StripExtensionCuts` | src/formatting.rs:370-377 | When the lower-cased text ends in the extension, the result is that prefix. Otherwise the text is unchanged. |
| `Formatting.SplitVariousArtists` | src/formatting.rs:398-410 | For "Various Artists", a title "a - t" is split at its first " - ". Any other artist is left alone. |
| `Formatting.DropArtistFromTitle` | src/formatting.rs:412-416 | A title starting with "artist - " loses exactly that prefix once. Any other title is unchanged. |
| `Formatting.FixCase` | src/formatting.rs:445-455 | An all-letters-and-dots title is upper-cased. A long all-capitals title is title-cased, together with a long all-capitals artist. Anything else is unchanged. |
| `Formatting.FinishTags` | src/formatting.rs:435-457 | The final tables and the trim leave both fields trimmed. |
| `Formatting.FormattedTags` | src/formatting.rs:364-458 | The whole normaliser, with the corrected removal and wrap, returns trimmed artist and title. |
| `Formatting.FormatTagsForArtistAndTitle` | src/formatting.rs:364-458 | The method computes `FormattedTags`, step by step, with the corrected removal and wrap. |
| `Formatting.NormalizeTags` | src/formatting.rs:364-419 | The first half of the method: extensions, tables, Various Artists, duplicate artist and leading dots. |
| `Formatting.CleanUpTags` | src/formatting.rs:435-457 | The second half of the method: the tables again, the case rule and the trim. |
| `Formatting.RunHelperPasses` | src/formatting.rs:421-433 | The helper calls in their order, with the corrected removal and wrap. |
| `Formatting.StripExtensions` | src/formatting.rs:370-377 | Each field loses only an ending, and it is cut exactly when it ends, in any case, with one of the extensions. |
| `Formatting.StripExtensionsAtPrefix` | src/formatting.rs:370-377 | Each prefix of the extension list leaves a prefix of the text, and changes it exactly when the text ends with one of those extensions. |
| `Formatting.CutExtension` | src/formatting.rs:371-376 | One extension check. |
| `Formatting.SubstituteTitle` | src/formatting.rs:384-386 | The title table loop, in order. A title holding none of the table's patterns is unchanged. |
| `Formatting.SubstituteBoth` | src/formatting.rs:379-382 | The common table loop over both fields, in order. A field holding none of the table's patterns is unchanged. |
| `Formatting.SubstituteAtNone` | src/formatting.rs:379-386 | A table none of whose patterns occurs in the text leaves it unchanged. |
| `Formatting.CommonSubstitutesRemove` | src/formatting.rs:6-31 | After the common table no NUL, backquote, acute accent, U+FFFD, en dash or em dash is left. |
| `Formatting.ApplyRewrites` | src/formatting.rs:388-396 | The regex table loop over both fields. |
| `Formatting.FormatAlbum` | src/formatting.rs:473-478 | The album has no repeated white space and no outer white space. |
| `Formatting.FormatAlbumKeepsClean` | src/formatting.rs:473-478 | A clean album without a "www." prefix is kept as it is. |
| `Formatting.FormatAlbumDropsWww` | src/formatting.rs:357 | A leading "www." in any case is dropped. |
| `Formatting.SubstituteTablesAreLiteral` | src/formatting.rs:6-51 | The common and title tables have 23 and 18 entries and no empty pattern. There are 5 extensions. |
| `EarlyFormatter.EarlyTablesAreLiteral` | src/formatter.rs:7-59 | The early tables have 18 and 31 entries and no empty pattern. |
| `EarlyFormatter.EarlyFormatFilename` | src/formatter.rs:152-162 | Both file-name fields are clean. |
| `EarlyFormatter.EarlyFilenameFieldClean` | src/formatter.rs:83-87 | One field is clean. |
| `EarlyFormatter.EarlyFilenameJoinsRun` | src/formatter.rs:83-87 | A run of forbidden characters becomes a single '-' here. The later formatter makes one '-' per character. |
| `EarlyFormatter.EarlyFeatText` | src/formatter.rs:88 | The lazy featuring match, if present, starts with "feat. " and occurs in the title. |
| `EarlyFormatter.EarlyMoveFeat` | src/formatter.rs:175-220 | Nothing moves without " feat. " or "(feat. " in the title. Otherwise the artist gains " feat. <name>" and the title loses the match. Names are removed with the corrected removal. |
| `EarlyFormatter.EarlyMoveFeatFromTitleToArtist` | src/formatter.rs:175-220 | The in-place update computes `EarlyMoveFeat`, with the corrected removal loop. |
| `EarlyFormatter.LeadingFeatIsKept` | src/formatter.rs:176 | A title that starts with "feat. " is left alone by the guard, although the pattern matches it. |
| `EarlyFormatter.EarlyRemoveBpm` | src/formatter.rs:354-368 | " (4U)" is kept. The result is a prefix of the text, cut only before a white-space character when the text ends in ')'. |
| `EarlyFormatter.EarlyRemovesBpmGroup` | src/formatter.rs:436 | A trailing " (NN)" or " (NNN)" group is removed. |
| `EarlyFormatter.EarlyKeepsMixGroup` | src/formatter.rs:446-449 | " (NN Mix)" is kept, because the letters pattern needs two or three letters before ')'. |
| `EarlyFormatter.EarlyFormattedTags` | src/formatter.rs:97-149 | The early normaliser, with the corrected removal and wrap, returns trimmed fields. |
| `EarlyFormatter.EarlyFormatTags` | src/formatter.rs:97-149 | The method computes `EarlyFormattedTags`, with the corrected removal and wrap. |
| `EarlyFormatter.EarlyNormalizeTags` | src/formatter.rs:97-124 | The preparing steps. |
| `EarlyFormatter.StripExtensions` | src/formatter.rs:102-110 | The field loses only an ending, and it is cut exactly when it ends, in any case, with one of the extensions. |
| `EarlyFormatter.SubstituteOne` | src/formatter.rs:112-119 | One table loop, in order. A field holding none of the table's patterns is unchanged. |
| `EarlyFormatter.EarlyRunHelperPasses` | src/formatter.rs:126-136 | The helper calls in their order, with the corrected removal and wrap. |
| `PyFormatter.PyTablesAreLiteral` | rename/formatter.py:9-62 | The Python tables have 22 and 27 entries and no empty pattern. |
| `PyFormatter.PyRegexSubstitutesClean` | rename/formatter.py:63-71 | After the regex table there is no bracket or brace, and the only white space is ' '. |
| `PyFormatter.PyFormatFilename` | rename/formatter.py:135-144 | Both fields are clean file-name text. |
| `PyFormatter.PyFilenameFieldClean` | rename/formatter.py:72-77 | One field is clean. |
| `PyFormatter.PyFilenameDashesEachChar` | rename/formatter.py:75 | Each of `\/:*?` becomes its own '-'. |
| `PyFormatter.ReplaceSuffix` | rename/formatter.py:161-172 | A change happens only for text ending in the word, and the result then ends in the replacement. |
| `PyFormatter.ReplacesSuffix` | rename/formatter.py:161-172 | "t - dirty" becomes "t (Dirty)", with any dash and spacing. |
| `PyFormatter.PyMixAddsOneClose` | rename/formatter.py:218-231 | Without " - ", or when a dash group exists, the title is unchanged. Otherwise exactly one ')' is added. |
| `PyFormatter.PyMixWrapsToEnd` | rename/formatter.py:218-231 | "a - b" becomes "a (b)". |
| `PyFormatter.PyMixClosesBeforeGroup` | rename/formatter.py:218-231 | "a - b (c" becomes "a (b) (c". |
| `PyFormatter.PyMixBreaksDashBeforeGroup` | rename/formatter.py:218-231 | "a - (b)" becomes "a -) (b)": the " (" search starts at the dash itself. |
| `PyFormatter.PyRemoveBpm` | rename/formatter.py:204-217 | The result is a prefix of the title, cut only before white space when the title ends in ')'. |
| `PyFormatter.PyRemovesBpmGroup` | rename/formatter.py:207-208 | A trailing " (NN)" group is removed. |
| `PyFormatter.PyRemovesMixGroup` | rename/formatter.py:213-214 | A trailing " (NN Mix)" group is removed. |
| `PyFormatter.PyBalanceCleanup` | rename/formatter.py:155-158 | The four replacements keep the balance. |
| `PyFormatter.PyBalanced` | rename/formatter.py:146-160 | Equal counts give a balanced cleaned title. Otherwise the balance is that of the closing or opening pass. |
| `PyFormatter.PyBalanceClosingCount` | rename/formatter.py:146-160 | After the closing pass the remaining imbalance is the '(' count minus the new ')' count. |
| `PyFormatter.PyBalanceParenthesis` | rename/formatter.py:146-160 | The method computes `PyBalanced`. |
| `PyFormatter.PyFeatText` | rename/formatter.py:232-266 | The featuring match starts with "feat. ", occurs in the title and holds no newline. |
| `PyFormatter.PyReplaceDashGroups` | rename/formatter.py:232-266 | Splitting dash groups keeps the balance. Text without '-' is unchanged. |
| `PyFormatter.PyMoveFeat` | rename/formatter.py:232-266 | Without a featuring match only the title clean-ups apply. With one, the artist gains " feat. <name>" and the title loses the match. |
| `PyFormatter.PyMoveFeatFromTitleToArtist` | rename/formatter.py:232-266 | The method computes `PyMoveFeat`. |
| `PyFormatter.PyMoveFeatFromGroup` | rename/formatter.py:232-266 | "t (feat. n)" gives artist "a feat. n" and title "t ". |
| `PyFormatter.PyMoveFeatFound` | rename/formatter.py:232-266 | The move once the match is found, step by step. |
| `PyFormatter.ArtistGainsFeat` | rename/formatter.py:244-250 | A name absent from the artist is appended once. |
| `PyFormatter.TitleLosesFeat` | rename/formatter.py:235-265 | The featuring group is removed from the title with its parentheses. |
| `PyFormatter.PyEmptyFeatName` | rename/formatter.py:239-246 | A bare "feat. " gives an empty name, and the delimiter removal then turns "A, B" into "AB". |
| `PyFormatter.PyWrap` | rename/formatter.py:313-324 | A text ending in ')' or starting with '(' is kept. The balance is always kept. |
| `PyFormatter.PyWrapTrailingText` | rename/formatter.py:313-324 | "a (b) c" becomes "a (b) (c)". |
| `PyFormatter.PyFinalField` | rename/formatter.py:124-131 | The final pass leaves a field trimmed, single-spaced and without " )" or "( ". |
| `PyFormatter.PyFinalFieldClean` | rename/formatter.py:124-131 | The same holds for the replacement steps in the source's order: trimmed, single-spaced, and no " )" or "( ". |
| `PyFormatter.PyFixCase` | rename/formatter.py:90-94 | An all-lower-case field, or an all-upper-case one longer than twelve characters, is title-cased. Every other field, including one with no cased letters, is kept. |
| `PyFormatter.PyFormattedTags` | rename/formatter.py:79-133 | Two blank fields give two empty fields. Otherwise both fields come out trimmed, single-spaced and without " )" or "( ". |
| `PyFormatter.PyFormatTags` | rename/formatter.py:79-133 | The method computes `PyFormattedTags`. |
| `PyFormatter.PyNormalizeTags` | rename/formatter.py:81-110 | The preparing steps. |
| `PyFormatter.PyRunHelperPasses` | rename/formatter.py:112-119 | The helper calls in their order. |
| `LegacyRenamer.AddMissingClosingParentheses` | renamer.py:228-249 | The open counter stays at most one. The output is the scan with ")" before each '(' that opens while a group is open, plus a final ")" if one is left open. The input is kept in order. |
| `RustRenamer.FormatTrack` | src/renamer.rs:210-236 | Only the last regex, applied to the original input, survives. Each table loop computes its table on the running value, but the regex loops then overwrite that work. |
| `RustRenamer.FormatTrackKeepsParenFree` | src/renamer.rs:226-232 | An artist without '(' comes back unchanged. |
| `RustRenamer.FormatTrackKeepsBracket` | src/renamer.rs:226-232 | "A [Remix]" keeps its brackets, because the bracket regexes are overwritten. |
| `RustRenamer.FormatTrackChained` | src/renamer.rs:210-236 | The chained version applies every table in order, and no bracket or brace is left. |
| `RustRenamer.ChainedHasNoBrackets` | src/renamer.rs:65-72 | After the whole regex table no bracket or brace is left. |
| `RustRenamer.RenamerTablesAreLiteral` | src/renamer.rs:41-72 | The renamer tables have 12, 8 and 7 entries. |
| `FileNames.PyGetTagsFromFilename` | rename/renamer.py:248-258 | A name without " - " gives two empty tags. Otherwise both tags are stripped. |
| `FileNames.PyTagsRoundTrip` | rename/renamer.py:248-258 | "a - t" splits back into a and strip(t) for a stripped artist without " - " that does not end in " -". |
| `FileNames.PyTagsRoundTripTrimmed` | rename/renamer.py:248-258 | The same split with a stripped title gives back exactly (a, t). |
| `FileNames.PyTagsArtistEndingInDash` | rename/renamer.py:248-258 | An artist ending in " -" does not round-trip: "x - - t" gives ("x", "- t"). |
| `FileNames.Stem` | rename/renamer.py:266-273 | The stem followed by the suffix is the name. |
| `FileNames.AppendDuplicateTag` | rename/renamer.py:261-274 | A stem already tagged is kept. Otherwise the marker with the first eight digest characters goes between stem and suffix, in the same folder. |
| `FileNames.AppendDuplicateTagIdempotent` | rename/renamer.py:261-274 | Tagging a tagged path again changes nothing, whatever the second digest. |
| `FileNames.MarkerIsTag` | rename/renamer.py:266-273 | The appended marker is recognised as a duplicate tag. |
| `FileNames.GetTagsFromFilename` | src/utils.rs:171-192 | A name without " - " gives no tags when empty and otherwise an empty artist with the whole name as title. |
| `FileNames.GetTagsTrimmed` | src/utils.rs:171-192 | The split fields are trimmed. |
| `FileNames.GetTagsDropsVariousArtists` | src/utils.rs:182-184 | A leading "Various Artists" is stripped before splitting. |
| `FileNames.GetTagsVariousArtistsOnly` | src/utils.rs:171-192 | "Various Artists" followed by text without a separator gives no tags. |
| `FileNames.GetTagsRoundTrip` | src/utils.rs:171-192 | "a - t" splits back into (a, t) for non-empty trimmed fields, when a has no separator, does not end in " -" and is not "Various Artists". |
| `FileNames.ContainsSubpath` | src/utils.rs:111-134 | True if and only if the sub-path is non-empty, not longer than the main path, and some start position has every paired component equal. Pairing stops at the end of the main path. |
| `FileNames.ContainsSubpathOccurrence` | src/utils.rs:111-134 | Every real occurrence is found. |
| `FileNames.ContainsSubpathTailOverlap` | src/utils.rs:121-131 | ["a","b"] is said to contain ["b","c"], though it does not. |
| `FileNames.ContainsSubpathExact` | src/utils.rs:111-134 | Corrected: true if and only if the sub-path is non-empty and occurs as a whole slice. |
| `Genre.GenreRegexesClean` | src/genre.rs:15-22 | After the regex table no bracket or brace is left and no white space is doubled. |
| `Genre.ReplaceMatchesNone` | src/genre.rs:25-35 | Text where a pattern matches nowhere is unchanged by it. |
| `Genre.ReorderHouseGenres` | src/genre.rs:64-71 | The method computes the reordering function. |
| `Genre.HouseMovesToFront` | src/genre.rs:64-71 | "w1 … wn House" becomes "House w1 … wn" for comma-free words. |
| `Genre.FormatGenre` | src/genre.rs:41-62 | The method applies the tables in order, then the reordering. |
| `Genre.SubstituteGenre` | src/genre.rs:47-49 | The literal table loop. |
| `Genre.MapGenres` | src/genre.rs:55-57 | The mapping table loop, in order. A genre that no pattern matches anywhere is unchanged. |
| `Genre.MapGenreNone` | src/genre.rs:25-36 | Each prefix of the mapping table leaves a genre that none of its patterns matches unchanged. |
| `Genre.ShortGenreIsDropped` | src/genre.rs:42-45 | A genre shorter than three characters after trimming becomes empty. |
| `Genre.GenreTablesAreLiteral` | src/genre.rs:5-36 | The tables have 7 and 10 entries and no empty pattern. |
| `GenreExamples.RnbSpellings` | src/genre.rs:78-82 | "Rnb" and "R'n'B" become "R&B". |
| `GenreExamples.GenreSubstitutesRemove` | src/genre.rs:5-13 | No NUL, backquote, backslash or U+FFFD is left. |
| `Genre.SlashesSpaced` | src/genre.rs:10-11 | A backslash becomes "/" and then " / ", so backslashes and slashes both end up as " / ". |
| `Genre.GenreSubstitutesSpaces` | src/genre.rs:5-13 | When the first four entries do not occur, the table puts " / " for every backslash and "/", a space for every U+FFFD, and keeps every other character. |
| `GenreExamples.OneCharSpaced` | src/genre.rs:5-13 | Between two words free of the table's characters, a backslash becomes " / " and a U+FFFD becomes " ". |
| `GenreExamples.BackslashSpaced` | src/genre.rs:85 | The table turns "Hip\\Hop" into "Hip / Hop". |
| `GenreExamples.ReplacementCharSpaced` | src/genre.rs:87 | The table turns "Jazz" U+FFFD "Blues" into "Jazz Blues". |
| `GenreExamples.HipHopSpacesCollapse` | src/genre.rs:86 | The regex table turns "Hip  Hop" into "Hip Hop". |
| `GenreExamples.HipHopMapped` | src/genre.rs:29 | The mapping turns "Hip Hop" into "Hip-Hop". |
| `GenreExamples.OtherMapped` | src/genre.rs:27 | The mapping deletes "other". |
| `FileFormats.ParseFileFormat` | src/file_format.rs:18-25 | "mp3" gives Mp3, and "aif" or "aiff" gives Aif, in any ASCII case. Anything else is an error quoting the text. |
| `FileFormats.ParseFormatName` | src/file_format.rs:27-38 | The display name parses back to the format. |
| `FileFormats.AiffDisplaysAsAif` | src/fileformat.rs:15-32 | "aiff" parses but displays as "aif". |
| `FileFormats.ParseIgnoresCase` | src/file_format.rs:44-55 | Upper- or lower-casing the text does not change the parse. |
| `FileFormats.DefaultIsMp3` | src/file_format.rs:8-13 | The default format is Mp3, shown as "mp3". |
| `FileFormats.OtherFormatsRefused` | src/file_format.rs:57-62 | "wav", "m4a" and "flac" are refused. |
| `TrackTags.NewTags` | src/tags.rs:18-26 | The current fields are the arguments and the formatted fields are empty. |
| `TrackTags.UnchangedMeansSameTags` | src/tags.rs:36-42 | "Not changed" holds exactly when the formatted fields equal the current ones, and the two names then agree. |
| `TrackTags.NewTagsChanged` | src/tags.rs:18-42 | Fresh tags count as changed unless every field is empty. |
| `TrackTags.SameNameYetChanged` | src/tags.rs:28-42 | Equal names do not mean unchanged tags, since the separator can move. |
| `TrackTags.CurrentNameReadsBack` | src/tags.rs:28-30 | The current name splits back into artist and title. |
| `Paths.StemAndExtension` | src/track.rs:25-51 | The file name is the stem, '.', and the extension, and the extension holds no '.'. |
| `Tracks.TrackFields` | src/track.rs:25-51 | On success: stem + "." + extension is the file name, the format parses from the extension and the root is the parent. The errors are the source's four messages. |
| `Tracks.NewTrack` | src/track.rs:25-51 | Succeeds exactly when the fields derive, with all flags off. Otherwise it returns the same error. |
| `Tracks.NewTrackWithExtension` | src/track.rs:53-71 | Succeeds exactly when the path has a stem and a parent, with the given extension and format. |
| `Tracks.TryFromPath` | src/track.rs:73-98 | A track exists exactly when the trimmed extension is non-empty and a supported format. |
| `Tracks.ExtensionFound` | src/track.rs:73-98 | A found extension implies a stem and a parent. |
| `Tracks.Track.constructor` | src/track.rs:40-50 | The fields are set and all flags are off. |
| `Tracks.Track.Show` | src/track.rs:101-106 | The track is marked printed, and nothing else changes. |
| `Tracks.CompareAgreesWithEq` | src/track.rs:114-132 | The ordering says Equal exactly when `eq` holds, and it is antisymmetric. |
| `Tracks.FilenameIsFileName` | src/track.rs:109-111 | `filename` rebuilds the file name of the path. |
| `Tracks.SameStemElsewhereIsEqual` | src/track.rs:177-181 | Tracks with one stem in different folders and formats are equal. |
| `Tracks.NewTrackExample` | src/track.rs:156-164 | "/users/test/test_song.mp3" gives the stem, extension, format and root that the test expects. |
| `PyTracks.NewPyTrack` | rename/track.py:5-11 | The extension always starts with ".", and a missing dot is added. |
| `PyTracks.NewPyTrackNormalises` | rename/track.py:5-14 | Rebuilding changes nothing. "mp3" and ".mp3" are alike, and both count as mp3. |
| `PyTracks.EqualTracksHashAlike` | rename/track.py:28-37 | Equal tracks hash alike. |
| `PyTracks.TextComparisons` | rename/track.py:28-57 | Against a string, the six operators are the order of the stems. |
| `PyTracks.SameStemOtherFolder` | rename/track.py:28-54 | Same stem in two folders: not equal, and each is greater than the other. |
| `PyTracks.SameFolderOrder` | rename/track.py:42-57 | Within one folder the operators form a total order. |
| `SeratoTags.ParseSeratoTag` | src/serato/mod.rs:107-116 | Exactly the five descriptions are accepted. Anything else gives "Unknown tag description: " followed by the text. |
| `SeratoTags.DescriptionParses` | src/serato/mod.rs:107-116 | Every description parses back to its kind. |
| `SeratoTags.TagNamesDistinctNotParsed` | src/serato/mod.rs:119-143 | The display names are distinct, and none of them parses. |
| `SeratoTags.ParseAnalysis` | src/serato/analysis.rs:22-33 | Succeeds exactly with two or more bytes, which become major and minor. |
| `SeratoTags.AnalysisIgnoresRest` | src/serato.rs:418-430 | Bytes after the first two do not matter. |
| `SeratoTags.AnalysisTextReadsBack` | src/serato/analysis.rs:37-41 | "Version: M.m" reads back as the two numbers. |
| `SeratoTags.ParseOverview` | src/serato/overview.rs:30-45 | Fails exactly below two bytes. Otherwise it returns every whole 16-byte block after the header, in order. |
| `SeratoTags.ParseBeatgrid` | src/serato/beatgrid.rs:62-100 | Under 11 bytes is an error. The count is the big-endian word at offset 2, and succeeds exactly when every marker fits. Marker i is read from offset 6 + 8i. |
| `SeratoTags.TerminalOnlyLast` | src/serato.rs:466-503 | Only the last marker can be terminal, and it is exactly when one footer byte follows it. |
| `SeratoText.FormatPositionTimestamp` | src/serato/mod.rs:189-194 | As written: minutes and seconds zero-padded, then the rounded tenths printed without a bound. |
| `SeratoText.TimestampFields` | src/serato/mod.rs:189-194 | The fields read back as minutes, seconds and rounded tenths. |
| `SeratoText.TimestampShowsTenTenths` | src/serato/mod.rs:189-194 | 999 ms prints "00:00.10". |
| `SeratoText.PositionTimestamp` | src/serato/mod.rs:189-194 | Corrected: rounds to the nearest tenth first and carries into the seconds. |
| `SeratoText.PositionTimestampRounds` | src/serato/mod.rs:189-194 | The corrected text has seconds below 60 and a single tenths digit. |
| `SeratoText.PositionTimestampCarries` | src/serato/mod.rs:189-194 | 999 ms prints "00:01.0". |
| `SeratoText.TimestampsAgreeBelow950` | src/serato/mod.rs:189-194 | Both versions agree when no carry happens. |
| `SeratoText.ByteStringLayout` | src/serato/mod.rs:199-204 | Each byte gives two hex digits, with cells separated by single spaces and no trailing space. |
| `SeratoText.Hexdump` | src/serato/mod.rs:208-244 | The loop builds the concatenation of one line per 16 bytes. |
| `SeratoText.AppendLine` | src/serato/mod.rs:212-241 | One loop iteration appends one line. |
| `SeratoText.HexdumpNewlines` | src/serato/mod.rs:208-244 | The dump has one newline per 16-byte line. |
| `SeratoText.HexdumpWidth` | src/serato.rs:575-614 | Without the ASCII column every line is 63 characters long. |
| `SeratoMarkers.ReadBytes` | src/serato/markers.rs:309-316 | Returns the bytes up to the first NUL and the position after it. |
| `SeratoMarkers.Base64SpanAsWritten` | src/serato/markers.rs:66-72 | As written: the slice from 2 to the first NUL, which panics when that NUL is at position 0 or 1. |
| `SeratoMarkers.SpanPanicsOnEarlyNul` | src/serato/markers.rs:66-72 | [1, 0, 65, 0] panics. |
| `SeratoMarkers.Base64Span` | src/serato/markers.rs:66-72 | Corrected: succeeds exactly when a NUL exists at position 2 or later, and returns the bytes from 2 to it. |
| `SeratoMarkers.Base64SpanAgrees` | src/serato/markers.rs:66-72 | The original panics exactly on an early NUL and otherwise agrees. |
| `SeratoMarkers.RemoveNewlines` | src/serato/markers.rs:74-76 | No line feed is left and nothing is added. |
| `SeratoMarkers.RemoveNewlinesKeeps` | src/serato/markers.rs:74-76 | Text without line feeds is kept. |
| `SeratoMarkers.Padded` | src/serato/markers.rs:78-83 | The length becomes a multiple of 4, the text is a prefix, and the padding is '=' (or "A" first for a remainder of 1). |
| `SeratoMarkers.LoadColor` | src/serato/markers.rs:156-165 | Succeeds exactly on four bytes, read as ARGB. Otherwise it gives "Invalid data length for Color". |
| `SeratoMarkers.ColorRoundTrip` | src/serato/markers.rs:143-165 | The colour's bytes load back as the colour. |
| `SeratoMarkers.LoadBpmLock` | src/serato/markers.rs:122-129 | Succeeds exactly on one byte, and it is locked exactly when that byte is non-zero. |
| `SeratoMarkers.BpmLockRoundTrip` | src/serato/markers.rs:122-129 | The lock's byte loads back. |
| `SeratoMarkers.NameFieldTerminated` | src/serato/markers.rs:195 | A NUL-terminated name loads without its NUL. |
| `SeratoMarkers.LoadCue` | src/serato/markers.rs:179-207 | Under 13 bytes is an error. Otherwise it succeeds exactly when the name is UTF-8, with index, position and colour from their offsets. A blank name is replaced by the corrected timestamp of the last Findings row. |
| `SeratoMarkers.CueAlwaysNamed` | src/serato/markers.rs:195-200 | A loaded cue always has a name, since an empty one becomes the timestamp. |
| `SeratoMarkers.CueRoundTrip` | src/serato/markers.rs:179-207 | A cue's bytes load back as the cue. |
| `SeratoMarkers.UnnamedCueShowsTimestamp` | src/serato/markers.rs:195-200 | An unnamed cue is named by its position's corrected timestamp. |
| `SeratoMarkers.LegacyLoadCue` | src/serato.rs:188-211 | Same offsets. The name is kept as read. |
| `SeratoMarkers.LoadLoop` | src/serato/markers.rs:223-250 | Under 15 bytes is a length error, and under 20 an end-of-data error. Otherwise it succeeds exactly when the name is UTF-8, with the fields from their offsets. |
| `SeratoMarkers.LoopRoundTrip` | src/serato/markers.rs:223-250 | A loop's bytes load back as the loop. |
| `SeratoMarkers.LegacyLoadLoop` | src/serato.rs:256-284 | As written: the colour is read from 18, so 23 bytes are needed. |
| `SeratoMarkers.LegacyLoopRejectsUnnamed` | src/serato.rs:256-284 | An unnamed loop, 21 bytes long, fails to load. |
| `SeratoMarkers.LegacyLoopMisreadsColor` | src/serato.rs:230-240 | The colour it reads is not the one stored at offset 0x0e. |
| `SeratoMarkers.LoadEntry` | src/serato/markers.rs:111-119 | Unknown names give "Unknown entry type: " followed by the name. A known name selects its loader. |
| `SeratoMarkers.ParseMarkers` | src/serato/markers.rs:66-109 | The method computes the specification of the whole parse, with the corrected span of the sixth Findings row. |
| `SeratoMarkers.ReadEntries` | src/serato/markers.rs:95-108 | The entry loop computes the recursive entry reading. |
| `SeratoMarkers.EntriesRoundTrip` | src/serato/markers.rs:95-108 | Well-formed entries, serialised back to back, read back in order. |
| `SeratoMarkers.BlankNameBeforeEndFails` | src/serato/markers.rs:96-105 | A blank entry name before the end of the data is an error. |
| `SeratoMarkers.LegacyStopsAtBlankName` | src/serato.rs:539-544 | The older parser stops at a name that trims to nothing (empty or white space only), whatever data follows. |
| `SeratoMarkers.ParseRoundTrip` | src/serato/markers.rs:66-109 | A frame built from base64 text of serialised entries parses back to those entries. |
| `SeratoMarkers.BlankIsTrimmedAway` | src/serato/markers.rs:98-99 | "Blank" is exactly "trims to empty". |
| `Bytes.U32AtBytes` | src/serato/beatgrid.rs:67-68 | A word's four big-endian bytes read back as the word. |
| `Bytes.ZeroPaddedValue` | src/serato/mod.rs:194 | `{:02}`-style digits read back as the number. |
| `Bytes.Hex2Value` | src/serato/mod.rs:201 | `{:02x}` gives two hex digits that read back as the byte. |
| `Bytes.HexOffsetWidth` | src/serato/mod.rs:216 | `{:08x}` of an offset below 2^32 is eight digits. |

## Left out

- The `&mut String` helpers of `src/formatting.rs` and `src/formatter.rs` are modelled as functions from the old text to the new one, and their loops as methods over values. Aliasing of the string is not modelled.
- The regex tables of `format_tags` are passed as parameters (`Rewrites`, or a list of functions). Only the patterns the properties need are written out as hand-made matchers: white-space runs, brackets, empty groups, `(\S)\(`, the featuring, BPM, dash and wrap patterns, the genre mappings and the dirty/clean suffix.
- Python's `titlecase` package and Rust's title-casing are a parameter.
- Unicode NFC normalisation (`normalize_str`, src/utils.rs:195) is a parameter. The lemmas use the identity.
- Case folding (`to_lowercase`, `to_uppercase`, `(?i)`, `re.IGNORECASE`) is ASCII, plus the non-ASCII characters that fold to ASCII letters in case-insensitive classes (U+212A and U+017F in Rust, U+0130 and U+0131 in Python). `\d` is ASCII digits, and `\b` uses ASCII word characters.
- Python `$` is modelled as end of text. The titles reaching the anchored patterns have been stripped, so a final newline cannot occur there.
- Python `str.islower`/`isupper` are modelled on ASCII letters.
- Python `\s` in the BPM patterns uses the Rust white-space predicate. Python also matches U+001C–U+001F.
- Base64 decoding and UTF-8 decoding are parameters of the Serato decoders. The UTF-8 error text comes from that parameter.
- The Serato byte cursors are modelled as index reads. The `vec![0; len]` allocation in the entry loop is not modelled. Cue and loop loading are functions.
- `f32` positions and tempos in the beat grid and the overview are kept as their raw bytes.
- `Autotags` (src/serato/autotags.rs) and waveform drawing are not part of this model.
- File system access, renaming, hashing (the digest is a parameter of `AppendDuplicateTag`), dates, colour diffs, prompts and all console output are left out. This includes the line that `show` prints and the message `try_from_path` prints.
- `PyTracks.SameStemOtherFolder`: the repository's Python track tests expect equality by stem alone. The model follows `rename/track.py`, which compares folders too.
- `FileNames.PyTagsRoundTrip`: the round trip also needs an artist that does not end in " -". `PyTagsArtistEndingInDash` shows the failing case.
- `FileNames.GetTagsRoundTrip`: the round trip needs non-empty fields and an artist other than "Various Artists". Otherwise the source returns other values by design.
- `PyFormatter.PyMoveFeat`: the empty featured name is kept as written, so the delimiters are deleted. `PyEmptyFeatName` states it. No corrected Python version is modelled.
- `is_mp3`, `filename` and `full_path` of `rename/track.py` are plain functions. Their properties are part of `NewPyTrackNormalises`.
- `Formatting.FixCase`: `to_uppercase` is ASCII, so a title such as "éCOLE DE MUSIQUE" counts as all capitals and is title-cased, where Rust keeps it.
- `Formatting.RemoveFeatArtistsLoop`: skips an empty featured name, the correction of the second Findings row. As written, an empty name deletes every delimiter.
- `Formatting.MoveFeatShape`: uses the corrected removal, so it does not show the joined artist that an empty featured name gives as written.
- `Formatting.MoveFeatFound`: uses the corrected removal.
- `Formatting.MoveFeatFromTitleToArtist`: runs the corrected removal loop.
- `Formatting.RunHelperPasses`: runs the corrected wrap of the first Findings row and the corrected removal, so the panic on a multibyte character after the last ")" is not modelled here.
- `Formatting.FormattedTags`: composes the corrected removal and wrap.
- `Formatting.FormatTagsForArtistAndTitle`: computes `FormattedTags`, with the same corrections.
- `EarlyFormatter.EarlyMoveFeat`: uses the corrected removal. src/formatter.rs:205-212 has the same code as src/formatting.rs:522-530, so as written an empty featured name deletes every delimiter there too.
- `EarlyFormatter.EarlyMoveFeatFromTitleToArtist`: runs the corrected removal loop.
- `EarlyFormatter.EarlyRunHelperPasses`: runs the corrected wrap. src/formatter.rs:386-389 does the same byte-index insert as src/formatting.rs:715-718 and panics on "A (B)é".
- `EarlyFormatter.EarlyFormattedTags`: composes the corrected removal and wrap.
- `EarlyFormatter.EarlyFormatTags`: computes `EarlyFormattedTags`, with the same corrections.
- `SeratoMarkers.LoadCue`: a blank name becomes the corrected `PositionTimestamp`, not `format_position_timestamp` as written (src/serato/markers.rs:196-197). So an unnamed cue at 999 ms is named "00:01.0" here, where the source gives "00:00.10" (`SeratoText.TimestampShowsTenTenths`). `LoadEntry`, `ReadEntries` and `ParseMarkers` load cues through it.
- `SeratoMarkers.UnnamedCueShowsTimestamp`: states the corrected timestamp, for the same reason.
- `SeratoMarkers.ParsedMarkers`: takes the base64 text with the corrected `Base64Span`. As written, src/serato/markers.rs:66-72 and src/serato.rs:506-511 panic when byte 0 or 1 is a NUL, e.g. on [1, 0, 65, 0] (`SeratoMarkers.SpanPanicsOnEarlyNul`). `Base64SpanAgrees` shows that the two spans agree on every other input.
- `SeratoMarkers.ParseMarkers`: computes `ParsedMarkers`, so it does not model that panic either.
- `SeratoText.Hexdump`: the model follows `src/serato/mod.rs`. The ASCII column of `src/serato.rs` is the same.

## Findings

| source | as written | input that shows it | evidently intended | confidence | as-written member | corrected member |
|---|---|---|---|---|---|---|
| src/formatting.rs:715-718 | `result.insert(index + 2, '(')` uses a byte index two past the last ')' | "A (B)é": the insert lands inside the two bytes of 'é' and panics | insert the '(' after the character that follows the ')' | not executed | `Formatting.WrapPanicsOnMultibyte` | `Formatting.WrapAsWrittenAgrees` |
| src/formatting.rs:522-530 | featured names are removed with every delimiter, including an empty name | artist "A, B" with featured names ["C", ""]: ", " is deleted and "AB" results | skip empty featured names | not executed | `Formatting.RemoveFeatArtistsAsWrittenJoinsArtists` | `Formatting.RemoveFeatArtistsKeepsOthers` |
| src/renamer.rs:226-232 | each regex pass rewrites the original `artist`/`title`, discarding all earlier passes | "A [Remix]" keeps its brackets | apply each pass to the running value | not executed | `RustRenamer.FormatTrackKeepsBracket` | `RustRenamer.ChainedHasNoBrackets` |
| src/utils.rs:121-131 | `zip` stops at the end of the main path, so a sub-path overhanging the end matches | ["a","b"] is said to contain ["b","c"] | require the whole sub-path to fit | not executed | `FileNames.ContainsSubpathTailOverlap` | `FileNames.ContainsSubpathExact` |
| src/serato.rs:256-284 | `Loop::load` skips 8 bytes before the colour, so it reads the colour from offset 18 | an unnamed 21-byte loop fails to load, and a named one gets the wrong colour | read the colour at 0x0e as the table at lines 230-240 says | not executed | `SeratoMarkers.LegacyLoopMisreadsColor` | `SeratoMarkers.LoopRoundTrip` |
| src/serato/markers.rs:66-72 | `data[2..end]` with `end` the first NUL anywhere | [1, 0, 65, 0]: the slice start 2 exceeds the end 1 and panics | search for the NUL from position 2 | not executed | `SeratoMarkers.SpanPanicsOnEarlyNul` | `SeratoMarkers.Base64SpanAgrees` |
| src/serato/mod.rs:189-194 | tenths are rounded after the seconds are taken, without a carry | 999 ms prints "00:00.10" | round to tenths first and carry: "00:01.0" | not executed | `SeratoText.TimestampShowsTenTenths` | `SeratoText.PositionTimestampCarries` |
