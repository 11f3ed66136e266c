# Bingo pages, modelled in Dafny

This project models the three pages of a browser bingo game in which every
participant is an artist taken from a music collection:

- **Design** (`DesignPage`, design.dfy): builds the roster.
  - It keeps the selected `.mp3` files in any letter case.
  - It reads an artist name off each file name: the trimmed text before the first `-`.
  - It deduplicates the names in order of first occurrence.
  - It deals the numbers `1..N` with a Fisher–Yates shuffle done in place on an array.
- **Play** (`PlayPage`, play.dfy, with the scoring in `Scoring`, scoring.dfy): runs a game.
  - The drawn numbers are a list. Numbers are drawn at random, typed in by hand, retracted or reset.
  - After every change each loaded card is scored:
    - the numbers on it that have been drawn;
    - the rows and columns whose numbers have all been drawn;
    - its share of drawn cells.
  - Cards with at least one match are ranked by that share, highest first.
- **Print preview** (`PrintPreviewPage`, print_preview.dfy): normalises the loaded card records.
  - Missing ids, grid sizes, display modes and cell names are filled in.
  - Each cell is shown as a name, a number, or `"<number>. <name>"`.

Two support modules model the JavaScript built-ins the pages use:

- `Common`: `null`/`undefined` as `Option`, `Array.prototype.filter`, the first-occurrence search behind `Array.prototype.find` and `split('-')[0]`, and freedom from duplicates.
- `Text`:
  - `String.prototype.trim` with the ECMAScript whitespace set;
  - ASCII lower-casing;
  - the decimal rendering of `Number.prototype.toString` for integers, with a parser as its inverse.

The stateful parts of each page are classes whose methods update their fields:

- `PlayPage.Play`, with the invariant that the drawn list has no duplicates and holds only roster numbers.
- `DesignPage.Design`.
- `PrintPreviewPage.PrintPreview`, with the invariant that every held card is normalised.

The computations are modelled as follows:

- Pure computations are functions.
- Loops that count or swap are methods proved against those functions:
  - `Scoring.CountCompletedRows`;
  - `Scoring.CountCompletedCols`;
  - `DesignPage.FisherYates`;
  - `DesignPage.ScanFiles`, the file loop of `extractArtists`, which `DesignPage.Design.ExtractArtists` runs before it stores the roster.

Randomness, dialogs and files are handled this way:

- `Math.random` is replaced by indices the caller supplies. Their range is the range of `Math.floor(Math.random() * k)`.
- Alerts become the `DrawOutcome` a draw returns.
- The removal confirmation is taken as accepted.
- A file load starts from the parsed JSON array. `None` stands for a file that failed to parse or is not an array, which leaves the state unchanged.

The share of drawn cells (`matchPercentage`, a float in the page) is kept as the exact ratio `matchedCount / |numbers|`. Two shares are compared by cross-multiplication.

The three pages do not generate cards, check feasibility, score diagonals or track new completions, so none of that is modelled. The ranking key is the match share.

## Model

| member | source | states |
|---|---|---|
| Common.Filter | src/app/pages/play/play.ts:60 | `filter` keeps exactly the elements satisfying the test, and never lengthens the input |
| Common.FilterCount | src/app/pages/play/play.ts:60 | `filter` keeps each passing element as often as the input holds it and drops every other |
| Common.FilterAppend | src/app/pages/play/play.ts:93 | filtering keeps the input order: filtering a concatenation concatenates the filtered parts |
| Common.IndexOf | src/app/pages/play/play.ts:210 | the first position holding the element, and the length exactly when it is absent |
| Common.DistinctMultiplicity | src/app/pages/play/play.ts:166-168 | a list has no duplicates iff every element occurs at most once in its multiset |
| Text.LowerAll | src/app/pages/design/design.ts:33 | `toLowerCase` on ASCII: same length, no upper-case ASCII letter left, every upper-case letter shifted to its lower case and every other character kept |
| Text.IntToString | src/app/pages/print-preview/print-preview.ts:118 | `toString` of an integer: non-empty, a leading minus exactly for negative numbers, and no leading zero except in `0` itself |
| Text.Trim | src/app/pages/design/design.ts:53 | `trim` yields the infix left after removing whitespace at both ends; empty exactly when the text is all whitespace |
| Text.TrimExcludes | src/app/pages/design/design.ts:51-53 | a character absent from the text is absent from its trimmed form, so the name before the first `-` contains no `-` |
| Text.IntRoundTrip | src/app/pages/print-preview/print-preview.ts:118 | the decimal text of any integer is well formed and parses back to that integer |
| Scoring.EffectiveGridSize | src/app/pages/play/play.ts:62 | the grid size defaults to 5 when absent or zero, otherwise the card's value; never zero |
| Scoring.MatchedNumbers | src/app/pages/play/play.ts:60 | exactly the card's numbers that have been drawn, with their multiplicities, so at most as many as the card holds |
| Scoring.MatchedNumbersAppend | src/app/pages/play/play.ts:60 | the matched numbers keep card order |
| Scoring.CellAt | src/app/pages/play/play.ts:78 | reading `numbers[i]` yields `undefined` exactly outside the card, otherwise a number of the card |
| Scoring.Column | src/app/pages/play/play.ts:76-79 | the column the `push` loop builds has `g` cells, each either `undefined` or a number of the card |
| Scoring.RowSlice | src/app/pages/play/play.ts:66-67 | a row is the clamped `slice(row*g, row*g+g)`: at most `g` numbers, all from the card |
| Scoring.CountRows | src/app/pages/play/play.ts:64-71 | the completed-row count never exceeds the number of rows examined |
| Scoring.CountCols | src/app/pages/play/play.ts:73-82 | the completed-column count never exceeds the number of columns examined |
| Scoring.CountRowsAll | src/app/pages/play/play.ts:64-71 | the row count reaches its bound iff every examined row is completely drawn |
| Scoring.CountColsAll | src/app/pages/play/play.ts:73-82 | the column count reaches its bound iff every examined column is completely drawn |
| Scoring.Score | src/app/pages/play/play.ts:58-90 | a card's score: the card itself, `matchedCount` equal to the matched list's length and at most the card's size, membership exactly the drawn card numbers, rows and columns at most the grid size |
| Scoring.RowsCompleteIffFull | src/app/pages/play/play.ts:64-71 | on a full `g*g` card all `g` rows are complete iff every number on the card is drawn |
| Scoring.ColsCompleteIffFull | src/app/pages/play/play.ts:73-82 | on a full `g*g` card all `g` columns are complete iff every number on the card is drawn |
| Scoring.ShortCardRowsAndColumns | src/app/pages/play/play.ts:64-82 | on a card shorter than its grid, missing row cells count as drawn and missing column cells do not |
| Scoring.TopRowExampleRows | src/app/pages/play/play.ts:64-71 | a 3×3 card of 1..9 with 1, 2, 3 drawn has exactly one completed row |
| Scoring.TopRowExampleCols | src/app/pages/play/play.ts:73-82 | the same card and draws have no completed column |
| Scoring.RatioAtLeast | src/app/pages/play/play.ts:94 | the comparator `b.matchPercentage - a.matchPercentage` by cross-multiplication: a card without matches ranks at least as high only against another without matches or when it has no cells |
| Scoring.RatioAtLeastIsShare | src/app/pages/play/play.ts:61 | for cards with numbers, the cross-multiplied comparison holds exactly when the first share `matchedCount / numbers.length` is at least the second |
| Scoring.RatioTransitive | src/app/pages/play/play.ts:94 | comparing match shares by cross-multiplication is transitive through a card with cells |
| Scoring.DescendingSorted | src/app/pages/play/play.ts:94 | a list whose neighbours are in non-increasing share order is ordered for every pair |
| Scoring.InsertByRatio | src/app/pages/play/play.ts:94 | inserting one score adds exactly that element and keeps a descending list descending |
| Scoring.SortByRatio | src/app/pages/play/play.ts:94 | the ranking is a permutation of its input in non-increasing share order |
| Scoring.ScoreAll | src/app/pages/play/play.ts:58-91 | one score per loaded card |
| Scoring.KeepMatched | src/app/pages/play/play.ts:93 | exactly the scores with at least one match are kept |
| Scoring.NoDrawsNoMatch | src/app/pages/play/play.ts:60 | a card scored against no drawn numbers matches none |
| Scoring.NoneKept | src/app/pages/play/play.ts:93 | a list whose scores all lack a match filters to the empty list |
| Scoring.NothingDrawnNothingMatched | src/app/pages/play/play.ts:56 | with nothing drawn, no card has a match |
| Scoring.ScoreAllMembers | src/app/pages/play/play.ts:58-91 | every score belongs to a loaded card, and every loaded card is scored |
| Scoring.RankingMembers | src/app/pages/play/play.ts:93-94 | the ranked list holds exactly the scores with at least one match |
| Scoring.RankingSorted | src/app/pages/play/play.ts:93-94 | the ranked list is ordered by share, highest first |
| Scoring.MatchedCards | src/app/pages/play/play.ts:52-95 | empty when nothing is drawn; otherwise a permutation of the scores with a match, each the score of a loaded card, every card with a match present, ordered by non-increasing share |
| Scoring.CountCompletedRows | src/app/pages/play/play.ts:64-71 | the row loop computes the completed-row count of the first `g` rows |
| Scoring.CountCompletedCols | src/app/pages/play/play.ts:73-82 | the column loops, building each column with `push`, compute the completed-column count |
| Scoring.ScoreCard | src/app/pages/play/play.ts:58-90 | the `map` callback's loops compute the card's score |
| PlayPage.NumbersOf | src/app/pages/play/play.ts:166-167 | `artists.map(a => a.number)`, position by position |
| PlayPage.Available | src/app/pages/play/play.ts:166-168 | a number is available iff some artist holds it and it is not drawn |
| PlayPage.AvailableCount | src/app/pages/play/play.ts:161-168 | with distinct artist numbers and a duplicate-free drawn list of roster numbers, exactly as many numbers are available as artists not yet drawn |
| PlayPage.AvailableCountIfValid | src/app/pages/play/play.ts:161-168 | for any roster and drawn list, distinct roster numbers and a duplicate-free drawn list of roster numbers leave exactly the undrawn count available |
| PlayPage.Taken | src/app/pages/play/play.ts:166-168 | the roster numbers that are drawn, with their multiplicities |
| PlayPage.DrawnPartition | src/app/pages/play/play.ts:166-168 | every roster number is either drawn or available |
| PlayPage.DrawnAreTaken | src/app/pages/play/play.ts:166-168 | without duplicates, the drawn roster numbers are as many as the drawn list |
| PlayPage.RandomGuardAsWritten | src/app/pages/play/play.ts:156-164 | the page's two tests; with distinct roster numbers and a valid drawn list, passing them guarantees an available number |
| PlayPage.RandomGuardAdmitsEmptyAvailable | src/app/pages/play/play.ts:161-173 | the length test lets a draw through with no number available |
| PlayPage.RemoveAll | src/app/pages/play/play.ts:201 | every occurrence of the number is removed and every other element keeps its multiplicity |
| PlayPage.RemoveAllAppend | src/app/pages/play/play.ts:201 | removal keeps the order of the remaining numbers |
| PlayPage.ArtistName | src/app/pages/play/play.ts:209-212 | the name of the first artist holding the number, `''` when none does |
| PlayPage.LastDrawn | src/app/pages/play/play.ts:98-101 | null iff nothing is drawn, otherwise the list's last element |
| Common.DistinctAppend | src/app/pages/play/play.ts:192-194 | appending a number not yet drawn keeps the drawn list duplicate-free |
| PlayPage.Play.constructor | src/app/pages/play/play.ts:47-50 | a page starts with no artists, cards or draws, and no typed number |
| PlayPage.Play.MatchedCards | src/app/pages/play/play.ts:52-95 | the page's ranking is the scoring of its cards against its draws: empty before the first draw, each entry a loaded card's score with a match, every card with a match present, ordered by non-increasing share |
| PlayPage.Play.TotalNumbers | src/app/pages/play/play.ts:97 | the roster size, which for distinct roster numbers and a valid drawn list equals draws made plus numbers still available |
| PlayPage.Play.LastDrawnNumber | src/app/pages/play/play.ts:98-101 | null iff nothing is drawn, otherwise the last element of the drawn list |
| PlayPage.Play.GetArtistByNumber | src/app/pages/play/play.ts:209-212 | the name of the first artist holding the number, `''` when none does |
| PlayPage.Play.OnArtistsFileLoad | src/app/pages/play/play.ts:108-126 | a loaded array replaces the roster and clears the draws; otherwise nothing changes |
| PlayPage.Play.OnCardsFileLoad | src/app/pages/play/play.ts:133-150 | a loaded array replaces the cards and keeps the draws |
| PlayPage.Play.DrawRandomNumber | src/app/pages/play/play.ts:152-174 | no roster or all drawn: unchanged; otherwise the available number at the random index is appended; the drawn list stays duplicate-free and within the roster |
| PlayPage.Play.DrawManualNumber | src/app/pages/play/play.ts:176-196 | no input, an unknown number or a drawn one leaves the draws unchanged; otherwise the number is appended and the input cleared |
| PlayPage.Play.RemoveDrawnNumber | src/app/pages/play/play.ts:198-203 | the number leaves the drawn list and becomes available again |
| PlayPage.Play.ResetGame | src/app/pages/play/play.ts:205-207 | the drawn list becomes empty and nothing else changes |
| DesignPage.HasMp3Suffix | src/app/pages/design/design.ts:33 | a name ends in `.mp3` in any case iff its last four characters are `.`, `m` or `M`, `p` or `P`, and `3` |
| DesignPage.Mp3Files | src/app/pages/design/design.ts:32-34 | a file is kept iff its name ends in `.mp3` in any letter case |
| DesignPage.StripMp3 | src/app/pages/design/design.ts:50 | one trailing `.mp3`, in any case, is removed and nothing else |
| DesignPage.ArtistOf | src/app/pages/design/design.ts:51-56 | no name when there is no `-` or the trimmed prefix is empty; otherwise a non-empty name without `-` or surrounding whitespace |
| DesignPage.Candidates | src/app/pages/design/design.ts:49-58 | what each file contributes, in file order |
| DesignPage.AddName | src/app/pages/design/design.ts:55 | `Set.add` keeps the existing order as a prefix, adds the candidate if new, and keeps the set duplicate-free |
| DesignPage.Collect | src/app/pages/design/design.ts:47-55 | the insertion-ordered set holds each contributed name exactly once |
| DesignPage.CollectStep | src/app/pages/design/design.ts:49-58 | each further file adds its candidate name, if new, after the names from the files before it |
| DesignPage.ArtistNames | src/app/pages/design/design.ts:45-63 | the extracted names are pairwise distinct |
| DesignPage.ArtistNamesMembers | src/app/pages/design/design.ts:49-58 | a name is extracted iff some file contributes it |
| DesignPage.ArtistNamesOrder | src/app/pages/design/design.ts:47-58 | extracted names are ordered by the first file contributing them |
| DesignPage.CollectOrder | src/app/pages/design/design.ts:47-55 | a Set lists its elements in order of first insertion |
| DesignPage.Iota | src/app/pages/design/design.ts:67-70 | the array `1..N`, without duplicates |
| DesignPage.Swap | src/app/pages/design/design.ts:75 | the destructuring swap exchanges two positions and leaves the rest |
| DesignPage.ShuffleFrom | src/app/pages/design/design.ts:73-76 | the remaining shuffle steps keep the length |
| DesignPage.ShuffleFromPermutes | src/app/pages/design/design.ts:73-76 | the shuffle steps only reorder the array |
| DesignPage.Shuffled | src/app/pages/design/design.ts:66-76 | the dealt sequence has one number per artist |
| DesignPage.ShuffledIsPermutation | src/app/pages/design/design.ts:66-76 | the dealt numbers are a permutation of `1..N`: distinct and each in range |
| DesignPage.FisherYates | src/app/pages/design/design.ts:66-76 | the in-place loop with draws in `0..i` computes the shuffle, which is a permutation of `1..N` |
| DesignPage.ScanFiles | src/app/pages/design/design.ts:47-58 | the loop over the files builds exactly the distinct names they contribute, in order of first contribution |
| DesignPage.Unnumbered | src/app/pages/design/design.ts:60-62 | one entry per name, in order, with no number |
| DesignPage.Design.constructor | src/app/pages/design/design.ts:21-22 | a page starts with no artists and no files |
| DesignPage.Design.OnFileSelect | src/app/pages/design/design.ts:29-38 | a delivered file list keeps its `.mp3` files and the roster becomes their extracted names |
| DesignPage.Design.ExtractArtists | src/app/pages/design/design.ts:45-63 | the loop over the files builds the distinct first-occurrence names, all unnumbered |
| DesignPage.Design.AssignNumbers | src/app/pages/design/design.ts:65-84 | each artist keeps its name and place and gets a distinct number in `1..N` from the shuffle |
| DesignPage.Design.OnFileLoad | src/app/pages/design/design.ts:103-120 | a loaded array replaces the roster; otherwise nothing changes |
| PrintPreviewPage.GridSizeOr5 | src/app/pages/print-preview/print-preview.ts:58 | the grid size defaults to 5 when absent or zero; never zero |
| PrintPreviewPage.DisplayModeOrBoth | src/app/pages/print-preview/print-preview.ts:59 | the display mode defaults to `'both'` when absent or empty; never empty |
| PrintPreviewPage.DefaultName | src/app/pages/print-preview/print-preview.ts:62 | the fallback name is `Artist ` followed by the number's canonical decimal text, which parses back to the number |
| PrintPreviewPage.CellName | src/app/pages/print-preview/print-preview.ts:62 | the supplied name when present and non-empty, otherwise the fallback; never empty |
| PrintPreviewPage.NormalizeCard | src/app/pages/print-preview/print-preview.ts:56-64 | the id defaults to `index + 1` only when absent (0 is kept), the grid-size and mode defaults, one cell per number (none when numbers are missing) with its name rule |
| PrintPreviewPage.NormalizeCards | src/app/pages/print-preview/print-preview.ts:56-64 | one card per record, same length and order, each normalised at its own index |
| PrintPreviewPage.NormalizeIdempotent | src/app/pages/print-preview/print-preview.ts:57-63 | the default rules are a fix point: a normalised card, written out with every field present, normalises to itself at any position |
| PrintPreviewPage.CellDisplay | src/app/pages/print-preview/print-preview.ts:112-123 | `'name'` gives the name, `'number'` the number's canonical decimal text (which parses back to it), any other mode `"<number>. <name>"` |
| PrintPreviewPage.CellDisplayBothReadsBack | src/app/pages/print-preview/print-preview.ts:119-121 | the `"<number>. <name>"` text splits at its first `.` back into the number and the name |
| PrintPreviewPage.PrintPreview.constructor | src/app/pages/print-preview/print-preview.ts:31-34 | a page starts with no cards, mode `'both'`, no background and grid size 5 |
| PrintPreviewPage.PrintPreview.OnCardsFileLoad | src/app/pages/print-preview/print-preview.ts:47-77 | a loaded array becomes the normalised cards; a non-empty one hands its first card's size and mode to the page; otherwise both stay |
| PrintPreviewPage.PrintPreview.OnBackgroundImageSelect | src/app/pages/print-preview/print-preview.ts:84-94 | a delivered data URL becomes the background |
| PrintPreviewPage.PrintPreview.ClearBackgroundImage | src/app/pages/print-preview/print-preview.ts:96-98 | the background is removed and nothing else changes |
| PrintPreviewPage.PrintPreview.GetEffectiveGridSize | src/app/pages/print-preview/print-preview.ts:104-110 | the first card's grid size when there is one and it is non-zero, else the page's; never zero on a valid page |
| PrintPreviewPage.PrintPreview.GetCellDisplay | src/app/pages/print-preview/print-preview.ts:112-123 | in the page's display mode: the name, the canonical decimal number, or `"<number>. <name>"` |

## Left out

- File reading (`FileReader`, `JSON.parse`), downloads (`Blob`, object URLs), clicks on hidden inputs and `window.print` are I/O. Loads start from the parsed array.
- A JSON value whose elements do not have the declared fields (a card whose `numbers` hold strings, say) is not modelled. Elements are typed records.
- `alert` and `confirm` are dialogs. A draw returns its outcome instead, and removal assumes the user confirmed.
- `filterGlobal` forwards to a table widget and is not modelled.
- The fireworks component, the PWA update service and component, app configuration, routes and the post-build script are not part of this model.
- `Math.random` is not modelled. Its results are parameters whose range is the range of `Math.floor(Math.random() * k)`, so uniformity of the shuffle or the draw is not stated.
- Scoring.MatchedCards: the float `matchPercentage` field is not produced. The ranking uses the exact ratio, so rounding of the float comparison is not modelled.
- Scoring.SortByRatio: this model's insertion sort is stable, like `Array.prototype.sort`, but stability is not stated as a property.
- Scoring.EffectiveGridSize: a `NaN` or non-integer grid size from the JSON is not modelled. Grid sizes are integers.
- Text.IntToString: the exponent form `Number.prototype.toString` uses from 1e21 upward is not modelled. Every integer is written in plain decimal.
- DesignPage.HasMp3Suffix: lower-casing is ASCII only. The only characters that can lower-case into `.`, `m`, `p` or `3` are those characters, `M` and `P`, so the test agrees with full Unicode `toLowerCase`.
- Strings are sequences of Unicode scalar values rather than UTF-16 code units. This matters to no operation modelled here.
- The play page keeps cards as loaded, without the print preview's defaults. A missing `numbers` field, on which the page would fail, is not modelled.

## Findings

| source | as written | input that shows it | evidently intended | confidence | as-written member | corrected member |
|---|---|---|---|---|---|---|
| src/app/pages/play/play.ts:161-173 | the random draw is refused only when `drawn.length >= artists.length`, then `availableNumbers[randomIndex]` is appended | artists `[{name: "A", number: 1}, {name: "B", number: 1}]`, drawn `[1]`: the guard passes, no number is available, and `undefined` is appended to the drawn list | refuse the draw when no number is available | not executed | PlayPage.RandomGuardAdmitsEmptyAvailable | PlayPage.Play.DrawRandomNumber |
