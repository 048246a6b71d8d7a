# Verified model of the statsbook ingest pipeline

This project models, in Dafny 4.11, the parts of the service that turn roller
derby statsbooks on Google Drive and results published by WFTDA into one
consistent set of tables, and proves what those parts promise. Run
`dafny verify dfyconfig.toml` in this directory to verify everything.

The pipeline has four cores, and each is modelled twice over: as the running
algorithm (classes and methods that change state, loops with invariants) and as
a specification (functions and predicates that say what the result is). The
methods are proved equal to the specification; the laws are proved about it.

1. **Which game is this statsbook?** `Canon` builds trigram sets and their
   Jaccard similarity. `Matching` says what the decision is by looking at all
   teams and all games; `MatcherImpl` is the matcher that runs, with two lookup
   indices, a memo table of side names shared by all statsbooks of a pass, a
   nearest-game loop that detects ties and a sorted window of candidates.
   `MatcherLaws` proves what a match certifies and what it does not depend on.
   `Resolver` is the whole stage: load, decide, write in chunks, hide duplicates;
   `ResolverLaws` proves what running it again, or from other leftovers, comes to.
2. **The tables over time.** `Tables` gives every committed transaction as one
   step on a map from Drive file to its rows. `Ingest` proves the statements of
   indexing, parsing, skipping, failing and draining equal to those steps.
   `Dedup` treats the "one visible file per game" guarantee, for one pass and for
   any number of passes whose transactions interleave with the other stages, and
   `DedupRaces` says exactly when overlapping or dying passes keep a game's file.
3. **Readers.** `Sheets` reads the Score and Lineups sheets and `SheetLaws`
   says which sheets show a game, however its cells are written, and prints one; `CellRefs` prints and reads A1 references; `Entities` and
   `TeamListing` decode and scan the team listing and `TeamListingLaws` renders
   it; `GamesSync` scans the paged results with a date watermark.
4. **Files on disk.** `FileCache` is the protocol of concurrent cache writers and
   readers over names and inodes, `CacheFreshness` the time rule that decides
   whether cached bytes may be used, `Rekey` and `RekeyLaws` the tool that renames
   a legacy cache, `RekeyExact` when its dry run and its second run can be trusted.

`Text` holds decimal numerals, string order, trimming and searching.

Besides the definitions, most files state what a definition means once more in
terms of the figures, names and characters of the service (lemmas named
`...Exactly`, `...Best`), so that no law rests on a definition alone.

## What does not hold as documented

Each of these is proved with the exact condition under which the code does
behave as documented, and most with a concrete run or input as well.

- `src/ingest/mod.rs:99-103` says only permanently failing rows remain when a
  drain stops. A row that the last round did not try stays queued exactly when
  500 rows ahead of it failed in that round (`Ingest.LastRoundExactly`); where
  every round fares alike, exactly when 500 failing rows are queued before it
  (`Ingest.SteadyDrain`).
- `src/ingest/wftda.rs:515-520` says a block missing a half never borrows the
  following title. It does when its slug is not closed before the next link, and
  only then (`TeamListingLaws.BodyStopsAtNextLink`, `OpenSlugBorrows`).
- `src/ingest/resolve.rs:635-640` says the newest file of a game wins. A file
  whose rows were dropped by a later skip keeps its match row and can outrank
  every parsed file (`Dedup.WinnerExactly`, `StaleRowCanWin`).
- `src/ingest/resolve.rs:624-627` hides duplicates only after the writes have
  been committed. A pass that dies in between can leave a game with two files:
  every run with dying passes leaves at most one per game if and only if no two
  files can be there at once, by what was there before and by which chunks of 500
  put or move them (`DedupRaces.DyingPassesExactly`;
  `Dedup.BrokenPassLeavesDuplicates` is such a run). Passes that overlap never
  leave two files, but can hide every file of a game
  (`Dedup.InterleavingCanHideAll`): while no file appears, vanishes or gets a new
  revision, a file that all of them decide survives all interleavings if and only
  if each pass alone would keep it (`DedupRaces.KeptExactly`).
- `src/rekey_cache.rs:19-20` says re-running is safe and an existing destination
  is skipped. With one source for each id, renaming leaves every directory settled
  exactly when no id takes the file of another that has a source of its own
  (`RekeyExact.SecondRenameExactly`; `RekeyLaws.ChainedRunsAgain` is a chain).
  With several sources that is enough but not needed (`ChainedYetIdle`). Copying
  leaves every directory settled exactly when no single file reaches an id's
  source only after that id's turn, whatever the sources (`SecondCopyExactly`).
  After a rename an id is reported missing whenever no other source of it is left,
  because sources are looked for first (`RenamedThenMissing`).
- `src/rekey_cache.rs:44` says a dry run reports what would happen. For renaming
  it does so in every directory exactly when no two ids get in each other's way,
  which for unchained rows means that no source is shared
  (`RekeyExact.DryRenameExactly`, `UnchainedClash`;
  `RekeyLaws.SharedSourceMisleads` is an input), and for copying exactly when no
  id feeds a later one that would otherwise do without or prefer another source
  (`DryCopyExactly`).
- The freshness rule accepts equal times, so with clocks that agree exactly an
  upload at the very time of a cache file's stamp goes unnoticed
  (`CacheFreshness.FreshExactlyBehind`).
- Lineups are attached to periods by position, so an empty first period gives the
  second one the first one's rows (`SheetLaws.GameRoundTrip`).
- The comment at `src/ingest/statsbook_index.rs:39-41` says seen rows have
  `last_seen` after the marker; the code deletes what is strictly before it, and
  the model follows the code. `README.md:22` says there is no local `.xlsx` cache;
  line 97 and the code have one, and the model follows them.

## Model

| member | source | states |
|---|---|---|
| Text.StrLessExactly | src/ingest/statsbook_parse.rs:286 | one id is before another exactly when it runs out first or has the smaller character where they first differ |
| Text.TrimExactly | src/ingest/parse.rs:202-217 | trimming cuts off white space at either end, all of it and nothing else |
| Canon.Trigrams | src/canon.rs:107-127 | the list is strictly sorted and holds exactly the three-character windows of the lower-cased, blank-padded words of the name, so it is determined by the name |
| Canon.BuiltFromUnique | src/canon.rs:88-105 | a name has one trigram set, which is what lets a memo be keyed by name |
| Canon.GramsExactly | src/canon.rs:107-127 | the windows are those of the longest runs of letters and digits, in lower case, with two blanks before and one after |
| Canon.CountCommon | src/canon.rs:130-148 | the two-pointer merge counts the intersection of the two sets |
| Canon.TrigramSimilarity | src/canon.rs:130-148 | the result is the size of the intersection over that of the union, 0 when a set is empty, without division by zero |
| Canon.JaccardSymmetric | src/canon.rs:130-148 | similarity does not depend on the order of the names |
| Canon.JaccardRange | src/canon.rs:130-148 | similarity lies in [0, 1] and is 1 exactly for equal non-empty sets |
| Canon.JaccardTriangle | src/canon.rs:130-148 | one minus similarity obeys the triangle inequality |
| Canon.SameTeamNamesAreClose | src/ingest/resolve.rs:215-233 | two names that reach the side threshold for the same team are at least half similar |
| Canon.CanonicalExactly | src/canon.rs:24-30 | wherever it stands in a name, a letter counts in lower case, a digit as it is and nothing else counts |
| Canon.WordsExactly | src/canon.rs:32-42 | white space, and only that, separates the words of a name |
| Canon.WordsAreSolid | src/canon.rs:32-50 | no word is empty or holds white space, and the words together have the letters and digits of the name, in order |
| Canon.TeamExactly | src/canon.rs:32-60 | a team name counts by its words that are no words of the league, in any case, or as a whole when those are without letters and digits |
| Canon.EmptyCanonicals | src/canon.rs:24-60 | a side without letters or digits has empty league and team canonicals, whichever words the team name drops |
| Matching.BestTeamUnique | src/ingest/resolve.rs:215-233 | the best team at or above the threshold is unique: first of the most similar |
| Matching.SideOfNone | src/ingest/resolve.rs:215-233 | a side stays unresolved exactly when no team reaches the threshold |
| Matching.TopExists | src/ingest/resolve.rs:369-430 | whenever a candidate is accepted there is one that precedes all others |
| MatcherImpl.Matcher.constructor | src/ingest/resolve.rs:193-210 | the two indices list, in order, exactly the games of each date and of each team pair |
| MatcherImpl.Matcher.ResolveSide | src/ingest/resolve.rs:215-233 | with a sound memo table the answer is that of a scan of all teams, and the table stays sound |
| MatcherImpl.Matcher.NearestSignature | src/ingest/resolve.rs:322-366 | the tie-detecting loop over one team pair finds the strictly nearest game with the signature among all games, or tells that there is none |
| MatcherImpl.Matcher.SignatureMatch | src/ingest/resolve.rs:322-366 | the indexed signature path equals the one over all teams and games |
| MatcherImpl.Matcher.WindowSearch | src/ingest/resolve.rs:369-430 | collecting three days, sorting and comparing the first two equals choosing the best accepted game and checking it against every rival; which game is best is said by `MatcherLaws.TopIsPreferred` |
| MatcherImpl.SortCandidates | src/ingest/resolve.rs:396-408 | sorting by the comparison keys alone, stably, orders the candidates completely and permutes them |
| MatcherImpl.FirstIsTop | src/ingest/resolve.rs:410-430 | after sorting the head is the best candidate, and the second entry alone tells whether any rival is within the margin |
| MatcherImpl.Matcher.Resolve | src/ingest/resolve.rs:432-437 | the matcher's decision is the one made by scanning all teams and games, whose game, sides and figures the laws of `MatcherLaws` pin down |
| MatcherImpl.Matcher.ResolveAll | src/ingest/resolve.rs:554-584 | every statsbook of a pass gets the decision it would get alone, so order and sharing of the memo table do not matter |
| MatcherLaws.EveryMatchCertified | src/ingest/resolve.rs:288-437 | every match names a loaded game, with the rating of its better-named orientation, and assigns its two teams to the sides by the smaller total score difference, then by the better names, then in the order listed; a pair is the teams the names stand for, within 400 days and aligned in score; score and zero-delta window matches are aligned and rated in that orientation, drift keeps to 0.80 within 12 points or 0.90 within 40, a neighbouring day to 0.60, a zero total to 0.85; anything else is the hidden result |
| MatcherLaws.EvaluatedBest | src/ingest/resolve.rs:235-264 | the rating is that of the orientation with the higher mean similarity, and of the larger score difference when the means are equal |
| MatcherLaws.AssignedBest | src/ingest/resolve.rs:266-286 | the assigned orientation has the smaller total score difference; if these are equal the higher mean similarity; if both are equal home is the team listed first |
| MatcherLaws.PairExactly | src/ingest/resolve.rs:322-366 | a match is by signature exactly when both names stand for teams and one game between these teams, with the two scores and within 400 days, is strictly nearer than every other such game |
| MatcherLaws.AcceptedExactly | src/ingest/resolve.rs:439-454 | a game is acceptable exactly within a day and with a good enough rating: 0.85 in names for a zero total; else on the day itself no score difference, 0.80 within 12 points or 0.90 within 40, and on a neighbouring day no difference and 0.60 |
| MatcherLaws.LoneGame | src/ingest/resolve.rs:369-454 | without a signature, a book with one game within a day is matched to it exactly when that game is acceptable |
| MatcherLaws.TopIsPreferred | src/ingest/resolve.rs:396-408 | the best game is nearer to the day than every other acceptable one, or as near with better names, or level with it in names with a smaller score difference, or level in all with no larger id |
| MatcherLaws.ZeroDeltaAligns | src/ingest/resolve.rs:246-286 | with no score difference side assignment gives each side its own score and agrees with the orientation that was rated |
| MatcherLaws.ExactScoreAligns | src/ingest/resolve.rs:266-286 | a game with the same unordered score is aligned whatever the names |
| MatcherLaws.WindowMargin | src/ingest/resolve.rs:369-430 | the game of a window match is preferred in that sense to every other acceptable game, and one that rests on names leads each of its distance by 0.05 or more |
| MatcherLaws.HiddenExactly | src/ingest/resolve.rs:322-454 | a statsbook stays hidden exactly when it has no signature and its window is empty, or its best game has a score difference and another acceptable game of the same distance is less than 0.05 behind it in names |
| MatcherLaws.GameOrderIrrelevant | src/ingest/resolve.rs:432-437 | with distinct game ids the decision does not depend on the order of the game list |
| MatcherLaws.OrientationIrrelevant | src/ingest/resolve.rs:246-286 | exchanging the teams of any games changes at most the assigned sides, and those exactly when the matched game is exchanged and ties in both delta and similarity |
| MatcherLaws.BookOrientation | src/ingest/resolve.rs:246-286 | exchanging a statsbook's sides exchanges the assigned teams and nothing else, except on that tie |
| Resolver.FallbackIsEmpty | src/ingest/resolve.rs:456-471 | the canonical columns a side name falls back to are empty whenever they are used, so a side is named by the letters and digits of its league and then of its team, as far as these are known |
| Resolver.ResolvableExactly | src/ingest/resolve.rs:488-512 | under the table invariant the files the stage decides are those with a parsed game |
| Resolver.Store.LoadTeams | src/ingest/resolve.rs:474-525 | teams come in id order with the trigrams of their canonical titles |
| Resolver.Store.LoadGames | src/ingest/resolve.rs:527-552 | exactly the games whose teams are both known, in id order |
| Resolver.Store.WriteDecisions | src/ingest/resolve.rs:554-625 | in id order and chunks of 500, every file with parsed rows gets the matcher's decision, and the statistics count decisions by method |
| Resolver.Store.DedupMatchedGames | src/ingest/resolve.rs:641-682 | exactly the files outranked at their game are hidden, with their sides cleared |
| Resolver.Store.ResolveGames | src/ingest/resolve.rs:474-633 | one run of the stage is one undisturbed pass of the decisions for the tables it loaded, written in chunks of 500 in id order |
| Resolver.DecisionsUnique | src/ingest/resolve.rs:554-584 | the tables leave no choice in what is decided |
| Resolver.ReferenceUnique | src/ingest/resolve.rs:474-552 | the tables determine what the matcher is given |
| Resolver.ResolveKeepsInv | src/ingest/resolve.rs:586-625 | a pass of the matcher's decisions keeps the table invariant |
| ResolverLaws.SecondRunSame | src/ingest/resolve.rs:474-682 | a run of the stage that directly follows another decides the same and leaves the tables as they are |
| ResolverLaws.RunsAgree | src/ingest/resolve.rs:474-682 | runs over tables that differ only in match rows and assigned teams leave every parsed file with the same rows, if no match row outlived its file's parsed rows |
| ResolverLaws.DecisionsCarryOver | src/ingest/resolve.rs:554-584 | decisions depend on nothing that the resolver itself writes |
| Tables.SkaterRowsMeaning | src/ingest/statsbook_parse.rs:187-213 | the stored skater rows of a side are its named skaters, one row each |
| Tables.SkaterRowsExactly | src/ingest/statsbook_parse.rs:187-213 | they violate their key exactly when two named skaters of the side have the same number |
| Tables.CommitsExactly | src/ingest/statsbook_parse.rs:236-250 | a retried store gets through exactly when a commit is answered by success after at most five retryable refusals and nothing else |
| Tables.ParsedExactly | src/ingest/statsbook_parse.rs:331-447 | a file is skipped exactly when it holds no jam, no penalty and a 0-0 score and the skip commits, parsed exactly when it holds something, has a date, repeats no skater number and its store gets through, and failed otherwise |
| Tables.BatchIsAtomic | src/ingest/resolve.rs:586-625 | a batch of decisions is written for all its files, or for none when one of them has vanished, and for no other file |
| Tables.StoredIsComplete | src/ingest/statsbook_parse.rs:151-251 | a stored game leaves exactly the rows of that game |
| Tables.StepKeepsInv | src/ingest/statsbook_parse.rs:151-251 | every transaction of every stage keeps: rows complete or absent, parsed means complete, skipped means absent, no version means pending or failed, sides assigned in pairs and only with a game |
| Tables.RunKeepsInv | src/ingest/statsbook_parse.rs:275-462 | so does every sequence of transactions, in any interleaving |
| Tables.FilteredOutIsCurrent | src/ingest/statsbook_parse.rs:281-299 | after any run, each row the queue's filter leaves out holds what the current revision holds |
| Ingest.Database.UpsertStatsbook | src/ingest/statsbook_index.rs:90-130 | an unchanged file keeps status and version, a new or changed one becomes pending with none |
| Ingest.Database.MarkRemoved | src/ingest/statsbook_index.rs:135-161 | the rows not seen since the marker are deleted with everything they hold, and so are their cached bytes |
| Ingest.Database.SyncStatsbookIndex | src/ingest/statsbook_index.rs:33-88 | a run upserts the listed files and retracts the rest with their cached bytes; it fails at the first unusable time or refused statement and then has retracted nothing |
| Ingest.IndexRun | src/ingest/statsbook_index.rs:33-88 | after a successful run listed files are current and exactly the listed ones remain if and only if nothing unlisted was seen at or after the marker |
| Ingest.LaterRunIsExact | src/ingest/statsbook_index.rs:39-47 | with a clock later than earlier runs' exactly the listed files remain, run after run |
| Ingest.FailedRunDeletesNothing | src/ingest/statsbook_index.rs:48-74 | wherever the upserts of a run stop, every file is still there with all its rows, and what was not listed so far is untouched |
| Ingest.Database.DeleteParsedRows | src/ingest/statsbook_parse.rs:410-430 | everything parsed from the file goes, its match row stays |
| Ingest.Database.MarkSkipped | src/ingest/statsbook_parse.rs:434-447 | a committed skip leaves no parsed rows, a failed one leaves all as it was |
| Ingest.Database.StoreParsedGame | src/ingest/statsbook_parse.rs:91-261 | delete and reinsert in one transaction, retried at most five times; a failure leaves nothing behind |
| Ingest.Database.SetFailed | src/ingest/statsbook_parse.rs:451-462 | the file is queued again at its old place with the error recorded, its parsed rows and match stay, and no other file changes |
| Ingest.Database.SelectPending | src/ingest/statsbook_parse.rs:281-299 | the queue is every file that is pending, failed or parsed by a version below 24; the batch is as much of it as fits, in order, and no row of it is newer than a later one or than a queued one outside it: unknown times count as oldest, and at equal times the smaller id comes first |
| Ingest.Database.ParsePending | src/ingest/statsbook_parse.rs:275-404 | each row of the batch gets its own result whatever the order they finish in |
| Ingest.Database.DrainPending | src/ingest/mod.rs:104-130 | however files fare from round to round, the drain terminates, each round takes the front of the queue the rounds before left (`Ingest.RoundsTakeOldest` says which rows these are), only the last is short or without success, and the count returned is that of the rows that left the queue |
| Ingest.RoundsTakeOldest | src/ingest/statsbook_parse.rs:281-299 | in every round no row of the batch is newer than a queued row left out, an unknown time being the oldest, and at equal times it has the smaller id |
| Ingest.LastRoundExactly | src/ingest/mod.rs:99-130 | what stays queued was tried in vain in the last round, except exactly what has a full batch of such rows ahead |
| Ingest.FewLastFailures | src/ingest/mod.rs:99-130 | if fewer rows than a batch failed in the last round, only rows that failed in it stay queued |
| Ingest.SteadyDrain | src/ingest/mod.rs:99-130 | when every round fares alike, a parsable row stays behind exactly when a full batch of failing rows is queued before it, and a row that fails stays |
| Ingest.FewFailuresDrainAll | src/ingest/mod.rs:104-130 | with fewer failing rows than the batch limit no parsable row stays pending |
| Dedup.PassKeepsBest | src/ingest/resolve.rs:641-682 | after a pass a file is visible at a game exactly when it ranks first of all files left matched to it; the others lose their sides |
| Dedup.NewestWins | src/ingest/resolve.rs:641-655 | the visible file is of the newest known revision among those matched to the game, unknown ones last, ties by id |
| Dedup.PassLeavesOne | src/ingest/resolve.rs:641-682 | no game keeps two files and none loses its last one |
| Dedup.DecisionStands | src/ingest/resolve.rs:586-625 | after a pass a decided file shows its method, figures and each side's own team, unless it lost its game: then it is a duplicate without game or teams |
| Dedup.WinnerExactly | src/ingest/resolve.rs:558-682 | the first-ranked of the files matched by a pass ends up visible if and only if no stale match row outranks it |
| Dedup.InterleavedPassesLeaveNoDuplicates | src/ingest/resolve.rs:558-682 | in any interleaving of passes and other stages at transaction boundaries, once all passes have completed no game has two visible files |
| Dedup.OtherStagesAct | src/ingest/resolve.rs:586-682 | between two transactions of a pass files can be indexed, retracted and parsed, which leaves the pass where it is |
| Dedup.RefusedBatchEndsPass | src/ingest/resolve.rs:586-625 | a batch that names a vanished file changes nothing and ends its pass, whatever the pass would have done next |
| DedupRaces.KeptExactly | src/ingest/resolve.rs:554-682 | over all interleavings of passes that all decide a file, chunk by chunk, while other stages keep every file and its revision, the file ends up visible at the game if and only if each pass alone would keep it there; if passes may die it must also be there to begin with |
| DedupRaces.KeepsExactly | src/ingest/resolve.rs:641-682 | a pass alone keeps a file at a game if and only if it matches the file to it and neither matches nor leaves there a file that ranks higher |
| DedupRaces.KeptAlone | src/ingest/resolve.rs:554-682 | the file so kept by overlapping passes is the only one visible at its game |
| DedupRaces.DyingPassesExactly | src/ingest/resolve.rs:554-682 | when passes may die between transactions and other stages do anything, every run leaves at most one visible file per game if and only if no two files can meet at a game: both there before; both put there by one pass; one there and the other put there before its pass writes the first; or put there by two passes of which not each moves the other's file away in that very chunk; passes may decide files that are only indexed meanwhile |
| DedupRaces.NoClashNoDuplicates | src/ingest/resolve.rs:554-682 | where no two files can meet, no run of any passes leaves two at a game, whatever dies and whatever files come and go |
| DedupRaces.ChunkedApart | src/ingest/resolve.rs:558-610 | the chunks that a pass writes hold different files, as the laws on overlapping passes ask |
| Dedup.StaleRowCanWin | src/ingest/statsbook_parse.rs:434-447 | a skipped newer upload with its old match row hides the file that holds the game |
| Sheets.ParseScores | src/ingest/parse.rs:565-624 | the row loops with star pass rows compute the periods the sheet shows |
| Sheets.MergeLineups | src/ingest/parse.rs:649-680 | lineups are written into the period list in place, by position, skipping star pass rows; what is written is said by `SheetLaws.LineupsRoundTrip` and `FullSideRead` |
| Sheets.PeriodFrame | src/ingest/parse.rs:568-616 | a period depends on nothing beyond 39 rows from its start, on any sheet, so the first never sees the second's rows |
| SheetLaws.PeriodRoundTrip | src/ingest/parse.rs:565-647 | a period reads back exactly when every jam starts within 38 rows, otherwise jams are lost: on any sheet that shows its rows, numbers as integers, floats or text, whatever stands in other columns |
| SheetLaws.ScoresRoundTrip | src/ingest/parse.rs:565-647 | both periods come back with jammers, star pass jammers, flags and summed scores, however each cell is written |
| SheetLaws.LineupsRoundTrip | src/ingest/parse.rs:649-708 | lineups are read back into the jams as jammer, pivot and three blockers, past star pass rows, with box trips and without players whose number ends in a star, player numbers as text or number cells |
| SheetLaws.FullSideRead | src/ingest/parse.rs:682-708 | a side with all five players is read as jammer, pivot, blocker, blocker, blocker in the order of its columns, each with its box trips |
| SheetLaws.WrapExactly | src/ingest/parse.rs:309-313 | a cell number is cut to the 16-bit number that differs from it by a multiple of 65536 |
| SheetLaws.IntTextHolds | src/ingest/parse.rs:202-217 | a number shown as text is read as that number, and has a sign only if it is negative and no leading zeros |
| SheetLaws.GameRoundTrip | src/ingest/parse.rs:565-708 | any two sheets that show a game give it back if and only if the first period is not empty or no lineup was written |
| SheetLaws.PrintWrites | src/ingest/parse.rs:565-708 | every game that fits is shown by the sheets printed for it |
| CellRefs.ColRowToExcel | src/ingest/parse.rs:246-258 | the loop prints bijective base 26 letters and the row number |
| CellRefs.RefRoundTrip | src/ingest/parse.rs:246-258 | every reference decodes to its cell |
| CellRefs.RefInjective | src/ingest/parse.rs:246-258 | no two cells share a reference |
| CellRefs.ReadIgrfCells | src/ingest/parse.rs:230-243 | the map holds exactly the non-blank cells of the range under their references |
| CellRefs.FormulaResolves | src/ingest/parse.rs:262-278 | a formula is looked up under its first IGRF reference, dollars aside, extended by whatever letters and digits run on |
| CellRefs.DollarsExactly | src/ingest/parse.rs:269-271 | dollar signs are left out wherever they stand, and nothing else |
| CellRefs.RunOnExactly | src/ingest/parse.rs:269-273 | that run-on ends before the first character that is no letter, digit or dollar sign |
| CellRefs.FormulaReadsCell | src/ingest/parse.rs:230-278 | through the map a formula gives what the cell itself holds |
| Entities.DecodeHtmlEntities | src/ingest/wftda.rs:555-579 | the loop over ampersands computes the left-to-right decoding |
| Entities.DecodeUndoes | src/ingest/wftda.rs:555-599 | however each character is written, plainly or as any short enough entity, the text comes back, so nothing is decoded twice |
| Entities.DecodeEscape | src/ingest/wftda.rs:555-599 | decoding undoes the escaping the site uses, for every text |
| Entities.DecimalWrites | src/ingest/wftda.rs:590-597 | every scalar value is decoded from its decimal reference |
| Entities.EntityExactly | src/ingest/wftda.rs:581-599 | an entity stands for a character exactly when it is one of six names or a number sign, for hexadecimal an x in either case, perhaps a plus sign, and a numeral of the character in that base |
| Entities.DecodeFixed | src/ingest/wftda.rs:555-579 | a text is unchanged exactly when no ampersand is followed by at most nine characters that make an entity and a semicolon, and never grows |
| TeamListing.ParseTeamListing | src/ingest/wftda.rs:521-551 | the cursor loop terminates on any page and computes the listing by turns |
| TeamListingLaws.ListingUndoesRender | src/ingest/wftda.rs:515-551 | any page of links with slugs and escaped titles gives the same list back, whatever else stands before, between and behind them, as long as it holds no team link, nor a heading before a title |
| TeamListingLaws.PageIsRead | src/ingest/wftda.rs:515-520 | so does any page in the documented markup, with any text between its blocks and any image tag |
| TeamListingLaws.BodyStopsAtNextLink | src/ingest/wftda.rs:530-539 | a title is looked for up to the next link exactly when the slug is closed before that link; otherwise the link is passed over |
| TeamListingLaws.EmitExactly | src/ingest/wftda.rs:540-547 | a link is listed under the title that its heading shows, however each character is written and with any white space around it, unless the title or the slug is empty |
| TeamListingLaws.ListingIsOwnTitles | src/ingest/wftda.rs:515-551 | on any page whose slugs are all closed each slug gets its own title or none |
| TeamListingLaws.OpenSlugBorrows | src/ingest/wftda.rs:515-551 | an unclosed slug, with any text behind it, takes the title of the team whose link comes next, and that team is lost |
| GamesSync.ScanPages | src/ingest/wftda.rs:274-345 | page by page, with the reported last page and the cutoff, the loop gathers what the scan reads, or fails as a whole |
| GamesSync.ScanExactly | src/ingest/wftda.rs:279-345 | a scan succeeds exactly when pages with rows, all dated, none older than the cutoff and not the last reported, come before one that is empty or is all dated and is the last or holds an older row; it has read the rows of just these pages |
| GamesSync.Mirror.SyncGames | src/ingest/wftda.rs:269-402 | a scan that succeeds and commits writes its games and missing team stubs at once, any other nothing; which games are written is said by `GamesSync.StoredExactly` |
| GamesSync.Mirror.RunSync | src/ingest/wftda.rs:419-447 | the scope comes from the newest stored date and the marker, or is full when they cannot be read; only a full scan that was written and recorded moves the marker |
| GamesSync.ScanStopsEarly | src/ingest/wftda.rs:337-345 | on date-descending pages a higher watermark reads a beginning of the full scan and leaves only older games unread |
| GamesSync.IncrementalIsFull | src/ingest/wftda.rs:269-402 | an incremental scan leaves the table of a full one if and only if of every game with unread rows the table then holds the last one listed |
| GamesSync.WatermarkIsSafe | src/ingest/wftda.rs:458-479 | that is so after a full scan and any further scans, if nothing below the watermark was added or changed since |
| GamesSync.MarkerHasFullScan | src/ingest/wftda.rs:415-503 | over all sequences of runs, failing ones included, a marker is there exactly when the rows of a full scan were written and recorded, and it bears that run's time |
| GamesSync.EveryRunIsFull | src/ingest/wftda.rs:415-479 | after any sequence of runs, the next one that commits leaves the games a full scan would leave, if nothing listed below its watermark was added or changed since the last recorded full scan |
| GamesSync.RecentGamesRead | src/ingest/wftda.rs:449-479 | every run reads again every usable listed game of the lookback before the newest stored one |
| GamesSync.StoredExactly | src/ingest/wftda.rs:301-402 | after a scan an id is in the table exactly when it was before or a storable row with it is listed, and without such a row it keeps its entry |
| GamesSync.LastListedIsStored | src/ingest/wftda.rs:301-335 | after a scan an id holds, field by field, the last storable row listed for it: dated 2023 or later, with both scores there and in -32768..32767 |
| GamesSync.StubHasFirstTitle | src/ingest/wftda.rs:318-323 | an unknown team gets a stub under the first title that a storable row lists for it |
| GamesSync.SyncKeepsSound | src/ingest/wftda.rs:294-402 | any scan keeps: no game before the era, a row for every named team; it drops nothing and leaves team rows alone |
| GamesSync.RunsKeepSound | src/ingest/wftda.rs:269-402 | so does every sequence of runs from empty tables |
| FileCache.CachePathExactly | src/ingest/data_cache.rs:33-57 | an id has a cache file exactly when it is a plain file name: not empty, no dots for a directory, no separator and no NUL |
| FileCache.CachePathInjective | src/ingest/data_cache.rs:41-57 | different ids have different cache files |
| FileCache.TempNameInjective | src/ingest/data_cache.rs:70-74 | temp names differ by file, process and counter, although ids may hold dots |
| FileCache.TempIsNoCachePath | src/ingest/data_cache.rs:70-74 | a temp file never stands under a cache path |
| FileCache.StepKeepsInv | src/ingest/data_cache.rs:63-98 | every step of any writer, reader or remover keeps cache paths and open reads on whole finished writes |
| FileCache.CacheReadsAreWhole | src/ingest/data_cache.rs:63-98 | in any interleaving, crashes and leftover temp files included, a completed read returns all bytes of one finished write |
| FileCache.WriteThenRead | src/ingest/data_cache.rs:63-98 | from any state, a write that nothing disturbs and then a read, each in parts, return the bytes written, which stand under the id's path; no temp file is left, not even one that a dead process had left under the same name |
| FileCache.StoppedWrite | src/ingest/data_cache.rs:63-82 | a write that stops and cleans up leaves no temp file, one that just stops leaves it, and neither changes anything else in the directory |
| FileCache.RemovedWhileRead | src/ingest/data_cache.rs:84-98 | a file removed while it is read is still read whole, and is gone from the directory |
| CacheFreshness.DecidesExactly | src/ingest/data_cache.rs:119-163 | no cache directory disables the cache; an absent file or an unsafe id is a miss; a file older than the row's revision is stale; any other is used |
| CacheFreshness.RemovedIsNotRead | src/ingest/data_cache.rs:88-98 | a removed file is not read again before a fetch is renamed into its place |
| CacheFreshness.QuietReadsAreFresh | src/ingest/data_cache.rs:119-163 | whatever the clocks, without uploads between download and rename or before the stamp of a copy, whatever the freshness check and the read return are the bytes of the row's revision or a newer one, also when the file is replaced in between |
| CacheFreshness.FreshExactlyBehind | src/ingest/data_cache.rs:119-124 | with no upload between download and rename, all runs are fresh if and only if local stamps run behind upload times |
| CacheFreshness.RacingUploadIsStale | src/ingest/statsbook_parse.rs:331-357 | an upload between download and rename gives a stale read whatever the clocks |
| Rekey.GroupRows | src/rekey_cache.rs:271-277 | ids in order, each with its rows in input order |
| Rekey.ChosenIsBest | src/rekey_cache.rs:303-311 | the source chosen is the last of the highest parser versions whose file is there |
| Rekey.CacheDir.Rekey | src/rekey_cache.rs:265-377 | the files and the report after a run are those of handling the ids in order, and the orphans listed are exactly the files no row names |
| RekeyLaws.RunAccounts | src/rekey_cache.rs:265-377 | renaming conserves the multiset of files, copying keeps every file and adds only copies, a dry run changes nothing, mapped, skipped and missing add up to the distinct ids, and the report names the rows given and the kind of run |
| RekeyLaws.WarnsExactly | src/rekey_cache.rs:325-353 | a file is warned of exactly when it was really copied for an id and its source's time could not be carried over |
| RekeyLaws.ReportsEachOnce | src/rekey_cache.rs:296-353 | every id is reported exactly once |
| RekeyLaws.ReportedHappened | src/rekey_cache.rs:325-353 | with unchained rows every mapping a real run reports stems from a row and has happened: the id has the very file after a rename, its bytes after a copy |
| RekeyLaws.OrphansStay | src/rekey_cache.rs:355-374 | no run makes or removes an orphan |
| RekeyLaws.MapsNothing | src/rekey_cache.rs:296-353 | a run maps nothing exactly when no id can be mapped where it starts, and then changes nothing |
| RekeyExact.DryRenameExactly | src/rekey_cache.rs:265-377 | a dry run reports in every directory, orphans included, what renaming then does if and only if no two ids get in each other's way over a file |
| RekeyExact.UnchainedClash | src/rekey_cache.rs:265-377 | for safe, unchained rows that condition holds if and only if no source is shared |
| RekeyExact.DryCopyExactly | src/rekey_cache.rs:265-377 | the same for copying, for ids with any number of sources: if and only if no id takes the file of an earlier one while the source of that one is none of its own or one it would rather not take |
| RekeyExact.SecondRenameExactly | src/rekey_cache.rs:265-377 | with one source for each id, a second run after renaming changes no file and reports no mapping in every directory if and only if no id takes the file of another with a source of its own; with several sources the condition still suffices |
| RekeyExact.SecondCopyExactly | src/rekey_cache.rs:265-377 | a second run after copying changes no file and reports no mapping in every directory if and only if no file leads, by ids that each take the one before and come after it, to a source of an id only after that id's turn |
| RekeyExact.ChainedYetIdle | src/rekey_cache.rs:303-311 | three rows that are chained and nevertheless settle in every directory |
| RekeyExact.RenamedThenMissing | src/rekey_cache.rs:296-323 | after renaming unchained rows, the next run reports a mapped id missing if and only if none of its sources is left, although its destination is there, and otherwise skips it |

## Left out

- Rounding of similarities to f64 and f32: similarities are exact reals, so a value within rounding of a threshold may be decided differently.
- Unicode case mapping and character classes: letters and digits are ASCII, white space is the blank characters below U+00A1; no claim is made about canonical names of other alphabets.
- Google Drive and WFTDA clients, retries and delays: a listing, a page or a file's content is an input, with its failure as one value.
- Database collation: texts and ids are ordered by code point.
- SQL planning and serialization: a committed transaction is one step; a retried or failed commit or a refused statement of indexing is an input.
- A failing SELECT in `parse_pending` and failing statements of the resolver other than a pass that stops between transactions.
- Timestamps kept for display (`first_seen`, `fetched_at`, `resolved_at`) and the columns of teams and files that no decision reads (region, location, quarter, mime type).
- Joining listing slugs into the team table (`sync_teams`): one lookup and one upsert per team.
- The Game Summary and Penalties sheets, percentages, dates and venues of the parser: column-by-column reads of the same kind as those modelled.
- The spreadsheet library: a sheet is a function from row and column to a cell, numbers in text cells are plain decimal numerals.
- Overflow checks of debug builds: 16-bit sums wrap, as in release builds; printed scores are required to fit.
- Player names and other helpers of `src/canon.rs` (`best_name`, `canonicalize_name`).
- The in-memory response cache, web handlers, configuration and command lines.
- Files under the cache directory that are not plain files, and I/O errors of the re-key tool, which stop it part-way.
- RekeyExact.SecondRenameExactly: with several sources for one id the condition is sufficient only (`ChainedYetIdle` has chained rows that settle), and no exact one is given, since which source is taken then depends on all files in the way; a legacy table keyed by id gives each one source (`src/rekey_cache.rs:429-440`), a mapping file may not.
- DedupRaces.KeptExactly: says nothing of files that some pass does not decide, nor of runs in which a file appears, vanishes or gets a new revision (and rank) meanwhile.
- Canon.Trigrams: names are lower-cased by ASCII, so a name with letters that Unicode lower-cases to ASCII ones has other trigrams than in the service.
- Two live cache writers with the same process id and counter: the operating system rules them out.
