# Tube-test processing, modelled in Dafny

This project models the table logic of `main()` in
`revised/tube_test_processing.py`. That script turns an Excel workbook of
tube-test contests into three tables:

- a combined table of Elo-rated contests;
- a final standing per animal, ranked within its cage;
- a pairwise summary per (subject, agent) pair.

The model follows every sheet through these steps:

- **Reading.** The rows that name both a winner and a loser are kept.
  - The winner and loser cells are reduced to their identity token: the first match of `[-+]?(?:\d*\.\d+|\d+)`, or the cell itself (`Tokens`).
  - The date and runner columns are forward-filled.
  - The tie column is filled with `False`.
  - Session boundaries are marked as differences of category codes (`Columns`).
  - The winner's and loser's cages are looked up, with the sheet name as the fallback (`Tables.Clean`).
- **Rating.** The cleaned sheet goes to the rating engine, which is an opaque function parameter. Its rows get their subject's and agent's cages (`Tables.ResolveCages`).
- **The sheet loop.** Sheets are processed in the order given, into two dictionaries keyed by sheet name (`Workbook.SheetTables`, `Workbook.Collect`).
  - Python's dict insertion order is kept: a sheet named twice keeps its first place.
  - The loop stops with the first error.
- **Combining.** The dictionary values are concatenated, and the strain columns are added when a strain mapping is given (`Tables.AddStrains`).
- **Standings.** The last row of every subject is taken, and each subject gets a dense descending rank of its rating within its cage (`Standings`). pandas `drop_duplicates(keep='last')` is `Dedup.DropDuplicates`.
- **Pairwise summary** (`Pairwise`):
  - rows are grouped per pair and per (loser, winner) outcome;
  - groupby's sorted key order is Python's string order (`Ordering`);
  - the smallest group size is the loser count and the largest the winner count;
  - the loser and winner are taken from `x.unique()` of the pair's groups, along with the pair's total. With two or more distinct ids `x[0]` is the first group's id. pandas unwraps a one-element `unique()` result into the id itself, so with one distinct id `x[0]` is its first character (`Pairwise.PickId`);
  - the in-place loser-count reset and draw flag are array methods;
  - rows that repeat another row's counts, loser, winner and draw are dropped, keeping the first.

`Workbook.Run` is the whole pipeline as a method. `Workbook.Pipeline` states the same pipeline as a function. The lemmas beside them say:

- what the loop stores;
- when the script fails;
- what the outputs are made of.

The script's exceptions are modelled as `Failure` values:

| failure | cause |
|---|---|
| `UnknownSheet` | a requested sheet the file lacks |
| `MissingSessionColumn` | a sheet without the session column (line 126) |
| `NoScoredRows` | a sheet the engine returns no rows for (the `cage` lookup at line 151) |
| `NothingToCombine` | no sheet at all (`pd.concat` of nothing at line 161) |

Points where the code's behaviour is easy to mistake:

- **Counts.** `loser_count` is the smallest outcome-group size of the pair (`'min'`, line 196) and `winner_count` the largest (`'max'`, line 201).
- **Session marker.** The marker is a difference of category codes (line 126). It is 0 exactly when the key repeats, and it can be negative or greater than 1 when the keys do not increase steadily (`Columns.MarkerNegativeOnDrop`). On non-decreasing keys it is a 0/1 flag (`Columns.SortedMarkersAreFlags`).
- **Final row of a subject.** It is the subject's last row in the concatenated table (`keep='last'`, line 174), not the row with the highest match number.
- **Row filter.** `dropna(subset=['winner', 'loser'])` drops a row that lacks either id (line 88).
- **Recorded loser and winner.** For a pair whose rows all name the same loser, only the loser's first character is recorded (lines 196 and 199), and the same goes for the winner (lines 201 and 204). So two one-sided pairs with the same counts whose losers share a first character and whose winners do too get the same content, and line 217 keeps only one of them (`Pairwise.OneSidedPairsShareContent`).
- **Ties.** Missing ties are filled with 0 and cast to bool, so a missing tie is `False` (line 119); ties are not forward-filled.

## Model

| member | source | states |
|---|---|---|
| Tokens.UnsignedAt | revised/tube_test_processing.py:96-97 | a match of the unsigned part of the pattern at a position is an unsigned numeral inside the cell |
| Tokens.MatchAt | revised/tube_test_processing.py:96-97 | a match of the signed pattern at a position is a numeral inside the cell |
| Tokens.SearchFrom | revised/tube_test_processing.py:96-97 | the scan returns the first position where the pattern matches, or none when it matches nowhere |
| Tokens.MatchAtLongest | revised/tube_test_processing.py:96-97 | the match at a position is the longest numeral that starts there, and exists whenever one does |
| Tokens.NoEarlierNumeral | revised/tube_test_processing.py:96-97 | no numeral starts before the first position where the scan matches |
| Tokens.NoLongerNumeral | revised/tube_test_processing.py:96-97 | no numeral at the match position is longer than the match |
| Tokens.FoundIsLeftmostLongest | revised/tube_test_processing.py:96-97 | a found token is the leftmost-longest numeral of the cell |
| Tokens.NotFoundHasNoNumeral | revised/tube_test_processing.py:96-97 | when nothing matches, the cell contains no numeral at all |
| Tokens.TokenSpec | revised/tube_test_processing.py:96-97 | the token is the leftmost-longest numeral if the cell has one, and the cell itself otherwise |
| Tokens.TokenIsSubstring | revised/tube_test_processing.py:96-97 | the token is a contiguous piece of the cell |
| Tokens.NumeralDigit | revised/tube_test_processing.py:96-97 | every string the pattern matches holds a digit |
| Tokens.NoDigitKept | revised/tube_test_processing.py:96-97 | a cell without a digit is kept unchanged |
| Tokens.TokenIdempotent | revised/tube_test_processing.py:96-97 | extracting the token of a token changes nothing |
| Tokens.Token | revised/tube_test_processing.py:96-97 | the token is no longer than the cell, and differs from it only when it is a numeral; TokenSpec states which numeral |
| Columns.NearestPresent | revised/tube_test_processing.py:104 | finds the nearest present cell at or before a row, with every cell between them missing, or none when all are missing |
| Columns.ForwardFill | revised/tube_test_processing.py:104 | forward fill keeps the length and leaves each row the value of its nearest earlier present cell |
| Columns.ForwardFillSpec | revised/tube_test_processing.py:104 | present cells are unchanged; a cell stays missing exactly when it and all earlier cells are missing; a filled cell comes from the nearest earlier present one |
| Columns.ForwardFillComplete | revised/tube_test_processing.py:111 | a column without missing cells is unchanged |
| Columns.TieColumn | revised/tube_test_processing.py:119 | a missing tie becomes False and a boolean tie keeps its value |
| Columns.TieFlag | revised/tube_test_processing.py:119 | a missing tie is False; a present one is its Python truthiness: a boolean keeps its value, a number is True unless 0, a text unless empty |
| Columns.Codes | revised/tube_test_processing.py:126 | each key's code is its position among the sorted distinct keys, -1 when missing |
| Columns.Diff | revised/tube_test_processing.py:126-127 | the first marker is 1 and every other is the code minus the previous code |
| Columns.SessionMarkers | revised/tube_test_processing.py:126-127 | one marker per row, 1 on the first; Diff, MarkerZeroIffRepeat and SortedMarkerCount state the rest |
| Columns.CodeMonotone | revised/tube_test_processing.py:126 | a smaller present key has a smaller code |
| Columns.MarkerZeroIffRepeat | revised/tube_test_processing.py:126-127 | a marker is 0 exactly when the row's key equals the previous row's |
| Columns.MarkerNegativeOnDrop | revised/tube_test_processing.py:126-127 | a key below the previous one gives a negative marker |
| Columns.BelowNext | revised/tube_test_processing.py:126 | on non-decreasing keys, the keys below a new key are those below the previous key, and that key |
| Columns.SortedStep | revised/tube_test_processing.py:126 | on non-decreasing keys, a change of key raises the code by exactly one |
| Columns.SortedMarkersAreFlags | revised/tube_test_processing.py:126-127 | on non-decreasing keys a marker is 1 at the first row and at each change of key, and 0 elsewhere |
| Columns.OnesOfDiff | revised/tube_test_processing.py:126-127 | for 0/1 steps, the number of ones among the differences is one plus the rise of the codes |
| Columns.FirstCode | revised/tube_test_processing.py:126 | the first of non-decreasing keys has code 0, or -1 when it is missing |
| Columns.LastCode | revised/tube_test_processing.py:126 | the last of non-decreasing keys has the highest code |
| Columns.SortedMarkerCount | revised/tube_test_processing.py:126-127 | on non-decreasing keys the number of ones is the number of distinct keys, a missing key counting once |
| Columns.CageOf | revised/tube_test_processing.py:131-132 | an id in the override map gets its mapped cage, any other id the sheet name |
| Columns.StrainOf | revised/tube_test_processing.py:170-171 | an id in the strain map gets its mapped strain, any other id itself |
| Tables.Contests | revised/tube_test_processing.py:88 | keeps exactly the rows with both a winner and a loser |
| Tables.ContestsCount | revised/tube_test_processing.py:88 | a row with both ids is kept as often as it occurs, any other row never |
| Tables.ContestsAppend | revised/tube_test_processing.py:88 | the filter works row by row: filtering two blocks of rows gives the kept rows of each, in order |
| Tables.Clean | revised/tube_test_processing.py:86-132 | cleaning fails exactly when the sheet has no session column, with that sheet's error; a cleaned sheet has the sheet name as cage and one row per contest |
| Tables.CleanRowSpec | revised/tube_test_processing.py:96-132 | each cleaned row holds its contest's tokens, the forward-filled date, the forward-filled runner when the sheet has that column (else no runner), the truthiness of its tie cell (False for a missing cell or column), and the override-or-sheet cages |
| Tables.CleanRowSession | revised/tube_test_processing.py:126-127 | a cleaned row's session marker is the category-code difference of the filled dates: 1 on the first row, 0 exactly when the date repeats the previous row's |
| Tables.ResolveCages | revised/tube_test_processing.py:151-154 | each rated row keeps its fields and gets the override-or-sheet cage of its subject and agent |
| Tables.AddStrains | revised/tube_test_processing.py:167-171 | with an empty mapping the table is unchanged; otherwise each row gets the mapped-or-own strain of its subject and agent and nothing else changes |
| Dedup.PositionsSpec | revised/tube_test_processing.py:174 | the retained positions are increasing, each is a first (or last) occurrence, and every such occurrence is listed |
| Dedup.PositionsKept | revised/tube_test_processing.py:174 | every listed position is a first (or last) occurrence at or after the start |
| Dedup.PositionsIncreasing | revised/tube_test_processing.py:174 | the listed positions increase |
| Dedup.PositionsComplete | revised/tube_test_processing.py:174 | every first (or last) occurrence at or after the start is listed |
| Dedup.KeptKeysDistinct | revised/tube_test_processing.py:174 | two retained positions never share a key |
| Dedup.Pick | revised/tube_test_processing.py:174 | picking rows by positions returns the row at each position, in order |
| Dedup.DropDuplicates | revised/tube_test_processing.py:174 | every retained row is the first (or last) with its key, every such row is retained, and retained keys are distinct |
| Dedup.FirstOccurrence | revised/tube_test_processing.py:217 | every row's key has a first occurrence at or before it |
| Dedup.LastOccurrence | revised/tube_test_processing.py:174 | every row's key has a last occurrence at or after it |
| Dedup.KeyRetainedOnce | revised/tube_test_processing.py:174 | each key of the input is the key of exactly one retained row |
| Dedup.OrderPreserved | revised/tube_test_processing.py:217 | retained rows keep their relative order in the input |
| Dedup.AppendKeepFirst | revised/tube_test_processing.py:84-88 | keeping first occurrences, an appended element is retained exactly when its key is new |
| Dedup.AppendPositions | revised/tube_test_processing.py:84-88 | retained positions of an extended sequence are the old ones plus the new position when it is a first occurrence |
| Dedup.HeadRetained | revised/tube_test_processing.py:196-204 | keeping first occurrences, the first element of a nonempty sequence is the first retained one |
| Ordering.StrLessIrreflexive | revised/tube_test_processing.py:194 | no string is below itself in Python's order |
| Ordering.StrLessTransitive | revised/tube_test_processing.py:194 | Python's string order is transitive |
| Ordering.StrLessTotal | revised/tube_test_processing.py:194 | two distinct strings are ordered one way or the other |
| Ordering.PairLessIrreflexive | revised/tube_test_processing.py:196 | no pair is below itself in tuple order |
| Ordering.PairLessTransitive | revised/tube_test_processing.py:196 | tuple order is transitive |
| Ordering.PairLessTotal | revised/tube_test_processing.py:196 | two distinct pairs are ordered one way or the other |
| Ordering.Insert | revised/tube_test_processing.py:194-196 | inserting into a sorted key list keeps it strictly sorted and adds exactly that key |
| Ordering.SortedKeys | revised/tube_test_processing.py:194-196 | the group keys are strictly sorted and are exactly the keys that occur |
| Ordering.HeadIsLeast | revised/tube_test_processing.py:199 | the first sorted key is below every other key |
| Ordering.SortedUnique | revised/tube_test_processing.py:194-196 | two strictly sorted lists with the same elements are equal |
| Standings.Ranks | revised/tube_test_processing.py:178 | one rank per final row |
| Standings.RanksAt | revised/tube_test_processing.py:178 | the rank of each final row is its dense rank |
| Standings.TableLine | revised/tube_test_processing.py:174-179 | line j of the standings is final row j's subject, cage and rating with its dense rank |
| Standings.FinalRows | revised/tube_test_processing.py:174 | the final rows come from the combined table and have distinct subjects; LineIsLastRow and OneLinePerSubject state that they are the last row of each subject |
| Standings.DenseRank | revised/tube_test_processing.py:178 | a dense rank is at least 1; RankFollowsRating, RankBounds and RankHasNoGaps state the rest |
| Standings.Table | revised/tube_test_processing.py:174-179 | one standings line per final row, with that row's subject and a rank of at least 1; TableLine gives the whole line |
| Standings.OneLinePerSubject | revised/tube_test_processing.py:161-179 | every subject of the combined table has a line, and no subject has two |
| Standings.FinalRowOf | revised/tube_test_processing.py:174 | every subject of the combined table has a final row |
| Standings.LineIsLastRow | revised/tube_test_processing.py:174-179 | a subject's line carries the cage and rating of the subject's last row in the combined table |
| Standings.AboveWitness | revised/tube_test_processing.py:178 | a rating above a value comes from a row of the cage |
| Standings.LeastAbove | revised/tube_test_processing.py:178 | finds the row of the cage with the least rating above a value |
| Standings.RankFollowsRating | revised/tube_test_processing.py:178 | within a cage, a smaller rank means exactly a higher rating and an equal rank exactly an equal rating |
| Standings.StrictlyMoreAbove | revised/tube_test_processing.py:178 | more distinct ratings of a cage lie above a lower rating than above a higher rating present there |
| Standings.RankBounds | revised/tube_test_processing.py:178 | ranks run from 1 up to the number of distinct ratings in the cage |
| Standings.RankOneIsTop | revised/tube_test_processing.py:178 | rank 1 goes exactly to the holders of the top rating of their cage |
| Standings.DenseRankBounds | revised/tube_test_processing.py:178 | the dense rank is between 1 and the cage's distinct ratings, and is 1 exactly for the top rating |
| Standings.RankHasNoGaps | revised/tube_test_processing.py:178 | every rank above 1 has a line of the same cage one rank better |
| Standings.DenseRankPredecessor | revised/tube_test_processing.py:178 | a dense rank above 1 has a row of the same cage with the rank just below |
| Pairwise.Outcomes | revised/tube_test_processing.py:194 | a pair's outcomes are exactly the (loser, winner) of its rows |
| Pairwise.OutcomesAppend | revised/tube_test_processing.py:194 | outcomes are collected row by row: two blocks of rows give their outcomes in order |
| Pairwise.OutcomesStep | revised/tube_test_processing.py:194 | one more row adds its outcome exactly when it belongs to the pair |
| Pairwise.PairRowsStep | revised/tube_test_processing.py:208 | one more row joins the pair's row positions exactly when it belongs to the pair |
| Pairwise.GroupRowsStep | revised/tube_test_processing.py:194 | one more row joins an outcome group's positions exactly when it has that pair and outcome |
| Pairwise.PairCountBelow | revised/tube_test_processing.py:208 | among the first n rows, a pair has one outcome per row of the pair |
| Pairwise.GroupCountBelow | revised/tube_test_processing.py:194 | among the first n rows, an outcome occurs once per row of the pair with that outcome |
| Pairwise.OutcomesCount | revised/tube_test_processing.py:194-208 | a pair's total is the number of its rows in the combined table, and a group's size the number of the pair's rows with that outcome |
| Pairwise.MinCount | revised/tube_test_processing.py:196 | the 'min' aggregate is the size of some group and of no group larger |
| Pairwise.MaxCount | revised/tube_test_processing.py:201 | the 'max' aggregate is the size of some group and of no group smaller |
| Pairwise.PairKeyHasRows | revised/tube_test_processing.py:196-206 | every pair of the merged table has at least one outcome group |
| Pairwise.Initial | revised/tube_test_processing.py:199 | the first character of an id, or the empty id itself |
| Pairwise.PickIdSpec | revised/tube_test_processing.py:196-204 | `x[0]` of `x.unique()` is the initial of the id when all ids agree, and the first id otherwise |
| Pairwise.CountsBounded | revised/tube_test_processing.py:196-208 | every group has a row and no group more rows than the pair, so 0 < min <= max <= total |
| Pairwise.Merged | revised/tube_test_processing.py:194-210 | the merged row of a pair has its ids, its row count as total, 0 < loser count <= winner count <= total, and no draw yet; MinCount, MaxCount and MergedIds state the rest |
| Pairwise.ResetLoser | revised/tube_test_processing.py:212 | a loser count equal to the total becomes 0, any other is kept, and nothing else changes |
| Pairwise.MarkDraw | revised/tube_test_processing.py:214-215 | the draw flag is set exactly when loser and winner counts agree, and nothing else changes |
| Pairwise.Corrected | revised/tube_test_processing.py:194-215 | one corrected row per sorted pair, with that pair's ids, and a draw exactly when loser and winner counts agree |
| Pairwise.Summary | revised/tube_test_processing.py:217 | every summary row is a corrected row and no two summary rows share their content; SummaryContents and SummaryKeepsLeastPair state which rows remain |
| Pairwise.ResetLoserCounts | revised/tube_test_processing.py:212 | in place, each row's loser count becomes 0 when it equals the total, and nothing else changes |
| Pairwise.MarkDraws | revised/tube_test_processing.py:214-215 | in place, each row's draw flag becomes whether its loser and winner counts agree |
| Pairwise.Aggregate | revised/tube_test_processing.py:194-217 | building, correcting in place and deduplicating the merged table yields the pairwise summary, with loser and winner recorded as lines 199 and 204 do |
| Pairwise.SumCountsEmpty | revised/tube_test_processing.py:194 | an empty multiset counts nothing in any group |
| Pairwise.SumCountsAdd | revised/tube_test_processing.py:194 | one more row adds one to the group sizes exactly when its outcome is among the groups |
| Pairwise.SumCountsCovers | revised/tube_test_processing.py:194 | summing group sizes over groups that cover all outcomes counts every row once |
| Pairwise.SumCountsAtLeast | revised/tube_test_processing.py:194 | one group's size is at most the sum of all group sizes |
| Pairwise.SumCountsAtLeastTwo | revised/tube_test_processing.py:194 | two groups' sizes together are at most the sum of all group sizes |
| Pairwise.TotalIsSumOfGroupSizes | revised/tube_test_processing.py:194-208 | a pair's total count is the sum of its outcome-group sizes |
| Pairwise.OneGroupIffSingleOutcome | revised/tube_test_processing.py:194 | a pair has one group exactly when all its rows have the same outcome |
| Pairwise.ResetIffSingleOutcome | revised/tube_test_processing.py:212 | the loser count equals the total exactly when the pair has a single outcome; otherwise it is strictly between 0 and the total |
| Pairwise.MergedAgainstGroups | revised/tube_test_processing.py:196-212 | the merged loser count equals the total exactly when the pair has one group, and is below it when it has more |
| Pairwise.MinIsSumIffOneGroup | revised/tube_test_processing.py:212 | when every group has a row, the smallest group holds all the rows exactly when there is one group |
| Pairwise.MinBelowSum | revised/tube_test_processing.py:212 | with two or more groups the smallest group is below the total |
| Pairwise.MergedCounts | revised/tube_test_processing.py:196-201 | the merged loser count is the 'min' of the group sizes and the winner count the 'max' |
| Pairwise.RecordedOutcomeIsLeast | revised/tube_test_processing.py:196-204 | the recorded loser and winner come from the pair's least outcome in tuple order: its whole loser when the pair has several losers, only the loser's first character when it has one, and likewise for the winner |
| Pairwise.MergedIds | revised/tube_test_processing.py:196-204 | the merged loser is the first group's loser, cut to its first character when the pair has one loser; likewise the winner |
| Pairwise.SharedLoserIds | revised/tube_test_processing.py:196 | all of a pair's rows share the loser exactly when all its groups do |
| Pairwise.SharedLoserKeys | revised/tube_test_processing.py:196 | outcomes share a loser exactly when their sorted distinct outcomes do |
| Pairwise.SharedWinnerIds | revised/tube_test_processing.py:201 | all of a pair's rows share the winner exactly when all its groups do |
| Pairwise.SharedWinnerKeys | revised/tube_test_processing.py:201 | outcomes share a winner exactly when their sorted distinct outcomes do |
| Pairwise.WinnerCountIsLargestGroup | revised/tube_test_processing.py:201-210 | the total is the pair's row count, and the winner count is the size of its largest group |
| Pairwise.SingleOutcomeRow | revised/tube_test_processing.py:208-215 | a single-outcome pair ends with loser count 0, winner count equal to the total, and no draw |
| Pairwise.MixedOutcomeRow | revised/tube_test_processing.py:194-215 | a mixed pair keeps the smallest group size as loser count, strictly between 0 and the total, and is a draw exactly when loser and winner counts agree |
| Pairwise.CorrectedAt | revised/tube_test_processing.py:206-215 | the i-th corrected row is the reset and draw-marked merged row of the i-th sorted pair |
| Pairwise.SameGroups | revised/tube_test_processing.py:194 | outcomes with the same multiset give the same sorted groups |
| Pairwise.SameOutcomesSameContent | revised/tube_test_processing.py:194-215 | pairs with the same outcomes, each as often, get the same counts, loser, winner and draw |
| Pairwise.MergedIs | revised/tube_test_processing.py:194-210 | the merged row is the min and max group sizes, the picked loser and winner, and the row count |
| Pairwise.OneSidedPairsShareContent | revised/tube_test_processing.py:196-217 | two one-sided pairs with equal totals, whose losers share their first character and whose winners do too, get the same content |
| Pairwise.SummaryContents | revised/tube_test_processing.py:217 | every pair's content appears in the summary, and no content appears twice |
| Pairwise.SummaryKeepsLeastPair | revised/tube_test_processing.py:217 | each summary row is the row of the least pair, in (subject, agent) order, among pairs with its content |
| Pairwise.FirstHasLeastKey | revised/tube_test_processing.py:217 | among rows listed under increasing pair keys, the first row with a content has the least key among the rows with that content |
| Pairwise.SameOutcomesSummarisedOnce | revised/tube_test_processing.py:217 | two pairs with the same outcomes (such as a pair and its mirror) never both get a summary row |
| Workbook.Lookup | revised/tube_test_processing.py:88 | a sheet is found exactly when the file has one of that name, and it is that sheet |
| Workbook.Selected | revised/tube_test_processing.py:74-77 | the requested names when there are any, otherwise the names of all the file's sheets, in file order |
| Workbook.ConcatIn | revised/tube_test_processing.py:161 | the concatenation holds exactly the rows of the listed tables |
| Workbook.ScoreSheet | revised/tube_test_processing.py:86-154 | a sheet is processed exactly when the file has it, it has the session column and the engine rates some of its rows; otherwise it fails with the error of the first missing condition; a processed sheet is the cleaned sheet and its rated rows with resolved cages |
| Workbook.SheetTables.constructor | revised/tube_test_processing.py:80-81 | the two dictionaries start empty |
| Workbook.SheetTables.Store | revised/tube_test_processing.py:88 | stores both tables under the name; a new name goes last, an old one keeps its place, and the keys stay in step |
| Workbook.SheetTables.Combined | revised/tube_test_processing.py:161 | the combined table holds exactly the rows of the stored tables |
| Workbook.ProcessedWellKeyed | revised/tube_test_processing.py:84-148 | after the loop both dictionaries have exactly the keys of the order list, each once |
| Workbook.FailureStops | revised/tube_test_processing.py:84 | once a sheet fails, the loop ends with that error |
| Workbook.ProcessStep | revised/tube_test_processing.py:84-148 | one more sheet either stops the loop with its error or stores its tables |
| Workbook.Collect | revised/tube_test_processing.py:84-154 | processing sheet by sheet into the tables fails as the loop does, or leaves the tables the loop produces |
| Workbook.Run | revised/tube_test_processing.py:74-217 | the script's pipeline as a method computes exactly the pipeline's result |
| Workbook.FirstNamesMembers | revised/tube_test_processing.py:84 | keeping first occurrences of names keeps exactly the names |
| Workbook.ProcessedOrder | revised/tube_test_processing.py:84-148 | the dictionaries list each selected sheet once, in the order first named |
| Workbook.ProcessedContents | revised/tube_test_processing.py:86-154 | each stored sheet holds that sheet's cleaned and rated tables |
| Workbook.ProcessSucceedsIffEverySheet | revised/tube_test_processing.py:84-154 | the loop completes exactly when every selected sheet can be processed |
| Workbook.FirstFailureReported | revised/tube_test_processing.py:84-154 | a failed loop reports the error of the first selected sheet that fails |
| Workbook.ProcessSheets | revised/tube_test_processing.py:84-154 | the loop stores only named sheets, at most one per name; ProcessSucceedsIffEverySheet, FirstFailureReported, ProcessedOrder and ProcessedContents state the rest |
| Workbook.ConcatStored | revised/tube_test_processing.py:161 | concatenating the stored tables gives the rated rows of the sheets in order |
| Workbook.PipelineSucceeds | revised/tube_test_processing.py:74-161 | the script succeeds exactly when some sheet is selected and every selected sheet can be processed |
| Workbook.PipelineOutputs | revised/tube_test_processing.py:161-217 | the combined table is each selected sheet's rated rows once, in first-named order, with strains; standings and summary are computed from it |
| Workbook.Pipeline | revised/tube_test_processing.py:74-217 | with no sheet selected the script fails with nothing to combine; PipelineSucceeds and PipelineOutputs state the rest |

## Left out

- The model follows pandas 2.x (before 3.0). Two steps depend on it. `fillna(method='ffill')` (lines 104 and 111) is removed in pandas 3.0, where the call would raise inside its `try` and leave the dates and runners unfilled; that behaviour is not modelled. Groupby aggregation unwrapping a one-element `unique()` result into the id itself (lines 196 and 201, `Pairwise.PickId`) is the 2.x behaviour.
- The rating engine (`calculation.iterate_elo_rating_calculation_for_dataframe`, lines 134-146) is not part of this model. It is a function parameter that maps a cleaned sheet to its rated rows. Both calls (with and without the tie column) are the one parameter.
- Ratings and dates are integers. Float ratings, NaN ratings and the float-typed rank column (line 178) are not modelled.
- The engine's extra columns, copied from the cleaned sheet into its output, are not modelled. A rated row holds subject, agent, winner, loser, rating, cages and strains.
- Reading the workbook is modelled as a list of named sheets. The header-row fallback (a second `read_excel` with `header=0`, lines 90-92) is not modelled, because it only changes how the file is parsed.
- Warnings for missing columns (lines 98-122) print text and change nothing, so they are not modelled. A sheet without winner or loser columns is not modelled: every row has both cells, possibly empty.
- Tables.Clean: `astype(str)` converts every winner and loser cell to text (lines 96-97); the model takes that text as given. It cannot represent a numeric cell and its conversion, such as a float id 12.0 becoming the text "12.0", whose token is "12.0".
- Columns.TieColumn: the tie cell is an integer, a text or a boolean. Float ties and NaN text are not modelled.
- Pairwise.Initial: an empty id is kept empty, where `x[0]` on an empty text raises an error. An empty id cannot reach the summary from a sheet: `read_excel` reads an empty cell as missing and line 88 drops the row, and the token of a non-empty cell is non-empty.
- Tokens.Token: `\d` is the ASCII digits only. Python also matches other Unicode decimal digits.
- The session column is fixed to the date column. Setting `session_divider_column` to another column is not modelled.
- The earliest and latest dates (lines 156-158 and 181-188) are for reporting only and are not modelled.
- The id set (line 164) and the cage list (line 191) are never used afterwards, so they are not modelled.
- Writing the CSV files (lines 219-222) and the Plotly figures (lines 224 onwards) are output only and are not modelled.
- Loading the YAML configuration and the command line (lines 24-58) is not modelled. The configuration values are parameters.
- The `header_row_dict` lookup failing for a sheet is not modelled, because the script then falls back to `header=0` (line 91).
