# Verified model of the PostgreSQL monitoring queries and dashboards

The repository collects PostgreSQL statistics, masks and aggregates query texts, stores the counters in
InfluxDB and ClickHouse, and generates Grafana boards that query them. This project models the parts of
it that hold logic, and proves what they promise:

- `Text`, `Macro`, `Interpolation`, `Quoting`, `Substitution`, `SubstitutionExact`, `SubstitutionSealed`,
  `WrittenValues`, `Placeholders`, `TextBoxes`: how a panel query becomes the query that is sent: the scanner of
  `$__conditionalAll(..)` calls, the loop that rewrites them, the quoted value lists and how they are read back,
  and the replacement of one variable after another.
- `Layout`: the placement of panels on the 24-column grid and their ids, on a heap of panel objects.
- `Counters`, `CounterRuns`, `Buckets`, `Grouping`, `Queries`, `GroupedQueries`: the expression that computes the
  increase of a cumulative counter, its evaluator, and two state machines of what really happened (entries that are
  evicted and admitted again; a counter with resets); bucketed rates; breakdown tables and rates per group.
- `Downsample`: the 1h rollup and the backfill loop, on a store that later writes overwrite.
- `Regex`, `QueryMask`, `MaskChainScan`, `MaskVariants`, `MaskLaws`, `MaskTotals`: the four nested regular-expression
  rewrites of the query mask, over characters; the grouping, the top-N selection and the totals.
- `EnvCompare`, `InfluxCompare`, `MaskCompare`, `MaskSides`, `MaskUsers`: the comparison of two environments as one SQL query
  with conditional aggregates and as a pipeline of Grafana transformations over merged queries; the statement
  masks of both environments and of one.

The code that changes things step by step (`_macro_args`, `interpolate`, `run`, `layout`, `ds`, the select
and transformation lists) is modelled by methods with loops; each is proved equal to a specification
function, and the laws are lemmas about that function. The SQL and regular-expression parts are functions.
Automatic induction is switched off in every lemma to which it would apply; inductions are written out.

Definitions assumed of the engines, stated once: `arrayDifference` starts with 0 and `greatest`, `if`,
`arrayMap`, `arraySum` act element by element (`Counters.EvalArray`); `argMax(x, time)` per bucket is the
last sample in time order (`Buckets.Picks`); `lagInFrame(x, 1, x)` is the previous row's value and the own
one in the first row (`Queries.Windows`); `regexp_replace(.., 'g')` replaces leftmost longest matches and
continues behind each (`Regex.ReplaceAll`); `anyIf` takes the value of a row that satisfies the condition
(`EnvCompare.AnyOf`); `GROUP BY` gives one row per key (`Grouping.GroupSum`); a later InfluxDB point with
the same series and time replaces the earlier one (`Downsample.Store`); in a ClickHouse string literal a
doubled quote stands for a quote, and a backslash together with the next character for what that character's
escape says: a quote for itself, any other one for at most two characters, which may be the backslash and the
character unchanged (`Quoting.Escape`, `Quoting.ReadBody`). The escapes themselves are a parameter.

Definitions assumed of Grafana, stated once: the merge of two queries gives one row per key with the columns
of both, null where a query has no row or no value (`InfluxCompare.Merge`); a missing column counts as null in
an `isNull` filter, and a row passes or is excluded if any listed field is null (`InfluxCompare.AnyNull`); only
the number 0 falls under the filter "all differences are 0" (`InfluxCompare.AllZero`); numbers sort before
nulls (`InfluxCompare.AtLeast`). Nothing is assumed about what a calculated field shows for a missing operand
or for a division by 0: both results are parameters (`InfluxCompare.Grafana`), and the laws say where they
matter.

Findings, each stated as a lemma:

- Replacing one variable after another, the longest name first, can go wrong even where no two variables are
  adjacent: with the override `env=p`, the values of `run` turn `$r$env` into `$rp` and then into the
  retention policy (`Substitution.AdjacentVariablesCollide`). The exact condition on the query is
  `Substitution.Settled`: no variable directly behind the beginning of a name that is replaced later
  (`SubstitutionExact.SettledIsExact`).
- Only the quote is escaped in a string literal. A value is read back unchanged exactly if, read from the left,
  each of its backslashes stands in front of a character whose escape keeps both (`Quoting.QuoteReadBack`,
  `Quoting.QuoteTextReadBack`), and a list exactly if every value is (`Quoting.ListReadBack`). The regular
  expression `\d` passes if ClickHouse keeps that escape; a backslash at the end or in front of a quote never
  does (`Quoting.BackslashCases`).
- Filling in one placeholder after another goes wrong exactly if a value that is written into the query holds a
  placeholder that is filled in later (`Placeholders.PlaceholdersAtOnce`, `Placeholders.WhereFilled`).
- Panel ids are unique exactly under the bound of `Layout.DifferentIdsIff`; 101 panels in the first of two rows
  exceed it (`Layout.IdsCollide`). Inner panels of a row overlap exactly if one of them, other than the last, is
  higher than 14 lines (`Layout.InnerDisjointIff`).
- The two "only in" panels differ on objects whose tested value is null in the other environment
  (`InfluxCompare.OnlyInAgrees`), the delta panels on objects whose value is null
  (`InfluxCompare.DeltaAgrees`), the "changed" panels on null flags whose difference Grafana does not take for 0
  (`InfluxCompare.ChangedAgrees`); each is given with its exact condition, and one table shows all three
  (`InfluxCompare.NullSplitsOnlyInAndDelta`, `InfluxCompare.NullSplitsChanged`). The two share forms differ on a
  total of 0 unless Grafana shows a quotient by 0 as empty (`MaskCompare.SharesAgree`).
- Counting the new value after a drop, on sums over entries that are evicted, overstates a stretch between two
  samples exactly if the gain is below the evicted counts and these are below the previous sample
  (`CounterRuns.ValueOverstatesWindow`): the reason for `on_reset="ignore"`.
- A chain of VALUES rows is masked independently of its surroundings exactly if it is a whole run: with a tuple
  and a separator before it, or a separator and a tuple behind it, the ellipsis takes these in
  (`MaskLaws.RowsAsEllipsis`, `MaskLaws.RowsMasked`).
- A backfill chunk edge inside an hour loses the hour's maximum exactly if the later part stays below the
  earlier one (`Downsample.SplitHourLosesPeakIff`).

## Model

| member | source | states |
|---|---|---|
| Macro.MacroArgs | dashboards/check_queries.py:77-96 | the scanner returns the only list of balanced arguments without top-level commas whose printed form stands at the parenthesis, with the index behind it; it fails exactly when the parenthesis is never closed |
| Macro.CallUnique | dashboards/check_queries.py:77-96 | a text has at most one reading as a call from a given parenthesis: same arguments, same end |
| Interpolation.FoundArgs | dashboards/check_queries.py:77-96 | reading back: any list of such arguments, printed between any prefix and suffix, is read as that list, with the index behind the printed call |
| Macro.CallIsClosed | dashboards/check_queries.py:77-96 | a readable call is closed: the scanner's two outcomes exclude each other |
| Macro.PlainMeans | dashboards/check_queries.py:80-95 | an argument is complete if and only if its depth ends at 0, is never negative, and is positive at every comma |
| Interpolation.Interpolate | dashboards/check_queries.py:99-111 | the loop terminates on every text and computes the leftmost-first expansion followed by the replacement of the value lists and text boxes; unclosed call, missing argument and missing variable are the errors |
| Interpolation.Expand | dashboards/check_queries.py:101-105 | no macro is left in an expanded text |
| Interpolation.ChoiceIsShorter | dashboards/check_queries.py:102-105 | what replaces a macro call is strictly shorter than the call: the termination measure |
| Interpolation.Selected | dashboards/check_queries.py:105 | the values of a variable are those of the first entry with its name, and there are none if no entry has it |
| Interpolation.FirstVariableIs | dashboards/check_queries.py:104 | the variable of a filter is the longest word behind the first `$` or `${` of its second argument that has one |
| Interpolation.NoVariableIn | dashboards/check_queries.py:104 | none is found exactly if no `$` has a word behind it: the error case |
| Interpolation.WordCharacters | dashboards/check_queries.py:104 | the word characters are the 26 letters in both cases, the ten digits and the underscore |
| Interpolation.ExpandMeaning | dashboards/check_queries.py:101-105 | on every template, with filters nested to any depth, the textual loop computes the template's meaning: each filter is decided by its own variable, and it never fails |
| Interpolation.FilterPlain | dashboards/builder/clickhouse.py:95-98 | the arguments of a multi-value filter hold no comma of their own, so the macro is split where its author meant |
| Interpolation.WhereExpands | dashboards/builder/clickhouse.py:95-114 | the expanded WHERE clause keeps, in order, the filters of the variables that are not All, the others as 1=1 |
| Quoting.QuoteReadBack | dashboards/check_queries.py:106-108 | a value of a quoted list is read back unchanged from its literal if and only if, read from the left, each of its backslashes stands in front of a character other than a quote whose escape is the two unchanged, whatever the other escapes mean |
| Quoting.ListReadBack | dashboards/check_queries.py:106-108 | the comma-joined list is read back as exactly the list of the values, an empty selection as one empty value, if and only if every value is so; then no value ends its literal early or changes its neighbours |
| Quoting.QuoteTextReadBack | dashboards/check_queries.py:109-110 | the same for a text box, whose quotes are doubled |
| Quoting.BackslashCases | dashboards/builder/clickhouse.py:101-104 | a backslash at the end of a value or in front of a quote is never read back; in front of another character, as in a regular expression, exactly if its escape keeps both |
| Quoting.NoBackslashHarmless | dashboards/check_queries.py:106-110 | a value without a backslash is always read back unchanged |
| Quoting.QuotedCharacters | dashboards/check_queries.py:107-110 | a literal character by character: a quote is written as backslash and quote in a list, as two quotes in a text box, any other character as itself |
| Quoting.ListText | dashboards/check_queries.py:107-108 | a list is its values' literals in order, with one comma between two of them; an empty one is two quotes |
| Placeholders.PlaceholdersAtOnce | dashboards/check_queries.py:106-110 | for word-like, different names and any values: filling one placeholder of a text after another is filling in all at once if and only if no value that is written into that text holds a placeholder that is filled in later |
| Placeholders.PlaceholdersAnyOrder | dashboards/check_queries.py:106-110 | if no value holds a placeholder, the order of the variables does not matter |
| Placeholders.NoBraceNoPlaceholder | dashboards/check_queries.py:106-110 | values without the text `${` hold no placeholder; a dollar sign alone does no harm |
| WrittenValues.ListHolds | dashboards/check_queries.py:106-108 | quoting and joining neither completes nor destroys a placeholder: a written list holds one exactly if one of its values does |
| Placeholders.FilterFilled | dashboards/check_queries.py:106-108 | a kept multi-value filter becomes column IN (the quoted values of its own variable) |
| Placeholders.WhereFilled | dashboards/check_queries.py:99-111 | the whole path, filter by filter: for different word-like names, `interpolate` returns the clause in which a filter is column IN (the quoted values) if the selection has an entry for its variable with values, and 1=1 otherwise, if and only if no value of a variable that a filter is about holds a placeholder that is filled in later |
| TextBoxes.BoxFilled | dashboards/check_queries.py:109-110 | in any text without other dollar signs, a text box becomes its own quoted text, if and only if that text holds no placeholder of a later box |
| Substitution.Run | dashboards/check_queries.py:66-71 | the loop replaces the variables one after another, ordered by decreasing length of the name |
| Substitution.RunSends | dashboards/check_queries.py:66-71 | what `run` sends for the single variable `$name`, if no value and no name holds a dollar sign: the value of its override, or else `.*` for the nine names of the table, and the first environment, the second one and the retention policy for env_a, env_b and rp |
| Substitution.FirstMatchIsLongest | dashboards/check_queries.py:70 | in that order the variable read at a place is the longest that fits: `$env_a` is never read as `$env` |
| Substitution.ReplaceOne | dashboards/check_queries.py:70-71 | one replacement followed by the intended meaning of the remaining variables is the intended meaning, and the text stays safe |
| Substitution.RunIsSimultaneous | dashboards/check_queries.py:66-71 | what `run` sends is the query with every variable replaced once and at once, for values without `$` and a settled query |
| Substitution.AdjacentVariablesCollide | dashboards/check_queries.py:66-71 | with the dictionary that `run` builds, sorted as it sorts it, and the override env=p, the query `$r$env` becomes the retention policy instead of `$rp` |
| SubstitutionExact.SettledIsExact | dashboards/check_queries.py:66-71 | sequential replacement equals simultaneous replacement for all values without `$` if and only if the query is settled |
| SubstitutionExact.FencedIsSimultaneous | dashboards/check_queries.py:106-110 | if every value begins with a character of no name and holds no `$`, replacing in the given order is replacing at once, for every text |
| SubstitutionExact.FencedAnyOrder | dashboards/check_queries.py:106-110 | such values may be replaced in any order if no name is the beginning of another one |
| SubstitutionExact.FencedOrderMatters | dashboards/check_queries.py:70 | if a name is the beginning of another one, the order matters even for such values |
| SubstitutionSealed.SealedIsExact | dashboards/check_queries.py:106-110 | for values between two characters of no name, as quoted values are, and names of which none begins another one: replacing in the given order is replacing at once, text by text, if and only if no value inserted into the text holds a name that is replaced later |
| SubstitutionSealed.SealedEverywhere | dashboards/check_queries.py:106-110 | it is so in every text if and only if no value at all holds a name that is replaced later |
| SubstitutionSealed.SealedAnyOrder | dashboards/check_queries.py:106-110 | such values may be replaced in any order if none holds a name |
| Layout.Layout | dashboards/builder/common.py:408-429 | on the heap: every top-level panel keeps its size, 24 by 8 without one; panel a inside a row gets x = 0 and the line 1 + 14a below the row's own new line and so never shares a cell with it; the entries of top-level panels share no cell and stay inside the columns if and only if no panel is wider; panel i gets the id i + 1 and its inner panel a the id 100(i + 1) + a + 1, and the ids are different if and only if no hundred is exceeded |
| Layout.PlacePanel | dashboards/builder/common.py:412-424 | one turn of the placement loop: the panel's size is kept, inner panels of a row lie 1 + 14a below its new line, those of another panel stay; the new cursor |
| Layout.SetIds | dashboards/builder/common.py:425-428 | one turn of the numbering loop: i + 1 for the panel, 100(i + 1) + a + 1 for its inner panel a, and no position changes |
| Layout.NoOverlap | dashboards/builder/common.py:411-424 | no cell of the grid belongs to two top-level panels, whatever their widths |
| Layout.ReadingOrder | dashboards/builder/common.py:411-424 | positions follow the list line by line and left to right |
| Layout.InsideGrid | dashboards/builder/common.py:415 | the board stays within 24 columns if and only if no single panel is wider |
| Layout.Tight | dashboards/builder/common.py:415-424 | a panel stands at the top or exactly at the bottom of the tallest panel above, and at the left edge or directly beside an earlier one |
| Layout.GreedyStaysAhead | dashboards/builder/common.py:415-424 | no order-preserving division into shelves of width 24 puts a panel on an earlier shelf, or further left on the same one |
| Layout.GreedyIsDivision | dashboards/builder/common.py:415-424 | the greedy shelves are such a division, so the minimum is attained |
| Layout.ShelvesAreLines | dashboards/builder/common.py:415-424 | between two rows, panels share a shelf if and only if they share their y |
| Layout.FewestLines | dashboards/builder/common.py:411-424 | between two rows the board uses the fewest lines of all such divisions |
| Layout.DistinctIdsIff | dashboards/builder/common.py:425-428 | the id numbers of a board differ if and only if no hundred is exceeded, counted up to the next panel with inner panels |
| Layout.DifferentIdsIff | dashboards/builder/common.py:425-428 | on the heap: no two numbered panels, inner ones included, have the same id if and only if that bound holds for the numbers of inner panels |
| Layout.IdsCollide | dashboards/builder/common.py:425-428 | 101 panels inside the first of two rows give an id twice |
| Layout.InnerDisjointIff | dashboards/builder/common.py:419-422 | no two inner panels of a row overlap if and only if each but the last is at most 14 lines high |
| Counters.IncreaseMeaning | dashboards/builder/clickhouse.py:126-136 | the emitted array expression evaluates to the sum of the steps between samples in time order; a drop counts as the new value or as nothing |
| Counters.OrderIndependent | dashboards/builder/clickhouse.py:133-136 | for distinct times, any permutation of the collected rows gives the same value |
| Counters.MonotoneIncreaseIsSpread | dashboards/builder/clickhouse.py:126-136 | on a counter that never drops it is maximum minus minimum |
| Counters.Thinning | dashboards/builder/clickhouse.py:126-136 | leaving out samples never increases the value, in both modes, for all non-negative samples |
| Counters.ThinningGap | dashboards/builder/clickhouse.py:126-136 | on a monotone counter exactly the part before the first and after the last kept sample is lost |
| CounterRuns.IgnoreNeverOverstates | dashboards/builder/clickhouse.py:126-136 | over every run of increments, evictions, re-admissions and samples, the emitted ignore expression, evaluated on the stored samples, never exceeds the true increments; exact if and only if no stretch between two samples had both gains and evicted counts |
| CounterRuns.ValueNeverOverstates | dashboards/builder/clickhouse.py:126-136 | over every run of one counter with resets, the emitted value expression, evaluated on the stored samples, never exceeds the true increments; exact if and only if resets lose nothing unsampled and are visible as a drop |
| CounterRuns.ValueOverstatesOnEvictions | dashboards/builder/clickhouse.py:14-16 | a run without any increment since the first sample for which the value expression on summed entries reports 100 |
| CounterRuns.ValueOverstatesWindow | dashboards/builder/clickhouse.py:12-17 | after every run, the value mode overstates a stretch between two samples exactly if its gain is below the evicted counts and these are below the previous sample |
| CounterRuns.TrueIncrements | dashboards/builder/clickhouse.py:12-17 | the true increments of the bounds are the sum of all increment events between the first and the last sample |
| CounterRuns.EntryEvicted | dashboards/builder/clickhouse.py:14-16 | an entry counts exactly its increments since its last eviction |
| CounterRuns.EntryKept | dashboards/builder/clickhouse.py:14-16 | an entry that was never evicted counts all its increments |
| CounterRuns.TrueAdditions | dashboards/builder/clickhouse.py:12-14 | for the counter with resets: all additions between the first and the last sample |
| CounterRuns.ValueIs | dashboards/builder/clickhouse.py:12-14 | its value is the sum of the additions since the last reset |
| Buckets.PicksAscend | dashboards/builder/clickhouse.py:183-197 | one row per bucket, in ascending order, the last one being the very last sample |
| Buckets.PickIsLast | dashboards/builder/clickhouse.py:183-197 | the row of a bucket holds the latest sample of that bucket |
| Buckets.PicksCover | dashboards/builder/clickhouse.py:183-197 | every bucket with a sample has a row |
| Buckets.EveryBucket | dashboards/builder/clickhouse.py:196 | a time lies in the bucket that starts at the last multiple of the width not after it |
| Buckets.BucketedIncrease | dashboards/builder/clickhouse.py:172-199 | the increase over bucket-last values never exceeds the increase over the raw samples |
| Buckets.BucketedGap | dashboards/builder/clickhouse.py:172-199 | on a monotone counter exactly the part inside the first bucket is missing |
| Grouping.GroupSumFacts | dashboards/builder/clickhouse.py:145-169 | a grouped sum has one row per occurring key, holding the sum over that key, and conserves the total |
| Grouping.RollUp | dashboards/builder/clickhouse.py:145-169 | grouping by a fine key and then by one derived from it equals grouping by the derived one |
| Queries.SeriesFacts | dashboards/builder/clickhouse.py:157-158 | the series rows are exactly the series that occur among the points, each once |
| Queries.SameGroup | dashboards/builder/clickhouse.py:155-158 | two rows share a group if and only if they have the same values in all its columns |
| Queries.OwnPoints | dashboards/builder/clickhouse.py:157-158 | the samples of a series are those of exactly the points with its column values, each as often as it is stored |
| Queries.SeriesPartition | dashboards/builder/clickhouse.py:157-158 | over all listed series no sample of the measurement is lost or repeated |
| Queries.SeriesRowSpread | dashboards/builder/clickhouse.py:145-164 | end to end from the points: on a series that never drops, the row shows the largest minus the smallest value among the points with its column values |
| Queries.BreakdownConserves | dashboards/builder/clickhouse.py:145-169 | whatever the grouping, the rows of a breakdown add up to the one-row total |
| Queries.BreakdownRollsUp | dashboards/builder/clickhouse.py:145-169 | rolling up a finer breakdown gives the coarser one, row by row |
| Queries.BreakdownRows | dashboards/builder/clickhouse.py:159-168 | one row per group, holding the sum over exactly the series of that group |
| Queries.EnvsNeverMix | dashboards/builder/clickhouse.py:145-169 | with env among the group columns, a row of the breakdown is the sum of series that all have the row's own environment |
| Queries.EmittedWindows | dashboards/builder/clickhouse.py:194-199 | the condition t > pt drops the first bucket of a series and no other |
| Queries.EmittedSeconds | dashboards/builder/clickhouse.py:189-199 | row j of a series has the step from bucket j to bucket j + 1, and it is positive |
| Queries.RateMeans | dashboards/builder/clickhouse.py:185-199 | row j shows the step of the counter from bucket j to bucket j + 1 divided by the time between these two buckets |
| Queries.DeltasNonNegative | dashboards/builder/clickhouse.py:185-188 | no delta of a non-negative counter is negative |
| Queries.RatesMeetIncrease | dashboards/builder/clickhouse.py:172-199 | rate times the time between the buckets, summed over a series' rows, is the increase of its bucket-last samples in the same mode, and at most the increase of all samples |
| Queries.ChangesAddUp | dashboards/builder/clickhouse.py:172-199 | over all series and buckets, whatever the grouping, the emitted changes add up to the sum of the series' increases |
| Queries.NonNegativeDifferenceSum | dashboards/builder/common.py:94-112 | the summed non-negative differences of the InfluxDB form are the increase that ignores drops |
| Queries.InfluxMeetsClickHouse | dashboards/builder/common.py:103-109 | per series and on the same buckets, the InfluxDB increase equals the sum of the ClickHouse deltas, and is at most the table's increase |
| GroupedQueries.GroupsMeet | dashboards/builder/common.py:94-112 | group by group, `increase_query` sums the increases of exactly the group's series, equals the ClickHouse change of the group over all buckets, and is at most the group's row of the ClickHouse table |
| GroupedQueries.QueriesMeet | dashboards/builder/clickhouse.py:145-169 | the same from the stored points of a measurement: the series and their samples are those of the points, and the bound is the row of `series_query` |
| GroupedQueries.IncreaseRows | dashboards/builder/common.py:107-112 | one row per group, exactly where a series of the group has a step that is not a drop |
| GroupedQueries.RatesRollUp | dashboards/builder/clickhouse.py:172-199 | bucket by bucket, the per-second rates of finer groups add up to those of coarser ones |
| GroupedQueries.GroupRateIsChange | dashboards/builder/clickhouse.py:185-199 | if from each bucket of a series to its next one it is the same time, a group's per-second rate times that time is the group's change in that bucket |
| GroupedQueries.ChangeAtBucket | dashboards/builder/clickhouse.py:185-199 | the change of a group in a bucket is, over exactly the group's series, the sum of the steps from each series' own bucket before |
| GroupedQueries.RateAtBucket | dashboards/builder/clickhouse.py:189-199 | the rate sums those steps, each divided by the time between that series' own two buckets |
| GroupedQueries.PanelRows | dashboards/builder/clickhouse.py:194-199 | one row per bucket and group, exactly where a series of the group has the bucket and an earlier one |
| Regex.LongestMatch | sql/cluster_stmt_mask.sql:10-16 | the matcher finds the longest prefix in the expression's language |
| QueryMask.MaskIsNormal | sql/cluster_stmt_mask.sql:10-16 | no rewrite undoes an earlier one: a mask has no blank run, no other parameter number, no long parameter list and no chain of tuples |
| QueryMask.MaskIdempotent | sql/cluster_stmt_mask.sql:10-16 | masking a mask changes nothing, for every character string |
| MaskLaws.MaskFixedIff | sql/cluster_stmt_mask.sql:10-16 | a text is its own mask if and only if it is so: nothing else is changed or cut |
| MaskLaws.MaskAround | sql/cluster_stmt_mask.sql:10-16 | every character other than blanks, digits, dollar signs, parentheses and commas is kept, and the mask is put together from those of the texts before and after it |
| MaskLaws.PlainTextKept | sql/cluster_stmt_mask.sql:10-16 | a text with single spaces and without dollar signs and opening parentheses is its own mask, however long |
| MaskLaws.BlanksMasked | sql/cluster_stmt_mask.sql:13 | in any context, a run of spaces, tabs, line ends and form feeds counts as one space |
| MaskLaws.NumberMasked | sql/cluster_stmt_mask.sql:14 | in any context, a dollar sign and a run of digits count as `$0` |
| MaskLaws.ListMasked | sql/cluster_stmt_mask.sql:15 | in any context, two or more parameters in parentheses, with commas and any blanks, count as `($0,$0)` |
| MaskLaws.ListAlone | sql/cluster_stmt_mask.sql:15 | alone they become just that |
| MaskLaws.RowsAsEllipsis | sql/cluster_stmt_mask.sql:16 | in any context, a row and the rows behind it count as the row and `,...`, if and only if no tuple and separator stand before the row and no separator and tuple behind the last one |
| MaskLaws.RowsMasked | sql/cluster_stmt_mask.sql:16 | on the same condition, and no other, the mask is the mask of the text before, the masked row, `,...` and the mask of the text behind |
| MaskChainScan.ChainLen | sql/cluster_stmt_mask.sql:16 | what the fourth expression matches behind a tuple: the tuple and all tuples linked to it |
| MaskChainScan.Collapse | sql/cluster_stmt_mask.sql:16 | the number of tuples linked to a tuple does not matter to the fourth rewrite, in any text |
| MaskVariants.SameBlanks | sql/cluster_stmt_mask.sql:13 | between any prefix and suffix, two runs of blanks give the same mask |
| MaskVariants.SameNumbers | sql/cluster_stmt_mask.sql:14 | between any prefix and suffix, two parameter numbers give the same mask |
| MaskVariants.SameLists | sql/cluster_stmt_mask.sql:15 | between any prefix and suffix, two parameter lists of at least two parameters give the same mask |
| MaskVariants.SameRows | sql/cluster_stmt_mask.sql:16 | between any prefix and suffix, one or more further VALUES tuples behind a tuple give the same mask |
| MaskTotals.MasksAddUp | sql/cluster_stmt_mask.sql:25-44 | rolled up over the masks, every column of the mask query equals the totals query row by row; the variants add up to the statements |
| MaskTotals.TotalsMean | sql/cluster_stmt_totals.sql:6-21 | a totals row sums, for each column, the column's own field over exactly the entries of that user and database whose role is not hidden |
| MaskTotals.MasksMean | sql/cluster_stmt_mask.sql:8-44 | a mask row sums the column's own field over exactly those entries whose query has that mask: they share one row |
| MaskTotals.OidReadBack | sql/cluster_stmt_mask.sql:8-9 | an oid without a name is shown as its decimal number |
| MaskTotals.ColumnsAlign | sql/cluster_stmt_mask.sql:25-44 | all columns of a group stand in the same row |
| MaskTotals.AtMost400 | sql/cluster_stmt_mask.sql:45-56 | at most 400 masks are selected |
| MaskTotals.OmittedIsDominated | sql/cluster_stmt_mask.sql:45-56 | an omitted mask is dominated by 200 selected others on time and by 200 selected others on calls |
| MaskTotals.OmittedGroup | sql/cluster_stmt_mask.sql:45-56 | on the grouped rows themselves: if the query leaves out a group, it keeps 200 others with at least its summed execution time and 200 others with at least its summed calls |
| MaskTotals.KeptRows | sql/cluster_stmt_mask.sql:50-56 | exactly the selected rows are kept, each once |
| MaskTotals.SmallTablesComplete | sql/cluster_stmt_mask.sql:45-56 | nothing is omitted from a table of at most 200 masks |
| MaskTotals.SelectedAtMostTotals | sql/cluster_stmt_totals.sql:6-21 | for non-negative counters the selected masks of a user and database sum up to at most the totals row |
| Downsample.Backfill | config/influxdb/pg_monitoring_downsample.sh:46-55 | after the loop the store is the old one overwritten by the rollup of the whole range of days before the current hour |
| Downsample.BackfilledPoint | config/influxdb/pg_monitoring_downsample.sh:48-52 | what a run writes: for each series and full hour, from the given number of days before the current hour up to it, the aggregate over exactly the points of that series in that hour, if there are any |
| Downsample.Tiles | config/influxdb/pg_monitoring_downsample.sh:51 | rollups of aligned ranges that touch or overlap, written one after the other, are the rollup of the whole range, for any aggregate |
| Downsample.BackfillAgain | config/influxdb/pg_monitoring_downsample.sh:46-55 | running it again in the same hour changes nothing; a later run extends the range as one rollup would |
| Downsample.HourInOneChunk | config/influxdb/pg_monitoring_downsample.sh:47-53 | every hour of the range lies in exactly one chunk |
| Downsample.SplitHourLosesPeakIff | config/influxdb/pg_monitoring_downsample.sh:47 | an edge inside an hour never raises its maximum, and loses it exactly if both parts have points and the later one stays below the earlier one |
| Downsample.SplitHourLosesPeak | config/influxdb/pg_monitoring_downsample.sh:47 | an example of such a loss |
| Downsample.PeaksKept | config/influxdb/pg_monitoring_downsample.sh:75-100 | a bound holds for the max rollup of a series if and only if it holds for all its raw points |
| Downsample.SeriesPoints | config/influxdb/pg_monitoring_downsample.sh:42 | the samples of a series in a range are those of all its points there |
| Downsample.HourlyIsBucketed | config/influxdb/pg_monitoring_downsample.sh:60-73 | the last-per-hour points of a series are its bucket-last samples |
| Downsample.HourlyIsComplete | config/influxdb/pg_monitoring_downsample.sh:60-73 | every rollup point of a series is one of its bucket-last samples' hours |
| Downsample.HourlyPoints | config/influxdb/pg_monitoring_downsample.sh:60-73 | any list of a series' points in the last-per-hour rollup is, in the order of time, the bucket-last samples of its raw points |
| Downsample.RollupIncrease | config/influxdb/pg_monitoring_downsample.sh:60-72 | the increase over any list of a series' rollup points never exceeds the increase over its raw points; on a monotone counter exactly the part up to the first hour's last sample is missing |
| EnvCompare.PairOf | dashboards/builder/compare.py:279-285 | the select list by index: alias i at places 2i and 2i + 1 for the two sides, then the two counts |
| EnvCompare.PairFacts | dashboards/builder/compare.py:279-285 | the pair row of a key holds, per alias and side, the value picked on that side, and the numbers of rows per side |
| EnvCompare.OneRowPerKey | dashboards/builder/compare.py:279-285 | the pair query, and so every panel that filters it, has at most one row per object |
| EnvCompare.PanelOf | dashboards/builder/compare.py:288-310 | which panel shows an object depends exactly on where it is present |
| EnvCompare.PanelsPartition | dashboards/builder/compare.py:288-310 | the two only-in panels and the delta panel partition the objects of the two environments |
| EnvCompare.PanelValues | dashboards/builder/compare.py:279-310 | the numbers shown are those of the object's only row on each side |
| EnvCompare.SwapNegates | dashboards/builder/compare.py:288-310 | exchanging the environments exchanges the only-in panels and negates every delta |
| InfluxCompare.OnlyInAgrees | dashboards/builder/compare.py:237-249 | the two only-in implementations show the same objects if and only if the tested column is never null in the other environment |
| InfluxCompare.OnlyInValues | dashboards/builder/compare.py:237-249 | for an object of the side's environment, the InfluxDB only-in panel shows the same values as the ClickHouse one |
| InfluxCompare.InfluxDelta | dashboards/builder/compare.py:252-270 | the transformation list by index: three fixed steps, the difference of extra i at place 3 + i, three fixed steps |
| InfluxCompare.DeltaAgrees | dashboards/builder/compare.py:252-310 | the InfluxDB panel shows an object if and only if the ClickHouse panel does and its value is null on neither side; then the same delta, the same percentage where the first value is not 0, and the same extra deltas where neither operand is null; elsewhere what Grafana shows for a quotient by 0 or a missing operand |
| InfluxCompare.DeltaSorted | dashboards/builder/compare.py:262-264 | every shown row holds a number, the second value of its object minus the first, and the rows are in descending order of the size of that number |
| InfluxCompare.InfluxChanged | dashboards/builder/compare.py:313-324 | the transformation list by index: the null filter, the difference of flag i at place 1 + i, the filter of equal rows and the clean-up |
| InfluxCompare.ChangedAgrees | dashboards/builder/compare.py:313-334 | the exact condition, object by object, on which both changed panels agree, for any result of a difference with null; both show only objects of the delta panel |
| InfluxCompare.NullSplitsOnlyInAndDelta | dashboards/builder/compare.py:237-310 | an object with a null on which the two only-in forms and the two delta forms differ |
| InfluxCompare.NullSplitsChanged | dashboards/builder/compare.py:313-334 | the same object, on which the two changed forms differ, unless Grafana takes null minus 1 for 0 |
| MaskCompare.JoinKeepsCount | dashboards/ch_compare_statements.py:33-35 | the join with the texts keeps the number of rows if and only if no row finds two texts |
| MaskCompare.LatestMatch | dashboards/ch_compare_statements.py:29-32 | a key with a text has exactly one row in the texts table, its latest one |
| MaskCompare.MasksFacts | dashboards/ch_compare_statements.py:17-35 | in both forms, with and without the environment as a key: row i of the masks is row i of the sums over users, with the latest text of its key if it has one |
| MaskCompare.MasksAreUnique | dashboards/ch_compare_statements.py:17-38 | in both forms, even after the join there is one row per (datname, query_mask_md5) and environment |
| MaskCompare.PairShowsSums | dashboards/ch_compare_statements.py:17-38 | on each side the pair row of a mask shows the increases of the side's series summed over the users, and their mean |
| MaskUsers.MaskSumsUsers | dashboards/ch_compare_statements.py:22-28 | from the stored points: the columns total_ms, calls and rows sum total_exec_time, calls and rows; each over the users' increases, each increase over exactly the points with that environment, database, digest and user |
| MaskSides.SidesMatch | dashboards/ch_compare_statements.py:17-28 | the sums of one environment are the same in the form filtered by it and in the form for both: a row is in the one exactly if it is in the other |
| MaskSides.SideMasksShow | dashboards/ch_compare_statements.py:17-35 | the share panels have a row for exactly the masks that the pair query has of that environment, with the same sums |
| MaskSides.SideMasksTexts | dashboards/ch_compare_statements.py:29-35 | joined by the digest alone, a row shows the latest text of its mask in that environment, if it has one there |
| MaskCompare.SharesOfOwnEnv | dashboards/builder/compare.py:207-217 | joined by env, every row is kept once and divided by its own environment's total |
| MaskCompare.SharesAgree | dashboards/builder/compare.py:207-222 | for one environment the joined form and the window form give the same shares if and only if the total is not 0 or Grafana shows every quotient by 0 as empty |
| MaskCompare.SharesAddUpToOne | dashboards/builder/compare.py:207-222 | the shares of every environment with a non-zero total add up to 1 |

## Left out

- HTTP calls, the Grafana API, JSON files, environment variables, command lines: input and output only.
- Panel, unit, threshold, link and variable builders and the single boards: user-interface assembly.
- The Kotlin load test and the container, chart and Telegraf configuration: no logic of their own.
- The text of the ClickHouse queries: the builders return the algebra that the text stands for, not the text; the WHERE clause and the macro calls are modelled as text.
- gauge_query, last_sum_query and the `values` expressions of rate_query: further queries of the same shape, one aggregate per series and one per group, without arithmetic of their own.
- series_query: aggregates other than sum, `extra` columns and `outer_where` are not modelled; several columns are modelled one at a time.
- f_regex: the text around the box is not modelled; its value is a text box.
- Value lists and text boxes: `str(v)` of a value is the value's text; escapes that take more than one character after the backslash are not modelled.
- Floating-point rounding: counters and rates are reals.
- Mask columns: those that the totals query does not have (dirtied and written blocks, temporary blocks read, write time) and the 120-character short text are not modelled.
- md5: masks are grouped by the mask itself; in the environment comparison the digest is an opaque string.
- Regular expressions: `\s` is the six ASCII blanks and `\w` the ASCII word characters.
- Ties: sorting by time is stable, rankings may break ties in any way, the latest of two equally old texts is the first read.
- Engine details: query planning, buffering, retention, and InfluxDB points just before the selected range.
- Continuous queries: only the backfill loop runs in the model; the scheduled query is the same rollup over a two-hour range.
- Means in the rollup: `mean` of one field is covered by the laws for any aggregate only, not by one of its own.
- Comparison panels: text columns and column renaming beyond the modelled aliases are left out; column names are structured, so textual names cannot collide; an aggregate over no row is the number 0.
- Rates with gaps: where series of one group have different steps in a bucket, the sum of their rates has no single width to multiply by; only its additivity over groups is stated.
- Inner panels of a row: `layout` gives them no size; the overlap condition is for inner panels that have one.
- Row order: rows of a grouped query come in the order of first appearance unless the query sorts them.
