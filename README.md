# AHP workforce data pack: reconciliation and aggregation model

This Dafny project models the data logic of the AHP (Allied Health Professional)
workforce report pipelines. There are two of them.

- **NHS Workforce Statistics (NWFS)**, `src/utils/nhs_wf_stats.py`. It starts from the
  concatenated raw extract. It keeps six columns under canonical names and keeps the
  configured organisations. It keeps the staff groups containing `_Allied` and drops that
  column. Then it reconciles each raw staff role against the lookup table and writes the
  result into a new `mapped` column.
- **PWR trends**, `src/utils/pwr_trends.py`. It starts from the rows the PWR query returns.
  It reconciles the staff roles: `staff_role` is overwritten with the front-end name and
  `staff_role_shorthand` is added. It then prepares the WTE-by-contract chart data:
  - a group-by sum of WTE over `(fin_year, fin_month, contract)`;
  - a `period` label for each group;
  - a split into substantive and other contracts;
  - the fiscal month names.

Both files define the same `fuzzy_search`. It returns the distinct values of a column that
contain a fragment, in first-seen order. The model defines it once, in `FuzzyMatch`.
Reconciliation runs the lookup rows in order. Every role that contains a row's fragment is
(re)assigned that row's front name, so the last matching row wins. `FuzzyMatch.LastMatch`
states this rule as a function. The loops that fill `sr_map` and `sr_shorthand_map` are
methods, and each is proved to build exactly the map that rule describes.

Modules:

- `Wrappers`: `Option` (a null cell) and `Result` (a raised error).
- `Frames`: a column projection (`Column`), a boolean mask (`Filter`), `unique()` (`Distinct`), first-occurrence
  positions and column sums.
- `FuzzyMatch`: substring containment, `FuzzySearch`, and the last-match and
  last-shorthand rules.
- `Strings`: Python's string order and `str()` of an integer, with its parser.
- `NhsWfStats`: the NWFS pipeline after the extract files are concatenated.
- `PwrTrends`: the PWR reconciliation and the data steps of `plot_wte_by_contract`.

Two details of the code the model keeps:
- The NWFS reconciliation keeps the raw `staff_role` and adds `mapped`. It adds no
  shorthand; only the PWR copy adds one.
- `load_nwfs_data` ends without a `return`, so its caller receives `None`. The model returns
  the table the function builds.

## Model

| member | source | states |
|---|---|---|
| `Frames.Filter` | src/utils/nhs_wf_stats.py:13 | a boolean mask keeps a value iff it is in the column and satisfies the mask, and never lengthens the column |
| `Frames.FilterCount` | src/utils/nhs_wf_stats.py:78 | a mask keeps each selected row exactly as many times as it occurs and drops every other row |
| `Frames.FilterConcat` | src/utils/nhs_wf_stats.py:82 | a mask of a concatenation is the concatenation of the masks, so relative order is kept |
| `Frames.Distinct` | src/utils/nhs_wf_stats.py:15 | `unique()` holds exactly the values of its input, each once |
| `Frames.DistinctFirstSeen` | src/utils/nhs_wf_stats.py:15 | `unique()` lists values in strictly increasing order of first occurrence |
| `Frames.FilterFirstSeen` | src/utils/nhs_wf_stats.py:13-15 | masking keeps the relative order of first occurrences of the values it keeps |
| `FuzzyMatch.Contains` | src/utils/nhs_wf_stats.py:13 | `str.contains` of a literal fragment holds iff the fragment is a prefix of some suffix of the text (occurs at some position) |
| `FuzzyMatch.FuzzySearch` | src/utils/nhs_wf_stats.py:10-15 | a value is returned iff it occurs in the column and contains the target; no value is returned twice |
| `FuzzyMatch.FuzzySearchFirstSeen` | src/utils/pwr_trends.py:14-19 | the returned values appear in order of their first appearance in the column |
| `FuzzyMatch.LastMatchNoneIff` | src/utils/nhs_wf_stats.py:26-35 | a role gets no front name (null) iff no lookup fragment occurs in it |
| `FuzzyMatch.LastMatchIsLastRow` | src/utils/nhs_wf_stats.py:26-32 | a role whose last matching lookup row is k gets row k's front name, whatever earlier rows matched |
| `FuzzyMatch.LastMatchIsFrontName` | src/utils/pwr_trends.py:31-43 | a matched role's new value is the front name of some lookup row |
| `FuzzyMatch.LastShorthandSomeIff` | src/utils/pwr_trends.py:31-40 | a front name has a shorthand iff some lookup row carries it, whether or not its fragment matched |
| `FuzzyMatch.LastShorthandIsLastRow` | src/utils/pwr_trends.py:40 | for a repeated front name the shorthand of its last lookup row wins |
| `FuzzyMatch.MatchedRoleHasShorthand` | src/utils/pwr_trends.py:43-47 | every role that some fragment matched finds a shorthand for its front name |
| `FuzzyMatch.PhysioExample` | src/utils/pwr_trends.py:31-40 | lookup row (Physio, Physiotherapist, PT) maps "Senior Physiotherapist" to Physiotherapist with shorthand PT |
| `NhsWfStats.MissingColumns` | src/utils/nhs_wf_stats.py:54-61 | lists exactly the requested source columns the extract lacks |
| `NhsWfStats.Project` | src/utils/nhs_wf_stats.py:54-74 | fails with the missing columns iff one is absent; otherwise one row per input row, each canonical field taken from its configured source column |
| `NhsWfStats.OrgFilter` | src/utils/nhs_wf_stats.py:77-78 | keeps each row with a configured `org_code` as often as it occurs, and no other row |
| `NhsWfStats.OrgFilterKeepsOrder` | src/utils/nhs_wf_stats.py:78 | the organisation filter keeps rows in their original relative order |
| `NhsWfStats.DropStaffGroup` | src/utils/nhs_wf_stats.py:83 | dropping `staff_group_2` keeps the row count and every other field |
| `NhsWfStats.AlliedSearchIsContainment` | src/utils/nhs_wf_stats.py:81-82 | keeping rows whose staff group is in the `_Allied` search result is keeping rows whose staff group contains `_Allied` |
| `NhsWfStats.AhpFilter` | src/utils/nhs_wf_stats.py:81-83 | the AHP step returns exactly the rows whose staff group contains `_Allied`, in order, without `staff_group_2` |
| `NhsWfStats.KeptIsInScope` | src/utils/nhs_wf_stats.py:76-83 | a projected row survives both filters iff its organisation is configured and its staff group contains `_Allied` |
| `NhsWfStats.BuildRoleMap` | src/utils/nhs_wf_stats.py:24-32 | `sr_map` holds exactly the column's roles that some fragment matches, each mapped to the front name of the last matching lookup row |
| `NhsWfStats.StaffRoleFuzzyMapping` | src/utils/nhs_wf_stats.py:18-37 | same row count and order, every original column unchanged, `mapped` = last matching front name or null |
| `NhsWfStats.LoadNwfsData` | src/utils/nhs_wf_stats.py:53-86 | fails iff a source column is missing; otherwise returns exactly the in-scope rows, each with its reconciled role |
| `PwrTrends.BuildRoleMaps` | src/utils/pwr_trends.py:28-40 | `sr_map` as in the NWFS copy; `sr_shorthand_map` is keyed by every lookup front name with the shorthand of its last row |
| `PwrTrends.StaffRoleFuzzyMapping` | src/utils/pwr_trends.py:22-49 | same row count and order; `staff_role` becomes the last matching front name or null; the shorthand is that name's shorthand, null for a null role |
| `PwrTrends.ShorthandNullIffRoleNull` | src/utils/pwr_trends.py:43-47 | after mapping, `staff_role_shorthand` is null iff `staff_role` is null |
| `PwrTrends.InsertKey` | src/utils/pwr_trends.py:75-76 | inserting a key into a strictly sorted key list keeps it strictly sorted and adds exactly that key |
| `PwrTrends.SortedKeys` | src/utils/pwr_trends.py:75-76 | the group keys are strictly ascending and are exactly the keys present in the input |
| `PwrTrends.GroupSum` | src/utils/pwr_trends.py:75-76 | one row per sorted distinct key; its `wte` is the sum of `wte` over the input rows with that key |
| `PwrTrends.GroupSumKeys` | src/utils/pwr_trends.py:75-76 | the aggregated keys are strictly ascending, pairwise different, each present in the input, and every input key appears |
| `PwrTrends.GroupSumPreservesTotal` | src/utils/pwr_trends.py:75-76 | the total `wte` of the aggregate equals the total `wte` of the input |
| `Strings.DecimalRoundTrip` | src/utils/pwr_trends.py:79 | the decimal text written for a fiscal month reads back as that month |
| `PwrTrends.AddPeriod` | src/utils/pwr_trends.py:79 | keeps every aggregated row and labels it `fin_year + "_" + str(fin_month)` |
| `PwrTrends.Period` | src/utils/pwr_trends.py:79 | a period label is the fiscal year, an underscore, and text without underscores that parses back to the fiscal month |
| `PwrTrends.LastUnderscore` | src/utils/pwr_trends.py:79 | no underscore follows the separator, so the separator is the label's last underscore |
| `PwrTrends.PeriodInjective` | src/utils/pwr_trends.py:79 | equal period labels mean equal year and month, for any fiscal year text |
| `PwrTrends.SplitByContract` | src/utils/pwr_trends.py:82-83 | `df_sub` and `df_temp` partition the aggregate: together they hold every row once; `df_sub` only Substantive rows, `df_temp` only the others |
| `PwrTrends.SplitKeepsOrder` | src/utils/pwr_trends.py:82-83 | both series keep the aggregated order |
| `PwrTrends.MonthName` | src/utils/pwr_trends.py:90-93 | a lookup succeeds iff the month is in 1..12; otherwise a KeyError carries the month |
| `PwrTrends.MonthNameIsFiscalCalendar` | src/utils/pwr_trends.py:90-92 | fiscal month m is named after calendar month ((m + 2) mod 12) + 1, so 1 is Apr and 10 is Jan |
| `PwrTrends.CalendarMonthsDistinct` | src/utils/pwr_trends.py:90-92 | the twelve month abbreviations are pairwise different |
| `PwrTrends.MonthMapDomain` | src/utils/pwr_trends.py:90-92 | `month_map` is defined exactly on 1..12 |
| `PwrTrends.MonthMapOnto` | src/utils/pwr_trends.py:90-92 | every month abbreviation is the name of some fiscal month |
| `PwrTrends.MonthMap` | src/utils/pwr_trends.py:90-92 | the month map constant; its content is stated by `MonthName`, `MonthNameIsFiscalCalendar`, `MonthMapDomain`, `MonthMapOnto` and `MonthMapInjective` |
| `PwrTrends.MonthMapInjective` | src/utils/pwr_trends.py:90-92 | no two fiscal months share a name |
| `PwrTrends.MonthLabels` | src/utils/pwr_trends.py:88-93 | succeeds iff every month is in 1..12, with one name per month in order; otherwise fails with the first month outside 1..12 |
| `PwrTrends.WteByContract` | src/utils/pwr_trends.py:74-93 | succeeds iff every substantive aggregated row has a month in 1..12; on success `sub` and `temp` are exactly the substantive and other rows of the labelled aggregate, and label i is the name of substantive row i's month; otherwise fails with the first substantive row's month outside 1..12 |
| `PwrTrends.SeriesOf` | src/utils/pwr_trends.py:82-93 | from `df_sub` and `df_temp`: the month names of `df_sub` row by row, or the KeyError of its first month outside 1..12 |
| `PwrTrends.WteByContractKeepsTotal` | src/utils/pwr_trends.py:74-85 | the two chart series together carry the input's whole `wte` |

## Left out

- Directory listing, CSV reading and concatenation of the extract files (src/utils/nhs_wf_stats.py:43-49) are file I/O. The model starts from the concatenated table, given as a parameter.
- Reading the role lookup file `docs/nwfs_lookup.csv` (src/utils/nhs_wf_stats.py:21, src/utils/pwr_trends.py:25) is file I/O. The lookup rows are a parameter.
- `load_pwr_data` (src/utils/pwr_trends.py:52-65) reads an SQL file and queries a database; both are foreign calls. The queried rows are a parameter. The step that remains is `PwrTrends.StaffRoleFuzzyMapping`.
- All chart drawing in `plot_wte_by_contract` (src/utils/pwr_trends.py:70-72, 95-154) is left out. This includes the year tick labels of line 95, which only feed the axis.
- `print` calls, the `nhs_wf_stats` and `pwr_trends` entry points, src/wf_ahp.py and src/utils/runtime_settings.py are I/O and configuration glue. The settings the pipeline reads are the `NhsWfStats.Settings` value.
- In-place frame updates are modelled as returning the updated table. This covers the `rename(..., inplace=True)` of `load_nwfs_data` (src/utils/nhs_wf_stats.py:63-73, `NhsWfStats.Project`), its `drop(..., inplace=True)` (line 83, `NhsWfStats.DropStaffGroup`), the new `mapped` column, the overwritten `staff_role` and the added shorthand. `df_src` is local to `load_nwfs_data`, both mapping functions return the frame they changed, and every caller rebinds to it, so only aliasing is not captured.
- `load_nwfs_data` returns `None` in the source, because it has no `return`. `NhsWfStats.LoadNwfsData` returns the table it builds instead.
- Null (NaN) cells are not modelled. In the searched columns they make the mask fail. In group keys the group-by would drop them. All text fields are non-null strings.
- `wte` is a `real`, so sums are exact. Floating-point rounding is not modelled.
- Python strings are compared by code point, as `Strings.StrLess` does. Locale collation does not apply.
- FuzzyMatch.FuzzySearch: requires a fragment without regular-expression metacharacters. The source passes fragments to a regex search, and such a fragment matches exactly its literal occurrences.
- NhsWfStats.BuildRoleMap: requires literal lookup fragments, for the same reason.
- PwrTrends.BuildRoleMaps: requires literal lookup fragments, for the same reason.
- NhsWfStats.StaffRoleFuzzyMapping: requires literal lookup fragments, for the same reason.
- PwrTrends.StaffRoleFuzzyMapping: requires literal lookup fragments, for the same reason.
- NhsWfStats.Project: requires the six configured source column names to be distinct. With a repeated name the selection at src/utils/nhs_wf_stats.py:53-60 yields duplicate columns, and the rename dict at lines 63-73 keeps only the later target for that name, so two columns end up under one canonical name. The model's row has one field per canonical name, so that outcome is not modelled. It also requires text cells in the text columns and a number in `Total FTE`.
- NhsWfStats.LoadNwfsData: carries the preconditions of `Project` and `BuildRoleMap`.
