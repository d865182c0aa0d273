# Partner Search dashboard: filter, group-by-sum and sort, in Dafny

The Partner Search App is a Streamlit script (`multiple_selection.py`) over a database of
research-project participants. The user picks countries, years and activity types; the script
keeps the participant rows that match all three selections, groups them by organisation and
activity type with the contributions summed into `TotalContribution`, and shows that table
sorted by total in descending order. It also lists the matching project coordinators, and it
charts, per selected activity type, the contributions summed by `(Year, ActivityType)`. A fixed
table maps the 27 country names to their two-letter codes.

This project models that in-memory pipeline and proves what it computes.

- `wrappers.dfy` (`Wrappers`): `Option`, the result of a dictionary `get`.
- `seqs.dfy` (`Seqs`): the subsequence relation ("only removes rows, keeps their order").
- `country_codes.dfy` (`CountryCodes`): the name → code table `CountryAcronyms` and `CountryToAcronym`.
- `participants.dfy` (`Participants`): the row type, the selection, the boolean masks
  (`isin` tests and the Role test) as a datatype `Mask`, mask filtering `Where`, the chain of
  reassignments `Chain`, `FilteredDf` and `CoordinatorsDf`.
- `grouping.dfy` (`Grouping`): `groupby(keys)['Contribution'].sum().reset_index()` as
  `GroupSum`, generic in the key, with its key, uniqueness, per-key sum and conservation lemmas.
- `contributions.dfy` (`Contributions`): the organisation key, the renamed `TotalContribution`
  rows (`GroupedDf`) and `sort_values(..., ascending=False)` as `SortDescending`.
- `grants.dfy` (`Grants`): `df_grants` grouped by `(Year, ActivityType)`, the per-activity slice
  and the loop over the selected activity types (`ChartSeries`).
- `dashboard.dfy` (`Dashboard`): `Run`, one run of the script. Its method body makes the same
  successive reassignments as the script.

The tables come in as sequences of rows. Each selection is a sequence, and the filters only
test membership in it. `Contribution` is an exact `int`, so every sum is exact.
`OrganizationID` is kept as text; the model only compares it for equality.

Three points about the code that shape the model:
- `sort_values` (multiple_selection.py:54) uses its default algorithm, which is not stable.
  So the model promises the ordering and the permutation, and nothing about the order of
  equal totals.
- `df_grants` is grouped by `(Year, ActivityType)` (multiple_selection.py:96).
- A row is a typed record, so every column the script reads exists.

## Model

| member | source | states |
|---|---|---|
| `CountryCodes.CountryToAcronym` | multiple_selection.py:41-42 | The lookup returns a code exactly when the name is in the table. That code is the table's entry for the name and is two upper-case letters. |
| `CountryCodes.AllCodesTwoLetters` | multiple_selection.py:17-24 | Every code in the table is two upper-case letters. |
| `CountryCodes.CodesBelgiumToDenmark` | multiple_selection.py:18 | Belgium, Bulgaria, Czechia and Denmark look up to BE, BG, CZ and DK. |
| `CountryCodes.CodesGermanyToSpain` | multiple_selection.py:18-19 | Germany, Estonia, Ireland, Greece and Spain look up to DE, EE, IE, EL and ES. Greece gets EL, not GR. |
| `CountryCodes.CodesFranceToMalta` | multiple_selection.py:19-21 | The nine countries France to Malta look up to their listed codes. |
| `CountryCodes.CodesNetherlandsToSweden` | multiple_selection.py:21-23 | The nine countries Netherlands to Sweden look up to their listed codes. |
| `CountryCodes.UnlistedNames` | multiple_selection.py:41-42 | A name that is not listed gives None. This includes a different spelling or capitalisation of a listed country. |
| `CountryCodes.CodesDistinct` | multiple_selection.py:17-24 | No two listed countries share a code. |
| `Participants.WhereCounts` | multiple_selection.py:45 | A boolean mask keeps each passing row as many times as it occurs, and drops every other row. |
| `Participants.WhereMembers` | multiple_selection.py:45 | A row is in the masked table iff it is in the table and passes the mask. |
| `Participants.WhereSubsequence` | multiple_selection.py:45 | Masking only removes rows. The result is a subsequence of the table, in table order. |
| `Participants.WhereCommutes` | multiple_selection.py:45-47 | Applying two masks one after the other gives the same rows in either order. |
| `Participants.ChainIsWhereAll` | multiple_selection.py:45-47 | Applying a list of masks by successive reassignment gives the same rows as one pass with their conjunction. |
| `Participants.MaskOrderIrrelevant` | multiple_selection.py:45-47 | Two mask chains made of the same masks give the same rows, whatever their order. |
| `Participants.FilteredDfCounts` | multiple_selection.py:45-47 | `filtered_df` holds each row matching all three selections as many times as the table does, and no other row. |
| `Participants.FilteredDfMembers` | multiple_selection.py:45-47 | A row is in `filtered_df` iff it is in the table and its Country, Year and ActivityType are each in their selection. |
| `Participants.EmptySelectionEmptyResult` | multiple_selection.py:45-47 | If any one of the three selections is empty, `filtered_df` is empty. |
| `Participants.FilteredDfSubsequence` | multiple_selection.py:45-47 | `filtered_df` is a subsequence of the participants table. |
| `Participants.FilterOrderIrrelevant` | multiple_selection.py:45-47 | Any order of the three selection masks gives `filtered_df`. |
| `Participants.CoordinatorsOfFiltered` | multiple_selection.py:71-74 | The coordinator listing equals the Coordinator rows of `filtered_df`. |
| `Participants.CoordinatorsMembers` | multiple_selection.py:71-74 | A row is a listed coordinator iff it is in the table, its Role is "Coordinator" and it matches all three selections. A row with any other Role is excluded even when it matches every selection. |
| `Participants.CoordinatorsSubsequence` | multiple_selection.py:71-74 | The coordinator listing keeps the order of `filtered_df` and only removes rows. |
| `Grouping.GroupSumKeys` | multiple_selection.py:50 | The grouped table has a row for a key iff some input row has that key. |
| `Grouping.GroupSumDistinct` | multiple_selection.py:50 | No two grouped rows share a key. |
| `Grouping.GroupSumValues` | multiple_selection.py:50 | The sum recorded for any key is the Contribution summed over exactly the input rows with that key. |
| `Grouping.GroupSumRows` | multiple_selection.py:50 | Each grouped row's sum is the Contribution summed over exactly the input rows with its key. |
| `Grouping.GroupSumConserves` | multiple_selection.py:50 | The grouped sums add up to the total Contribution of the input. |
| `Grouping.GroupSumKeyOnce` | multiple_selection.py:50 | Every key that occurs in the input is carried by exactly one grouped row. |
| `Contributions.GroupedDfUniqueKeys` | multiple_selection.py:50-51 | No two rows of `grouped_df` share `(OrganizationID, ShortName, ActivityType, OrganizationURL)`. |
| `Contributions.GroupedDfKeys` | multiple_selection.py:50-51 | `grouped_df` has a row for a key iff some filtered row has that key. |
| `Contributions.GroupedDfTotals` | multiple_selection.py:50-51 | Each row's TotalContribution is the Contribution summed over exactly the filtered rows with that row's key. |
| `Contributions.GroupedDfConserves` | multiple_selection.py:50-51 | The TotalContribution column adds up to the total Contribution of `filtered_df`. |
| `Contributions.SortDescending` | multiple_selection.py:54 | The sorted table is a permutation of its input. It is non-increasing in TotalContribution, both pairwise and for every adjacent pair. |
| `Contributions.Insert` | multiple_selection.py:54 | Inserting a row into a descending table keeps it descending. The result holds exactly the old rows plus the new one. |
| `Contributions.SortTotal` | multiple_selection.py:54 | Sorting leaves the TotalContribution column's total unchanged. |
| `Contributions.SortUniqueKeys` | multiple_selection.py:54 | Sorting a table with unique keys leaves the keys unique. |
| `Contributions.SortedDfFacts` | multiple_selection.py:50-54 | `sorted_df_participants` is a permutation of `grouped_df`. It is descending, has one row per key, and its totals add up to the total Contribution of `filtered_df`. |
| `Grouping.GroupSumNonNegative` | multiple_selection.py:50 | When no input contribution is negative, no grouped sum is negative. |
| `Contributions.GroupedDfNonNegative` | multiple_selection.py:50-51 | When no filtered contribution is negative, no TotalContribution in `grouped_df` is negative. |
| `Contributions.SortedDfNonNegative` | multiple_selection.py:50-54 | When no filtered contribution is negative, no TotalContribution in `sorted_df_participants` is negative. |
| `Contributions.TwoRowsOneGroup` | multiple_selection.py:45-54 | Two Germany/2020/Research rows of one organisation, contributing 100 and 50, give a single table row with total 150. |
| `Grants.GrantsDfRows` | multiple_selection.py:96 | `df_grants` has one row per distinct `(Year, ActivityType)` of `filtered_data`. Each row's Contribution is that group's sum, and the rows add up to the total of `filtered_data`. |
| `Grants.ActivitySliceMembers` | multiple_selection.py:101 | A grants row is in an activity type's slice iff it is in `df_grants` and has that activity type. |
| `Grants.ActivitySliceSubsequence` | multiple_selection.py:101 | The slice keeps the order of `df_grants` and only removes rows. |
| `Grants.ActivitySliceYearsUnique` | multiple_selection.py:101-102 | When the grants keys are distinct, a slice has each Year at most once, so indexing it by Year is unambiguous. |
| `Grants.ActivitySliceOfFiltered` | multiple_selection.py:96-101 | Every slice row has the slice's activity type and a year present in `filtered_data`, and carries the sum over exactly those rows. Every such year present in `filtered_data` has a row in the slice. |
| `Grants.ChartSeries` | multiple_selection.py:100-101 | The loop gives one slice per selected activity type, in selection order, each equal to that activity type's slice of `df_grants`. |
| `Dashboard.Run` | multiple_selection.py:45-101 | One run of the script. The contribution table is the sorted grouping of the selected rows: descending, one row per key, and conserving their total. The coordinator listing is the Role-first chain of masks; it holds exactly the selected Coordinator rows, in table order and with their multiplicities. `df_grants` is the `(Year, ActivityType)` grouping of the selected rows. Each chart gets exactly the slice of `df_grants` for its activity type. |

## Left out

- The SQLite connection, the three `read_sql` queries and `conn.close()` (multiple_selection.py:9, 12-14, 105) are I/O against a database that is not part of this model. The tables are inputs to `Dashboard.Run`.
- Streamlit rendering is not modelled: the title, the logo image, `st.write`, `st.text`, the download buttons and `st.line_chart`. The chart loop is modelled only for the slice it computes (`Grants.ChartSeries`).
- The selection widgets (multiple_selection.py:32, 35, 38) are not modelled. They offer the sorted table keys and the distinct Year and ActivityType values of PROJECTS. The model accepts any sequence as a selection, which covers every choice a widget allows.
- CSV encoding and `@st.cache` (multiple_selection.py:63-67, 83-87) are library serialisation and caching with no logic of their own.
- The column projection for display (multiple_selection.py:78) only selects fields. The listing's rows are modelled whole.
- Floating-point Contribution is not modelled: amounts are exact integers, so there is no rounding.
- Nulls are not modelled. pandas' `groupby` drops rows with a null key and `sum` skips NaN; the model assumes no nulls.
- The key order of `groupby` output is not modelled. pandas sorts the keys; the model emits them in the order of each key's last occurrence and proves nothing that depends on the order.
- `Contributions.SortDescending`: promises the ordering and the permutation, not the order among equal totals, because the default `sort_values` algorithm is not stable.
- `CountryCodes`: the count of 27 entries is not a separate lemma. Instead, each of the 27 names is checked one by one against its code.
