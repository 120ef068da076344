# Wellboat sampling dashboard — filter and indicators

The dashboard (`app.py`) loads a table of fish-health samples taken on
wellboats, offers four selectors (WELLBOAT, ARMADOR, RESULTADO, TIPO MUESTREO)
and a date range in its sidebar, narrows the table to the rows that match, and
shows four indicators for what is left. This project models that logic in
Dafny and proves what it promises:

- `table.dfy` (module `Table`): a sample record, with its date as an optional
  integer day (`None` is an empty date cell, which pandas reads as NaT), the
  four selector columns, the sentinel `"Todos"`, and the set of distinct values
  of a column.
- `filters.dfy` (module `Filters`): the filter block. `ApplyFilters` copies the
  table and reassigns it once per selector that is not `"Todos"`, then by the
  inclusive date range, which is always applied. Each step is `Where`, the
  model of `df[mask]`. The method is proved equal to one narrowing by all the
  masks, and the lemmas state membership, subsequence, order independence,
  idempotence and the empty-range and inclusive-bound cases.
- `sidebar.dfy` (module `Sidebar`): each selector's option list,
  `['Todos'] + sorted(unique(column))`. Python's string order is modelled as
  code-point lexicographic order. The module also holds the initial date range,
  from the earliest to the latest date.
- `indicators.dfy` (module `Indicators`): the four indicators. They are the
  row count, the distinct wellboat count, and the counts and percentages of
  rows whose RESULTADO is exactly `"Positivo"` or `"Negativo"`.
- `fixture.dfy` (module `Fixture`): the ten-row sample table the script uses
  when no file is uploaded, and what the filter, the indicators and the option
  list give on it.

Dates are compared as whole days, as the script does with `.dt.date`. The
fixture writes them as yyyymmdd integers, which keeps the calendar order.

The model follows `app.py` as written. The script does no upper-casing or trimming of values and
substitutes no placeholder for blank cells. It has no year filter. It applies
the date range always, not only when a bound is set, so a row without a date
never survives the filter. Its KPI labels match `"Positivo"` and `"Negativo"`
exactly and case-sensitively.

## Model

| member | source | states |
|---|---|---|
| `Table.ValueSet` | app.py:94 | a value is among a column's distinct values iff some row holds it |
| `Table.ValueSetBound` | app.py:145 | a column has at most as many distinct values as the table has rows, and none exactly when the table is empty |
| `Filters.Where` | app.py:119 | `df[mask]` keeps no more rows than it was given, and every kept row satisfies every mask |
| `Filters.WhereSubMultiset` | app.py:119 | `df[mask]` never duplicates a row: its rows form a sub-multiset of the input |
| `Filters.WhereIsSubsequence` | app.py:116-133 | a narrowing only deletes rows: it adds none, keeps their order and leaves each row unchanged |
| `Filters.WhereMembership` | app.py:118-133 | a row survives a narrowing iff it is in the table and every mask holds on it |
| `Filters.WhereWhere` | app.py:118-133 | narrowing a narrowed table equals narrowing once by both lists of masks joined by AND |
| `Filters.WhereSameMasks` | app.py:118-133 | two mask lists that agree on every row narrow any table identically |
| `Filters.WhereCommutes` | app.py:118-128 | the order in which two narrowings are applied does not change the result |
| `Filters.WhereKeepsAll` | app.py:116-133 | a table whose every row passes the masks is returned unchanged |
| `Filters.WhereAppend` | app.py:130-133 | the masks act row by row: a table split in two is narrowed part by part |
| `Filters.MasksAdmit` | app.py:118-133 | the masks the script applies hold on a row iff each non-"Todos" selector equals the row's column and the row's date exists and lies in the inclusive range |
| `Filters.Filtered` | app.py:116-133 | `df_filtered` has no more rows than `df`, and every row in it passes each selector not at "Todos" and has a date within `fecha_inicio..fecha_fin` |
| `Filters.ApplyFilters` | app.py:116-133 | the filter block's result is the narrowing by all active masks; a row is in it iff it is in `df` and passes every selector and the date range; it is a subsequence of `df` |
| `Filters.FilteredMembership` | app.py:118-133 | a row is in `df_filtered` iff it is in `df`, matches every selector not at "Todos", and has a date within `fecha_inicio..fecha_fin` |
| `Filters.FilteredIsSubsequence` | app.py:116-133 | `df_filtered` is a subsequence and a sub-multiset of `df` |
| `Filters.FilteredIdempotent` | app.py:118-133 | filtering `df_filtered` again with the same selection returns it unchanged |
| `Filters.FilteredEmptyRange` | app.py:130-133 | when `fecha_inicio > fecha_fin` nothing survives |
| `Filters.FilteredBoundsInclusive` | app.py:130-133 | a row dated exactly `fecha_inicio` or exactly `fecha_fin` survives when the selectors are at "Todos" |
| `Filters.TodosImposesNothing` | app.py:118-128 | a selector left at "Todos" adds no mask on its column |
| `Filters.AllTodosOnlyDates` | app.py:118-133 | with all four selectors at "Todos" only the date range narrows the table |
| `Filters.SelectorOrderIrrelevant` | app.py:118-128 | any two selector steps give the same table in either order |
| `Sidebar.Less` | app.py:94 | Python's string order, under which a proper prefix comes before the longer string |
| `Sidebar.LessIrreflexive` | app.py:94 | Python's string order is irreflexive |
| `Sidebar.LessTransitive` | app.py:94 | Python's string order is transitive |
| `Sidebar.LessTotal` | app.py:94 | any two different strings are ordered one way or the other |
| `Sidebar.InsertSorted` | app.py:94 | inserting a value into an ascending repetition-free list keeps it so and adds exactly that value |
| `Sidebar.SortedDistinct` | app.py:94 | `sorted(unique(values))` is ascending without repetition and holds exactly the input's values |
| `Sidebar.SortedListUnique` | app.py:94-103 | two ascending repetition-free lists with the same values are equal |
| `Sidebar.SortedLength` | app.py:94 | an ascending repetition-free list has as many entries as distinct values |
| `Sidebar.HeadIsLeast` | app.py:94 | the head of an ascending list precedes every other value in it |
| `Sidebar.ColumnValues` | app.py:94 | the column is read row by row, one value per row |
| `Sidebar.ColumnValuesSet` | app.py:94 | the values read from a column are exactly that column's distinct values |
| `Sidebar.OptionList` | app.py:94-103 | an option list starts with "Todos", then holds exactly the column's distinct values, ascending and once each |
| `Sidebar.OptionListLength` | app.py:94-103 | an option list has one entry more than the column has distinct values |
| `Sidebar.OptionListCanonical` | app.py:94-103 | any ascending repetition-free list of the column's values is the option list's tail |
| `Sidebar.OptionSelectsSomething` | app.py:94-103 | every option after "Todos" is held by some row, so its own narrowing step keeps at least one row |
| `Sidebar.OptionListDistinct` | app.py:94-103 | the option list has no repeated entry iff no row holds the literal value "Todos" in that column |
| `Sidebar.MinFecha` | app.py:107 | the earliest date skips missing dates: it is absent iff no row has a date, otherwise it is some row's date and no later than any row's date |
| `Sidebar.MaxFecha` | app.py:108 | the latest date, symmetrically |
| `Sidebar.InitialSelection` | app.py:107-111 | the initial selection exists iff some row has a date; it has every selector at "Todos" and a non-empty range whose two ends are dates of the table and which contains every row's date |
| `Sidebar.InitialSelectionKeepsDated` | app.py:107-111 | with the initial selection every dated row survives the filter, and a table with all dates present is returned unchanged |
| `Indicators.CountResult` | app.py:148-153 | the number of rows whose RESULTADO is exactly the label is at most the row count, and is 0 iff no row has that result |
| `Indicators.NoRowWithResult` | app.py:148-153 | narrowing by one result leaves nothing iff no row has that result |
| `Indicators.UniqueWellboats` | app.py:145 | the distinct wellboat count is at most the row count and is 0 iff the filtered table is empty |
| `Indicators.Percent` | app.py:149 | the percentage is 0 for an empty table; otherwise it times the total equals count × 100; it lies in [0, 100] when count ≤ total |
| `Indicators.PercentSumBound` | app.py:149-154 | the positive and negative percentages of disjoint counts add up to at most 100 |
| `Indicators.TwoResultsBound` | app.py:148-153 | rows counted for two different results never exceed the row count, and fill it iff every row has one of the two results |
| `Indicators.CountResultAll` | app.py:148 | the count for a result equals the row count iff every row has that result |
| `Indicators.SelectedResultCountsAll` | app.py:124-153 | with RESULTADO set to "Positivo", every remaining row is counted as positive and none as negative |
| `Indicators.Compute` | app.py:142-155 | total is the row count; distinct wellboats ≤ total and 0 iff total is 0; positives + negatives ≤ total; both percentages are non-negative, add up to at most 100, and are 0 for an empty table |
| `Fixture.PositiveScenario` | app.py:43-65 | on the sample table, selecting "Positivo" over 2024 keeps exactly F001, F003, F005, F007, F009 in that order |
| `Fixture.PositiveScenarioIndicators` | app.py:142-155 | on that selection the indicators are total 5, positives 5, negatives 0 |
| `Fixture.SampleWellboatOptions` | app.py:94-95 | the sample's wellboat selector offers "Todos", "WB-Alpha", "WB-Beta", "WB-Gamma" |

## Left out

- Streamlit page setup, CSS, titles, sidebar widgets, `st.metric`, `st.info` and the caching decorator (app.py:9-31, 36, 78-92, 138-157): user interface only. The selections arrive as a `Selection` value.
- `pd.read_csv` and `pd.to_datetime` (app.py:39, 70): rows are taken as already parsed, with the date as an optional day number; an empty date cell becomes `None`.
- A date string that cannot be parsed: `pd.to_datetime` (app.py:70) raises and the dashboard stops. The model does not represent that failure.
- `MES_NOMBRE` (app.py:71): a locale-dependent date formatter.
- The charts and the monthly `groupby` (app.py:162-168): the file ends in the middle of that expression, so its behaviour cannot be read.
- LAT, LON and the DIA, MES, AÑO columns of the sample (app.py:55-58, 63-65): the filter and the indicators never read them.
- Indicators.Percent: computed on exact rationals. The script uses double-precision floats and formats them with `:.1f` (app.py:150, 155), so rounding is not modelled.
- Sidebar.InitialSelection: a table without any date has no initial range here. In the script, `min()` gives NaT and its value goes to the date widget; that behaviour belongs to the libraries and is not modelled.
- Missing cells (NaN) in the categorical columns: every cell is a string here. pandas would list NaN in `unique()`, and `sorted` could then fail.
- A missing column: the script fails on the first access to it. The model assumes all columns are present.
