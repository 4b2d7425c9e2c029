# Air Quality Europe dashboard — a Dafny model of its data pipeline

The dashboard (`Streamlite/main.py`) loads a spreadsheet of European
air-quality readings, one row per city and day. It then runs four steps:

- It repairs a sheet whose rows were pasted as comma-joined text into a single column.
- It normalises the column names.
- It validates and coerces the rows (`prepare`).
- It narrows the table to one day and, optionally, to some countries.

It then averages the European Air Quality Index (EAQI) per place and shows
the result as coloured points with four headline figures. This project
models that pipeline and proves its properties:

- the EAQI label and colour split the values at the same thresholds;
- the country-name lookup ignores case and padding;
- column-name normalisation is idempotent;
- the text rebuilt for a single-column sheet has the right lines;
- `prepare` fails exactly when a required column is missing, and otherwise keeps exactly the complete rows, in order;
- the per-place means have unique keys, lie between the group's minimum and maximum, and are labelled by their own value;
- the filters keep exactly the rows of the day and of the selected countries;
- the default day is the latest one, and the headline mean is 0.0 without points.

Modules, one per file:

| module | file | what it holds |
|---|---|---|
| `Wrappers` | wrappers.dfy | `Option`, `Result` |
| `Text` | text.dfy | Python's `strip`, `lower`, `upper`, `replace`, `"\n".join`, `split` and string order |
| `Cells` | cells.dfy | cell values (`Na`, strings, numbers, dates) and the day order |
| `Eaqi` | eaqi.dfy | thresholds, labels and colours (`eaqi_label`, `eaqi_color`) |
| `Countries` | countries.dfy | `ISO2_TO_COUNTRY_FR` and `country_name` |
| `Schema` | schema.dfy | column-major tables; `normalize_columns` names; `fix_single_column_csv_like`; `df[c] = ...` |
| `Cleaning` | cleaning.dfy | what `prepare` returns, as functions over a table |
| `Rows` | rows.dfy | boolean-mask indexing `df[mask]` on the cleaned records |
| `Frames` | frames.dfy | class `Frame`: the data frame `normalize_columns` and `prepare` mutate in place |
| `Aggregation` | aggregation.dfy | `city_means_for_day`, its specification and the grouping pass |
| `Dashboard` | dashboard.dfy | the day picker, the date and country filters, the headline figures |

A table is a value `Table(columns, data, height)` holding one sequence of
cells per column. pandas' parsers are parameters of the model:

- `pd.to_datetime` and `pd.to_numeric` on text become the fields of `Cleaning.Parsers`;
- `pd.read_csv` becomes a function argument of `Schema.FixSingleColumn`;
- the `str()` of a number or timestamp becomes the fields of `Schema.CellFormat`.

Each of them only has to return a value or "absent".

## Model

| member | source | states |
|---|---|---|
| `Eaqi.Label` | Streamlite/main.py:76-83 | "Inconnu" exactly for a missing value, "Bon" exactly up to 40 inclusive, "Moyen" exactly above 40 up to 80 inclusive, "Mauvais" exactly above 80 |
| `Eaqi.Color` | Streamlite/main.py:86-94 | the unknown colour exactly for a missing value, and blue, orange and red on exactly the same three ranges as the labels |
| `Eaqi.ColorFollowsLabel` | Streamlite/main.py:86-94 | the colour of every value is the legend colour of its label |
| `Eaqi.SamePartition` | Streamlite/main.py:76-94 | two values share a label exactly when they share a colour |
| `Eaqi.LabelMonotone` | Streamlite/main.py:76-83 | a larger AQI never gets a less severe tier |
| `Eaqi.Boundaries` | Streamlite/main.py:16-23 | both thresholds (40 and 80) belong to the lower tier, with the exact label strings and hex colours |
| `Text.Strip` | Streamlite/main.py:72 | the result is the input minus its leading and trailing whitespace: a contiguous slice, with whitespace outside it and none at its ends |
| `Text.StripIgnoresPadding` | Streamlite/main.py:72 | whitespace added before or after a string does not change its stripped form |
| `Text.UpperStripFixed` | Streamlite/main.py:72 | a string with no whitespace at its ends and no lower-case ASCII letter is its own `strip().upper()` |
| `Text.SplitJoin` | Streamlite/main.py:139-140 | splitting a "\n"-joined text on "\n" gives back its lines when none of them contains a line break |
| `Countries.CountryName` | Streamlite/main.py:69-73 | "Inconnu" exactly for a non-string cell: no table name is "Inconnu", and a canonical code, having no lower-case letter, never is |
| `Countries.CanonicalCode` | Streamlite/main.py:72 | the lookup code has no whitespace at either end and no lower-case ASCII letter |
| `Countries.CountryNameCases` | Streamlite/main.py:69-73 | "Inconnu" for a non-string cell; for a string cell, the table's entry for that cell's own canonical code when the table has one, and otherwise the canonical code itself |
| `Countries.CountryNameIgnoresCase` | Streamlite/main.py:72-73 | two codes that are equal up to letter case get the same name |
| `Countries.CountryNameIgnoresPadding` | Streamlite/main.py:72-73 | surrounding whitespace does not change the name |
| `Countries.CanonicalCodeIdempotent` | Streamlite/main.py:72-73 | an unmapped code that was passed through is looked up to itself again |
| `Countries.TableKeysCanonical` | Streamlite/main.py:28-66 | every key of the table has two letters and is its own canonical code, so every entry is reachable |
| `Countries.TableNamesKnown` | Streamlite/main.py:28-66 | no name in the table is the fallback "Inconnu" |
| `Countries.TableKeysUpper` | Streamlite/main.py:28-66 | every key of the table is two upper-case ASCII letters |
| `Countries.TableKeysBeforeZ` | Streamlite/main.py:28-66 | no key of the table starts with "Z" |
| `Countries.UpperPairCanonical` | Streamlite/main.py:72 | two upper-case letters are their own lookup code |
| `Countries.TableEntries` | Streamlite/main.py:36-41 | the table maps "FR" to "France" and "DE" to "Allemagne" |
| `Countries.ExampleFrance` | Streamlite/main.py:41 | "fr" is named "France" |
| `Countries.ExampleGermany` | Streamlite/main.py:36 | " de\t" is named "Allemagne" |
| `Countries.ExampleUnmapped` | Streamlite/main.py:72-73 | "zz" has no entry and passes through as "ZZ" |
| `Countries.ExampleNotString` | Streamlite/main.py:70-71 | a missing or numeric cell is named "Inconnu" |
| `Schema.NormalizeName` | Streamlite/main.py:122 | a normalised name is as long as the stripped name and has no space, no upper-case ASCII letter and no whitespace at either end |
| `Schema.NormalizedNames` | Streamlite/main.py:121-123 | one name per column, in column order, each the `NormalizeName` of that column |
| `Schema.NormalizeNameIdempotent` | Streamlite/main.py:122 | normalising a name twice equals normalising it once |
| `Schema.NormalizedNamesIdempotent` | Streamlite/main.py:121-123 | normalising the column list twice equals normalising it once |
| `Schema.CellText` | Streamlite/main.py:139 | `astype(str)` gives "nan" for a missing cell and a text cell's own text |
| `Schema.CsvLines` | Streamlite/main.py:135-139 | the rebuilt lines are the header, then the text of every cell of the single column, in row order; a missing cell is "nan" |
| `Schema.FixSingleColumn` | Streamlite/main.py:126-141 | the table is returned unchanged unless it has exactly one column whose header contains a comma; otherwise it is the CSV reader's result on the rebuilt text |
| `Schema.FixSingleColumnText` | Streamlite/main.py:126-141 | unchanged unless there is exactly one column and its header contains a comma; otherwise the CSV reader's result on the rebuilt text, whose lines split back into header and cells |
| `Schema.CsvTextExample` | Streamlite/main.py:126-141 | a comma-headed column with one row becomes the two-line text header, "\n", row |
| `Schema.MapColumn` | Streamlite/main.py:160-163 | `df[c] = f(df[c])` keeps the shape and the column names |
| `Schema.SetColumn` | Streamlite/main.py:165 | `df[name] = vals` keeps the column list when `name` is a column and otherwise appends `name` at the end; `vals` becomes column `name`, and every other column keeps its position and cells |
| `Schema.IndexOfAppend` | Streamlite/main.py:165 | appending a new column does not move the existing ones |
| `Cleaning.ToDate` | Streamlite/main.py:160 | a missing cell stays absent and a date cell is its own day; other cells go through the date parser |
| `Cleaning.ToNumber` | Streamlite/main.py:161-163 | a missing or date cell is absent and a number is itself; text goes through the number parser |
| `Cleaning.CoercionIdempotent` | Streamlite/main.py:160-163 | coercing an already coerced cell gives the same date or number again |
| `Cleaning.MissingColumns` | Streamlite/main.py:153-154 | exactly the required names that are not columns, strictly sorted, and empty exactly when all six are present |
| `Cleaning.AbsentSorted` | Streamlite/main.py:157 | keeping some names of a sorted list keeps it sorted |
| `Cleaning.MissingIffIncomplete` | Streamlite/main.py:153-155 | nothing is missing exactly when every required column is present |
| `Cleaning.StrictlySortedDistinct` | Streamlite/main.py:157 | the sorted missing list names no column twice |
| `Cleaning.MissingLatitudeExample` | Streamlite/main.py:153-158 | a table lacking only `latitude` is rejected with `["latitude"]` |
| `Cleaning.CleanCells` | Streamlite/main.py:160-167 | a row's cells yield a record exactly when the date, both coordinates and the AQI parse and the city and country are present |
| `Cleaning.RowResults` | Streamlite/main.py:160-167 | one outcome per raw row, in row order, each the outcome of cleaning that row |
| `Cleaning.CleanRow` | Streamlite/main.py:160-167 | a row yields a record exactly when its date, coordinates and AQI parse and its city and country are present; the record's country name is `country_name` of its country |
| `Cleaning.Present` | Streamlite/main.py:167 | `dropna` keeps no more rows than it is given, and each record as many times as it occurs among the row outcomes |
| `Cleaning.PresentStep` | Streamlite/main.py:167 | reading one more row appends its record when it has one, and nothing otherwise |
| `Cleaning.PresentRecords` | Streamlite/main.py:167 | each kept record sits at its kept position: as many positions as records, each in range and holding that record |
| `Cleaning.PresentPositions` | Streamlite/main.py:167 | the kept positions are in range and strictly increasing, and every row with a record is among them |
| `Cleaning.KeptRowsInOrder` | Streamlite/main.py:152-168 | with every required column present, `Clean` succeeds, and its records are those of the complete rows, at strictly increasing positions, with every complete row kept |
| `Cleaning.Clean` | Streamlite/main.py:152-168 | failure exactly when a required column is missing, with the columns found and the exact sorted missing names; on success every record's country name is `country_name` of its country |
| `Cleaning.Converted` | Streamlite/main.py:160-163 | the in-place conversions keep the table's shape and column names |
| `Cleaning.Coerced` | Streamlite/main.py:160-165 | the coerced table keeps the number of rows and the required columns, and gains `country_name` |
| `Cleaning.CountryNames` | Streamlite/main.py:165 | one display name per row, `country_name` of that row's country |
| `Cleaning.MapColumnCell` | Streamlite/main.py:160-163 | after `df[c] = f(df[c])` only the cells of column `c` change, each to its image |
| `Cleaning.ConvertedCell` | Streamlite/main.py:160-163 | after conversion the date cell is the parsed date, the coordinate and AQI cells are the parsed numbers, and every other cell is unchanged |
| `Cleaning.CoercedCells` | Streamlite/main.py:160-165 | one row of the coerced table: the parsed date, coordinates and AQI, the same city and country, and `country_name` of the country |
| `Cleaning.ExtractConverted` | Streamlite/main.py:160-167 | coercing a row's cells and then dropping it on an absent cell gives the record cleaning the raw cells gives |
| `Cleaning.ExtractCoerced` | Streamlite/main.py:160-167 | row i of the coerced table is dropped exactly when cleaning drops raw row i, and otherwise yields the same record |
| `Cleaning.Extracted` | Streamlite/main.py:167 | one `dropna` outcome per row of the coerced table, in row order |
| `Cleaning.ExtractedCoerced` | Streamlite/main.py:160-167 | coercing the table in place and then dropping its incomplete rows gives, row for row, what cleaning the raw table gives |
| `Frames.Frame.NormalizeColumns` | Streamlite/main.py:121-123 | the column names become `NormalizedNames` of the old ones; cells and row count are unchanged |
| `Frames.Frame.ApplyToColumn` | Streamlite/main.py:160-163 | the frame becomes `MapColumn` of its old value |
| `Frames.Frame.AssignColumn` | Streamlite/main.py:165 | the frame becomes `SetColumn` of its old value |
| `Frames.Frame.Coerce` | Streamlite/main.py:160-165 | the frame becomes the coerced table of its old value |
| `Frames.Frame.CompleteRows` | Streamlite/main.py:167 | reading the complete rows of the frame gives the records of its rows that `dropna` keeps, in row order |
| `Frames.Frame.Prepare` | Streamlite/main.py:152-168 | returns `Clean` of the old frame; on failure the frame is untouched, on success it holds the coerced table |
| `Rows.Filter` | Streamlite/main.py:206-213 | a record is kept exactly when it is a row of the input that passes the mask, and as many times as it occurs there |
| `Rows.FilterAppend` | Streamlite/main.py:206-213 | masking a concatenation masks each part, so the kept rows stay in their original order |
| `Rows.FilterKeepsAll` | Streamlite/main.py:212-213 | a mask every row passes removes nothing |
| `Aggregation.Keys` | Streamlite/main.py:173 | the group keys are pairwise distinct, and a key is listed exactly when some row has it |
| `Aggregation.GroupAqi` | Streamlite/main.py:173-174 | a group has at most as many values as there are rows |
| `Aggregation.GroupAqiIsMasked` | Streamlite/main.py:173-174 | a group is the AQI column of the rows the mask `df[key] == k` keeps, repetitions and order included |
| `Aggregation.GroupAqiCounts` | Streamlite/main.py:173-174 | a value occurs in a group as often as the rows with that key carry it |
| `Aggregation.GroupAqiMembers` | Streamlite/main.py:173-174 | a group holds exactly the AQI values of the rows with its key, and is non-empty exactly when the key occurs |
| `Aggregation.Mean` | Streamlite/main.py:174 | the mean of a non-empty group lies between its smallest and its largest value |
| `Aggregation.SumBounds` | Streamlite/main.py:174 | a sum of n values in [lo, hi] lies in [n·lo, n·hi] |
| `Aggregation.MeanWithin` | Streamlite/main.py:174 | the mean of values in [lo, hi] lies in [lo, hi] |
| `Aggregation.Min` | Streamlite/main.py:174 | the minimum is a member that is at most every member |
| `Aggregation.Max` | Streamlite/main.py:174 | the maximum is a member that is at least every member |
| `Aggregation.CityMeans` | Streamlite/main.py:171-178 | one point per distinct key |
| `Aggregation.CityMeansKeys` | Streamlite/main.py:173 | no key appears twice among the points, and a key appears exactly when some row has it |
| `Aggregation.CityMeansEmpty` | Streamlite/main.py:171-178 | there are no points exactly when there are no rows |
| `Aggregation.CityMeansPoint` | Streamlite/main.py:174-177 | a point's AQI is the mean of its group, lies between the group's minimum and maximum (both AQI values of rows with that key), and its label and colour are those of the mean |
| `Aggregation.TwoReadingsExample` | Streamlite/main.py:171-178 | readings 30 and 50 at one place give one point at 40, "Bon", blue |
| `Aggregation.TwoPlacesExample` | Streamlite/main.py:171-178 | readings at two places give two points, each with its own label and colour |
| `Aggregation.GroupStep` | Streamlite/main.py:173-174 | one more row adds its key if new, and adds its AQI to its own group's sum and count only |
| `Aggregation.AddRow` | Streamlite/main.py:173-174 | the running keys, sums and counts stay those of the rows seen so far |
| `Aggregation.GroupSums` | Streamlite/main.py:173-174 | the pass yields the distinct keys and, for each key, the sum and count of its group |
| `Aggregation.CityMeansForDay` | Streamlite/main.py:171-178 | the grouping pass, the means and the label and colour columns produce exactly `CityMeans` of the rows |
| `Dashboard.InsertDate` | Streamlite/main.py:201 | inserting a day keeps the list strictly increasing and adds exactly that day |
| `Dashboard.SortedDates` | Streamlite/main.py:201 | the distinct days of the table, each once, strictly increasing |
| `Dashboard.DefaultDay` | Streamlite/main.py:201-204 | no default exactly when there are no days; otherwise one of the sorted days, at least as late as every other |
| `Dashboard.DefaultDayIsLatest` | Streamlite/main.py:201-204 | there is a default day exactly when the table has rows; it is a day of the table and no row is later |
| `Dashboard.Narrowed` | Streamlite/main.py:206-213 | each record reaches the aggregation as many times as it occurs in the cleaned table when it is on the day and, if countries are selected, in one of them, and otherwise not at all |
| `Dashboard.NarrowedRows` | Streamlite/main.py:206-213 | a row reaches the aggregation exactly when it is on the selected day and, if countries are selected, in one of them; an empty selection leaves the day's rows as they are |
| `Dashboard.OfferedSelectionNotEmpty` | Streamlite/main.py:208-213 | selecting at least one offered country leaves at least one row |
| `Dashboard.AllOptionsSelected` | Streamlite/main.py:208-213 | selecting every offered country keeps every row of the day |
| `Dashboard.Aqis` | Streamlite/main.py:222 | the AQI column of the points, point by point |
| `Dashboard.MeanKpi` | Streamlite/main.py:222 | 0.0 without points, otherwise between the smallest and the largest point AQI |
| `Dashboard.MeanKpiBounds` | Streamlite/main.py:222 | the mean figure is 0.0 without points, and otherwise lies between the smallest and the largest point AQI |
| `Dashboard.CitiesCount` | Streamlite/main.py:220 | between one and one per point distinct cities when there are points, none otherwise |
| `Dashboard.CountriesCount` | Streamlite/main.py:221 | between one and one per point distinct countries when there are points, none otherwise |
| `Dashboard.Page` | Streamlite/main.py:201-222 | a picked day is the page's day, and without points every figure is zero |
| `Dashboard.PageFigures` | Streamlite/main.py:201-222 | the day is the picked one or else the latest; no points exactly when no row survives the narrowing, and then all figures are zero; otherwise at least one city and one country, and at most one of each per point |
| `Dashboard.Render` | Streamlite/main.py:201-222 | the script body, narrowing `df_day` step by step, produces exactly `Page` |

## Left out

- Streamlit page set-up, sidebar widgets, metrics display and the rerun model are left out because they are presentation. The picked day and selected countries are parameters of `Dashboard.Render`.
- Streamlit's handling of `index=len(dates) - 1` is not modelled. The model takes the last sorted day, and no day when the table is empty.
- The folium map, markers, clustering, popups, the legend HTML and the map-centre averaging are left out because they are rendering through a foreign library.
- The file-existence check, `pd.read_excel` and `@st.cache_data` are left out because they are I/O and caching. So is `load_excel_local`, which only chains the two modelled repairs after the read.
- The internals of `pd.read_csv`, `pd.to_datetime`, `pd.to_numeric` and `str()` of floats and timestamps are parameters. They are pandas' own parsers and formatters.
- `Text.Lower`, `Text.Upper`: map ASCII letters only. Python's full Unicode case mapping is not modelled; the country codes and column names are ASCII.
- `Cleaning.ToNumber`: a date cell in a numeric column is treated as absent. pandas would raise or convert it, depending on its type.
- `pd.to_datetime` is applied to each cell. pandas infers one format for the whole column, which the model does not capture.
- Boolean cells and other Python objects are not among the cell kinds.
- Duplicate column names are not modelled: a name refers to its first column.
- `Aggregation.CityMeans`: the points are in order of first appearance. pandas sorts the group keys, and that order is not modelled.
- `Aggregation.Mean`: uses exact real arithmetic. Floating-point rounding of the mean is not modelled.
- `Cleaning.ToNumber`: parsed numbers are finite reals. pandas turns text such as "inf", "-inf" or "1e999" into an infinite value, which `dropna` keeps and which then makes a group's mean and the mean figure infinite (labelled "Mauvais"); non-finite values are not modelled.
- `Cleaning.Record`: keeps only the seven columns the dashboard reads. The other columns of the cleaned table are not carried.
- `Dashboard.CountryOptions`: a set. The sorted order of the multiselect options is not modelled.
- `Schema.FixSingleColumnText`: states the line structure only when no cell text and no header contains a line break.
