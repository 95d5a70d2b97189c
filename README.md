# Olympic medal analytics: the aggregation layer

This project models the analytics of the Olympic medal dashboard: the filter, group-by, count,
pivot and merge pipelines that turn the flat table of medal rows into the tables the pages chart.
Each medal row has a country, a discipline, an event, an optional event gender, an optional
athlete name, a medal type and a Games slug. The whole data set is a sequence of such rows.

The model covers the following parts of the dashboard:

- **Data preparation.** Four columns are dropped. The country column is rewritten in place by
  four whole-value replacements. This part is modelled as methods over an array of names.
- **Country analytics.** These cover the most-participated discipline and its participant
  count, and the disciplines in which a country has the most medals. They also cover the
  per-Games medal trajectory (totals and a per-medal-type breakdown) and the comparison of two
  countries' trajectories.
- **Medal analytics.** The charts read the breakdown by the fixed GOLD, SILVER and BRONZE
  columns and read the comparison by its first row.
- **Event analytics.** Each discipline is classified as Male-Oriented, Female-Oriented or
  Balanced from its Men and Women row counts. The three result sets are built by exclusion.
- **Map pages.** These give, per country, the total medals, the gold, silver and bronze counts
  with their sum, and the medals won in five fixed disciplines.
- **Athlete page.** This gives one athlete's medals by Games and medal type.

The pandas behaviour the pipelines rely on is modelled in `Tables` (tables.dfy):

- A group-by sorts its keys in Python string order (`Below`, code-point lexicographic), so every
  group index is strictly increasing. A count is the number of rows in a group.
- `unstack(fill_value=0)` gives a zero-filled table (`CrossTab`). A plain `unstack()` gives one
  with NaN (`None`) for an empty group (`Unstack`). `fillna(0)` turns the second into the first.
- `sum(axis=1)` skips NaN.
- `idxmax` takes the first maximum.
- A merge on a key is an inner join in key order.
- A missing label in `frame[...]` or `.loc[...]` raises a KeyError. `.values[0]` on an empty
  table raises an IndexError. Both are modelled as `Result` values.

`Records` (records.dfy) gives the row type and the selection and grouping of rows by a column.
Each page is one module:

- `DatasetPrep`: dataset_prep.dfy
- `CountryAnalysis`: country_analysis.dfy
- `MedalAnalysis`: medal_analysis.dfy
- `EventAnalysis`: event_analysis.dfy
- `Geo`: geo.dfy
- `PlayerAnalysis`: player_analysis.dfy

Every table a pipeline builds is tied to a direct count over the rows by an all-inputs lemma.
The count is written as `|Where(...)|`, the number of rows with given field values.

## Model

| member | source | states |
|---|---|---|
| DatasetPrep.CanonicalName | Dataset_prep.py:9-12 | Soviet Union, Olympic Athletes from Russia and ROC become Russian Federation. German Democratic Republic (Germany) becomes Germany. Every other name is kept, including a name that only contains an alias. |
| DatasetPrep.CanonicalNameIdempotent | Dataset_prep.py:9-12 | No canonical name is an alias, so applying the four replacements again changes nothing. |
| DatasetPrep.ReplaceCountry | Dataset_prep.py:9 | One pass rewrites in place exactly the entries equal to the whole alias and leaves every other entry unchanged. |
| DatasetPrep.CanonicalizeCountries | Dataset_prep.py:9-12 | After the four passes in source order, every entry is the canonical form of its old value. |
| DatasetPrep.PrepareDataset | Dataset_prep.py:5-12 | The row count is unchanged. Each output row is its input row without country_code, country_3_letter_code, participant_title and athlete_url, with only the country canonicalised. No output country is an alias. |
| CountryAnalysis.PivotRow | country_analysis.py:20-23 | A cell of the zero-filled country × discipline pivot is that country's number of rows in that discipline. |
| CountryAnalysis.MostParticipatedSportSpec | country_analysis.py:20-26 | A country with no rows gives KeyError(country). Otherwise the result has at least one row, no discipline has more rows, and on a tie it is the smallest tied discipline in string order. |
| CountryAnalysis.ParticipantsCountSpec | country_analysis.py:60 | The participant count is the country's number of rows in the sport, and 0 when the country has none (`get(country, 0)`). |
| CountryAnalysis.ParticipantsOfMostParticipated | country_analysis.py:56-60 | For the most-participated sport, the participant count is at least 1 and bounds the country's row count in every discipline. |
| CountryAnalysis.TotalMedalsSpec | country_analysis.py:42-45 | Summing the per-medal-type counts gives, for each discipline, one entry per country with rows there, equal to that country's row count. |
| CountryAnalysis.LeaderSpec | country_analysis.py:48-49 | The discipline's leader has the most rows there (at least 1). Every country earlier in string order has strictly fewer rows, so it is the first maximum. |
| CountryAnalysis.OfCountry | country_analysis.py:52 | Filtering the leaders keeps exactly the leader rows whose country is the given one. |
| CountryAnalysis.BestMedalsByDisciplineSound | country_analysis.py:42-52 | No discipline appears twice. Every row names the country, and its medal count is the country's row count in the discipline (at least 1) and a maximum over all countries, with every earlier country strictly below. |
| CountryAnalysis.BestMedalsByDisciplineComplete | country_analysis.py:42-52 | Every discipline in which the country is the first maximum appears in the result, so the result is empty exactly when the country leads no discipline. |
| CountryAnalysis.TrackCountryPerformanceSpec | country_analysis.py:119-122 | There is one sorted entry per Games in which the country medalled in the discipline. Each total is that Games' row count (at least 1), and the totals sum to the filtered row count. The same pipeline appears at country_analysis.py:296-299 and medal_analysis.py:113-116. |
| CountryAnalysis.TrackPerformanceSpec | country_analysis.py:203-206 | The breakdown has the same Games as the totals and a column per medal type observed. Each cell counts that Games' rows of that type, and each row sums to the Games' total. The same pipeline appears at medal_analysis.py:21-24. |
| CountryAnalysis.FirstTrackedGameSpec | country_analysis.py:144-145 | Reading the first row of one country's trajectory raises IndexError exactly when the country has no row in the discipline. Otherwise it gives the smallest Games with rows and that Games' row count, at least 1. |
| CountryAnalysis.ComparePerformanceSpec | country_analysis.py:315-321 | The merged table has exactly the Games in which both countries medalled in the discipline, sorted. Each row carries both countries' unchanged totals. |
| MedalAnalysis.MedalColumnsSpec | medal_analysis.py:40-51 | Reading GOLD, SILVER and BRONZE from the breakdown fails with KeyError on the first type the country never won in the discipline, and succeeds exactly when all three were won. |
| MedalAnalysis.FirstComparedGameSpec | medal_analysis.py:132-146 | Reading the first compared row raises IndexError exactly when the two countries share no Games. Otherwise that row is the smallest shared Games. |
| EventAnalysis.GenderPivotCell | event_analysis.py:20-26 | After null genders are dropped, a pivot cell is the discipline's row count for that gender, and NaN when there are none. |
| EventAnalysis.GenderTableSpec | event_analysis.py:20-31 | With no Men row the result is KeyError("Men"), then KeyError("Women") for no Women row. Otherwise there is one sorted row per discipline with a gendered row. Men and Women are the counts, NaN when zero, and the total is Men + Women with NaN read as 0. |
| EventAnalysis.ProportionCompare | event_analysis.py:30-37 | For a positive total, male proportion > 0.5 iff men > women, female proportion > 0.5 iff women > men, and the two proportions are equal iff men == women. |
| EventAnalysis.MakeRowSpec | event_analysis.py:29-42 | For a positive total, the label is Male-Oriented iff men > women, Female-Oriented iff women > men, and Balanced iff men == women > 0. With total 0 there is no label. A label is always decided by one of the first three conditions, never by the last two. |
| EventAnalysis.Labelled | event_analysis.py:45 | Keeps exactly the rows with the given label. |
| EventAnalysis.NotLabelled | event_analysis.py:46-47 | Keeps exactly the rows with neither of the two given labels, including the unlabelled ones. |
| EventAnalysis.AnalyzeGenderOrientationSpec | event_analysis.py:20-47 | The balanced set is the disciplines with men == women > 0. The male set is the disciplines with men > women or no Men and Women rows at all, and the female set is the disciplines with women > men or none. All three are subsets of the table, and the result fails exactly when the table does. |
| EventAnalysis.NullGenderIgnored | event_analysis.py:20 | Adding a row with no event gender does not change the analysis. |
| Geo.MedalsByCountrySpec | geo.py:9 | There is one sorted row per country with medals and one column per medal type won. A cell is the country's row count of that type, NaN when zero. |
| Geo.TotalMedalsByCountrySpec | geo.py:9-12 | Every country with medals appears, and its Total Medals (the NaN-skipping row sum) equals its number of medal rows. |
| Geo.IndividualMedalsSpec | geo.py:31-38 | The lookup fails with KeyError on the first of GOLD, SILVER, BRONZE that nobody won. Otherwise there is one row per country with medals: Gold, Silver and Bronze are its counts, NaN when zero, and Total Medals is their sum with NaN read as 0. |
| Geo.MedalTableRow | geo.py:34-38 | A row of the map table reads the GOLD, SILVER and BRONZE cells of its country, and its total is their NaN-skipping sum. |
| Geo.TopDisciplinesUnique | geo.py:65 | The five disciplines summed are distinct, so no row is counted twice. |
| Geo.TopDisciplineTotalsSpec | geo.py:57-65 | The lookup fails with KeyError on the first of Athletics, Swimming, Wrestling, Rowing, Boxing without medals. Otherwise every country with medals appears, and its value is its number of rows in those five disciplines. Other disciplines contribute nothing, and a country with none of the five shows 0. |
| PlayerAnalysis.AthleteRows | player_analysis.py:11-13 | The athlete's rows are exactly the rows whose name is present and equal to the query. |
| PlayerAnalysis.AthleteRowsCount | player_analysis.py:11-13 | The number of the athlete's rows equals a direct count of matching names. |
| PlayerAnalysis.MedalCountTableSpec | player_analysis.py:11-19 | There is one sorted row per Games and one column per medal type the athlete won. Each cell counts the athlete's rows with that Games and type, and all cells sum to the athlete's row count, one per row. `medal_compare` (lines 51-59) computes the same table. |
| PlayerAnalysis.NamelessRowIgnored | player_analysis.py:12 | Adding a row with no athlete name does not change the table. |
| Tables.ArgMax | country_analysis.py:26 | `idxmax` returns a position holding the maximum, before which every value is strictly smaller. |
| Tables.ValueCountsSpec | country_analysis.py:122 | Grouping and counting gives each distinct value once, sorted, with its number of occurrences (at least 1), and the counts sum to the number of values. |
| Tables.CrossTabTotal | country_analysis.py:206 | All cells of a zero-filled two-key count table sum to the number of rows. |
| Tables.FillNaUnstack | player_analysis.py:19 | `unstack().fillna(0)` is the same table as `unstack(fill_value=0)`. |
| Tables.InnerJoin | country_analysis.py:321 | The merge on the key keeps exactly the keys in both inputs, sorted. |
| Tables.InnerJoinLeft | country_analysis.py:321 | Each merged row carries the left input's value for its key (the `_country1` total). |
| Tables.InnerJoinRight | country_analysis.py:321 | Each merged row carries the right input's value for its key (the `_country2` total). |
| Tables.GetColumns | geo.py:58-62 | Columns looked up one at a time, in order, are all read when all exist. Otherwise the KeyError names the first missing one. The same lookups occur at geo.py:34-36 and medal_analysis.py:46-51. The list lookup at geo.py:65 runs only once these have succeeded. |
| Tables.GetColumnsFirstMissing | geo.py:58-62 | The KeyError names exactly the first missing column in lookup order. |
| Tables.Loc | country_analysis.py:26 | `.loc[key]` succeeds exactly when the key is in the index, with a row as wide as the columns, and gives KeyError(key) otherwise. |
| Tables.LocAt | country_analysis.py:26 | Over a sorted index, `.loc[key]` returns the row stored at the key's position. |
| Tables.GetColumn | event_analysis.py:29 | `frame[name]` returns the column when present, and KeyError(name) otherwise. |

## Left out

- Plotly figures, traces, sliders and frames, the Streamlit page wiring (app.py) and the about page are not modelled. They render results through libraries outside this model. This includes the `.strip()` of the text inputs in app.py.
- Reading the CSV file is not modelled. The data set is an input sequence of rows.
- The proportions in event analytics are floating point in the source. The model uses exact rationals with NaN as `None` for 0/0. For counts of realistic size, float division and exact division compare the same against 0.5 and against each other.
- Integer widths are not modelled. Counts are unbounded naturals, and the source's int64 counts cannot overflow on this data.
- Games are ordered by their slug string, as pandas sorts group keys. No chronological order is modelled.
- TotalMedalsByCountrySpec: sums the medal-type columns only. At geo.py:12 the row sum also meets the string `country_name` column, and how that behaves depends on the pandas version.
- BestMedalsByDisciplineSound: does not state the row order. The source sorts the leaders of all disciplines by country name with the default unstable quicksort (country_analysis.py:50) and then keeps one country's rows (line 52), so the order of that country's rows is not fixed. The model keeps discipline order.
- The plotting code's reads of GOLD, SILVER and BRONZE in country_analysis.py (lines 227-231, 263-265) and of `.values[0]` on the two-country comparison (lines 328-336) are not modelled separately. They are the same lookups that MedalColumnsSpec and FirstComparedGameSpec state for the medal page.
- The frames returned at event_analysis.py:45-47 also carry a column for every other event-gender label of the pivot at line 26, such as Mixed or Open. GenderRow keeps only Men, Women and the derived columns. Nothing downstream reads the other columns: the chart uses only the discipline and total_competitors.
- `track_country_performance` and `track_compare_performance` in medal_analysis.py, and `tr_performance` in country_analysis.py, are modelled once. They are textually the same pipelines as `track_performance` and `track_country_performance` in country_analysis.py.
- `medal_compare` in player_analysis.py is modelled once, as MedalCountTable. Its table pipeline is the same as `create_medal_count_plot`'s.
- The writes at geo.py:58-62 are modelled only as the column lookups they perform. Their values are overwritten at line 65.
- The column selection at player_analysis.py:16 does not affect the counts and is not modelled.
- PrepareDataset: rewrites a fresh array of the country names and returns the rows as a new sequence. The source drops columns and reassigns the country column of one module-level table in place.
