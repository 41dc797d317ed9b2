# Movie-remake data pipeline: a Dafny model of its scan, ranking and checks

The repository scrapes the encyclopedia's two "list of film remakes" index
pages for pairs of original film and remake. It assembles a ten-column table
of metadata per pair (title, year, genres, rating and votes, for the original
and then the remake). A test suite type-checks that table, and plotting code
ranks genres and selects rows by genre before drawing. This project models
three parts of it:

- **`MovieScraper`** (`movie_scraper.dfy`) models the link-discovery scan of
  `get_remakes`. The two index pages are inputs, each given as its tables, a
  table as its rows, and a row as its anchors `(title, href)`. `ScanTables`
  is the nested loop that appends to the four lists `original_name`,
  `original_link`, `remake_name` and `remake_link`. It is proved against
  reference functions: `OriginalEntries` gives one entry per data row, and
  `RemakeEntries` gives one entry per data row that has an anchor. `GetRemakes`
  drops each page's first table, runs the scan and zips the lists with `Zip4`,
  Python's truncating `zip`.
- **`GraphData`** (`graph_data.dfy`) models three things:
  - the positional column map `col`;
  - `find_popular_genres`: `CountGenres` is its dict-filling nested loop, and
    `SortByCount` is the stable descending `sorted`. The dict is a `map` plus
    the sequence of its keys in insertion order;
  - the comprehension `MoviesWithGenre`, which selects the rows whose
    original-genre list contains a genre.
- **`TestData`** (`test_data.dfy`) models the five type tests as methods.
  Each method walks the rows, clears a flag and returns the flag the test
  asserts on. Cells are the tagged Python values of `Cells` (`cells.dfy`):
  `Str`, `Int`, `Float`, `List` and `NoneValue`. A `Float` holds a finite
  value, NaN or an infinity, as a Python `float` can. `TestFiniteRatings`
  is the ratings check that also rejects NaN and infinities (see Findings).

The source points to one frame row per data row, with a missing side
recorded as absent. The docstring of `get_remakes` (movie_scraper.py:14-17)
describes four paired columns, and a row with a single anchor pads the remake
side with `None` (movie_scraper.py:62-64). The code does not do this for a
row with no anchors: such a row adds an original entry but no remake entry.
The model follows the code. `MisalignedPairing` shows the consequence, and
`PairRows` is the per-row pairing (see Findings).

## Model

| member | source | states |
|---|---|---|
| `MovieScraper.ScanTables` | movie_scraper.py:44-65 | The four lists are the names and links of the reference entries of the data rows. There is one original entry per data row, and it is absent (`None`) when the row has no anchor. There is one remake entry per row that has an anchor, and none for a row without anchors. All four lists follow table-then-row scan order. |
| `MovieScraper.GetRemakes` | movie_scraper.py:38-67 | The frame holds exactly as many rows as there are anchored data rows, which is never more than the number of data rows. Row k pairs the original of data row k with the remake of the k-th anchored data row. The data rows skip the first table of each page and the header of each table. |
| `MovieScraper.Zip4` | movie_scraper.py:67 | `zip` yields as many tuples as the shortest of the four lists, and the i-th tuple holds the i-th element of each list. |
| `MovieScraper.DataRows` | movie_scraper.py:42-47 | Every row after the header of every table is a data row, and every data row is a non-header row of some table. A single table gives exactly its rows after the header, in order. With `DataRowsAppend`, which splits a table sequence anywhere, this fixes the walk as table by table and row by row. |
| `MovieScraper.Scraped` | movie_scraper.py:67 | The zipped frame has as many rows as there are remake entries, never more than the data rows. Row k combines the original of data row k with the k-th remake entry. |
| `MovieScraper.Tail` | movie_scraper.py:39-47 | `[1:]` drops exactly the first element and keeps the rest in order. It gives an empty list for an empty one. |
| `MovieScraper.EntryLinks` | movie_scraper.py:49-61 | A link is present exactly when its anchor exists, anchor 0 for the original and anchor 1 for the remake. A present link is the base URL followed by that anchor's `href`, and a name is present exactly when its link is. |
| `MovieScraper.ScanRow` | movie_scraper.py:49-65 | Scanning one row adds one original entry, and adds a remake entry only if the row has an anchor. A one-anchor row gives its original plus an absent remake. An anchorless row gives an absent original and no remake. |
| `MovieScraper.RemakeEntriesFollowAnchoredRows` | movie_scraper.py:53-65 | The k-th remake entry is the remake of the k-th data row that has at least one anchor. |
| `MovieScraper.RemakeListLength` | movie_scraper.py:45-65 | The remake lists are never longer than the original lists. They have the same length if and only if every data row has an anchor, so they are strictly shorter when some row has none. |
| `MovieScraper.ScrapedPairing` | movie_scraper.py:67 | The zipped frame has the length of the remake lists, which is at most the number of data rows. Its k-th row combines the original of row k with the remake of the k-th anchored row. |
| `MovieScraper.DataRowsAppend` | movie_scraper.py:42-47 | Scanning concatenated tables gives the data rows of the first group followed by those of the second. |
| `MovieScraper.PagesInOrder` | movie_scraper.py:39-42 | All rows from page 1's tables come before all rows from page 2's tables. |
| `MovieScraper.DataRowsIgnoreHeaders` | movie_scraper.py:46-47 | Two table sequences that agree everywhere except in their header rows give the same data rows. |
| `MovieScraper.FirstTableAndHeadersIgnored` | movie_scraper.py:38-47 | Pages that differ only in their first table and in the header rows of the other tables give the same frame. |
| `MovieScraper.OnlyFirstTwoAnchorsRead` | movie_scraper.py:50-61 | Rows that agree on their first two anchors give the same original and remake lists. Anchors after the second are never read. |
| `MovieScraper.MisalignedPairing` | movie_scraper.py:53-67 | An anchorless row followed by an anchored row gives a single frame row. That row pairs an absent original with the second row's remake, and the second row's original is lost. |
| `MovieScraper.PairRows` | movie_scraper.py:49-65 | Intended pairing: there is one frame row per data row, built from that row's own original and remake, with absent sides recorded as `None`. |
| `MovieScraper.AlignedIffAllAnchored` | movie_scraper.py:53-67 | The frame as written equals the intended per-row pairing if and only if every data row has at least one anchor. |
| `GraphData.ColumnSchema` | graph_data.py:6-9 | `col` maps exactly the ten field names to the ten distinct positions 0..9. The k-th original field is at k, and each remake field is at its original field's position plus 5. |
| `GraphData.GenreColumn` | graph_data.py:69 | The column has one genre list per row, and entry r is row r's original-genre list. |
| `GraphData.CountGenres` | graph_data.py:67-76 | After the nested loops the dict holds exactly the genres of the original-genre lists. Each count is that genre's total number of occurrences across all rows, and a repeat inside one list counts once per repeat. The keys are in order of first appearance. |
| `GraphData.FindPopularGenres` | graph_data.py:43-82 | The result has min(`number`, number of distinct original genres) entries and no duplicates, and every entry occurs in some row. Counts do not increase along the result, and genres with equal counts appear in order of first appearance. No genre left out has a higher count than any genre returned. |
| `GraphData.FlattenFacts` | graph_data.py:69-76 | The genres the loops visit are exactly those of the original-genre lists, each visited as often as it occurs over all rows. |
| `GraphData.DistinctFacts` | graph_data.py:67-76 | The dict's key order lists each genre seen exactly once, in increasing order of first appearance. |
| `GraphData.CountStep` | graph_data.py:72-76 | A genre not yet in the dict becomes a new key with count 1, appended to the key order. A genre already present keeps its position and has its count increased by one. |
| `GraphData.SortByCount` | graph_data.py:79 | Length and membership: the sorted list has as many entries as the keys and holds exactly the keys. Order and stability are in `SortRanked`. |
| `GraphData.SortRanked` | graph_data.py:79 | For keys given in first-appearance order, the stable descending sort ranks them by non-increasing count, and equal counts stay in first-appearance order. |
| `GraphData.RankingFacts` | graph_data.py:79 | The sorted key list holds every distinct original genre exactly once, ranked by its number of occurrences. |
| `GraphData.TopGenresSelection` | graph_data.py:79-82 | The slice `[0:number]` holds min(`number`, number of distinct genres) distinct genres, each occurring in some row. |
| `GraphData.TopGenresOrder` | graph_data.py:79 | Counts along the result never increase. Ties appear in the order in which the genres first appear in the column. |
| `GraphData.TopGenresExcluded` | graph_data.py:79-82 | A genre that occurs but is not returned has a count no greater than that of every returned genre. |
| `GraphData.MoviesWithGenre` | graph_data.py:119-120 | The comprehension (repeated at lines 166-167) returns strictly increasing row indices below `len(df)`. An index is included if and only if that row's original-genre list contains the genre. |
| `GraphData.PopularGenresHaveMovies` | graph_data.py:112-123 | With the default `col`, for every genre `find_popular_genres` returns, the selected index list is non-empty, so the averages over it never divide by zero. |
| `GraphData.ValidGenresGiveGenreColumn` | graph_data.py:69-70 | A table that passes the genre test has, in every row, an original-genre cell that is a list of strings: what the genre loops iterate over. |
| `TestData.TestValidName` | test_data.py:16-26 | The flag is true if and only if every row holds a `str` at columns 0 and 5. |
| `TestData.TestValidYears` | test_data.py:29-39 | The flag is true if and only if every row holds an `int` at columns 1 and 6. |
| `TestData.TestValidGenres` | test_data.py:42-60 | The flag is true if and only if every row holds, at columns 2 and 7, a list whose every element is a `str`. An empty list passes. |
| `TestData.TestValidRatings` | test_data.py:63-73 | The flag is true if and only if every row holds a `float` at columns 3 and 8. |
| `TestData.TestValidVotes` | test_data.py:76-86 | The flag is true if and only if every row holds an `int` at columns 4 and 9. |
| `TestData.NonFiniteRatingPasses` | test_data.py:63-73 | A table that passes the ratings test still passes when any rating becomes NaN or an infinity, and then its ratings are no longer all finite. |
| `TestData.NanRatingPasses` | test_data.py:63-73 | A concrete well-typed one-row table with a NaN original rating passes the ratings test. |
| `TestData.FiniteRatingsFacts` | test_data.py:5-10 | Finite ratings mean passing the ratings test with no NaN or infinite rating in columns 3 and 8. |
| `TestData.TestFiniteRatings` | test_data.py:5-10 | The ratings check the comment describes: the flag is true if and only if every row holds a finite float (neither NaN nor infinite) at columns 3 and 8. |
| `TestData.FailureIsFinal` | test_data.py:18-25 | Once some rows fail a test, no later rows can make it pass. |
| `TestData.EmptyTablePasses` | test_data.py:18-19 | An empty table passes all five tests. |
| `TestData.NoneCellFails` | test_data.py:16-86 | A `None` cell fails the test responsible for its column, so a row with a `None` anywhere fails at least one test. |

## Left out

- Fetching the two index pages (`requests.get`) and parsing them with BeautifulSoup (`find_all`), movie_scraper.py:29-40, 46, 50, 59. This is network I/O and a foreign library. The pages are inputs given as tables, rows and anchors.
- Anchors without a `title` or `href` attribute, movie_scraper.py:51-52, 60-61. A missing `href` raises `TypeError` on concatenation. Both attributes are modelled as present strings.
- The `pandas.DataFrame` construction with its column names and the module-level `print`, movie_scraper.py:68-72. The frame is the sequence of zipped rows.
- Loading the pickled table, test_data.py:13. The table is a parameter. The `assert ... is True` of each test becomes the returned flag.
- The plots and their float arithmetic in `graph_rating_change_by_time`, `graph_rating_change_by_genre`, `graph_rating_change_by_genre_full` and `graph_rating_change_by_year_dif` (graph_data.py:12-40, 105-131, 154-180, 183-215): rating differences, averages and matplotlib calls. Only the genre ranking and row selection that feed them are modelled.
- Python and NumPy type details: `bool` being a subclass of `int`, NumPy scalar types and column slicing. A float's finite value is an exact real, so rounding is not modelled; NaN and the two infinities are modelled. A cell is one of the five tagged values, and a row has the ten columns of the schema (`WellFormed`).
- FindPopularGenres, MoviesWithGenre, PopularGenresHaveMovies: the `col` keyword argument of `find_popular_genres` and of both genre plots (graph_data.py:43, 85, 134) is fixed to the module's column map, so the genre column is always position 2. In the source the plots pass their own `col` to the row selection at graph_data.py:119-120 and 166-167, but call `find_popular_genres` at lines 112 and 162 without it. A non-default `col` would therefore rank the genres of column 2 while selecting rows by another column. The index list could then be empty, and the average at lines 122-123 and 170 would raise `ZeroDivisionError`. The "never divides by zero" guarantee holds only with the default `col`.
- FindPopularGenres: `number` is a natural number. Python's behaviour for a negative slice bound is not modelled.
- FindPopularGenres: requires every row's original-genre cell to be a list of strings (`HasGenreColumn`). In Python, a `str` cell would be iterated character by character, and a list holding non-strings would have those elements counted as genres. A cell that is not iterable would raise `TypeError`. None of these cases is modelled. `ValidGenresGiveGenreColumn` shows that every table passing the suite's genre test meets the precondition.
- MoviesWithGenre: requires `HasGenreColumn` as well. In Python, `genre in cell` is a substring test on a `str` cell and ordinary membership on a list of non-strings. On an `int`, `float` or `None` cell it raises `TypeError`. None of these cases is modelled. `ValidGenresGiveGenreColumn` shows that tables passing the suite's genre test meet the precondition.
- Resolving detail pages to catalog identifiers, the metadata lookup that builds the ten-column rows, and the pass that drops rows with missing values. Their code is not part of this model.

## Findings

| source | as written | input that shows it | evidently intended | confidence | as-written member | corrected member |
|---|---|---|---|---|---|---|
| movie_scraper.py:53-67 | A data row with no anchors appends `None` to both original lists and then `continue`s before any remake entry is appended. The remake lists fall one entry behind, and `zip` pairs later originals with the remakes of other rows and drops trailing originals. | Data rows `[]` then `[a, b]` give a single frame row: `(None, None, b.title, base + b.href)`. | One frame row per data row, pairing each row's original with its own remake, with a missing side recorded as `None`. The two frames agree exactly when every row has an anchor (`MovieScraper.AlignedIffAllAnchored`). | medium; not executed | `MovieScraper.MisalignedPairing` | `MovieScraper.PairRows` |
| test_data.py:63-73 | The comment at test_data.py:5-10 says the type checks also catch inconsistencies such as NaN that would break the plots. `test_valid_ratings` only asks `isinstance(cell, float)`, and NaN and the infinities are floats, so they pass. | One well-typed row whose original rating (column 3) is `float('nan')`: the ratings test passes. | The ratings test fails on any rating that is NaN or infinite. | medium; not executed | `TestData.NonFiniteRatingPasses` | `TestData.TestFiniteRatings` |
