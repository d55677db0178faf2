# Weather forecast CLI: gazetteer search and forecast layout

A Dafny model of the two pieces of logic in the PHP command-line weather
tool `weather:forecast`:

* **The gazetteer search** (class `Search`). A key set maps logical names
  (`state`, `zip`, `country`, `xml-url`) onto the CSV columns of one data
  file (Norway place names, Norwegian postal codes or world cities) in one
  language. Each CSV record is projected through that key set into a row.
  The rows are sorted and stored in the `searchArray` field. The search
  then runs an exact pass: the first row, in table order, whose searchable
  field equals the term after `strtolower` on both sides. The searchable
  fields are every logical name except the final `xml-url`. Only when the
  exact pass finds nothing, and fuzzy search is allowed, does it fall back
  to a fuzzy ranker. Of the ranked list it keeps at most three entries and
  returns the first (or false).
* **The console command** (class `WeatherForecastCommand`). Its options
  choose a table style, a data file and a language index. The argument
  words are joined into the search term. A result without an `xml-url`
  ends in "No search result found" with exit code 1. Otherwise a render
  mode is picked: hourly beats text, and text beats tabular. The tabular
  report labels its rows by index modulo 4 and puts separators after
  certain rows. Both tables build precipitation and temperature-unit cells
  from the feed's attributes.

Files:

* `wrappers.dfy` (`Wrappers`): `Option`, which stands for PHP's null/false results.
* `text.dfy` (`Text`): `strtolower`, `strtoupper`, `substr($s, 0, 1)` and
  `implode`, plus `Split`, the inverse of `implode` with a one-character glue.
* `ordering.dfy` (`Ordering`): lexicographic total orders and an insertion
  sort under them. This stands in for PHP's `sort()`.
* `search_engine.dfy` (`SearchEngine`): `src/Search.php`.
* `forecast_command.dfy` (`ForecastCommand`): `src/command/WeatherForecastCommand.php`.

Modelling choices:

* A CSV record is a map from column name to text; a column it lacks reads as
  null. A projected row is an ordered list of (logical name, cell) pairs,
  and a cell is `Option<string>`, since PHP stores `$record[$field]` even
  when it is null. `strtolower(null)` is `""`, so the exact pass compares a
  null cell as the empty string.
* `strtolower`/`strtoupper` are byte-wise and ASCII-only, as in PHP 8.2 and
  in the default locale. Letters outside ASCII (`Å`, `Ø`) are left as they
  are, so "ålesund" does not match "Ålesund" on the exact pass.
* `searchArray` is `Option<seq<Row>>`. `None` is the property's initial null.
* The fuzzy ranker (Fuse) is a function parameter `rank` from (table,
  fields, term) to a ranked list of rows. The parsed CSV of each data file
  is a function parameter `records` from file path to records.
  `Xml::convertDate` is a function parameter `convertDate`.
* `getKeys` with a language index outside 0..2 returns `None`, because
  `$keys[$language]` is then null. `Search.Search` requires a valid index,
  because with null keys `array_keys(null)` stops the PHP program. The
  command only ever passes 0, 1 or 2, and `Execute` proves that.
* A `VALUE_OPTIONAL` option is not given (false), given bare (null), or
  given with a value. The code checks `=== null`, so only the bare forms
  `--hourly` and `--text` select those modes. `--hourly=yes` falls through
  to the next branch (the code's behaviour, modelled as written). The
  `--tabular` option is read nowhere.
* With one forecast slot, the tabular table ends in a separator. PHP's
  `&&` binds tighter than `||`, so row 0 always gets one. This is modelled
  as written, and `LayoutShape` states it.

## Model

| member | source | states |
|---|---|---|
| `SearchEngine.GetKeys` | src/Search.php:153-211 | a key set exists exactly for language 0..2; it has 2 names for the Norway and zip files and 3 for any other file; its last name is `xml-url`; its names are distinct |
| `SearchEngine.GetKeysWorldByDefault` | src/Search.php:203-209 | any file other than the Norway and zip files gets the world key set |
| `SearchEngine.GetKeysNamesIndependentOfLanguage` | src/Search.php:155-201 | the language changes only the CSV columns read, never the logical names |
| `SearchEngine.SearchFields` | src/Search.php:52-53 | the searched fields are the key set's names in order, minus the final one |
| `SearchEngine.XmlUrlNeverSearched` | src/Search.php:52-53 | for every dataset and valid language, `xml-url` is not among the searched fields |
| `SearchEngine.ProjectRoundTrip` | src/Search.php:141-145 | reading a logical name back from a projected row gives the cell of the column it came from; a name outside the key set reads null |
| `SearchEngine.RowLeTotalOrder` | src/Search.php:146 | the order used to sort the table is total, antisymmetric and transitive |
| `SearchEngine.LoadedTableIsSortedProjection` | src/Search.php:139-148 | the stored table is sorted and a permutation of the projected records; it has one row per record (none without keys), and each row is the projection of some record |
| `SearchEngine.LoadedTableIgnoresRecordOrder` | src/Search.php:146 | the sorted table depends only on the multiset of projected rows, not on the order the reader delivered them in |
| `SearchEngine.FirstMatch` | src/Search.php:107-117 | the index found is of a matching row with no matching row before it; no index exactly when no row matches, including the empty table |
| `SearchEngine.FirstMatchIgnoresCase` | src/Search.php:111 | patterns that lower-case alike find the same row |
| `SearchEngine.FirstMatchIgnoresKeyOrder` | src/Search.php:110-113 | trying the fields in another order finds the same row |
| `SearchEngine.FirstMatchSeesOnlySearchFields` | src/Search.php:109-113 | tables whose rows agree on the searched fields give the same exact result, whatever their other cells (the URL) hold |
| `SearchEngine.ExactPassExample` | src/Search.php:109-113 | in a table of Oslo then Bergen, "bergen" and "BERGEN" both find row 1 |
| `SearchEngine.FirstMatchIs` | src/Search.php:109-113 | a matching row with no matching row before it is the one found |
| `SearchEngine.FuseTop` | src/Search.php:89-104 | an empty ranked list is false; otherwise the first min(3, n) entries of the ranked list, in rank order |
| `SearchEngine.SearchFirstExactMatch` | src/Search.php:55-59 | when the exact pass finds row i, the result is row i whether or not fuzzy search is allowed |
| `SearchEngine.SearchWithoutExactMatch` | src/Search.php:60-73 | with no exact match, the result is the top-ranked candidate if fuzzy search is allowed and the ranker returns anything, and false otherwise |
| `SearchEngine.ExactMatchIgnoresRanker` | src/Search.php:58-63 | when some row matches exactly, neither the ranker nor the fuzzy switch affects the result |
| `SearchEngine.SearchResultIsTableRow` | src/Search.php:65-66 | if the ranker returns only rows of the table, any result is a row of the table |
| `SearchEngine.EmptyTableNoMatch` | src/Search.php:100-116 | an empty table gives no result when the ranker finds nothing in it |
| `SearchEngine.SearchIgnoresCaseOnExactMatch` | src/Search.php:58-59 | when the exact pass succeeds, terms that differ only in ASCII case give the same result |
| `SearchEngine.Search.constructor` | src/Search.php:25 | a new search object holds no table (null) |
| `SearchEngine.Search.GetSearchArray` | src/Search.php:30-33 | returns the stored table |
| `SearchEngine.Search.SetSearchArray` | src/Search.php:38-41 | stores the given table and nothing else |
| `SearchEngine.Search.Search` | src/Search.php:43-74 | loads and stores the table for the file's key set, and returns the exact-then-fuzzy result over all names but the last |
| `SearchEngine.Search.FuseSearch` | src/Search.php:76-105 | shifting off the ranked list keeps its first three entries in rank order; false when nothing ranks |
| `SearchEngine.Search.QuickSearch` | src/Search.php:107-117 | returns the first row in table order with a field equal to the term ignoring ASCII case; false exactly when no field of any row matches |
| `SearchEngine.Search.LoadCsvTableForSearch` | src/Search.php:139-150 | the nested loops build one projected row per record; the stored and returned table is their sorted permutation |
| `Ordering.SortBySorted` | src/Search.php:146 | sorting yields an ordered permutation of its input |
| `Ordering.SortedUnique` | src/Search.php:146 | two ordered permutations of one multiset are equal |
| `Text.ToLower` | src/Search.php:111 | `strtolower` keeps the length and lowers each character, ASCII letters only |
| `Text.SplitJoin` | src/command/WeatherForecastCommand.php:129 | splitting the joined term at the glue gives back the words, when no word contains the glue |
| `Text.JoinLength` | src/command/WeatherForecastCommand.php:129 | the joined term is the words plus exactly one glue between each neighbouring pair |
| `ForecastCommand.FirstOf` | src/command/WeatherForecastCommand.php:100-102 | an array option's value is its first element, or null when it has none |
| `ForecastCommand.Execute` | src/command/WeatherForecastCommand.php:99-173 | "double" gives box-double, "none" borderless, anything else box; "zip" the zip file, "world" the world file, otherwise Norway; "bokmaal" 1, "nynorsk" 2, otherwise 0; the term is the words joined by one space; the resolved file and language always have a key set; a result without `xml-url` is not-found with exit code 1, otherwise its URL; the mode is hourly iff `--hourly` is bare, else text iff `--text` is bare, else tabular |
| `ForecastCommand.PrecipitationTextParts` | src/command/WeatherForecastCommand.php:215-222 | with both bounds set the cell is the minimum, " - ", then the maximum; otherwise it is the plain value |
| `ForecastCommand.TemperatureUnit` | src/command/WeatherForecastCommand.php:224 | at most one character: the upper-cased first character of the unit, empty only for an empty unit |
| `ForecastCommand.LabelAt` | src/command/WeatherForecastCommand.php:227-235 | weekday for row 0 and rows ≡ 1 (mod 4); date for ≡ 2; the literal "Y-m-d" for ≡ 3; blank for the other multiples of 4 |
| `ForecastCommand.LabelsRepeat` | src/command/WeatherForecastCommand.php:227-235 | after row 0 the labels repeat with period 4 |
| `ForecastCommand.DayCell` | src/command/WeatherForecastCommand.php:227-235 | the if-chain picks the weekday, the date, the literal "Y-m-d" or nothing, as `LabelAt` says for the row's index |
| `ForecastCommand.TabularRowCells` | src/command/WeatherForecastCommand.php:210-243 | the cells built for slot k are entry k of the table data: day, "from - to" times, temperature with unit letter, precipitation, wind |
| `ForecastCommand.TabularDataAt` | src/command/WeatherForecastCommand.php:209-243 | entry k of the table data holds the cells of slot k, labelled by k |
| `ForecastCommand.LayoutLength` | src/command/WeatherForecastCommand.php:237-247 | the rows are the forecast rows plus one per separator |
| `ForecastCommand.LayoutAt` | src/command/WeatherForecastCommand.php:237-247 | forecast row k sits at k plus the separators before it; the row after it is a separator iff k == 0, or k is a multiple of 4 other than the last row |
| `ForecastCommand.SeparatorsUpTo` | src/command/WeatherForecastCommand.php:245-247 | before the last row, the separators are the one after row 0 and one after each positive multiple of 4 |
| `ForecastCommand.TabularSeparatorCount` | src/command/WeatherForecastCommand.php:245-247 | a table of n ≥ 2 rows has 1 + (n - 2) / 4 separators; one row has 1; none has 0 |
| `ForecastCommand.LayoutShape` | src/command/WeatherForecastCommand.php:237-247 | the table starts with a forecast row; no two separators are adjacent; it ends with a separator iff there is exactly one row |
| `ForecastCommand.TabularRows` | src/command/WeatherForecastCommand.php:205-248 | the loop builds exactly the layout of every slot's cells, in slot order, with the separators `LayoutAt` places; its length is the slot count plus the separators |
| `ForecastCommand.HourlyRows` | src/command/WeatherForecastCommand.php:276-306 | one row per slot, in order, with no separators: "weekday time", temperature, precipitation, wind |

## Left out

- `src/Api.php` (the HTTP GET through Guzzle) is network I/O. `Execute` ends once it has the URL and the render mode, without fetching anything.
- `src/Xml.php`: parsing the feed and `getHourlyXmlUrl` (the second link as the hourly feed) rely on an external XML parser. `convertDate` relies on PHP `DateTime`, so it is the `convertDate` parameter. The forecast slots are given as a list of `TimeSlot` values. In the real feed, a single `<time>` element would decode into a map rather than a list; that case is not modelled.
- `src/WeatherForecast.php` and `weatherforecast.php` are the console bootstrap.
- The Fuse ranker itself (src/Search.php:78-87) is an external library, so it is the `rank` parameter. As Fuse does with `includeScore` off, the ranker returns the rows themselves.
- The League CSV reader (src/Search.php:121-137) is an external library. Its delimiter and header exceptions print a message and return false; those paths are not modelled, because the records are an input.
- `SearchEngine.Search.LoadCsvTableForSearch`: sorts with the model's lexicographic order (by character code, null first), not with PHP's array comparison (which, for one, compares numeric strings as numbers). Only "sorted under a fixed total order, and a permutation" is claimed.
- `SearchEngine.Search.Search`: the progress-bar calls are not modelled; they are output only.
- `Text.ToLower`: `strtolower` before PHP 8.2 depends on the locale; the model uses the ASCII-only behaviour.
- `ForecastCommand.TemperatureUnit`: `substr` takes the first byte, and the model takes the first character. The two agree on the ASCII units the feed uses.
- `ForecastCommand.Execute`: the output lines, the screen clearing, `exit()`, `credits`, `notFound`'s message and `configure`'s option declarations are not modelled. The console defaults are taken as already applied in `CommandInput`.
- `textForecast`, the table headers, the location/date heading and the rendering by style are console output only, so they are not modelled.
