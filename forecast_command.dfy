/**
 * The console command `weather:forecast` (class WeatherForecastCommand):
 * how the options choose a table style, a data file and a language, how
 * the search result decides between "not found" and a forecast, which
 * render mode is used, and the rows of the tabular and hourly tables.
 *
 * Fetching and parsing the feeds, the progress bar and the drawing of
 * the tables are outside the model; `Xml::convertDate` is a parameter.
 */
module ForecastCommand {
  import opened Wrappers
  import Text
  import SearchEngine

  // ---------------------------------------------------------------------
  // Console input

  /**
   * An option declared `VALUE_OPTIONAL` with default false: not given
   * (false), given without a value (null), or given with a value.
   */
  datatype OptionalValue = NotGiven | GivenBare | GivenWith(value: string)

  /**
   * The input after the console has applied the defaults: the words of
   * the search term (["oslo"] by default) and the array options, each of
   * whose first element is used.
   */
  datatype CommandInput = CommandInput(
    searchTerm: seq<string>,
    scope: seq<string>,
    language: seq<string>,
    tableFormat: seq<string>,
    hourly: OptionalValue,
    tabular: OptionalValue,
    text: OptionalValue)

  /** `$input->getOption(...)[0]`: the first value, or null for none. */
  function FirstOf(values: seq<string>): (r: Option<string>)
    ensures r.Some? <==> values != []
    ensures r.Some? ==> r.value == values[0]
  {
    if values == [] then None else Some(values[0])
  }

  const BoxStyle := "box"
  const BoxDoubleStyle := "box-double"
  const BorderlessStyle := "borderless"

  datatype RenderMode = HourlyMode | TextMode | TabularMode

  /** The choices `execute` makes from the options before searching. */
  datatype Config = Config(tableStyle: string, searchFile: string, language: int, searchTerm: string)

  /** The end of `execute` as far as the model goes. */
  datatype Outcome =
    | NotFound(exitCode: int)
    | Forecast(xmlUrl: string, mode: RenderMode)

  /** `$result["xml-url"]`: the URL cell of the result; reading a key of false gives null. */
  function XmlUrlOf(result: Option<SearchEngine.Row>): Option<string>
  {
    match result
    case None => None
    case Some(row) => SearchEngine.Get(row, SearchEngine.XmlUrlKey)
  }

  /**
   * `execute` up to rendering: resolve the options, search, stop with exit
   * code 1 when the result has no URL, otherwise pick the render mode.
   * `records` gives the parsed CSV of each data file and `rank` is the
   * fuzzy ranker; the fuzzy pass is allowed (the default of `search`).
   */
  method Execute(input: CommandInput, records: string -> seq<SearchEngine.CsvRecord>, rank: SearchEngine.Ranker)
    returns (config: Config, outcome: Outcome)
    ensures var format := FirstOf(input.tableFormat);
            config.tableStyle ==
              if format == Some("double") then BoxDoubleStyle
              else if format == Some("none") then BorderlessStyle
              else BoxStyle
    ensures var scope := FirstOf(input.scope);
            config.searchFile ==
              if scope == Some("zip") then SearchEngine.NorwayZipCsvFile
              else if scope == Some("world") then SearchEngine.WorldCsvFile
              else SearchEngine.NorwayCsvFile
    ensures var lang := FirstOf(input.language);
            config.language ==
              if lang == Some("bokmaal") then SearchEngine.LanguageBokmaal
              else if lang == Some("nynorsk") then SearchEngine.LanguageNynorsk
              else SearchEngine.LanguageEnglish
    ensures config.searchTerm == Text.Join(input.searchTerm, " ")
    ensures SearchEngine.GetKeys(config.searchFile, config.language).Some?
    ensures var keys := SearchEngine.GetKeys(config.searchFile, config.language).value;
            var url := XmlUrlOf(SearchEngine.SearchResult(
                          SearchEngine.LoadedTable(records(config.searchFile), keys),
                          SearchEngine.SearchFields(keys), config.searchTerm, true, rank));
            && (outcome.NotFound? <==> url.None?)
            && (outcome.NotFound? ==> outcome.exitCode == 1)
            && (outcome.Forecast? ==> outcome.xmlUrl == url.value)
    ensures outcome.Forecast? ==>
              && (outcome.mode == HourlyMode <==> input.hourly == GivenBare)
              && (outcome.mode == TextMode <==> input.hourly != GivenBare && input.text == GivenBare)
              && (outcome.mode == TabularMode <==> input.hourly != GivenBare && input.text != GivenBare)
  {
    var tableFormatInput := FirstOf(input.tableFormat);
    var searchScope := FirstOf(input.scope);
    var lang := FirstOf(input.language);

    // prepare table format
    var tableFormat := BoxStyle;
    if tableFormatInput == Some("double") {
      tableFormat := BoxDoubleStyle;
    } else if tableFormatInput == Some("none") {
      tableFormat := BorderlessStyle;
    }

    // find the scope of the search
    var whereToSearch := SearchEngine.NorwayCsvFile;
    if searchScope == Some("zip") {
      whereToSearch := SearchEngine.NorwayZipCsvFile;
    } else if searchScope == Some("world") {
      whereToSearch := SearchEngine.WorldCsvFile;
    }

    // get the preferred language of the search
    var searchLanguage := SearchEngine.LanguageEnglish;
    if lang == Some("bokmaal") {
      searchLanguage := SearchEngine.LanguageBokmaal;
    } else if lang == Some("nynorsk") {
      searchLanguage := SearchEngine.LanguageNynorsk;
    }

    var searchTermReady := Text.Join(input.searchTerm, " ");
    config := Config(tableFormat, whereToSearch, searchLanguage, searchTermReady);

    var search := new SearchEngine.Search();
    var result := search.Search(searchTermReady, records, whereToSearch, searchLanguage, true, rank);

    var xmlUrl := XmlUrlOf(result);
    if xmlUrl.None? {
      outcome := NotFound(1);
      return;
    }

    // forecast option
    var mode;
    if input.hourly == GivenBare {
      mode := HourlyMode;
    } else if input.text == GivenBare {
      mode := TextMode;
    } else {
      mode := TabularMode;
    }
    outcome := Forecast(xmlUrl.value, mode);
  }

  // ---------------------------------------------------------------------
  // Forecast rows

  /** The attributes of one `<time>` element of the feed that the tables read. */
  datatype TimeSlot = TimeSlot(
    from: string,
    to: string,
    windSpeedName: string,
    windSpeedMps: string,
    windDirectionName: string,
    precipitationValue: string,
    precipitationMin: Option<string>,
    precipitationMax: Option<string>,
    temperatureUnit: string,
    temperatureValue: string)

  /** `Xml::convertDate($date, $format)` with format "day", "date" or "time". */
  type DateFormatter = (string, string) -> string

  /** A row of the rendered table: cells, or a separator line. */
  datatype TableRow = Cells(cells: seq<string>) | Separator

  /** The precipitation cell: "min - max" when both bounds are set, else the value. */
  function PrecipitationText(slot: TimeSlot): string
  {
    if slot.precipitationMin.Some? && slot.precipitationMax.Some? then
      slot.precipitationMin.value + " - " + slot.precipitationMax.value
    else
      slot.precipitationValue
  }

  /**
   * With both bounds the cell reads the minimum, " - ", then the maximum;
   * when either bound is missing it is the plain value.
   */
  lemma PrecipitationTextParts(slot: TimeSlot)
    ensures var text := PrecipitationText(slot);
            slot.precipitationMin.Some? && slot.precipitationMax.Some? ==>
              var lo, hi := slot.precipitationMin.value, slot.precipitationMax.value;
              && |text| == |lo| + 3 + |hi|
              && text[..|lo|] == lo
              && text[|lo|..|lo| + 3] == " - "
              && text[|lo| + 3..] == hi
    ensures !(slot.precipitationMin.Some? && slot.precipitationMax.Some?) ==>
              PrecipitationText(slot) == slot.precipitationValue
  {
  }

  /** The unit letter: the first character of the unit attribute, upper-cased ("celsius" gives "C"). */
  function TemperatureUnit(unit: string): (u: string)
    ensures |u| <= 1
    ensures u == "" <==> unit == ""
    ensures unit != "" ==> u[0] == Text.UpperChar(unit[0])
  {
    Text.ToUpper(Text.FirstChar(unit))
  }

  function TemperatureText(slot: TimeSlot): string
  {
    slot.temperatureValue + " " + TemperatureUnit(slot.temperatureUnit)
  }

  function WindText(slot: TimeSlot): string
  {
    slot.windSpeedName + ", " + slot.windSpeedMps + " m/s from " + slot.windDirectionName
  }

  /** What the first column of a tabular row holds. */
  datatype DayLabel = Weekday | Date | LiteralYmd | Blank

  /**
   * The label of tabular row `key`: the weekday for row 0 and every row
   * one past a multiple of four, the date two past, the literal text
   * "Y-m-d" three past, and nothing on the other multiples of four.
   */
  function LabelAt(key: nat): (kind: DayLabel)
    ensures kind == Weekday <==> key == 0 || key % 4 == 1
    ensures kind == Date <==> key % 4 == 2
    ensures kind == LiteralYmd <==> key % 4 == 3
    ensures kind == Blank <==> key > 0 && key % 4 == 0
  {
    if key % 4 == 1 || key == 0 then Weekday
    else if key % 4 == 2 then Date
    else if key % 4 == 3 then LiteralYmd
    else Blank
  }

  /** After row 0 the labels repeat every four rows. */
  lemma LabelsRepeat(key: nat)
    requires key > 0
    ensures LabelAt(key + 4) == LabelAt(key)
  {
  }

  function DayText(kind: DayLabel, from: string, convertDate: DateFormatter): string
  {
    match kind
    case Weekday => convertDate(from, "day")
    case Date => convertDate(from, "date")
    case LiteralYmd => "Y-m-d"
    case Blank => ""
  }

  /** The cells of tabular row `key`: day, period, temperature, precipitation, wind. */
  function TabularCells(slot: TimeSlot, key: nat, convertDate: DateFormatter): seq<string>
  {
    [ DayText(LabelAt(key), slot.from, convertDate),
      convertDate(slot.from, "time") + " - " + convertDate(slot.to, "time"),
      TemperatureText(slot),
      PrecipitationText(slot),
      WindText(slot) ]
  }

  /** A separator follows row `key` of a table of `tableLength` rows. */
  predicate SeparatorAfter(key: nat, tableLength: int)
  {
    key == 0 || (key % 4 == 0 && tableLength - 1 != key)
  }

  /** The cells of every tabular row, in slot order. */
  function TabularData(slots: seq<TimeSlot>, convertDate: DateFormatter): (data: seq<seq<string>>)
    ensures |data| == |slots|
  {
    CellsUpTo(slots, convertDate, |slots|)
  }

  /** The cells of the first `n` tabular rows. */
  function CellsUpTo(slots: seq<TimeSlot>, convertDate: DateFormatter, n: nat): (data: seq<seq<string>>)
    requires n <= |slots|
    ensures |data| == n
  {
    if n == 0 then [] else CellsUpTo(slots, convertDate, n - 1) + [TabularCells(slots[n - 1], n - 1, convertDate)]
  }

  /** Entry `key` holds the cells of slot `key`, labelled by its index. */
  lemma {:induction false} CellsUpToAt(slots: seq<TimeSlot>, convertDate: DateFormatter, n: nat, key: nat)
    requires key < n <= |slots|
    ensures CellsUpTo(slots, convertDate, n)[key] == TabularCells(slots[key], key, convertDate)
  {
    var prev := CellsUpTo(slots, convertDate, n - 1);
    assert CellsUpTo(slots, convertDate, n) == prev + [TabularCells(slots[n - 1], n - 1, convertDate)];
    if key < n - 1 {
      CellsUpToAt(slots, convertDate, n - 1, key);
      assert CellsUpTo(slots, convertDate, n)[key] == prev[key];
    }
  }

  /** Entry `key` of the table data holds the cells of slot `key`, labelled by its index. */
  lemma TabularDataAt(slots: seq<TimeSlot>, convertDate: DateFormatter, key: nat)
    requires key < |slots|
    ensures TabularData(slots, convertDate)[key] == TabularCells(slots[key], key, convertDate)
  {
    CellsUpToAt(slots, convertDate, |slots|, key);
  }

  /**
   * The rows `tabularForecast` has built after its first `n` iterations,
   * given the cells of each forecast row.
   */
  function Layout(data: seq<seq<string>>, n: nat): seq<TableRow>
    requires n <= |data|
  {
    if n == 0 then []
    else
      Layout(data, n - 1)
      + [Cells(data[n - 1])]
      + (if SeparatorAfter(n - 1, |data|) then [Separator] else [])
  }

  /** The number of separators after the rows before row `n`. */
  function SeparatorsBefore(n: nat, tableLength: int): nat
  {
    if n == 0 then 0
    else SeparatorsBefore(n - 1, tableLength) + (if SeparatorAfter(n - 1, tableLength) then 1 else 0)
  }

  /** Where tabular row `key` lands among the rendered rows. */
  function RowPosition(key: nat, tableLength: int): nat
  {
    key + SeparatorsBefore(key, tableLength)
  }

  /** The layout has one row per forecast row plus one per separator. */
  lemma {:induction false} LayoutLength(data: seq<seq<string>>, n: nat)
    requires n <= |data|
    ensures |Layout(data, n)| == n + SeparatorsBefore(n, |data|)
  {
    if n > 0 {
      LayoutLength(data, n - 1);
    }
  }

  /**
   * Forecast row `key` sits at `RowPosition(key)`, and the row after it is
   * a separator exactly when `SeparatorAfter(key)` holds.
   */
  lemma {:induction false} LayoutAt(data: seq<seq<string>>, n: nat, key: nat)
    requires key < n <= |data|
    ensures var rows := Layout(data, n);
            var p := RowPosition(key, |data|);
            && p < |rows|
            && rows[p] == Cells(data[key])
            && (SeparatorAfter(key, |data|) <==> p + 1 < |rows| && rows[p + 1] == Separator)
  {
    var rows := Layout(data, n);
    var prev := Layout(data, n - 1);
    LayoutLength(data, n - 1);
    var p := RowPosition(key, |data|);
    if key == n - 1 {
      assert p == |prev|;
    } else {
      LayoutAt(data, n - 1, key);
      assert rows[..|prev|] == prev;
      assert rows[p] == prev[p];
      if p + 1 < |prev| {
        assert rows[p + 1] == prev[p + 1];
      } else {
        // row `key` is the last of `prev` and has no separator; the new row follows it
        assert rows[p + 1] == Cells(data[n - 1]);
      }
    }
  }

  /** How many separators a tabular table of `n` rows gets: one after row 0, then one per four rows. */
  lemma TabularSeparatorCount(n: nat)
    ensures SeparatorsBefore(n, n) == if n == 0 then 0 else if n == 1 then 1 else 1 + (n - 2) / 4
  {
    if n >= 2 {
      SeparatorsUpTo(n - 1, n);
      assert !SeparatorAfter(n - 1, n);
    }
  }

  /** Before the last row, the separators are those after row 0 and after each multiple of four. */
  lemma {:induction false} SeparatorsUpTo(m: nat, tableLength: nat)
    requires m < tableLength
    ensures SeparatorsBefore(m, tableLength) == if m == 0 then 0 else 1 + (m - 1) / 4
  {
    if m > 0 {
      SeparatorsUpTo(m - 1, tableLength);
      assert SeparatorAfter(m - 1, tableLength) <==> m - 1 == 0 || (m - 1) % 4 == 0;
    }
  }

  /**
   * The layout begins with a forecast row, never has two separators in a
   * row, and ends with a separator only for a one-row forecast.
   */
  lemma {:induction false} LayoutShape(data: seq<seq<string>>, n: nat)
    requires n <= |data|
    ensures var rows := Layout(data, n);
            && (n > 0 ==> rows[0].Cells?)
            && (forall i :: 0 <= i < |rows| - 1 && rows[i].Separator? ==> rows[i + 1].Cells?)
            && (n == |data| > 0 ==> (rows[|rows| - 1].Separator? <==> |data| == 1))
  {
    if n > 0 {
      var rows := Layout(data, n);
      var prev := Layout(data, n - 1);
      LayoutShape(data, n - 1);
      assert rows[..|prev|] == prev;
      forall i | 0 <= i < |rows| - 1 && rows[i].Separator? ensures rows[i + 1].Cells? {
        if i + 1 < |prev| {
          assert rows[i] == prev[i] && rows[i + 1] == prev[i + 1];
        }
      }
    }
  }

  /** The day cell of tabular row `key`, chosen by its index as `tabularForecast` does. */
  method DayCell(key: nat, from: string, convertDate: DateFormatter) returns (day: string)
    ensures day == DayText(LabelAt(key), from, convertDate)
  {
    if key % 4 == 1 || key == 0 {
      day := convertDate(from, "day");
    } else if key % 4 == 2 {
      day := convertDate(from, "date");
    } else if key % 4 == 3 {
      day := "Y-m-d";
    } else {
      day := "";
    }
  }

  /** The cells of tabular row `key`, built as the body of `tabularForecast`'s loop builds them. */
  method TabularRowCells(slots: seq<TimeSlot>, key: nat, convertDate: DateFormatter) returns (cells: seq<string>)
    requires key < |slots|
    ensures cells == TabularData(slots, convertDate)[key]
  {
    var row := slots[key];
    TabularDataAt(slots, convertDate, key);
    var day := DayCell(key, row.from, convertDate);
    cells := [ day,
               convertDate(row.from, "time") + " - " + convertDate(row.to, "time"),
               TemperatureText(row),
               PrecipitationText(row),
               WindText(row) ];
  }

  /**
   * `tabularForecast`'s loop: one row per slot, labelled by its index,
   * each followed by a separator when `SeparatorAfter` holds.
   */
  method TabularRows(slots: seq<TimeSlot>, convertDate: DateFormatter) returns (rows: seq<TableRow>)
    ensures rows == Layout(TabularData(slots, convertDate), |slots|)
    ensures |rows| == |slots| + SeparatorsBefore(|slots|, |slots|)
  {
    var tableLength := |slots|;
    ghost var data := TabularData(slots, convertDate);
    rows := [];
    var key := 0;
    while key < tableLength
      invariant 0 <= key <= tableLength
      invariant rows == Layout(data, key)
    {
      var cells := TabularRowCells(slots, key, convertDate);
      rows := rows + [Cells(cells)];
      if key == 0 || (key % 4 == 0 && tableLength - 1 != key) {
        rows := rows + [Separator];
      }
      key := key + 1;
    }
    LayoutLength(data, |slots|);
  }

  /** The cells of an hourly row: "weekday time", temperature, precipitation, wind. */
  function HourlyCells(slot: TimeSlot, convertDate: DateFormatter): seq<string>
  {
    [ convertDate(slot.from, "day") + " " + convertDate(slot.from, "time"),
      TemperatureText(slot),
      PrecipitationText(slot),
      WindText(slot) ]
  }

  /** `hourlyForecast`'s loop: one row per slot, in order, and no separators. */
  method HourlyRows(slots: seq<TimeSlot>, convertDate: DateFormatter) returns (rows: seq<TableRow>)
    ensures |rows| == |slots|
    ensures forall k :: 0 <= k < |slots| ==> rows[k] == Cells(HourlyCells(slots[k], convertDate))
  {
    rows := [];
    var key := 0;
    while key < |slots|
      invariant 0 <= key <= |slots|
      invariant |rows| == key
      invariant forall k :: 0 <= k < key ==> rows[k] == Cells(HourlyCells(slots[k], convertDate))
    {
      var row := slots[key];
      var day := convertDate(row.from, "day");
      var time := convertDate(row.from, "time");
      rows := rows + [Cells([day + " " + time, TemperatureText(row), PrecipitationText(row), WindText(row)])];
      key := key + 1;
    }
  }
}
