/**
 * The gazetteer search of the weather tool (class `Search`): the key sets
 * that project a CSV record onto logical names, loading the projected
 * table, the exact case-insensitive pass and the bounded fuzzy fallback.
 *
 * The CSV reader and the fuzzy ranker are outside the model: the parsed
 * records of a data file and the ranked candidate list are inputs.
 */
module SearchEngine {
  import opened Wrappers
  import Text
  import Ordering

  const NorwayCsvFile := "data/noreg.csv"
  const NorwayZipCsvFile := "data/postnummer.csv"
  const WorldCsvFile := "data/verda.csv"

  const LanguageEnglish := 0
  const LanguageBokmaal := 1
  const LanguageNynorsk := 2

  /** The logical name that ends every key set; it is never searched. */
  const XmlUrlKey := "xml-url"

  /** The fuzzy pass keeps at most this many ranked candidates. */
  const FuseLimit := 3

  // ---------------------------------------------------------------------
  // Key sets

  /** One entry of a key set: a logical name and the CSV column it reads. */
  datatype Key = Key(name: string, column: string)

  /** An ordered projection of logical names onto CSV columns. */
  type KeySet = seq<Key>

  /** The logical names of a key set, in order (`array_keys`). */
  function Names(keys: KeySet): (names: seq<string>)
    ensures |names| == |keys|
    ensures forall i :: 0 <= i < |keys| ==> names[i] == keys[i].name
  {
    seq(|keys|, i requires 0 <= i < |keys| => keys[i].name)
  }

  predicate DistinctNames(keys: KeySet)
  {
    forall i, j :: 0 <= i < j < |keys| ==> keys[i].name != keys[j].name
  }

  predicate ValidLanguage(language: int)
  {
    LanguageEnglish <= language <= LanguageNynorsk
  }

  /** The three key sets (English, Bokmål, Nynorsk) of each dataset. */
  const KeysArray: map<string, seq<KeySet>> := map[
    "norway" := [
      [Key("state", "Stadnamn"), Key(XmlUrlKey, "Engelsk")],
      [Key("state", "Stadnamn"), Key(XmlUrlKey, "Bokmål")],
      [Key("state", "Stadnamn"), Key(XmlUrlKey, "Nynorsk")]
    ],
    "zip" := [
      [Key("zip", "Postnr"), Key(XmlUrlKey, "Engelsk")],
      [Key("zip", "Postnr"), Key(XmlUrlKey, "Bokmål")],
      [Key("zip", "Postnr"), Key(XmlUrlKey, "Nynorsk")]
    ],
    "world" := [
      [Key("state", "Stadnamn engelsk"), Key("country", "Landsnamn engelsk"), Key(XmlUrlKey, "Lenke til engelsk-XML")],
      [Key("state", "Stadnamn bokmål"), Key("country", "Landsnamn bokmål"), Key(XmlUrlKey, "Lenke til bokmåls-XML")],
      [Key("state", "Stadnamn nynorsk"), Key("country", "Landsnamn nynorsk"), Key(XmlUrlKey, "Lenke til nynorsk-XML")]
    ]
  ]

  /**
   * `getKeys`: the key set of a data file and a language index. A file
   * other than the Norway and zip files selects the world table; a
   * language index outside 0..2 reads a missing entry (PHP null, `None`).
   */
  function GetKeys(file: string, language: int): (keys: Option<KeySet>)
    ensures keys.Some? <==> ValidLanguage(language)
    ensures keys.Some? ==>
      && |keys.value| == (if file == NorwayCsvFile || file == NorwayZipCsvFile then 2 else 3)
      && keys.value[|keys.value| - 1].name == XmlUrlKey
      && DistinctNames(keys.value)
  {
    var table :=
      if file == NorwayCsvFile then KeysArray["norway"]
      else if file == NorwayZipCsvFile then KeysArray["zip"]
      else KeysArray["world"];
    if 0 <= language < |table| then Some(table[language]) else None
  }

  /** Any file that is neither the Norway nor the zip file is searched with the world keys. */
  lemma GetKeysWorldByDefault(file: string, language: int)
    requires file != NorwayCsvFile && file != NorwayZipCsvFile
    ensures GetKeys(file, language) == GetKeys(WorldCsvFile, language)
  {
  }

  /** The language changes only the columns read, never the logical names. */
  lemma GetKeysNamesIndependentOfLanguage(file: string, language: int)
    requires ValidLanguage(language)
    ensures Names(GetKeys(file, language).value) == Names(GetKeys(file, LanguageEnglish).value)
  {
  }

  /**
   * The fields `search` matches on: the key set's logical names with the
   * final one removed (`array_keys` then `array_pop`).
   */
  function SearchFields(keys: KeySet): (fields: seq<string>)
    ensures |fields| == if keys == [] then 0 else |keys| - 1
    ensures forall i :: 0 <= i < |fields| ==> fields[i] == keys[i].name
  {
    if keys == [] then [] else Names(keys[..|keys| - 1])
  }

  /** For every dataset and language the URL key is not searched. */
  lemma XmlUrlNeverSearched(file: string, language: int)
    requires ValidLanguage(language)
    ensures XmlUrlKey !in SearchFields(GetKeys(file, language).value)
  {
    var keys := GetKeys(file, language).value;
    var fields := SearchFields(keys);
    forall i | 0 <= i < |fields| ensures fields[i] != XmlUrlKey {
      assert keys[i].name != keys[|keys| - 1].name;
    }
  }

  // ---------------------------------------------------------------------
  // Records and projected rows

  /** A CSV record read with a header row: column name to cell text; a column it lacks reads as null. */
  type CsvRecord = map<string, string>

  /** A projected cell: a string, or PHP null (`None`). */
  type Cell = Option<string>

  /** A projected row: an ordered PHP array from logical name to cell. */
  datatype Row = Row(fields: seq<(string, Cell)>)

  /** `$record[$column]`. */
  function Lookup(record: CsvRecord, column: string): Cell
  {
    if column in record then Some(record[column]) else None
  }

  /** `$row[$name]`: the cell stored under `name`, or null. */
  function Get(row: Row, name: string): Cell
  {
    FieldValue(row.fields, name)
  }

  function FieldValue(fields: seq<(string, Cell)>, name: string): Cell
  {
    if fields == [] then None
    else if fields[0].0 == name then fields[0].1
    else FieldValue(fields[1..], name)
  }

  /** The row that the inner loop of `loadCsvTableForSearch` builds for one record. */
  function Project(record: CsvRecord, keys: KeySet): Row
  {
    Row(seq(|keys|, i requires 0 <= i < |keys| => (keys[i].name, Lookup(record, keys[i].column))))
  }

  /**
   * Reading a logical name back from a projected row recovers the cell of
   * the column it was projected from; a name outside the key set reads null.
   */
  lemma {:induction false} ProjectRoundTrip(record: CsvRecord, keys: KeySet, name: string)
    requires DistinctNames(keys)
    ensures forall i :: 0 <= i < |keys| && keys[i].name == name ==>
              Get(Project(record, keys), name) == Lookup(record, keys[i].column)
    ensures name !in Names(keys) ==> Get(Project(record, keys), name) == None
  {
    if keys != [] {
      var row := Project(record, keys);
      ProjectRoundTrip(record, keys[1..], name);
      assert row.fields[1..] == Project(record, keys[1..]).fields;
      assert Names(keys) == [keys[0].name] + Names(keys[1..]);
    }
  }

  /** The rows of all records, before sorting; with no keys PHP never creates a row. */
  function ProjectAll(records: seq<CsvRecord>, keys: KeySet): seq<Row>
  {
    if keys == [] then []
    else seq(|records|, i requires 0 <= i < |records| => Project(records[i], keys))
  }

  // ---------------------------------------------------------------------
  // The fixed order that stands in for PHP's `sort()`

  function CharLe(a: char, b: char): bool { a <= b }

  function StringLe(a: string, b: string): bool { Ordering.LexLe(a, b, CharLe) }

  /** Null sorts first; strings compare character by character. */
  function CellLe(a: Cell, b: Cell): bool
  {
    match (a, b)
    case (None, _) => true
    case (Some(_), None) => false
    case (Some(x), Some(y)) => StringLe(x, y)
  }

  function FieldLe(a: (string, Cell), b: (string, Cell)): bool
  {
    if a.0 != b.0 then StringLe(a.0, b.0) else CellLe(a.1, b.1)
  }

  function RowLe(a: Row, b: Row): bool { Ordering.LexLe(a.fields, b.fields, FieldLe) }

  lemma StringLeTotalOrder()
    ensures Ordering.TotalOrder(StringLe)
  {
    assert Ordering.TotalOrder(CharLe);
    forall a, b ensures StringLe(a, b) || StringLe(b, a) {
      Ordering.LexTotal(a, b, CharLe);
    }
    forall a, b | StringLe(a, b) && StringLe(b, a) ensures a == b {
      Ordering.LexAntisymmetric(a, b, CharLe);
    }
    forall a, b, c | StringLe(a, b) && StringLe(b, c) ensures StringLe(a, c) {
      Ordering.LexTransitive(a, b, c, CharLe);
    }
  }

  lemma FieldLeTotalOrder()
    ensures Ordering.TotalOrder(FieldLe)
  {
    StringLeTotalOrder();
    assert Ordering.TotalOrder(CellLe);
  }

  /** The row order is a total order, so the sorted table is determined by its rows. */
  lemma RowLeTotalOrder()
    ensures Ordering.TotalOrder(RowLe)
  {
    FieldLeTotalOrder();
    forall a, b ensures RowLe(a, b) || RowLe(b, a) {
      Ordering.LexTotal(a.fields, b.fields, FieldLe);
    }
    forall a, b | RowLe(a, b) && RowLe(b, a) ensures a == b {
      Ordering.LexAntisymmetric(a.fields, b.fields, FieldLe);
    }
    forall a, b, c | RowLe(a, b) && RowLe(b, c) ensures RowLe(a, c) {
      Ordering.LexTransitive(a.fields, b.fields, c.fields, FieldLe);
    }
  }

  /** The table `loadCsvTableForSearch` stores: the projected rows, sorted. */
  function LoadedTable(records: seq<CsvRecord>, keys: KeySet): seq<Row>
  {
    Ordering.SortBy(ProjectAll(records, keys), RowLe)
  }

  /**
   * The loaded table is a sorted permutation of the projected records: one
   * row per record (when there are keys), every row holding exactly the
   * key set's names in order, each read back as its record's column.
   */
  lemma LoadedTableIsSortedProjection(records: seq<CsvRecord>, keys: KeySet)
    ensures Ordering.Sorted(LoadedTable(records, keys), RowLe)
    ensures multiset(LoadedTable(records, keys)) == multiset(ProjectAll(records, keys))
    ensures |LoadedTable(records, keys)| == if keys == [] then 0 else |records|
    ensures forall row :: row in LoadedTable(records, keys) ==>
              exists i :: 0 <= i < |records| && row == Project(records[i], keys)
  {
    RowLeTotalOrder();
    Ordering.SortBySorted(ProjectAll(records, keys), RowLe);
    var table := LoadedTable(records, keys);
    forall row | row in table
      ensures exists i :: 0 <= i < |records| && row == Project(records[i], keys)
    {
      assert row in multiset(ProjectAll(records, keys));
      var i :| 0 <= i < |ProjectAll(records, keys)| && ProjectAll(records, keys)[i] == row;
    }
  }

  /** The stored order does not depend on the order the reader delivered the records in. */
  lemma LoadedTableIgnoresRecordOrder(a: seq<CsvRecord>, b: seq<CsvRecord>, keys: KeySet)
    requires multiset(ProjectAll(a, keys)) == multiset(ProjectAll(b, keys))
    ensures LoadedTable(a, keys) == LoadedTable(b, keys)
  {
    RowLeTotalOrder();
    Ordering.SortBySorted(ProjectAll(a, keys), RowLe);
    Ordering.SortBySorted(ProjectAll(b, keys), RowLe);
    Ordering.SortedUnique(LoadedTable(a, keys), LoadedTable(b, keys), RowLe);
  }

  // ---------------------------------------------------------------------
  // The exact pass

  /** `strtolower` of a cell: PHP reads null as "". */
  function CellText(c: Cell): string
  {
    c.GetOr("")
  }

  /** `strtolower($val[$key]) === strtolower($searchPattern)`. */
  predicate FieldMatches(row: Row, key: string, pattern: string)
  {
    Text.ToLower(CellText(Get(row, key))) == Text.ToLower(pattern)
  }

  /** Some searchable field of the row equals the pattern, ignoring ASCII case. */
  predicate RowMatches(row: Row, keys: seq<string>, pattern: string)
  {
    exists k :: 0 <= k < |keys| && FieldMatches(row, keys[k], pattern)
  }

  /** The index of the first matching row in table order, or `None`. */
  function FirstMatch(table: seq<Row>, keys: seq<string>, pattern: string): (r: Option<nat>)
    ensures r.Some? ==> r.value < |table| && RowMatches(table[r.value], keys, pattern)
    ensures r.Some? ==> forall i :: 0 <= i < r.value ==> !RowMatches(table[i], keys, pattern)
    ensures r.None? <==> forall i :: 0 <= i < |table| ==> !RowMatches(table[i], keys, pattern)
  {
    if table == [] then None
    else if RowMatches(table[0], keys, pattern) then Some(0)
    else match FirstMatch(table[1..], keys, pattern)
      case None => None
      case Some(i) => Some(i + 1)
  }

  /** Patterns that lower-case alike find the same row: the exact pass ignores ASCII case. */
  lemma {:induction false} FirstMatchIgnoresCase(table: seq<Row>, keys: seq<string>, p: string, q: string)
    requires Text.ToLower(p) == Text.ToLower(q)
    ensures FirstMatch(table, keys, p) == FirstMatch(table, keys, q)
  {
    if table != [] {
      FirstMatchIgnoresCase(table[1..], keys, p, q);
      assert RowMatches(table[0], keys, p) == RowMatches(table[0], keys, q) by {
        forall k | 0 <= k < |keys| ensures FieldMatches(table[0], keys[k], p) == FieldMatches(table[0], keys[k], q) {}
      }
    }
  }

  /** The order of the searchable fields does not change which row is found. */
  lemma {:induction false} FirstMatchIgnoresKeyOrder(table: seq<Row>, keys: seq<string>, other: seq<string>, p: string)
    requires forall k :: k in keys <==> k in other
    ensures FirstMatch(table, keys, p) == FirstMatch(table, other, p)
  {
    if table != [] {
      FirstMatchIgnoresKeyOrder(table[1..], keys, other, p);
      var row := table[0];
      if RowMatches(row, keys, p) {
        var k :| 0 <= k < |keys| && FieldMatches(row, keys[k], p);
        assert keys[k] in other;
        var j :| 0 <= j < |other| && other[j] == keys[k];
        assert FieldMatches(row, other[j], p);
      }
      if RowMatches(row, other, p) {
        var k :| 0 <= k < |other| && FieldMatches(row, other[k], p);
        assert other[k] in keys;
        var j :| 0 <= j < |keys| && keys[j] == other[k];
        assert FieldMatches(row, keys[j], p);
      }
    }
  }

  /** Two rows hold the same cells under every name in `keys`. */
  predicate AgreeOn(a: Row, b: Row, keys: seq<string>)
  {
    forall k :: 0 <= k < |keys| ==> Get(a, keys[k]) == Get(b, keys[k])
  }

  /**
   * Only the searchable fields take part: two tables whose rows agree on
   * those fields give the same exact result, whatever else (the URL) holds.
   */
  lemma {:induction false} FirstMatchSeesOnlySearchFields(a: seq<Row>, b: seq<Row>, keys: seq<string>, p: string)
    requires |a| == |b|
    requires forall i :: 0 <= i < |a| ==> AgreeOn(a[i], b[i], keys)
    ensures FirstMatch(a, keys, p) == FirstMatch(b, keys, p)
  {
    if a != [] {
      assert AgreeOn(a[0], b[0], keys);
      forall i | 0 <= i < |a| - 1 ensures AgreeOn(a[1..][i], b[1..][i], keys) {
        assert AgreeOn(a[i + 1], b[i + 1], keys);
      }
      FirstMatchSeesOnlySearchFields(a[1..], b[1..], keys, p);
      assert RowMatches(a[0], keys, p) == RowMatches(b[0], keys, p) by {
        forall k | 0 <= k < |keys| ensures FieldMatches(a[0], keys[k], p) == FieldMatches(b[0], keys[k], p) {
          assert Get(a[0], keys[k]) == Get(b[0], keys[k]);
        }
      }
    }
  }

  /**
   * A two-row table, Oslo then Bergen: "bergen" and "BERGEN" find Bergen,
   * row 1, on the exact pass; the URL column plays no part.
   */
  lemma ExactPassExample()
    ensures var table := [Row([("state", Some("Oslo")), (XmlUrlKey, Some("A"))]),
                          Row([("state", Some("Bergen")), (XmlUrlKey, Some("B"))])];
            && FirstMatch(table, ["state"], "bergen") == Some(1)
            && FirstMatch(table, ["state"], "BERGEN") == Some(1)
  {
    var table := [Row([("state", Some("Oslo")), (XmlUrlKey, Some("A"))]),
                  Row([("state", Some("Bergen")), (XmlUrlKey, Some("B"))])];
    assert Get(table[0], "state") == Some("Oslo");
    assert Get(table[1], "state") == Some("Bergen");
    assert |Text.ToLower("Oslo")| != |Text.ToLower("bergen")|;
    assert Text.ToLower("Bergen") == Text.ToLower("bergen") == Text.ToLower("BERGEN");
    assert FieldMatches(table[1], ["state"][0], "bergen");
    FirstMatchIs(table, ["state"], "bergen", 1);
    FirstMatchIgnoresCase(table, ["state"], "bergen", "BERGEN");
  }

  // ---------------------------------------------------------------------
  // The fuzzy pass and the combined search

  /** The fuzzy ranker: candidate rows, best first, for a table, fields and pattern. */
  type Ranker = (seq<Row>, seq<string>, string) -> seq<Row>

  /** What `fuseSearch` makes of a ranked list: at most three, in rank order, or false when empty. */
  function FuseTop(ranked: seq<Row>): (r: Option<seq<Row>>)
    ensures r.None? <==> ranked == []
    ensures r.Some? ==> |r.value| == (if |ranked| < FuseLimit then |ranked| else FuseLimit)
    ensures r.Some? ==> r.value == ranked[..|r.value|]
  {
    if ranked == [] then None
    else if |ranked| > FuseLimit then Some(ranked[..FuseLimit])
    else Some(ranked)
  }

  /** The result of `search` on a loaded table and its searchable fields. */
  function SearchResult(table: seq<Row>, fields: seq<string>, pattern: string, allowFuseSearch: bool, rank: Ranker): Option<Row>
  {
    match FirstMatch(table, fields, pattern)
    case Some(i) => Some(table[i])
    case None =>
      if !allowFuseSearch then None
      else match FuseTop(rank(table, fields, pattern))
        case None => None
        case Some(top) => Some(top[0])
  }

  /** The first exactly matching row, in table order, is the result, fuzzy pass or not. */
  lemma SearchFirstExactMatch(table: seq<Row>, fields: seq<string>, pattern: string,
                              allowFuseSearch: bool, rank: Ranker, i: nat)
    requires i < |table| && RowMatches(table[i], fields, pattern)
    requires forall j :: 0 <= j < i ==> !RowMatches(table[j], fields, pattern)
    ensures SearchResult(table, fields, pattern, allowFuseSearch, rank) == Some(table[i])
  {
    FirstMatchIs(table, fields, pattern, i);
  }

  /**
   * With no exact match the result is the top-ranked candidate when the
   * fuzzy pass is allowed and the ranker returns anything, and no result
   * otherwise.
   */
  lemma SearchWithoutExactMatch(table: seq<Row>, fields: seq<string>, pattern: string,
                                allowFuseSearch: bool, rank: Ranker)
    requires forall i :: 0 <= i < |table| ==> !RowMatches(table[i], fields, pattern)
    ensures var ranked := rank(table, fields, pattern);
            SearchResult(table, fields, pattern, allowFuseSearch, rank) ==
              if allowFuseSearch && ranked != [] then Some(ranked[0]) else None
  {
  }

  /** When the exact pass succeeds the ranker and the fuzzy switch have no effect. */
  lemma ExactMatchIgnoresRanker(table: seq<Row>, fields: seq<string>, pattern: string,
                                allow1: bool, rank1: Ranker, allow2: bool, rank2: Ranker)
    requires exists i :: 0 <= i < |table| && RowMatches(table[i], fields, pattern)
    ensures SearchResult(table, fields, pattern, allow1, rank1) == SearchResult(table, fields, pattern, allow2, rank2)
  {
  }

  /** If the ranker only returns rows of the table, so does `search`. */
  lemma SearchResultIsTableRow(table: seq<Row>, fields: seq<string>, pattern: string, allowFuseSearch: bool, rank: Ranker)
    requires forall row :: row in rank(table, fields, pattern) ==> row in table
    ensures SearchResult(table, fields, pattern, allowFuseSearch, rank).Some? ==>
              SearchResult(table, fields, pattern, allowFuseSearch, rank).value in table
  {
  }

  /** An empty table yields no result when the ranker finds nothing in it. */
  lemma EmptyTableNoMatch(fields: seq<string>, pattern: string, allowFuseSearch: bool, rank: Ranker)
    requires rank([], fields, pattern) == []
    ensures SearchResult([], fields, pattern, allowFuseSearch, rank) == None
  {
  }

  /** A pattern that differs only in ASCII case finds the same exact row. */
  lemma SearchIgnoresCaseOnExactMatch(table: seq<Row>, fields: seq<string>, p: string, q: string,
                                      allowFuseSearch: bool, rank: Ranker)
    requires Text.ToLower(p) == Text.ToLower(q)
    requires exists i :: 0 <= i < |table| && RowMatches(table[i], fields, p)
    ensures SearchResult(table, fields, p, allowFuseSearch, rank) == SearchResult(table, fields, q, allowFuseSearch, rank)
  {
    FirstMatchIgnoresCase(table, fields, p, q);
  }

  // ---------------------------------------------------------------------
  // The class and its methods

  class Search {
    /** The table loaded last; `None` stands for PHP's initial null. */
    var searchArray: Option<seq<Row>>

    constructor ()
      ensures searchArray == None
    {
      searchArray := None;
    }

    method GetSearchArray() returns (r: Option<seq<Row>>)
      ensures r == searchArray
    {
      r := searchArray;
    }

    method SetSearchArray(a: seq<Row>)
      modifies this
      ensures searchArray == Some(a)
    {
      searchArray := Some(a);
    }

    /**
     * `search`: load the table for `searchFile`, run the exact pass over
     * all names but the last, and fall back to the fuzzy pass when that
     * finds nothing and `allowFuseSearch` is set. `records` gives the parsed
     * CSV of each data file. The language must index a key set: otherwise
     * PHP's `array_keys(null)` stops the program.
     */
    method Search(searchPattern: string, records: string -> seq<CsvRecord>, searchFile: string,
                  language: int, allowFuseSearch: bool, rank: Ranker) returns (result: Option<Row>)
      requires ValidLanguage(language)
      modifies this
      ensures searchArray == Some(LoadedTable(records(searchFile), GetKeys(searchFile, language).value))
      ensures result == SearchResult(LoadedTable(records(searchFile), GetKeys(searchFile, language).value),
                                     SearchFields(GetKeys(searchFile, language).value),
                                     searchPattern, allowFuseSearch, rank)
    {
      var keys := GetKeys(searchFile, language).value;
      var _ := LoadCsvTableForSearch(records(searchFile), keys);
      var loaded := GetSearchArray();
      var arrayToSearch := loaded.value;
      var fields := SearchFields(keys);

      var quickSearch := QuickSearch(arrayToSearch, fields, searchPattern);
      var fuseSearch: Option<seq<Row>> := None;
      result := None;
      if quickSearch.Some? {
        result := Some(arrayToSearch[quickSearch.value]);
      } else if allowFuseSearch {
        fuseSearch := FuseSearch(arrayToSearch, fields, searchPattern, rank);
      }
      if fuseSearch.Some? {
        result := Some(fuseSearch.value[0]);
      }
    }

    /**
     * `fuseSearch`: rank the table and keep the first three entries by
     * shifting them off the ranked list; false (`None`) when nothing ranks.
     */
    method FuseSearch(arrayToSearch: seq<Row>, keys: seq<string>, searchPattern: string, rank: Ranker)
      returns (r: Option<seq<Row>>)
      ensures r == FuseTop(rank(arrayToSearch, keys, searchPattern))
    {
      var ranked := rank(arrayToSearch, keys, searchPattern);
      var result := ranked;
      if |result| > FuseLimit {
        var tmp: seq<Row> := [];
        var i := 0;
        while i < FuseLimit
          invariant 0 <= i <= FuseLimit
          invariant |tmp| == i
          invariant tmp + result == ranked
        {
          tmp := tmp + [result[0]];
          result := result[1..];
          i := i + 1;
        }
        assert tmp == ranked[..FuseLimit];
        result := tmp;
      }
      if |result| == 0 {
        return None;
      }
      return Some(result);
    }

    /**
     * `quickSearch`: the index of the first row, in table order, with a
     * searchable field equal to the pattern after lower-casing both; the
     * fields of a row are tried in key order. `None` is PHP's false.
     */
    method QuickSearch(arrayToSearch: seq<Row>, keys: seq<string>, searchPattern: string) returns (r: Option<nat>)
      ensures r.Some? ==> r.value < |arrayToSearch| && RowMatches(arrayToSearch[r.value], keys, searchPattern)
      ensures r.Some? ==> forall i :: 0 <= i < r.value ==> !RowMatches(arrayToSearch[i], keys, searchPattern)
      ensures r.None? <==> forall i :: 0 <= i < |arrayToSearch| ==> !RowMatches(arrayToSearch[i], keys, searchPattern)
      ensures r == FirstMatch(arrayToSearch, keys, searchPattern)
    {
      var id := 0;
      while id < |arrayToSearch|
        invariant 0 <= id <= |arrayToSearch|
        invariant forall i :: 0 <= i < id ==> !RowMatches(arrayToSearch[i], keys, searchPattern)
      {
        var val := arrayToSearch[id];
        var k := 0;
        while k < |keys|
          invariant 0 <= k <= |keys|
          invariant forall j :: 0 <= j < k ==> !FieldMatches(val, keys[j], searchPattern)
        {
          if Text.ToLower(CellText(Get(val, keys[k]))) == Text.ToLower(searchPattern) {
            assert FieldMatches(val, keys[k], searchPattern);
            r := Some(id);
            FirstMatchIs(arrayToSearch, keys, searchPattern, id);
            return;
          }
          k := k + 1;
        }
        id := id + 1;
      }
      r := None;
    }

    /**
     * `loadCsvTableForSearch` without the reader: project every record
     * through the key set, sort the rows (which re-indexes them from 0)
     * and store them as the search array.
     */
    method LoadCsvTableForSearch(records: seq<CsvRecord>, keys: KeySet) returns (table: seq<Row>)
      modifies this
      ensures table == LoadedTable(records, keys)
      ensures Ordering.Sorted(table, RowLe)
      ensures multiset(table) == multiset(ProjectAll(records, keys))
      ensures searchArray == Some(table)
    {
      var rows: seq<Row> := [];
      var offset := 0;
      while offset < |records|
        invariant 0 <= offset <= |records|
        invariant rows == ProjectAll(records[..offset], keys)
      {
        var record := records[offset];
        var fields: seq<(string, Cell)> := [];
        var k := 0;
        while k < |keys|
          invariant 0 <= k <= |keys|
          invariant fields == Project(record, keys[..k]).fields
        {
          fields := fields + [(keys[k].name, Lookup(record, keys[k].column))];
          k := k + 1;
        }
        assert keys[..|keys|] == keys;
        // the row exists in PHP only once a key has been assigned into it
        if |keys| > 0 {
          rows := rows + [Row(fields)];
        }
        offset := offset + 1;
      }
      assert records[..|records|] == records;
      rows := Ordering.SortBy(rows, RowLe);
      LoadedTableIsSortedProjection(records, keys);
      SetSearchArray(rows);
      table := rows;
    }
  }

  /** A matching row with no matching row before it is the first match. */
  lemma FirstMatchIs(table: seq<Row>, keys: seq<string>, pattern: string, i: nat)
    requires i < |table| && RowMatches(table[i], keys, pattern)
    requires forall j :: 0 <= j < i ==> !RowMatches(table[j], keys, pattern)
    ensures FirstMatch(table, keys, pattern) == Some(i)
  {
    var m := FirstMatch(table, keys, pattern);
    assert m.Some?;
    assert !(m.value < i) && !(i < m.value);
  }
}
