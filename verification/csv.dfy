/**
 * `convertToCSV` of static/js/main.js: a header line of the first record's
 * keys, then one line per record, strings wrapped in double quotes without
 * any escaping.
 */
module Csv {
  import opened Wrappers
  import opened Text

  /** A JavaScript value as `Array.join` shows it: a string, or anything else by its text (`""` for null and undefined). */
  datatype JsValue = JsString(s: string) | JsOther(shown: string)

  /** An object's own properties in key order. */
  type Record = seq<(string, JsValue)>

  /** `Object.keys(row)`. */
  function Keys(row: Record): (r: seq<string>)
    ensures |r| == |row|
    ensures forall k :: 0 <= k < |row| ==> r[k] == row[k].0
  {
    seq(|row|, k requires 0 <= k < |row| => row[k].0)
  }

  /** `row[key]`; a missing key reads as `undefined`, which joins as the empty text. */
  function Lookup(row: Record, key: string): (r: JsValue)
    ensures (forall k :: 0 <= k < |row| ==> row[k].0 != key) ==> r == JsOther("")
    ensures (exists k :: 0 <= k < |row| && row[k].0 == key) ==>
      exists k :: 0 <= k < |row| && row[k] == (key, r)
  {
    if row == [] then JsOther("")
    else if row[0].0 == key then row[0].1
    else
      var r := Lookup(row[1..], key);
      assert (exists k :: 0 <= k < |row[1..]| && row[1..][k].0 == key) ==>
        exists k :: 0 <= k < |row[1..]| && row[1..][k] == (key, r);
      r
  }

  /** One cell: a string in double quotes, taken as it is; anything else as its text. */
  function Cell(v: JsValue): (r: string)
    ensures v.JsString? ==> |r| == |v.s| + 2 && r[0] == '"' && r[|r| - 1] == '"' && r[1..|r| - 1] == v.s
    ensures v.JsOther? ==> r == v.shown
  {
    match v
    case JsString(s) =>
      var r := "\"" + s + "\"";
      assert r[1..|r| - 1] == s;
      r
    case JsOther(t) => t
  }

  /** The cells of one record under the given headers. */
  function Cells(headers: seq<string>, row: Record): (r: seq<string>)
    ensures |r| == |headers|
    ensures forall k :: 0 <= k < |headers| ==> r[k] == Cell(Lookup(row, headers[k]))
  {
    seq(|headers|, k requires 0 <= k < |headers| => Cell(Lookup(row, headers[k])))
  }

  /** The lines: the header, then one line per record in order. */
  function Lines(data: seq<Record>): (r: seq<string>)
    requires data != []
    ensures |r| == |data| + 1
    ensures r[0] == Join(Keys(data[0]), ',')
    ensures forall k :: 0 <= k < |data| ==> r[k + 1] == Join(Cells(Keys(data[0]), data[k]), ',')
  {
    var headers := Keys(data[0]);
    [Join(headers, ',')] + seq(|data|, k requires 0 <= k < |data| => Join(Cells(headers, data[k]), ','))
  }

  /** `convertToCSV(data)`; on an empty array `data[0]` is undefined and `Object.keys` throws. */
  function ConvertToCSV(data: seq<Record>): (r: Result<string, ()>)
    ensures r.Err? <==> data == []
  {
    if data == [] then Err(()) else Ok(Join(Lines(data), '\n'))
  }

  /** No key and no cell holds a line break. */
  predicate SingleLineFields(data: seq<Record>)
    requires data != []
  {
    forall k :: 0 <= k < |Lines(data)| ==> '\n' !in Lines(data)[k]
  }

  /** Splitting the text at line breaks gives back the header and one line per record. */
  lemma SplitRecoversLines(data: seq<Record>)
    requires data != [] && SingleLineFields(data)
    ensures Split(ConvertToCSV(data).value, '\n') == Lines(data)
    ensures |Split(ConvertToCSV(data).value, '\n')| == |data| + 1
  {
    SplitJoin(Lines(data), '\n');
  }

  /** With no `,` inside the cells, a record's line splits back into exactly one field per header. */
  lemma RowSplitsIntoColumns(headers: seq<string>, row: Record)
    requires headers != []
    requires forall k :: 0 <= k < |headers| ==> ',' !in Cell(Lookup(row, headers[k]))
    ensures Split(Join(Cells(headers, row), ','), ',') == Cells(headers, row)
  {
    SplitJoin(Cells(headers, row), ',');
  }

  /** Strings are not escaped: a comma inside a value splits it into two columns. */
  lemma CommaInValueAddsColumn()
    ensures var data := [[("a", JsString(","))]];
      |Split(Lines(data)[1], ',')| == 2 && |Keys(data[0])| == 1
  {
    var data := [[("a", JsString(","))]];
    assert Keys(data[0]) == ["a"];
    assert Lookup(data[0], "a") == JsString(",");
    assert Cell(JsString(",")) == "\",\"";
    assert Cells(["a"], data[0]) == ["\",\""];
    assert Lines(data)[1] == "\",\"";
    assert BeforeFirst("\",\"", ',') == "\"";
    assert BeforeFirst("\"", ',') == "\"";
  }
}
