/**
 * `extract_text(file_name, raw_data)`: the text of an uploaded file, chosen by
 * the file name's suffix (case-sensitive, `.txt` before `.json` before `.csv`).
 * Every failure to decode or parse, and every other suffix, gives `""`.
 */
module Embedding {
  import opened PyText
  import opened PyValue

  /** `", ".join(row)` for each CSV row, the results joined by newlines. */
  function CsvText(rows: seq<seq<string>>): string
  {
    Join("\n", seq(|rows|, k requires 0 <= k < |rows| => Join(", ", rows[k])))
  }

  /** `extract_text(file_name, raw_data)`. */
  function ExtractText(rt: Runtime, fileName: string, raw: seq<byte>): (r: string)
    ensures !EndsWith(fileName, ".txt") && !EndsWith(fileName, ".json") && !EndsWith(fileName, ".csv") ==> r == ""
    ensures rt.utf8Decode(raw).None? ==> r == ""
    ensures EndsWith(fileName, ".txt") && rt.utf8Decode(raw).Some? ==> r == rt.utf8Decode(raw).value
    ensures r != "" ==> rt.utf8Decode(raw).Some?
  {
    if EndsWith(fileName, ".txt") then
      match rt.utf8Decode(raw)
      case Some(text) => text
      case None => ""
    else if EndsWith(fileName, ".json") then
      match rt.utf8Decode(raw)
      case None => ""
      case Some(text) =>
        match rt.jsonLoads(text)
        case None => ""
        case Some(v) =>
          match JsonDumps(rt, v)
          case Some(out) => out
          case None => ""
    else if EndsWith(fileName, ".csv") then
      match rt.utf8Decode(raw)
      case None => ""
      case Some(text) =>
        match rt.csvRows(text)
        case Some(rows) => CsvText(rows)
        case None => ""
    else ""
  }

  /** A `.json` file gives its parsed content printed again, or `""` when it does not parse. */
  lemma JsonFile(rt: Runtime, fileName: string, raw: seq<byte>, text: string)
    requires Sane(rt)
    requires EndsWith(fileName, ".json") && rt.utf8Decode(raw) == Some(text)
    ensures rt.jsonLoads(text).Some? ==> ExtractText(rt, fileName, raw) == rt.jsonDumps(rt.jsonLoads(text).value)
    ensures rt.jsonLoads(text).None? ==> ExtractText(rt, fileName, raw) == ""
  {
    assert !EndsWith(fileName, ".txt") by { assert fileName[|fileName| - 1] == 'n'; }
    if rt.jsonLoads(text).Some? {
      JsonHasNoDatetime(rt.jsonLoads(text).value);
    }
  }

  /** A `.csv` file gives its rows, fields joined by `", "` and rows by newlines, or `""` when it does not parse. */
  lemma CsvFile(rt: Runtime, fileName: string, raw: seq<byte>, text: string)
    requires EndsWith(fileName, ".csv") && rt.utf8Decode(raw) == Some(text)
    ensures rt.csvRows(text).Some? ==> ExtractText(rt, fileName, raw) == CsvText(rt.csvRows(text).value)
    ensures rt.csvRows(text).None? ==> ExtractText(rt, fileName, raw) == ""
  {
    assert !EndsWith(fileName, ".txt") && !EndsWith(fileName, ".json") by {
      assert fileName[|fileName| - 1] == 'v';
    }
  }

  /** The suffix test is case-sensitive: `"A.TXT"` gives `""` whatever its bytes. */
  lemma UpperCaseSuffix(rt: Runtime, raw: seq<byte>)
    ensures ExtractText(rt, "A.TXT", raw) == ""
  {
    assert !EndsWith("A.TXT", ".txt") by { assert "A.TXT"[4] != "t"[0]; }
    assert !EndsWith("A.TXT", ".json");
    assert !EndsWith("A.TXT", ".csv");
  }

  /** An empty `.txt` file gives `""`. */
  lemma EmptyTextFile(rt: Runtime, fileName: string)
    requires Sane(rt)
    requires EndsWith(fileName, ".txt")
    ensures ExtractText(rt, fileName, []) == ""
  {
  }

  /**
   * When no field holds a newline, the CSV text splits back, line by line, into
   * the rows joined by `", "`.
   */
  lemma CsvLines(rows: seq<seq<string>>)
    requires rows != []
    requires forall r, f | 0 <= r < |rows| && 0 <= f < |rows[r]| :: '\n' !in rows[r][f]
    ensures Split(CsvText(rows), '\n') == seq(|rows|, k requires 0 <= k < |rows| => Join(", ", rows[k]))
  {
    var lines := seq(|rows|, k requires 0 <= k < |rows| => Join(", ", rows[k]));
    forall k | 0 <= k < |lines| ensures '\n' !in lines[k] {
      JoinAvoids(rows[k], ", ", '\n');
    }
    SplitJoin(lines, '\n');
  }

  /** A join contains a character only if a piece or the separator does. */
  lemma {:induction false} JoinAvoids(xs: seq<string>, sep: string, c: char)
    requires c !in sep
    requires forall k | 0 <= k < |xs| :: c !in xs[k]
    ensures c !in Join(sep, xs)
    decreases |xs|
  {
    if |xs| > 1 {
      JoinAvoids(xs[1..], sep, c);
    }
  }
}
