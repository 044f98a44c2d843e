/** The CSV block of the exporter: one four-field row per search result
    under a fixed header. Rows are lists of field texts; quoting, encoding
    and the byte-level file format are not modelled. */
module CsvExport {
  import opened Wrappers
  import opened Directory

  /** The header row, which is also the DictWriter's field order. */
  const Header: seq<string> := ["username", "name", "company", "department"]

  /** The attributes every row reads; a missing one raises `KeyError`. */
  const RowKeys: set<string> := {"sAMAccountName", "cn", "company", "department"}

  /** A list rendered as Python's `str` of a list of strings. */
  function ListText(items: seq<string>): string {
    "[" + QuotedItems(items) + "]"
  }

  function QuotedItems(items: seq<string>): string
    decreases |items|
  {
    if items == [] then ""
    else if |items| == 1 then "'" + items[0] + "'"
    else "'" + items[0] + "', " + QuotedItems(items[1..])
  }

  /** A value written as-is: its text, or the list's rendering. */
  function Text(v: Value): string {
    match v
    case Str(s) => s
    case Multi(items) => ListText(items)
  }

  /** The company/department rule: a list value becomes the empty field. */
  function SingleOrEmpty(v: Value): string {
    match v
    case Str(s) => s
    case Multi(_) => ""
  }

  /** The row written for one result, in header order, or None when one of
      the four attributes is missing and the lookup raises. */
  function MapRow(attrs: Attributes): (row: Option<seq<string>>)
    ensures row.Some? <==> RowKeys <= attrs.Keys
    ensures row.Some? ==> |row.value| == |Header|
    ensures row.Some? && attrs["sAMAccountName"].Str? ==> row.value[0] == attrs["sAMAccountName"].text
    ensures row.Some? && attrs["cn"].Str? ==> row.value[1] == attrs["cn"].text
    ensures row.Some? && attrs["company"].Str? ==> row.value[2] == attrs["company"].text
    ensures row.Some? && attrs["company"].Multi? ==> row.value[2] == ""
    ensures row.Some? && attrs["department"].Str? ==> row.value[3] == attrs["department"].text
    ensures row.Some? && attrs["department"].Multi? ==> row.value[3] == ""
  {
    if "sAMAccountName" in attrs && "cn" in attrs && "company" in attrs && "department" in attrs then
      Some([Text(attrs["sAMAccountName"]), Text(attrs["cn"]),
            SingleOrEmpty(attrs["company"]), SingleOrEmpty(attrs["department"])])
    else
      None
  }

  /** Reading a written row back under the header's names, each field as a
      single string. */
  function ReadRow(row: seq<string>): (attrs: Attributes)
    requires |row| == |Header|
    ensures attrs.Keys == RowKeys
  {
    map["sAMAccountName" := Str(row[0]), "cn" := Str(row[1]),
        "company" := Str(row[2]), "department" := Str(row[3])]
  }

  /** The four exported attributes of an entry. */
  function Exported(attrs: Attributes): (e: Attributes)
    ensures e.Keys == RowKeys * attrs.Keys
  {
    map k | k in RowKeys && k in attrs :: attrs[k]
  }

  /** Round trip: when all four attributes are single strings, the row read
      back under the header gives back exactly those four attributes. */
  lemma RowRoundTrip(attrs: Attributes)
    requires RowKeys <= attrs.Keys
    requires forall k :: k in RowKeys ==> attrs[k].Str?
    ensures MapRow(attrs).Some?
    ensures ReadRow(MapRow(attrs).value) == Exported(attrs)
  {
  }

  /** The data rows written before the loop ends, and whether it ended
      normally (false: a missing attribute raised in the next entry). */
  function DataRows(results: seq<Attributes>): (out: (seq<seq<string>>, bool))
    ensures |out.0| <= |results|
    ensures forall i :: 0 <= i < |out.0| ==> MapRow(results[i]) == Some(out.0[i])
    ensures out.1 ==> |out.0| == |results|
    ensures !out.1 ==> |out.0| < |results| && MapRow(results[|out.0|]).None?
    decreases |results|
  {
    if results == [] then ([], true)
    else
      match MapRow(results[0])
      case None => ([], false)
      case Some(row) =>
        var (rest, ok) := DataRows(results[1..]);
        ([row] + rest, ok)
  }

  /** What ends up in the CSV file: its rows (header first), and whether
      every result was written. */
  datatype Written = Written(lines: seq<seq<string>>, complete: bool)

  /** The header, then one row per result in order, stopping at the first
      result that lacks one of the four attributes. */
  function WriteCsv(results: seq<Attributes>): (w: Written)
    ensures 1 <= |w.lines| <= |results| + 1 && w.lines[0] == Header
    ensures forall i :: 1 <= i < |w.lines| ==> MapRow(results[i - 1]) == Some(w.lines[i])
    ensures w.complete <==> forall i :: 0 <= i < |results| ==> MapRow(results[i]).Some?
    ensures w.complete ==> |w.lines| == |results| + 1
    ensures !w.complete ==> |w.lines| <= |results| && MapRow(results[|w.lines| - 1]).None?
  {
    var (rows, ok) := DataRows(results);
    Written([Header] + rows, ok)
  }

  /** Zero results: the file holds the header alone. */
  lemma NoResultsHeaderOnly()
    ensures WriteCsv([]) == Written([Header], true)
  {
  }

  /** One fully populated entry (`jdoe`, `John Doe`, `Acme`, `Eng`) gives
      exactly the header line and that entry's four fields. */
  lemma SingleUserExample()
    ensures WriteCsv([map["sAMAccountName" := Str("jdoe"), "cn" := Str("John Doe"),
                          "company" := Str("Acme"), "department" := Str("Eng")]])
            == Written([Header, ["jdoe", "John Doe", "Acme", "Eng"]], true)
  {
  }
}
