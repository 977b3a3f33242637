/** The summary table built from `results` once the batch is done
    (app.py:98-99): one record per row, in the order of `results`, under the
    three column names the row dicts use as keys. */
module Summary {

  import opened Outcomes
  import opened Scoring
  import opened Screening

  datatype Cell = Text(text: string) | Score(hundredths: int)

  datatype Table = Table(columns: seq<string>, records: seq<seq<Cell>>)

  const Columns: seq<string> := ["File Name", "Match Score (%)", "Recommendation"]

  /** One row dict as a table record, columns in key order. */
  function Record(row: Row): seq<Cell>
  {
    [Text(row.fileName), Score(row.score), Text(Label(row.recommendation))]
  }

  /** `if results: df = pd.DataFrame(results)`: no table at all for an empty
      batch; otherwise exactly the three columns and one record per row, in
      order, with no sorting or filtering. */
  function SummaryTable(results: seq<Row>): (t: Option<Table>)
    ensures t.Some? <==> results != []
    ensures t.Some? ==> t.value.columns == Columns && |t.value.records| == |results|
    ensures t.Some? ==> forall k :: 0 <= k < |results| ==> t.value.records[k] == Record(results[k])
  {
    if results == [] then None
    else Some(Table(Columns, seq(|results|, k requires 0 <= k < |results| => Record(results[k]))))
  }

  /** Reads a record back into a row; `None` for a record of another shape. */
  function RowOfRecord(record: seq<Cell>): Option<Row>
  {
    if |record| == 3 && record[0].Text? && record[1].Score? && record[2].Text? then
      match ParseLabel(record[2].text)
      case Some(r) => Some(Row(record[0].text, record[1].hundredths, r))
      case None => None
    else
      None
  }

  /** Reads every record back, in order; `None` if the columns differ or any
      record does not read. */
  function RowsOfTable(t: Table): Option<seq<Row>>
  {
    if t.columns != Columns then None else RowsOfRecords(t.records)
  }

  function RowsOfRecords(records: seq<seq<Cell>>): (r: Option<seq<Row>>)
    ensures r.Some? ==> |r.value| == |records|
  {
    if records == [] then Some([])
    else
      match (RowOfRecord(records[0]), RowsOfRecords(records[1..]))
      case (Some(row), Some(rest)) => Some([row] + rest)
      case _ => None
  }

  /** The table holds the results exactly: reading it back gives the same
      rows, in the same order. */
  lemma SummaryTableRoundTrip(results: seq<Row>)
    requires results != []
    ensures RowsOfTable(SummaryTable(results).value) == Some(results)
  {
    RecordsRoundTrip(SummaryTable(results).value.records, results);
  }

  lemma {:induction false} RecordsRoundTrip(records: seq<seq<Cell>>, results: seq<Row>)
    requires |records| == |results|
    requires forall k :: 0 <= k < |results| ==> records[k] == Record(results[k])
    ensures RowsOfRecords(records) == Some(results)
  {
    if results != [] {
      LabelRoundTrip(results[0].recommendation);
      RecordsRoundTrip(records[1..], results[1..]);
      assert [results[0]] + results[1..] == results;
    }
  }
}
