/** The CSV reader: every data row the decoder yields becomes one section, in
    row order, of a document whose title is always empty. The first row that
    fails to decode aborts the read with its error. The decoder itself (header
    matching, quoting, column counts) is the csv crate's; here it is the
    sequence of per-row outcomes it produces. */
module CsvFormat {
  import opened Formatter

  /** What the decoder yields for one data row: a section, or why the row was rejected. */
  type Row = Result<Section>

  // ---------------------------------------------------------------------------
  // Specification
  // ---------------------------------------------------------------------------

  /** The sections of the rows, in order, or the error of the first row that failed. */
  function Collect(rows: seq<Row>): Result<seq<Section>> {
    if |rows| == 0 then Ok([])
    else match rows[0]
      case Err(e) => Err(e)
      case Ok(s) =>
        match Collect(rows[1..])
        case Ok(rest) => Ok([s] + rest)
        case Err(e) => Err(e)
  }

  /** Reading a file: the error of opening it, or the collected rows under an empty title. */
  function ReadSpec(source: Result<seq<Row>>): Result<UserData> {
    match source
    case Err(e) => Err(e)
    case Ok(rows) =>
      match Collect(rows)
      case Ok(sections) => Ok(UserData("", sections))
      case Err(e) => Err(e)
  }

  // ---------------------------------------------------------------------------
  // The reader, as the Rust implementation runs it
  // ---------------------------------------------------------------------------

  /** `source` is the outcome of opening the file: its error, or the decoder's
      row outcomes in file order. The document starts with an empty title and
      no sections; each decoded row is pushed at the end; the first failed row
      returns its error and the document built so far is dropped. */
  method Read(source: Result<seq<Row>>) returns (r: Result<UserData>)
    ensures r == ReadSpec(source)
    ensures source.Err? ==> r == Err(source.error)
    ensures r.Ok? ==> r.value.title == ""
    ensures r.Ok? ==> (|r.value.sections| == |source.value|
                    && forall i :: 0 <= i < |source.value| ==> source.value[i] == Ok(r.value.sections[i]))
    ensures source.Ok? && r.Err? ==>
      exists k :: 0 <= k < |source.value| && source.value[k] == Err(r.error)
                && forall j :: 0 <= j < k ==> source.value[j].Ok?
  {
    if source.Err? {
      return Err(source.error);
    }
    var rows := source.value;
    var data := UserData("", []);
    for i := 0 to |rows|
      invariant data.title == ""
      invariant Collect(rows[..i]) == Ok(data.sections)
    {
      assert rows[..i + 1] == rows[..i] + [rows[i]];
      CollectAppend(rows[..i], rows[i]);
      if rows[i].Err? {
        CollectKeepsError(rows[..i + 1], rows[i + 1..]);
        assert rows[..i + 1] + rows[i + 1..] == rows;
        CollectOk(rows[..i]);
        assert forall j :: 0 <= j < i ==> rows[..i][j] == rows[j];
        return Err(rows[i].error);
      }
      var section := rows[i].value;
      data := data.(sections := data.sections + [section]);
    }
    assert rows[..|rows|] == rows;
    CollectOk(rows);
    r := Ok(data);
  }

  // ---------------------------------------------------------------------------
  // Properties of the specification
  // ---------------------------------------------------------------------------

  /** One more row: a decoded row is pushed at the end of what was collected,
      leaving it unchanged; a failed row turns the result into its error; after
      a failure nothing changes. */
  lemma {:induction false} CollectAppend(rows: seq<Row>, row: Row)
    ensures Collect(rows + [row]) ==
      match Collect(rows)
      case Err(e) => Err(e)
      case Ok(sections) => if row.Ok? then Ok(sections + [row.value]) else Err(row.error)
  {
    if |rows| == 0 {
      assert rows + [row] == [row];
      assert [row][1..] == [];
      if row.Ok? {
        assert [row.value] + [] == [] + [row.value];
      }
    } else {
      assert (rows + [row])[1..] == rows[1..] + [row];
      CollectAppend(rows[1..], row);
      if rows[0].Ok? && Collect(rows[1..]).Ok? && row.Ok? {
        assert [rows[0].value] + (Collect(rows[1..]).value + [row.value])
            == ([rows[0].value] + Collect(rows[1..]).value) + [row.value];
      }
    }
  }

  /** Once a row has failed, the rows after it make no difference. */
  lemma {:induction false} CollectKeepsError(rows: seq<Row>, more: seq<Row>)
    requires Collect(rows).Err?
    ensures Collect(rows + more) == Collect(rows)
  {
    if rows[0].Ok? {
      assert (rows + more)[1..] == rows[1..] + more;
      CollectKeepsError(rows[1..], more);
    }
  }

  /** The read succeeds exactly when every row decodes, and then it holds one
      section per row, each the row's own section, in row order. */
  lemma {:induction false} CollectOk(rows: seq<Row>)
    ensures Collect(rows).Ok? <==> forall i :: 0 <= i < |rows| ==> rows[i].Ok?
    ensures Collect(rows).Ok? ==>
      |Collect(rows).value| == |rows| && forall i :: 0 <= i < |rows| ==> rows[i] == Ok(Collect(rows).value[i])
  {
    if |rows| > 0 {
      CollectOk(rows[1..]);
      assert forall i :: 1 <= i < |rows| ==> rows[i] == rows[1..][i - 1];
    }
  }

  /** When row k is the first that fails, the read fails with that row's
      error, whatever the rows after it hold. */
  lemma {:induction false} CollectFirstError(rows: seq<Row>, k: nat)
    requires k < |rows| && rows[k].Err?
    requires forall j :: 0 <= j < k ==> rows[j].Ok?
    ensures Collect(rows) == Err(rows[k].error)
  {
    if k > 0 {
      assert forall j :: 0 <= j < k - 1 ==> rows[1..][j] == rows[j + 1];
      CollectFirstError(rows[1..], k - 1);
    }
  }

  /** Pushing only at the end: what was collected from the first i rows is a
      prefix of what is collected from the first j rows, when both succeed. */
  lemma {:induction false} CollectPrefix(rows: seq<Row>, i: nat, j: nat)
    requires i <= j <= |rows|
    requires Collect(rows[..j]).Ok?
    ensures |Collect(rows[..j]).value| == j
    ensures Collect(rows[..i]).Ok?
    ensures Collect(rows[..i]).value == Collect(rows[..j]).value[..i]
  {
    if i < j {
      assert rows[..j] == rows[..j - 1] + [rows[j - 1]];
      CollectAppend(rows[..j - 1], rows[j - 1]);
      CollectPrefix(rows, i, j - 1);
      CollectOk(rows[..j - 1]);
    } else {
      CollectOk(rows[..j]);
    }
  }
}
