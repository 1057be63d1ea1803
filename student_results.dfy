/**
 * The grade-distribution table of a course report: its two initial rows, editing one
 * cell, and replacing the table from an uploaded CSV file.
 */
module StudentResults {
  import opened Options

  /** The editable columns: the grades, then the status distributions. */
  datatype Column =
    | APlus | A | BPlus | B | CPlus | C | DPlus | D | F
    | Denied | InProgress | Incomplete | Pass | Fail | Withdrawn

  /** A cell holds the text typed into it, or the number a CSV upload put there. */
  datatype Cell = Text(text: string) | Number(value: int)

  datatype Row = Row(
    id: string, rowLabel: Option<string>,
    aPlus: Cell, a: Cell, bPlus: Cell, b: Cell, cPlus: Cell, c: Cell, dPlus: Cell, d: Cell, f: Cell,
    denied: Cell, inProgress: Cell, incomplete: Cell, pass: Cell, fail: Cell, withdrawn: Cell)

  /** One parsed CSV line, keyed by the header row. */
  type CsvRow = map<string, string>

  function Get(row: Row, col: Column): Cell {
    match col
    case APlus => row.aPlus
    case A => row.a
    case BPlus => row.bPlus
    case B => row.b
    case CPlus => row.cPlus
    case C => row.c
    case DPlus => row.dPlus
    case D => row.d
    case F => row.f
    case Denied => row.denied
    case InProgress => row.inProgress
    case Incomplete => row.incomplete
    case Pass => row.pass
    case Fail => row.fail
    case Withdrawn => row.withdrawn
  }

  /** `{ ...row, [col]: v }`: the row with one cell replaced and everything else kept. */
  function WithCell(row: Row, col: Column, v: Cell): (r: Row)
    ensures r.id == row.id && r.rowLabel == row.rowLabel
    ensures Get(r, col) == v
    ensures forall k :: k != col ==> Get(r, k) == Get(row, k)
  {
    match col
    case APlus => row.(aPlus := v)
    case A => row.(a := v)
    case BPlus => row.(bPlus := v)
    case B => row.(b := v)
    case CPlus => row.(cPlus := v)
    case C => row.(c := v)
    case DPlus => row.(dPlus := v)
    case D => row.(d := v)
    case F => row.(f := v)
    case Denied => row.(denied := v)
    case InProgress => row.(inProgress := v)
    case Incomplete => row.(incomplete := v)
    case Pass => row.(pass := v)
    case Fail => row.(fail := v)
    case Withdrawn => row.(withdrawn := v)
  }

  /** Rows with the same id, label and cells are the same row. */
  lemma RowsEqual(r1: Row, r2: Row)
    requires r1.id == r2.id && r1.rowLabel == r2.rowLabel
    requires forall k :: Get(r1, k) == Get(r2, k)
    ensures r1 == r2
  {
    assert Get(r1, APlus) == Get(r2, APlus) && Get(r1, A) == Get(r2, A);
    assert Get(r1, BPlus) == Get(r2, BPlus) && Get(r1, B) == Get(r2, B);
    assert Get(r1, CPlus) == Get(r2, CPlus) && Get(r1, C) == Get(r2, C);
    assert Get(r1, DPlus) == Get(r2, DPlus) && Get(r1, D) == Get(r2, D);
    assert Get(r1, F) == Get(r2, F) && Get(r1, Denied) == Get(r2, Denied);
    assert Get(r1, InProgress) == Get(r2, InProgress) && Get(r1, Incomplete) == Get(r2, Incomplete);
    assert Get(r1, Pass) == Get(r2, Pass) && Get(r1, Fail) == Get(r2, Fail);
    assert Get(r1, Withdrawn) == Get(r2, Withdrawn);
  }

  /* ---------------- the initial table ---------------- */

  function BlankRow(id: string, rowLabel: string): Row {
    Row(id, Some(rowLabel), Text(""), Text(""), Text(""), Text(""), Text(""), Text(""), Text(""), Text(""), Text(""),
        Text(""), Text(""), Text(""), Text(""), Text(""), Text(""))
  }

  /** The table before any edit: a students row and a percentage row, every cell empty. */
  function InitialRows(): (r: seq<Row>)
    ensures |r| == 2
    ensures r[0].id == "students" && r[0].rowLabel == Some("Number of Students")
    ensures r[1].id == "percentage" && r[1].rowLabel == Some("Percentage")
    ensures forall i, k :: 0 <= i < |r| ==> Get(r[i], k) == Text("")
  {
    [BlankRow("students", "Number of Students"), BlankRow("percentage", "Percentage")]
  }

  /* ---------------- editing a cell ---------------- */

  /**
   * `updateCell`'s transform, `prev.map(row => row.id === rowId ? { ...row, [col]: value } : row)`:
   * the rows keep their number, order, ids and labels; the cell `col` of every row whose id
   * is `rowId` becomes `value`, and every other cell is unchanged.
   */
  function UpdateRows(rows: seq<Row>, rowId: string, col: Column, value: string): (r: seq<Row>)
    ensures |r| == |rows|
    ensures forall i :: 0 <= i < |rows| ==> r[i].id == rows[i].id && r[i].rowLabel == rows[i].rowLabel
    ensures forall i, k :: 0 <= i < |rows| ==>
              Get(r[i], k) == if rows[i].id == rowId && k == col then Text(value) else Get(rows[i], k)
  {
    if rows == [] then []
    else
      var head := if rows[0].id == rowId then WithCell(rows[0], col, Text(value)) else rows[0];
      [head] + UpdateRows(rows[1..], rowId, col, value)
  }

  /** Writing the same cell twice keeps only the second value. */
  lemma UpdateRowsLastWins(rows: seq<Row>, rowId: string, col: Column, v1: string, v2: string)
    ensures UpdateRows(UpdateRows(rows, rowId, col, v1), rowId, col, v2) == UpdateRows(rows, rowId, col, v2)
  {
    var once := UpdateRows(rows, rowId, col, v2);
    var twice := UpdateRows(UpdateRows(rows, rowId, col, v1), rowId, col, v2);
    forall i | 0 <= i < |rows|
      ensures twice[i] == once[i]
    {
      RowsEqual(twice[i], once[i]);
    }
  }

  /** Edits of different cells do not interfere: they can be applied in either order. */
  lemma UpdateRowsCommute(rows: seq<Row>, id1: string, c1: Column, v1: string, id2: string, c2: Column, v2: string)
    requires id1 != id2 || c1 != c2
    ensures UpdateRows(UpdateRows(rows, id1, c1, v1), id2, c2, v2) == UpdateRows(UpdateRows(rows, id2, c2, v2), id1, c1, v1)
  {
    var one := UpdateRows(UpdateRows(rows, id1, c1, v1), id2, c2, v2);
    var two := UpdateRows(UpdateRows(rows, id2, c2, v2), id1, c1, v1);
    forall i | 0 <= i < |rows|
      ensures one[i] == two[i]
    {
      RowsEqual(one[i], two[i]);
    }
  }

  /* ---------------- CSV import ---------------- */

  /** The CSV header each column is read from; `F` feeds both the F grade and Fail. */
  function CsvKey(col: Column): string {
    match col
    case APlus => "Ap"
    case A => "A"
    case BPlus => "Bp"
    case B => "B"
    case CPlus => "Cp"
    case C => "C"
    case DPlus => "Dp"
    case D => "D"
    case F => "F"
    case Denied => "DN"
    case InProgress => "IP"
    case Incomplete => "IC"
    case Pass => "P"
    case Fail => "F"
    case Withdrawn => "W"
  }

  /** Only the F grade and Fail share a CSV header; every other column has its own. */
  lemma CsvKeysDistinct(c1: Column, c2: Column)
    requires c1 != c2
    ensures CsvKey(c1) == CsvKey(c2) <==> (c1 == F && c2 == Fail) || (c1 == Fail && c2 == F)
  {
  }

  /** `Number(csvRow[key] || 0)`, with `parse` standing for `Number` on a non-empty text. */
  function CsvNumber(row: CsvRow, key: string, parse: string -> int): (n: int)
    ensures key !in row || row[key] == "" ==> n == 0
    ensures key in row && row[key] != "" ==> n == parse(row[key])
  {
    if key in row && row[key] != "" then parse(row[key]) else 0
  }

  /**
   * `csvToTableKeys`: the row is the students row exactly when `Field` is
   * "Number of Students" and the percentage row otherwise; its label is `Field`;
   * each column holds the number in its CSV column, 0 when that is missing or empty.
   */
  function CsvToTableKeys(row: CsvRow, parse: string -> int): (r: Row)
    ensures r.id == "students" <==> "Field" in row && row["Field"] == "Number of Students"
    ensures r.id != "students" ==> r.id == "percentage"
    ensures r.rowLabel == (if "Field" in row then Some(row["Field"]) else None)
    ensures forall k :: CsvKey(k) !in row || row[CsvKey(k)] == "" ==> Get(r, k) == Number(0)
    ensures forall k :: CsvKey(k) in row && row[CsvKey(k)] != "" ==> Get(r, k) == Number(parse(row[CsvKey(k)]))
    ensures r.fail == r.f
  {
    var field := if "Field" in row then Some(row["Field"]) else None;
    Row(
      if field == Some("Number of Students") then "students" else "percentage",
      field,
      Number(CsvNumber(row, "Ap", parse)),
      Number(CsvNumber(row, "A", parse)),
      Number(CsvNumber(row, "Bp", parse)),
      Number(CsvNumber(row, "B", parse)),
      Number(CsvNumber(row, "Cp", parse)),
      Number(CsvNumber(row, "C", parse)),
      Number(CsvNumber(row, "Dp", parse)),
      Number(CsvNumber(row, "D", parse)),
      Number(CsvNumber(row, "F", parse)),
      Number(CsvNumber(row, "DN", parse)),
      Number(CsvNumber(row, "IP", parse)),
      Number(CsvNumber(row, "IC", parse)),
      Number(CsvNumber(row, "P", parse)),
      Number(CsvNumber(row, "F", parse)),
      Number(CsvNumber(row, "W", parse)))
  }

  /** A CSV row labelled like one of the initial rows is imported under that row's id. */
  lemma InitialLabelsImportToTheirIds(row: CsvRow, parse: string -> int, i: int)
    requires 0 <= i < |InitialRows()|
    requires "Field" in row && row["Field"] == InitialRows()[i].rowLabel.value
    ensures CsvToTableKeys(row, parse).id == InitialRows()[i].id
  {
    assert InitialRows()[1].rowLabel.value != "Number of Students";
  }

  /** `parsedData.map(csvToTableKeys)`: one table row per CSV row, in order. */
  function CsvToTable(rows: seq<CsvRow>, parse: string -> int): (r: seq<Row>)
    ensures |r| == |rows|
    ensures forall i :: 0 <= i < |rows| ==> r[i] == CsvToTableKeys(rows[i], parse)
  {
    if rows == [] then [] else [CsvToTableKeys(rows[0], parse)] + CsvToTable(rows[1..], parse)
  }

  /* ---------------- the component's table state ---------------- */

  /** What the file picker hands over: no file, PapaParse's `results.data`, or a parse error. */
  datatype Upload = NoFile | Parsed(data: Option<seq<CsvRow>>) | ParseError(message: string)

  datatype Severity = Warn | Success | Error

  datatype Toast = Toast(severity: Severity, summary: string, detail: string)

  /** The component's `data` state, replaced wholesale by `setData`. */
  class StudentResultsTable {
    var data: seq<Row>

    constructor ()
      ensures data == InitialRows()
    {
      data := InitialRows();
    }

    /** `updateCell(rowId, col, value)` from a cell's input. */
    method UpdateCell(rowId: string, col: Column, value: string)
      modifies this
      ensures data == UpdateRows(old(data), rowId, col, value)
    {
      data := UpdateRows(data, rowId, col, value);
    }

    /**
     * `handleCsvUpload` through PapaParse's callbacks: an empty or missing result leaves
     * the table alone with a warning; a non-empty one replaces it, row for row; a parse
     * error leaves it alone and reports the error's message.
     */
    method HandleCsvUpload(upload: Upload, parse: string -> int) returns (toast: Option<Toast>)
      modifies this
      ensures upload.Parsed? && upload.data.Some? && upload.data.value != [] ==>
                data == CsvToTable(upload.data.value, parse) && toast == Some(Toast(Success, "CSV Upload", "Data successfully loaded!"))
      ensures upload.Parsed? && (upload.data.None? || upload.data.value == []) ==>
                data == old(data) && toast == Some(Toast(Warn, "CSV Upload", "CSV file is empty or invalid."))
      ensures upload.ParseError? ==> data == old(data) && toast == Some(Toast(Error, "CSV Upload Error", upload.message))
      ensures upload.NoFile? ==> data == old(data) && toast == None
    {
      match upload
      case NoFile =>
        toast := None;
      case ParseError(message) =>
        toast := Some(Toast(Error, "CSV Upload Error", message));
      case Parsed(parsedData) =>
        if parsedData.None? || parsedData.value == [] {
          toast := Some(Toast(Warn, "CSV Upload", "CSV file is empty or invalid."));
          return;
        }
        data := CsvToTable(parsedData.value, parse);
        toast := Some(Toast(Success, "CSV Upload", "Data successfully loaded!"));
    }
  }
}
