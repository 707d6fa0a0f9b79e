/**
 * The sort key of one row of a COPY block (row_to_tuple in sort_dx): the row loses its
 * last character, is split on tabs, and each cell is decoded by the declared type of the
 * column at the same position in the table's schema entry.
 */
module Keys {
  import opened Outcome
  import opened Text
  import opened Literals

  /** One schema entry: (column_name, data_type, character_maximum_length). */
  datatype Column = Column(name: string, dataType: string, maxLength: Option<int>)

  /**
   * Table name to its columns. The i-th column is taken to describe the i-th cell of
   * every row of that table.
   */
  type Schema = map<string, seq<Column>>

  /** Only the exact type names 'integer' and 'numeric' get numeric treatment. */
  datatype ColumnKind = IntegerColumn | NumericColumn | TextColumn

  function KindOf(c: Column): (k: ColumnKind)
    ensures k == IntegerColumn <==> c.dataType == "integer"
    ensures k == NumericColumn <==> c.dataType == "numeric"
  {
    if c.dataType == "integer" then IntegerColumn
    else if c.dataType == "numeric" then NumericColumn
    else TextColumn
  }

  /** The COPY text format's marker for SQL NULL: a backslash and a capital N. */
  const NullMarker: string := "\\N"

  /**
   * A decoded cell. Null is the null marker in an 'integer' or 'numeric' column; in any
   * other column the marker is an ordinary string.
   */
  datatype Cell = Int(i: int) | Dec(d: real) | Null | Str(s: string)

  type Key = seq<Cell>

  /** The cell a literal decodes to in a column of the given kind, or why it does not decode. */
  function DecodeCell(text: string, kind: ColumnKind): (r: Result<Cell>)
    ensures kind == TextColumn ==> r == Ok(Str(text))
    ensures kind != TextColumn && text == NullMarker ==> r == Ok(Null)
    ensures r.Err? ==> kind != TextColumn && text != NullMarker
    ensures kind == IntegerColumn && r.Ok? && text != NullMarker ==> r.value.Int? && ParseInt(text) == Some(r.value.i)
    ensures kind == NumericColumn && r.Ok? && text != NullMarker ==> r.value.Dec? && ParseDecimal(text) == Some(r.value.d)
    ensures kind == IntegerColumn && r.Err? ==> r.error == BadInteger(text) && ParseInt(text).None?
    ensures kind == NumericColumn && r.Err? ==> r.error == BadNumeric(text) && ParseDecimal(text).None?
  {
    match kind
    case TextColumn => Ok(Str(text))
    case IntegerColumn =>
      if text == NullMarker then Ok(Null)
      else (match ParseInt(text)
            case Some(n) => Ok(Int(n))
            case None => Err(BadInteger(text)))
    case NumericColumn =>
      if text == NullMarker then Ok(Null)
      else (match ParseDecimal(text)
            case Some(v) => Ok(Dec(v))
            case None => Err(BadNumeric(text)))
  }

  /**
   * The loop of row_to_tuple: cells are decoded left to right against the columns at the
   * same position; the first cell with no column, or the first cell that does not decode,
   * stops it. Fewer cells than columns is accepted.
   */
  function DecodeCells(cells: seq<string>, columns: seq<Column>): (r: Result<Key>)
    ensures r.Ok? ==> |r.value| == |cells| <= |columns|
    ensures r.Ok? ==> forall i :: 0 <= i < |cells| ==> DecodeCell(cells[i], KindOf(columns[i])) == Ok(r.value[i])
    ensures r.Ok? <==> |cells| <= |columns| && forall i :: 0 <= i < |cells| ==> DecodeCell(cells[i], KindOf(columns[i])).Ok?
  {
    if |cells| == 0 then Ok([])
    else if |columns| == 0 then Err(TooManyCells(cells))
    else
      match DecodeCell(cells[0], KindOf(columns[0]))
      case Err(e) => Err(e)
      case Ok(c) =>
        match DecodeCells(cells[1..], columns[1..])
        case Err(e) => Err(e)
        case Ok(rest) => Ok([c] + rest)
  }

  /** The cells of a row line: drop its end-of-line character, split on tabs. */
  function Cells(row: string): seq<string> {
    Split(DropLast(row), Tab)
  }

  /** row_to_tuple(row, table, schema) */
  function RowKey(row: string, table: string, schema: Schema): Result<Key> {
    if table !in schema then Err(UnknownTable(table))
    else DecodeCells(Cells(row), schema[table])
  }

  /**
   * A row of a table the schema lacks raises KeyError; otherwise its key is its cells, each
   * decoded by the column at its position, and it fails exactly when a cell has no column or
   * does not decode.
   */
  lemma RowKeyDecodes(row: string, table: string, schema: Schema)
    ensures table !in schema ==> RowKey(row, table, schema) == Err(UnknownTable(table))
    ensures var r := RowKey(row, table, schema);
      r.Ok? ==> table in schema && |r.value| == |Cells(row)| <= |schema[table]|
    ensures var r := RowKey(row, table, schema);
      r.Ok? ==> forall i :: 0 <= i < |r.value| ==> DecodeCell(Cells(row)[i], KindOf(schema[table][i])) == Ok(r.value[i])
    ensures table in schema ==>
      (RowKey(row, table, schema).Ok? <==> (|Cells(row)| <= |schema[table]| &&
                   forall i :: 0 <= i < |Cells(row)| ==> DecodeCell(Cells(row)[i], KindOf(schema[table][i])).Ok?))
  {
  }

  /** Integer cells that differ only by a leading zero give the same key element: 07 and 7, -07 and -7. */
  lemma LeadingZeroCell(sign: string, d: string)
    requires sign == "" || sign == "-"
    requires IsDigits(d)
    ensures DecodeCell(sign + d, IntegerColumn).Ok?
    ensures DecodeCell(sign + "0" + d, IntegerColumn) == DecodeCell(sign + d, IntegerColumn)
  {
    IntLeadingZero(sign, d);
    assert sign + "0" + d == sign + ("0" + d);
    if sign == "-" {
      assert (sign + d)[0] == '-' && (sign + ("0" + d))[0] == '-';
    } else {
      assert sign + d == d && sign + ("0" + d) == "0" + d;
      assert d[0] != NullMarker[0] by { assert IsDigit(d[0]); }
    }
  }

  /** Numeric cells that differ only by a trailing zero give the same key element: 1.5 and 1.50. */
  lemma TrailingZeroCell(sign: string, whole: string, fraction: string)
    requires sign == "" || sign == "-"
    requires IsDigits(whole) && IsDigits(fraction)
    ensures DecodeCell(sign + (whole + "." + fraction), NumericColumn).Ok?
    ensures DecodeCell(sign + (whole + "." + fraction + "0"), NumericColumn)
         == DecodeCell(sign + (whole + "." + fraction), NumericColumn)
  {
    TrailingZero(sign, whole, fraction);
    SameUnsignedSameSigned(sign, whole + "." + fraction, whole + "." + fraction);
    assert (sign + (whole + "." + fraction))[0] != NullMarker[0] by { assert IsDigit(whole[0]); }
    assert (sign + (whole + "." + fraction + "0"))[0] != NullMarker[0] by { assert IsDigit(whole[0]); }
  }

  /**
   * When the first i cells decode, a failure of the remaining cells against the remaining
   * columns is the failure of the whole row.
   */
  lemma {:induction false} DecodeCellsFrom(cells: seq<string>, columns: seq<Column>, i: nat)
    requires i <= |cells| && i <= |columns|
    requires forall j :: 0 <= j < i ==> DecodeCell(cells[j], KindOf(columns[j])).Ok?
    ensures DecodeCells(cells[i..], columns[i..]).Err? ==> DecodeCells(cells, columns) == DecodeCells(cells[i..], columns[i..])
    decreases i
  {
    if i > 0 {
      assert DecodeCell(cells[0], KindOf(columns[0])).Ok?;
      DecodeCellsFrom(cells[1..], columns[1..], i - 1);
      assert cells[1..][i - 1..] == cells[i..];
      assert columns[1..][i - 1..] == columns[i..];
    }
  }

  /**
   * row_to_tuple as the loop it is: the cells of the row are rewritten in place, left to
   * right, each by the declared type of the column at its position.
   */
  method RowToTuple(row: string, table: string, schema: Schema) returns (r: Result<Key>)
    ensures r == RowKey(row, table, schema)
  {
    if table !in schema {
      return Err(UnknownTable(table));
    }
    r := DecodeInPlace(Cells(row), schema[table]);
  }

  /** The for loop of row_to_tuple: cell i becomes its decoded value, or the loop raises. */
  method DecodeInPlace(cells: seq<string>, description: seq<Column>) returns (r: Result<Key>)
    ensures r == DecodeCells(cells, description)
  {
    var data: seq<Cell> := seq(|cells|, j requires 0 <= j < |cells| => Str(cells[j]));
    var i := 0;
    while i < |data|
      invariant 0 <= i <= |data| == |cells|
      invariant i <= |description|
      invariant forall j :: 0 <= j < i ==> DecodeCell(cells[j], KindOf(description[j])) == Ok(data[j])
      invariant forall j :: i <= j < |data| ==> data[j] == Str(cells[j])
    {
      if i >= |description| {
        DecodeCellsFrom(cells, description, i);
        return Err(TooManyCells(cells[i..]));
      }
      var text := data[i].s;
      assert text == cells[i];
      var kind := KindOf(description[i]);
      var cell := data[i];
      if kind == IntegerColumn && text != NullMarker {
        match ParseInt(text)
        case None =>
          DecodeCellsFrom(cells, description, i);
          assert cells[i..][0] == text;
          return Err(BadInteger(text));
        case Some(n) =>
          cell := Int(n);
      } else if kind == NumericColumn && text != NullMarker {
        match ParseDecimal(text)
        case None =>
          DecodeCellsFrom(cells, description, i);
          assert cells[i..][0] == text;
          return Err(BadNumeric(text));
        case Some(v) =>
          cell := Dec(v);
      } else if kind != TextColumn {
        cell := Null;
      }
      assert DecodeCell(cells[i], kind) == Ok(cell);
      data := data[i := cell];
      i := i + 1;
    }
    var decoded := DecodeCells(cells, description);
    assert decoded.Ok?;
    assert decoded.value == data;
    return Ok(data);
  }

  /**
   * The cells of a row are exactly the tab-separated pieces of the row without its last
   * character: joining them with tabs and putting the last character back gives the row.
   */
  lemma CellsRebuildRow(row: string)
    requires |row| > 0
    ensures Join(Cells(row), Tab) + [row[|row| - 1]] == row
    ensures |Cells(row)| == multiset(row[..|row| - 1])[Tab] + 1
  {
  }
}
