/**
 * row_to_tuple as it is written, and Python's comparison of the lists it returns.
 *
 * The source leaves the null marker of an 'integer' or 'numeric' column in the list as the
 * str '\N' (the decode is skipped, the cell is not replaced). Python 3 refuses to order a
 * str against an int or a Decimal, so a block whose rows put a null and a number at the
 * first position where their keys differ stops sort_dx with a TypeError. The rest of the
 * model places that null after every number instead; this module shows the failure and
 * that, whenever Python's comparison does not raise, the two orders agree.
 */
module PythonCompare {
  import opened Outcome
  import opened Text
  import opened Literals
  import opened Keys
  import opened Ordering
  import opened StableSort
  import opened SortDx

  /** An item of the list row_to_tuple returns: an int, a Decimal or a str. */
  datatype PyValue = PyInt(i: int) | PyDecimal(d: real) | PyStr(s: string)

  /** A decoded cell as the source leaves it: the null marker is still the str '\N'. */
  function AsWritten(c: Cell): (v: PyValue)
    ensures v.PyStr? <==> c.Null? || c.Str?
    ensures c.Null? ==> v == PyStr(NullMarker)
  {
    match c
    case Int(i) => PyInt(i)
    case Dec(d) => PyDecimal(d)
    case Null => PyStr(NullMarker)
    case Str(s) => PyStr(s)
  }

  /** The model's key with every item as the source leaves it. */
  function AsWrittenKey(k: Key): seq<PyValue> {
    seq(|k|, i requires 0 <= i < |k| => AsWritten(k[i]))
  }

  /**
   * The body of the for loop of row_to_tuple as written, on one cell: in an 'integer' column
   * a cell other than '\N' becomes int(cell), in a 'numeric' column Decimal(cell); every other
   * cell, the marker '\N' included, stays the str it is.
   */
  function PyCell(text: string, column: Column): Result<PyValue> {
    if column.dataType == "integer" then
      if text == "\\N" then Ok(PyStr(text))
      else
        match ParseInt(text)
        case Some(n) => Ok(PyInt(n))
        case None => Err(BadInteger(text))
    else if column.dataType == "numeric" then
      if text == "\\N" then Ok(PyStr(text))
      else
        match ParseDecimal(text)
        case Some(v) => Ok(PyDecimal(v))
        case None => Err(BadNumeric(text))
    else Ok(PyStr(text))
  }

  /**
   * The for loop of row_to_tuple as written: cell i is looked up against table_description[i],
   * which raises IndexError once the columns run out; the first raise stops the loop.
   */
  function PyCells(data: seq<string>, description: seq<Column>): Result<seq<PyValue>> {
    if |data| == 0 then Ok([])
    else if |description| == 0 then Err(TooManyCells(data))
    else
      match PyCell(data[0], description[0])
      case Err(e) => Err(e)
      case Ok(v) =>
        match PyCells(data[1..], description[1..])
        case Err(e) => Err(e)
        case Ok(rest) => Ok([v] + rest)
  }

  /** row_to_tuple(row, table, schema) exactly as written. */
  function PyRowKey(row: string, table: string, schema: Schema): Result<seq<PyValue>> {
    if table !in schema then Err(UnknownTable(table))
    else PyCells(Split(DropLast(row), Tab), schema[table])
  }

  /** One cell: the source and the model decode it alike, except that a null stays '\N'. */
  lemma PyCellAgrees(text: string, column: Column)
    ensures PyCell(text, column).Ok? <==> DecodeCell(text, KindOf(column)).Ok?
    ensures PyCell(text, column).Ok? ==> PyCell(text, column).value == AsWritten(DecodeCell(text, KindOf(column)).value)
    ensures PyCell(text, column).Err? ==> PyCell(text, column).error == DecodeCell(text, KindOf(column)).error
  {
  }

  /** The loop as written fails exactly where the model's fails, and otherwise gives its key as written. */
  lemma {:induction false} PyCellsAgree(data: seq<string>, description: seq<Column>)
    ensures PyCells(data, description).Ok? <==> DecodeCells(data, description).Ok?
    ensures PyCells(data, description).Ok? ==>
      PyCells(data, description).value == AsWrittenKey(DecodeCells(data, description).value)
    ensures PyCells(data, description).Err? ==> PyCells(data, description).error == DecodeCells(data, description).error
    decreases |data|
  {
    if |data| > 0 && |description| > 0 {
      PyCellAgrees(data[0], description[0]);
      PyCellsAgree(data[1..], description[1..]);
      var p, k := PyCells(data[1..], description[1..]), DecodeCells(data[1..], description[1..]);
      var c := DecodeCell(data[0], KindOf(description[0]));
      if c.Ok? && k.Ok? {
        assert AsWrittenKey([c.value] + k.value) == [AsWritten(c.value)] + AsWrittenKey(k.value);
      }
    }
  }

  /**
   * row_to_tuple as written raises exactly when the model's key fails, with the same error,
   * and otherwise returns the model's key with each null left as the str '\N'.
   */
  lemma PyRowKeyAgrees(row: string, table: string, schema: Schema)
    ensures PyRowKey(row, table, schema).Ok? <==> RowKey(row, table, schema).Ok?
    ensures PyRowKey(row, table, schema).Ok? ==>
      PyRowKey(row, table, schema).value == AsWrittenKey(RowKey(row, table, schema).value)
    ensures PyRowKey(row, table, schema).Err? ==> PyRowKey(row, table, schema).error == RowKey(row, table, schema).error
  {
    if table in schema {
      PyCellsAgree(Cells(row), schema[table]);
    }
  }

  /** The three ways Python's a < b can end. */
  datatype Comparison = Less | NotLess | TypeError

  function PyNumber(v: PyValue): real
    requires !v.PyStr?
  {
    if v.PyInt? then v.i as real else v.d
  }

  /** a == b: a str is never equal to a number; an int and a Decimal compare by value. */
  function PyEq(a: PyValue, b: PyValue): bool {
    if a.PyStr? && b.PyStr? then a.s == b.s
    else if a.PyStr? || b.PyStr? then false
    else PyNumber(a) == PyNumber(b)
  }

  /** a < b on two items: a str and a number cannot be ordered. */
  function PyLess(a: PyValue, b: PyValue): Comparison {
    if a.PyStr? && b.PyStr? then (if StrCmp(a.s, b.s) < 0 then Less else NotLess)
    else if a.PyStr? || b.PyStr? then TypeError
    else if PyNumber(a) < PyNumber(b) then Less else NotLess
  }

  /**
   * a < b on two lists: the first position whose items are not equal decides with the
   * items' own <; when there is none, the shorter list is the lesser.
   */
  function PyListLess(a: seq<PyValue>, b: seq<PyValue>): Comparison {
    if |a| == 0 || |b| == 0 then (if |a| < |b| then Less else NotLess)
    else if !PyEq(a[0], b[0]) then PyLess(a[0], b[0])
    else PyListLess(a[1..], b[1..])
  }

  /** At every position both keys hold a string, or both hold a number or a null. */
  predicate SameFamilies(a: Key, b: Key) {
    forall i :: 0 <= i < |a| && i < |b| ==> (a[i].Str? <==> b[i].Str?)
  }

  predicate NoNull(k: Key) {
    forall i :: 0 <= i < |k| ==> !k[i].Null?
  }

  /**
   * Where Python's comparison of two keys of one table does not raise, it says what KeyCmp
   * says; it raises only where a null meets a number, so never on keys without nulls.
   */
  lemma {:induction false} AgreesWhereDefined(a: Key, b: Key)
    requires SameFamilies(a, b)
    ensures PyListLess(AsWrittenKey(a), AsWrittenKey(b)) != TypeError ==>
      (PyListLess(AsWrittenKey(a), AsWrittenKey(b)) == Less <==> KeyCmp(a, b) < 0)
    ensures NoNull(a) && NoNull(b) ==> PyListLess(AsWrittenKey(a), AsWrittenKey(b)) != TypeError
    decreases |a|
  {
    var pa, pb := AsWrittenKey(a), AsWrittenKey(b);
    if |a| > 0 && |b| > 0 {
      var x, y := a[0], b[0];
      assert pa[0] == AsWritten(x) && pb[0] == AsWritten(y);
      if x.Str? && y.Str? {
        StrCmpAntisymmetric(x.s, y.s);
        StrCmpReflexive(x.s);
      }
      if PyEq(pa[0], pb[0]) {
        assert CellCmp(x, y) == 0;
        assert pa[1..] == AsWrittenKey(a[1..]);
        assert pb[1..] == AsWrittenKey(b[1..]);
        AgreesWhereDefined(a[1..], b[1..]);
      }
    }
  }

  /** The keys of two rows of one table hold strings at the same positions. */
  lemma RowKeysSameFamilies(r0: string, r1: string, table: string, schema: Schema)
    requires RowKey(r0, table, schema).Ok? && RowKey(r1, table, schema).Ok?
    ensures SameFamilies(RowKey(r0, table, schema).value, RowKey(r1, table, schema).value)
  {
    var k0, k1 := RowKey(r0, table, schema).value, RowKey(r1, table, schema).value;
    var columns := schema[table];
    forall i | 0 <= i < |k0| && i < |k1| ensures k0[i].Str? <==> k1[i].Str? {
      var kind := KindOf(columns[i]);
      StrOnlyInText(Cells(r0)[i], kind, k0[i]);
      StrOnlyInText(Cells(r1)[i], kind, k1[i]);
    }
  }

  lemma StrOnlyInText(text: string, kind: ColumnKind, c: Cell)
    requires DecodeCell(text, kind) == Ok(c)
    ensures c.Str? <==> kind == TextColumn
  {
  }

  /** How sorted(rows, key=row_to_tuple) ends in the source. */
  datatype PySorted = Sorted(lines: seq<string>) | Raised(error: Error) | Unorderable

  /**
   * sorted on a block of two rows as CPython runs it: both keys are computed in order, then
   * one comparison, the second key < the first, decides whether the rows swap.
   */
  function SortPairAsWritten(r0: string, r1: string, table: string, schema: Schema): (r: PySorted)
    ensures r.Sorted? ==> multiset(r.lines) == multiset([r0, r1])
  {
    match PyRowKey(r0, table, schema)
    case Err(e) => Raised(e)
    case Ok(k0) =>
      match PyRowKey(r1, table, schema)
      case Err(e) => Raised(e)
      case Ok(k1) =>
        match PyListLess(k1, k0)
        case Less => Sorted([r1, r0])
        case NotLess => Sorted([r0, r1])
        case TypeError => Unorderable
  }

  /** Whenever the source sorts a two-row block without raising, the model gives its result. */
  lemma SortPairAgrees(r0: string, r1: string, table: string, schema: Schema)
    ensures SortPairAsWritten(r0, r1, table, schema).Sorted? ==>
      SortedBlock([r0, r1], table, schema) == Ok(SortPairAsWritten(r0, r1, table, schema).lines)
    ensures SortPairAsWritten(r0, r1, table, schema).Raised? ==>
      SortedBlock([r0, r1], table, schema) == Err(SortPairAsWritten(r0, r1, table, schema).error)
  {
    if RowKey(r0, table, schema).Err? || RowKey(r1, table, schema).Err? {
      PairKeyFails(r0, r1, table, schema);
    } else {
      PairKeysDerive(r0, r1, table, schema);
    }
  }

  /** When a key cannot be computed, the source raises and sort_dx reports the same error. */
  lemma PairKeyFails(r0: string, r1: string, table: string, schema: Schema)
    requires RowKey(r0, table, schema).Err? || RowKey(r1, table, schema).Err?
    ensures SortPairAsWritten(r0, r1, table, schema).Raised?
    ensures SortedBlock([r0, r1], table, schema) == Err(SortPairAsWritten(r0, r1, table, schema).error)
  {
    var rows, key := [r0, r1], RowKeyOf(table, schema);
    assert key(r0) == RowKey(r0, table, schema) && key(r1) == RowKey(r1, table, schema);
    if RowKey(r0, table, schema).Err? {
      FirstErrorDecides(rows, key, 0);
      PairRaisesAt(r0, r1, table, schema, 0);
    } else {
      assert forall j :: 0 <= j < 1 ==> key(rows[j]).Ok?;
      FirstErrorDecides(rows, key, 1);
      PairRaisesAt(r0, r1, table, schema, 1);
    }
  }

  /** The key of row i of the pair is the first that fails: the source raises its error. */
  lemma PairRaisesAt(r0: string, r1: string, table: string, schema: Schema, i: nat)
    requires i < 2 && RowKey([r0, r1][i], table, schema).Err?
    requires i == 1 ==> RowKey(r0, table, schema).Ok?
    ensures SortPairAsWritten(r0, r1, table, schema) == Raised(RowKey([r0, r1][i], table, schema).error)
  {
    PyRowKeyAgrees(r0, table, schema);
    PyRowKeyAgrees(r1, table, schema);
    if i == 0 {
      assert PyRowKey(r0, table, schema).Err?;
    } else {
      assert PyRowKey(r0, table, schema).Ok? && PyRowKey(r1, table, schema).Err?;
    }
  }

  lemma PairKeysDerive(r0: string, r1: string, table: string, schema: Schema)
    requires RowKey(r0, table, schema).Ok? && RowKey(r1, table, schema).Ok?
    ensures !SortPairAsWritten(r0, r1, table, schema).Raised?
    ensures SortPairAsWritten(r0, r1, table, schema).Sorted? ==>
      SortedBlock([r0, r1], table, schema) == Ok(SortPairAsWritten(r0, r1, table, schema).lines)
  {
    var k0, k1 := RowKey(r0, table, schema).value, RowKey(r1, table, schema).value;
    RowKeysSameFamilies(r1, r0, table, schema);
    AgreesWhereDefined(k1, k0);
    SortedPair(r0, r1, RowKeyOf(table, schema), k0, k1);
    var c := PyListLess(AsWrittenKey(k1), AsWrittenKey(k0));
    PyRowKeyAgrees(r0, table, schema);
    PyRowKeyAgrees(r1, table, schema);
    assert PyRowKey(r0, table, schema) == Ok(AsWrittenKey(k0));
    assert PyRowKey(r1, table, schema) == Ok(AsWrittenKey(k1));
    assert c == Less ==> SortPairAsWritten(r0, r1, table, schema) == Sorted([r1, r0]);
    assert c == NotLess ==> SortPairAsWritten(r0, r1, table, schema) == Sorted([r0, r1]);
  }

  /** The model's sort of two rows whose keys derive: swapped exactly when the second is less. */
  lemma SortedPair(r0: string, r1: string, key: string -> Result<Key>, k0: Key, k1: Key)
    requires key(r0) == Ok(k0) && key(r1) == Ok(k1)
    ensures KeyCmp(k1, k0) < 0 ==> SortedBy([r0, r1], key) == Ok([r1, r0])
    ensures KeyCmp(k1, k0) >= 0 ==> SortedBy([r0, r1], key) == Ok([r0, r1])
  {
    KeyRowsOfTwo(r0, r1, key);
    var items := [Row(r0, k0), Row(r1, k1)];
    assert items[..1] == [Row(r0, k0)];
    assert InsSort([Row(r0, k0)]) == [Row(r0, k0)] by { assert [Row(r0, k0)][..0] == []; }
    assert InsSort(items) == Insert(Row(r1, k1), [Row(r0, k0)]);
    assert SortedBy([r0, r1], key) == Ok(Lines(InsSort(items)));
    if KeyCmp(k1, k0) < 0 {
      assert InsSort(items) == [Row(r1, k1), Row(r0, k0)];
      assert Lines([Row(r1, k1), Row(r0, k0)]) == [r1, r0];
    } else {
      assert Insert(Row(r1, k1), [Row(r0, k0)]) == items by {
        assert [Row(r0, k0)][1..] == [];
        assert Insert(Row(r1, k1), []) == [Row(r1, k1)];
        assert [Row(r0, k0)] + [Row(r1, k1)] == items;
      }
      assert InsSort(items) == items;
      assert Lines(items) == [r0, r1];
    }
  }

  /** One 'integer' column. */
  const IdOnly: Schema := map["t" := [Column("id", "integer", None)]]

  lemma OneCellRow(row: string, text: string, cell: Cell, cols: seq<Column>)
    requires row == text + "\n" && Tab !in text
    requires cols == [Column("id", "integer", None)]
    requires DecodeCell(text, IntegerColumn) == Ok(cell)
    ensures DecodeCells(Cells(row), cols) == Ok([cell])
  {
    assert DropLast(row) == text;
    assert Cells(row) == [text];
    assert KindOf(cols[0]) == IntegerColumn;
    assert [text][1..] == [];
    assert [cell] + [] == [cell];
  }

  lemma NullAndFiveKeys()
    ensures RowKey("\\N\n", "t", IdOnly) == Ok([Null])
    ensures RowKey("5\n", "t", IdOnly) == Ok([Int(5)])
  {
    assert Tab !in NullMarker;
    OneCellRow("\\N\n", NullMarker, Null, IdOnly["t"]);
    assert IsDigits("5") && DigitsValue("5") == 5;
    assert "5"[0] != '-';
    assert DecodeCell("5", IntegerColumn) == Ok(Int(5));
    OneCellRow("5\n", "5", Int(5), IdOnly["t"]);
  }

  /**
   * As written: a null and a number in an 'integer' column cannot be sorted; the one
   * comparison CPython makes on the two keys, [5] < ['\N'], raises TypeError.
   */
  lemma NullBesideNumberRaises()
    ensures PyRowKey("\\N\n", "t", IdOnly) == Ok([PyStr("\\N")])
    ensures PyRowKey("5\n", "t", IdOnly) == Ok([PyInt(5)])
    ensures SortPairAsWritten("\\N\n", "5\n", "t", IdOnly) == Unorderable
  {
    NullAndFiveKeys();
    PyRowKeyAgrees("\\N\n", "t", IdOnly);
    PyRowKeyAgrees("5\n", "t", IdOnly);
    assert AsWrittenKey([Null]) == [PyStr("\\N")];
    assert AsWrittenKey([Int(5)]) == [PyInt(5)];
    assert PyListLess([PyInt(5)], [PyStr("\\N")]) == TypeError;
  }

  /** As modelled: the same block sorts, the number first and the null after it. */
  lemma NullSortsAfterNumber()
    ensures SortedBlock(["\\N\n", "5\n"], "t", IdOnly) == Ok(["5\n", "\\N\n"])
  {
    NullAndFiveKeys();
    assert KeyCmp([Int(5)], [Null]) < 0 by { assert CellCmp(Int(5), Null) < 0; }
    SortedByTwoSwapped("\\N\n", "5\n", RowKeyOf("t", IdOnly), [Null], [Int(5)]);
  }
}
