/**
 * sort_dx: sorted(rows, key=row_to_tuple): the row lines of one COPY block, reordered by
 * their keys with a stable sort. Every key is computed, in input order, before anything is
 * compared, so the first row whose key fails decides the error, and a block with no rows
 * never looks its table up. The properties are proved for any key function and then hold
 * for row_to_tuple (RowKeyOf).
 */
module SortDx {
  import opened Outcome
  import opened Text
  import opened Literals
  import opened Keys
  import opened Ordering
  import opened Sequences
  import opened StableSort

  /** The key function sort_dx hands to sorted: row_to_tuple with the table and schema fixed. */
  function RowKeyOf(table: string, schema: Schema): string -> Result<Key> {
    line => RowKey(line, table, schema)
  }

  /** The rows paired with their keys, computed in input order; the first failing key stops it. */
  function KeyRows(rows: seq<string>, key: string -> Result<Key>): (r: Result<seq<Row>>)
    ensures r.Ok? <==> forall i :: 0 <= i < |rows| ==> key(rows[i]).Ok?
    ensures r.Ok? ==> |r.value| == |rows|
    ensures r.Ok? ==> forall i :: 0 <= i < |rows| ==> r.value[i] == Row(rows[i], key(rows[i]).value)
  {
    if |rows| == 0 then Ok([])
    else
      match key(rows[0])
      case Err(e) => Err(e)
      case Ok(k) =>
        match KeyRows(rows[1..], key)
        case Err(e) => Err(e)
        case Ok(rest) => Ok([Row(rows[0], k)] + rest)
  }

  /** sorted(rows, key=key): the lines in the order of a stable sort by key. */
  function SortedBy(rows: seq<string>, key: string -> Result<Key>): Result<seq<string>> {
    match KeyRows(rows, key)
    case Err(e) => Err(e)
    case Ok(items) => Ok(Lines(InsSort(items)))
  }

  /** sort_dx(rows, table, schema) */
  function SortedBlock(rows: seq<string>, table: string, schema: Schema): Result<seq<string>> {
    SortedBy(rows, RowKeyOf(table, schema))
  }

  /** sorted(rows, key=key) as a program: computes every key, sorts in place, reads the lines back. */
  method SortByKey(rows: seq<string>, key: string -> Result<Key>) returns (r: Result<seq<string>>)
    ensures r == SortedBy(rows, key)
  {
    var keyed := KeyAll(rows, key);
    if keyed.Err? {
      return Err(keyed.error);
    }
    var items := keyed.value;
    var a := new Row[|items|](j requires 0 <= j < |items| => items[j]);
    assert a[..] == items;
    SortInPlace(a);
    var out := ReadLines(a);
    return Ok(out);
  }

  /** The keys of all rows, computed in input order; the first failing key stops the loop. */
  method KeyAll(rows: seq<string>, key: string -> Result<Key>) returns (r: Result<seq<Row>>)
    ensures r == KeyRows(rows, key)
  {
    var items: seq<Row> := [];
    var i := 0;
    while i < |rows|
      invariant 0 <= i <= |rows|
      invariant |items| == i
      invariant forall j :: 0 <= j < i ==> key(rows[j]).Ok? && items[j] == Row(rows[j], key(rows[j]).value)
    {
      var k := key(rows[i]);
      if k.Err? {
        FirstErrorDecides(rows, key, i);
        return Err(k.error);
      }
      items := items + [Row(rows[i], k.value)];
      i := i + 1;
    }
    assert items == KeyRows(rows, key).value;
    return Ok(items);
  }

  /** The lines of the sorted rows, in array order. */
  method ReadLines(a: array<Row>) returns (out: seq<string>)
    ensures out == Lines(a[..])
  {
    out := [];
    for j := 0 to a.Length
      invariant |out| == j
      invariant forall m :: 0 <= m < j ==> out[m] == a[m].line
    {
      out := out + [a[j].line];
    }
  }

  /** sort_dx(rows, table, schema) as a program. */
  method SortBlock(rows: seq<string>, table: string, schema: Schema) returns (r: Result<seq<string>>)
    ensures r == SortedBlock(rows, table, schema)
  {
    r := SortByKey(rows, RowKeyOf(table, schema));
  }

  /** When every row before index i has a key and row i has none, row i's error is the block's. */
  lemma {:induction false} FirstErrorDecides(rows: seq<string>, key: string -> Result<Key>, i: nat)
    requires i < |rows| && key(rows[i]).Err?
    requires forall j :: 0 <= j < i ==> key(rows[j]).Ok?
    ensures KeyRows(rows, key) == Err(key(rows[i]).error)
    ensures SortedBy(rows, key) == Err(key(rows[i]).error)
  {
    if i > 0 {
      assert key(rows[0]).Ok?;
      FirstErrorDecides(rows[1..], key, i - 1);
    }
  }

  /** Every row's key is the key of its own line. */
  ghost predicate KeyedByLine(s: seq<Row>, key: string -> Result<Key>) {
    forall x :: x in s ==> key(x.line) == Ok(x.key)
  }

  /** The keyed rows of a block, their stable sort, and what is known of both. */
  lemma SortedRowsFacts(rows: seq<string>, key: string -> Result<Key>)
    requires KeyRows(rows, key).Ok?
    ensures var items := KeyRows(rows, key).value;
      && Lines(items) == rows
      && KeyedByLine(items, key)
      && KeyedByLine(InsSort(items), key)
      && multiset(InsSort(items)) == multiset(items)
      && Sorted(InsSort(items))
  {
    var items := KeyRows(rows, key).value;
    assert Lines(items) == rows;
    InsSortPermutation(items);
    InsSortSorted(items);
    forall x | x in InsSort(items) ensures key(x.line) == Ok(x.key) {
      assert x in multiset(InsSort(items));
    }
  }

  /** sorted returns a permutation of its input lines, each line's text unchanged. */
  lemma SortedByPermutation(rows: seq<string>, key: string -> Result<Key>)
    requires SortedBy(rows, key).Ok?
    ensures multiset(SortedBy(rows, key).value) == multiset(rows)
  {
    var items := KeyRows(rows, key).value;
    SortedRowsFacts(rows, key);
    MapPermutation(RowLine, InsSort(items), items);
  }

  /** sorted's output is non-decreasing in the keys of its lines. */
  lemma SortedByOrdered(rows: seq<string>, key: string -> Result<Key>)
    requires SortedBy(rows, key).Ok?
    ensures var out := SortedBy(rows, key).value;
      forall i, j :: 0 <= i < j < |out| ==>
        key(out[i]).Ok? && key(out[j]).Ok? && KeyCmp(key(out[i]).value, key(out[j]).value) <= 0
  {
    var items := KeyRows(rows, key).value;
    SortedRowsFacts(rows, key);
    var sorted := InsSort(items);
    forall i | 0 <= i < |sorted| ensures key(sorted[i].line) == Ok(sorted[i].key) {
      assert sorted[i] in sorted;
    }
  }

  /** The lines whose key is equivalent to k, in their order. */
  function LinesWithKey(lines: seq<string>, key: string -> Result<Key>, k: Key): seq<string> {
    if |lines| == 0 then []
    else
      var c := key(lines[0]);
      (if c.Ok? && KeyCmp(c.value, k) == 0 then [lines[0]] else []) + LinesWithKey(lines[1..], key, k)
  }

  lemma {:induction false} LinesWithKeyOfRows(s: seq<Row>, key: string -> Result<Key>, k: Key)
    requires KeyedByLine(s, key)
    ensures LinesWithKey(Lines(s), key, k) == Lines(Filter(s, k))
  {
    if |s| > 0 {
      assert s[0] in s;
      assert Lines(s)[1..] == Lines(s[1..]);
      LinesWithKeyOfRows(s[1..], key, k);
      var head := if KeyCmp(s[0].key, k) == 0 then [s[0]] else [];
      MapConcat(RowLine, head, Filter(s[1..], k));
    }
  }

  /**
   * sorted is stable: for every key, the lines with an equivalent key come out in their
   * input order, byte-identical duplicates included.
   */
  lemma SortedByStable(rows: seq<string>, key: string -> Result<Key>, k: Key)
    requires SortedBy(rows, key).Ok?
    ensures LinesWithKey(SortedBy(rows, key).value, key, k) == LinesWithKey(rows, key, k)
  {
    var items := KeyRows(rows, key).value;
    SortedRowsFacts(rows, key);
    LinesWithKeyOfRows(InsSort(items), key, k);
    LinesWithKeyOfRows(items, key, k);
    InsSortStable(items, k);
  }

  /** sorted applied to its own output returns it unchanged. */
  lemma SortedByIdempotent(rows: seq<string>, key: string -> Result<Key>)
    requires SortedBy(rows, key).Ok?
    ensures SortedBy(SortedBy(rows, key).value, key) == SortedBy(rows, key)
  {
    var items := KeyRows(rows, key).value;
    SortedRowsFacts(rows, key);
    var sorted := InsSort(items);
    var out := Lines(sorted);
    forall i | 0 <= i < |out| ensures key(out[i]) == Ok(sorted[i].key) {
      assert sorted[i] in sorted;
    }
    assert KeyRows(out, key).value == sorted;
    SortedIsFixpoint(sorted);
  }

  /** Lines whose keys are equivalent are the same line. */
  ghost predicate EqualKeysEqualLines(rows: seq<string>, key: string -> Result<Key>) {
    forall a, b ::
      (a in rows && b in rows && key(a).Ok? && key(b).Ok? && KeyCmp(key(a).value, key(b).value) == 0) ==> a == b
  }

  /** The row a line becomes once its key is known. */
  function Keyed(key: string -> Result<Key>): string -> Row {
    line => Row(line, match key(line) case Ok(k) => k case Err(_) => [])
  }

  /**
   * Order independence: when equal keys come only from identical lines, any reordering of
   * the input gives the same sorted output.
   */
  lemma SortedByOrderIndependent(rows: seq<string>, other: seq<string>, key: string -> Result<Key>)
    requires multiset(rows) == multiset(other)
    requires SortedBy(rows, key).Ok?
    requires EqualKeysEqualLines(rows, key)
    ensures SortedBy(other, key) == SortedBy(rows, key)
  {
    KeyedPermutation(rows, other, key);
    DistinctKeys(rows, key);
    OrderIndependent(KeyRows(rows, key).value, KeyRows(other, key).value);
  }

  /** Reordering the lines reorders their keyed rows the same way. */
  lemma KeyedPermutation(rows: seq<string>, other: seq<string>, key: string -> Result<Key>)
    requires multiset(rows) == multiset(other)
    requires KeyRows(rows, key).Ok?
    ensures KeyRows(other, key).Ok?
    ensures multiset(KeyRows(other, key).value) == multiset(KeyRows(rows, key).value)
  {
    forall i | 0 <= i < |other| ensures key(other[i]).Ok? {
      assert other[i] in multiset(rows);
    }
    assert KeyRows(rows, key).value == MapSeq(Keyed(key), rows);
    assert KeyRows(other, key).value == MapSeq(Keyed(key), other);
    MapPermutation(Keyed(key), rows, other);
  }

  /** When equal keys come only from identical lines, equal keys come only from identical rows. */
  lemma DistinctKeys(rows: seq<string>, key: string -> Result<Key>)
    requires KeyRows(rows, key).Ok?
    requires EqualKeysEqualLines(rows, key)
    ensures EquivalentAreIdentical(KeyRows(rows, key).value)
  {
    var items := KeyRows(rows, key).value;
    forall x, y | x in items && y in items && KeyCmp(x.key, y.key) == 0 ensures x == y {
      var i :| 0 <= i < |items| && items[i] == x;
      var j :| 0 <= j < |items| && items[j] == y;
      assert rows[i] in rows && rows[j] in rows;
    }
  }

  /** sort_dx applied to its own output returns it unchanged. */
  lemma SortedBlockIdempotent(rows: seq<string>, table: string, schema: Schema)
    requires SortedBlock(rows, table, schema).Ok?
    ensures SortedBlock(SortedBlock(rows, table, schema).value, table, schema) == SortedBlock(rows, table, schema)
  {
    SortedByIdempotent(rows, RowKeyOf(table, schema));
  }

  /** An empty block is returned as it is, whether or not the schema knows the table. */
  lemma EmptyBlock(table: string, schema: Schema)
    ensures SortedBlock([], table, schema) == Ok([])
  {
    assert InsSort([]) == [];
  }

  /**
   * A block of one row still has its key computed: it comes back unchanged when the key
   * derives, and the key's failure is the block's failure otherwise.
   */
  lemma SingleRow(row: string, table: string, schema: Schema)
    ensures RowKey(row, table, schema).Ok? ==> SortedBlock([row], table, schema) == Ok([row])
    ensures RowKey(row, table, schema).Err? ==> SortedBlock([row], table, schema) == Err(RowKey(row, table, schema).error)
  {
    var key := RowKeyOf(table, schema);
    if key(row).Ok? {
      var items := KeyRows([row], key).value;
      assert items == [Row(row, key(row).value)];
      assert InsSort(items) == items by { assert items[..0] == []; }
      assert Lines(items) == [row];
    } else {
      FirstErrorDecides([row], key, 0);
    }
  }

  /** Two rows whose keys both derive: KeyRows pairs each line with its key. */
  lemma KeyRowsOfTwo(r1: string, r2: string, key: string -> Result<Key>)
    requires key(r1).Ok? && key(r2).Ok?
    ensures KeyRows([r1, r2], key) == Ok([Row(r1, key(r1).value), Row(r2, key(r2).value)])
  {
    var rows := [r1, r2];
    assert forall i :: 0 <= i < |rows| ==> key(rows[i]).Ok?;
    var v := KeyRows(rows, key).value;
    assert |v| == 2 && v[0] == Row(r1, key(r1).value) && v[1] == Row(r2, key(r2).value);
    assert v == [Row(r1, key(r1).value), Row(r2, key(r2).value)];
  }

  /** Two rows, the second strictly before the first: the sort swaps them. */
  lemma SortTwoSwapped(a: Row, b: Row)
    requires KeyCmp(b.key, a.key) < 0
    ensures InsSort([a, b]) == [b, a]
  {
    assert [a, b][..1] == [a];
    assert InsSort([a]) == [a] by { assert [a][..0] == []; }
  }

  /** An 'integer' id column and a 'numeric' amount column. */
  const IdAmount: Schema := map["t" := [Column("id", "integer", None), Column("amt", "numeric", None)]]

  lemma NumericOne()
    ensures DecodeCells(["1"], [Column("amt", "numeric", None)]) == Ok([Dec(1.0)])
  {
    var cols := [Column("amt", "numeric", None)];
    assert "numeric"[0] != "integer"[0];
    assert DigitsValue("1") == 1;
    assert KindOf(cols[0]) == NumericColumn;
    assert DecodeCell("1", NumericColumn) == Ok(Dec(1.0));
    assert DecodeCells([], cols[1..]) == Ok([]);
    assert ["1"][1..] == [] && ["1"][0] == "1";
    assert [Dec(1.0)] + [] == [Dec(1.0)];
  }

  lemma ExampleCells(row: string, digits: string)
    requires row == digits + "\t1\n" && IsDigits(digits)
    ensures Cells(row) == [digits, "1"]
  {
    assert DropLast(row) == digits + "\t1";
    assert digits + "\t1" == Join([digits, "1"], Tab);
    assert Tab !in digits by { assert AllDigits(digits); }
    SplitJoin([digits, "1"], Tab);
  }

  lemma IntegerCell(digits: string, n: nat)
    requires IsDigits(digits) && DigitsValue(digits) == n
    ensures DecodeCell(digits, IntegerColumn) == Ok(Int(n))
  {
    assert digits[0] != '-' by { assert IsDigit(digits[0]); }
    assert digits != NullMarker by { assert IsDigit(digits[0]); }
  }

  lemma ExampleDecode(cells: seq<string>, cols: seq<Column>, digits: string, n: nat)
    requires IsDigits(digits) && DigitsValue(digits) == n
    requires cells == [digits, "1"]
    requires cols == [Column("id", "integer", None), Column("amt", "numeric", None)]
    ensures DecodeCells(cells, cols) == Ok([Int(n), Dec(1.0)])
  {
    NumericOne();
    IntegerCell(digits, n);
    assert cols[1..] == [Column("amt", "numeric", None)];
    assert KindOf(cols[0]) == IntegerColumn;
    assert cells[1..] == ["1"];
    assert [Int(n)] + [Dec(1.0)] == [Int(n), Dec(1.0)];
  }

  lemma ExampleKey(row: string, digits: string, n: nat)
    requires row == digits + "\t1\n" && IsDigits(digits) && DigitsValue(digits) == n
    ensures RowKey(row, "t", IdAmount) == Ok([Int(n), Dec(1.0)])
  {
    ExampleCells(row, digits);
    ExampleDecode(Cells(row), IdAmount["t"], digits, n);
  }

  lemma Ten()
    ensures IsDigits("10") && DigitsValue("10") == 10
  {
    assert "10"[..1] == "1";
    assert "10"[1] == '0';
    assert DigitsValue("1") == 1;
  }

  lemma KeyOfTen()
    ensures RowKey("10\t1\n", "t", IdAmount) == Ok([Int(10), Dec(1.0)])
  {
    Ten();
    ExampleKey("10\t1\n", "10", 10);
  }

  lemma KeyOfTwo()
    ensures RowKey("2\t1\n", "t", IdAmount) == Ok([Int(2), Dec(1.0)])
  {
    assert IsDigits("2") && DigitsValue("2") == 2;
    ExampleKey("2\t1\n", "2", 2);
  }

  /** Two rows whose keys both derive, the second strictly before the first: they swap. */
  lemma SortedByTwoSwapped(r1: string, r2: string, key: string -> Result<Key>, k1: Key, k2: Key)
    requires key(r1) == Ok(k1) && key(r2) == Ok(k2) && KeyCmp(k2, k1) < 0
    ensures SortedBy([r1, r2], key) == Ok([r2, r1])
  {
    KeyRowsOfTwo(r1, r2, key);
    SortTwoSwapped(Row(r1, k1), Row(r2, k2));
    assert Lines([Row(r2, k2), Row(r1, k1)]) == [r2, r1];
  }

  /**
   * Typed comparison: with an 'integer' first column the row starting 2 comes before the
   * row starting 10, although "10" is before "2" as text.
   */
  lemma IntegerColumnSortsByValue()
    ensures SortedBlock(["10\t1\n", "2\t1\n"], "t", IdAmount) == Ok(["2\t1\n", "10\t1\n"])
  {
    KeyOfTen();
    KeyOfTwo();
    var k1, k2 := [Int(10), Dec(1.0)], [Int(2), Dec(1.0)];
    assert KeyCmp(k2, k1) < 0 by { assert CellCmp(Int(2), Int(10)) < 0; }
    var key := RowKeyOf("t", IdAmount);
    assert key("10\t1\n") == Ok(k1) && key("2\t1\n") == Ok(k2);
    SortedByTwoSwapped("10\t1\n", "2\t1\n", key, k1, k2);
  }
}
