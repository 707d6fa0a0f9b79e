# Row canonicaliser of pgdbdump4comparison

`pgdbdump4comparison.py` dumps a PostgreSQL database in three sections. It then rewrites the
data section so that two dumps of the same rows compare equal as text, whatever the physical
order of the rows. That holds when rows whose keys compare equal are the same line, and when no
null meets a number in the sort; see "## Policies taken from the code".

This project models that rewrite. It has three parts.

- **`row_to_tuple`** (module `Keys`) computes the sort key of one row of a COPY block:
  - It drops the row's last character and splits what is left on tabs.
  - Cells of columns whose declared type is exactly `'integer'` become exact integers.
  - Cells of columns whose declared type is exactly `'numeric'` become exact decimals.
  - Every other cell stays a string.
- **`sort_dx`** (modules `StableSort` and `SortDx`) is Python's stable `sorted` with that
  key. It returns the row lines themselves, only reordered.
- **The COPY-block scanner of `run()`** (module `Scanner`) handles the dump line by line:
  - Lines outside a block are copied unchanged.
  - A line starting `COPY ` opens a block. The scanner copies that line and collects the
    rows up to the end-of-data marker `\.`.
  - It then writes the rows as `sort_dx` orders them, for the table named by the second
    space-separated word of the start line, followed by the marker.

The other modules support these three:

- `Outcome`: the result and error types.
- `Text`: slicing, prefix tests and `str.split`.
- `Literals`: `int(...)` and `Decimal(...)` on digit strings.
- `Ordering`: Python's comparison of the key lists.
- `Sequences`: mapping over sequences.
- `PythonCompare`: the key exactly as the source builds it, and Python 3's comparison of
  those keys.

## How the model is built

- **Decoded values.** Numbers are unbounded `int` for integer cells and `real` for decimal
  cells, so decimal values are exact rationals.
- **Errors.** A failing row is an `Err` value naming what Python would raise:
  - `UnknownTable`: the `KeyError` when the schema has no entry for the table.
  - `TooManyCells`: the `IndexError` when a row has more cells than the table has columns.
  - `BadInteger`: the `ValueError` from `int`.
  - `BadNumeric`: the `InvalidOperation` from `Decimal`.
- **Which error wins.** CPython's `sorted` calls the key function on every row, in input
  order, before it compares anything. So the first failing row decides the error. This holds
  for a one-row block too. A block with no rows never looks its table up.
- **The sort.**
  - `InsSort`, an insertion sort by key in input order, is the specification.
  - `SortInPlace` sorts an array in place and is proved to compute `InsSort`.
  - `InsSortCharacterised` proves that any sequence ordered by key that keeps every key's
    rows in input order equals `InsSort`'s output. So `InsSort` describes any stable sort,
    CPython's included, wherever CPython's comparison of the keys does not raise (see Nulls
    below).
- **The scanner.**
  - `Canonical` is the specification. It takes the sort of a block's rows as a parameter,
    so the scanner's properties are proved for any sort.
  - `Rewrite` is the source's `while` loop, using `sort_dx`. It is proved to compute
    `Canonical` with `sort_dx`.
  - The dump is a sequence of lines, each ending in its end-of-line character. Where the
    sequence ends is where the source's `readline` returns `''`.
- **A truncated block.** When the input ends inside a block, the inner loop of the source
  appends `''` forever. The model returns `Err(TruncatedBlock(start line))` instead.

## Policies taken from the code

Where the code settles a question that a cleaner design could settle another way, the model
does what the code does, with one exception: nulls. For a null beside a number the code raises
`TypeError`, and the model instead puts nulls after numbers (see the Nulls bullet and
"## Findings").

- **Cell count.** The decoding loop runs over the cells of the row. A row with more cells than
  its table has columns fails with `IndexError`. A row with fewer cells is accepted and gives a
  shorter key. A stricter policy would reject any mismatch. See `Keys.RowKeyDecodes`.
- **One-row blocks.** CPython computes the key of every row, even when a block has only one.
  So a bad cell or an unknown table fails a one-row block too. A block of one row is not
  passed through untouched. See `SortDx.SingleRow`.
- **Block terminator.** A line ends a block when its first three characters are the marker
  `\.` and an end of line (`line[:3] == '\.\n'`), not only when the whole line equals the
  marker. See `Scanner.IsTerminator`.
- **Nulls.** The null marker `\N` of an `'integer'` or `'numeric'` column is left as a `str`,
  and Python 3 cannot order a `str` against a number. Other policies would be nulls first,
  or nulls compared as ordinary strings. The model puts a null after every number. See
  Findings.
- **Equal keys from different text.** Different cells can decode to equal key elements: `07`
  and `7` in an `'integer'` column (`Keys.LeadingZeroCell`), `1.5` and `1.50` in a `'numeric'`
  column (`Keys.TrailingZeroCell`). The sort is stable, so rows whose keys compare equal keep
  their input order (`SortDx.SortedByStable`), and two dumps holding such rows in different
  orders stay different after the rewrite. The code has no tie-break on the line's text, and
  neither has the model. Order independence is proved only when equal keys mean the same line
  (`SortDx.SortedByOrderIndependent`).
- **String comparison.** Python compares `str` values by code point, not by the bytes of an
  encoding. The model compares characters.

## Model

| member | source | states |
|---|---|---|
| Text.DropLast | 0/PostgreSQL_scripts/pgdbdump4comparison.py:54 | `row[:-1]` is the row without its last character; putting that character back gives the row; the empty row stays empty |
| Text.Split | 0/PostgreSQL_scripts/pgdbdump4comparison.py:54 | `split(sep)` gives one more piece than there are separators; no piece holds a separator; joining the pieces with the separator gives the input back |
| Text.SplitJoin | 0/PostgreSQL_scripts/pgdbdump4comparison.py:54 | splitting a join of separator-free pieces returns those pieces: split and join are inverses |
| Text.SplitHead | 0/PostgreSQL_scripts/pgdbdump4comparison.py:278 | the first piece of a split is a prefix of the string, and it ends at a separator or at the end |
| Literals.IntRoundTrip | 0/PostgreSQL_scripts/pgdbdump4comparison.py:60 | the integer decoder reads back every integer printed in decimal: `int(str(n)) == n` |
| Literals.ParseInt | 0/PostgreSQL_scripts/pgdbdump4comparison.py:60 | `int(text)` on the accepted syntax, an optional minus sign and digits; `IntRoundTrip`, `IntLeadingZero` and `DecimalExtendsInt` state its properties |
| Literals.IntLeadingZero | 0/PostgreSQL_scripts/pgdbdump4comparison.py:60 | with or without a minus sign, a leading zero does not change an integer literal (`-07` reads as `-7`), and the literal reads as its digits' value, negated after a minus sign |
| Literals.DecimalExtendsInt | 0/PostgreSQL_scripts/pgdbdump4comparison.py:60-65 | every integer literal is also a decimal literal of the same value |
| Literals.ParseDecimal | 0/PostgreSQL_scripts/pgdbdump4comparison.py:65 | `Decimal(text)` on the accepted syntax, an optional minus sign, digits and an optional fraction; `DecimalOf`, `DecimalExtendsInt` and `TrailingZero` state its properties |
| Literals.DecimalOf | 0/PostgreSQL_scripts/pgdbdump4comparison.py:65 | `Decimal("w.f")` is the whole part plus the fraction's digits over ten to the fraction's length |
| Literals.TrailingZero | 0/PostgreSQL_scripts/pgdbdump4comparison.py:65 | with or without a minus sign, a trailing zero in the fraction does not change a decimal literal (`-1.50` reads as `-1.5`), and the literal always decodes |
| Keys.KindOf | 0/PostgreSQL_scripts/pgdbdump4comparison.py:57-61 | a column is an integer column exactly when its type is `'integer'`, and a numeric column exactly when its type is `'numeric'`; every other type is text |
| Keys.DecodeCell | 0/PostgreSQL_scripts/pgdbdump4comparison.py:57-68 | text columns keep the cell as a string; `\N` in an integer or numeric column never fails; otherwise the cell is the parsed integer or decimal, and it fails with `BadInteger`/`BadNumeric` exactly when the literal does not parse |
| Keys.LeadingZeroCell | 0/PostgreSQL_scripts/pgdbdump4comparison.py:57-60 | in an `'integer'` column, two cells that differ only by a leading zero, signed or not, decode without error to the same key element |
| Keys.TrailingZeroCell | 0/PostgreSQL_scripts/pgdbdump4comparison.py:61-65 | in a `'numeric'` column, two cells that differ only by a trailing zero in the fraction, signed or not, decode without error to the same key element |
| Keys.DecodeCells | 0/PostgreSQL_scripts/pgdbdump4comparison.py:56-73 | the key has one element per cell, each decoded by the column at its position; it succeeds exactly when there are no more cells than columns and every cell decodes |
| Keys.Cells | 0/PostgreSQL_scripts/pgdbdump4comparison.py:54 | `row[:-1].split('\t')`: the cells of a row; `CellsRebuildRow` states that they rebuild the row |
| Keys.RowKey | 0/PostgreSQL_scripts/pgdbdump4comparison.py:43-73 | `row_to_tuple(row, table, schema)`; `RowKeyDecodes` states its error cases and its key, and `RowToTuple` computes it as a loop |
| Keys.RowKeyDecodes | 0/PostgreSQL_scripts/pgdbdump4comparison.py:43-73 | a row of a table the schema lacks fails with `UnknownTable`; otherwise the key is the row's tab-separated cells, each decoded by its column, and it fails exactly when a cell has no column or does not decode |
| Keys.DecodeCellsFrom | 0/PostgreSQL_scripts/pgdbdump4comparison.py:56-68 | when the first i cells decode, the first failure among the rest is the failure of the row |
| Keys.RowToTuple | 0/PostgreSQL_scripts/pgdbdump4comparison.py:43-73 | the method computes the row's key as specified by `RowKey`, including each error |
| Keys.DecodeInPlace | 0/PostgreSQL_scripts/pgdbdump4comparison.py:56-72 | the loop that rewrites the cell list in place computes `DecodeCells`: the same key, or the first cell's error |
| Keys.CellsRebuildRow | 0/PostgreSQL_scripts/pgdbdump4comparison.py:54 | the cells joined with tabs plus the row's last character give the row back; there is one more cell than tabs |
| Ordering.StrCmpAntisymmetric | 0/PostgreSQL_scripts/pgdbdump4comparison.py:95-97 | swapping two strings flips their comparison, and strings that compare equal are identical |
| Ordering.StrCmpTransitive | 0/PostgreSQL_scripts/pgdbdump4comparison.py:95-97 | string comparison is transitive |
| Ordering.StrCmp | 0/PostgreSQL_scripts/pgdbdump4comparison.py:95-97 | Python's `<` on two `str` values, by code point; `StrCmpAntisymmetric` and `StrCmpTransitive` state that it is a total order |
| Ordering.CellCmp | 0/PostgreSQL_scripts/pgdbdump4comparison.py:95-97 | the order of two key elements: numbers by value, then nulls, then strings; its ensures bound the result to -1, 0 or 1, and `KeyCmpTransitive` and the lemmas beside it make it a total preorder |
| Ordering.KeyCmp | 0/PostgreSQL_scripts/pgdbdump4comparison.py:95-97 | Python's `<` on two key lists: the first position where they differ decides, and a proper prefix comes first; `KeyCmpReflexive`, `KeyCmpAntisymmetric` and `KeyCmpTransitive` state that it is a total preorder |
| Ordering.KeyCmpReflexive | 0/PostgreSQL_scripts/pgdbdump4comparison.py:95-97 | every key is equivalent to itself |
| Ordering.KeyCmpAntisymmetric | 0/PostgreSQL_scripts/pgdbdump4comparison.py:95-97 | swapping two keys flips their comparison, so any two keys are ordered one way or the other |
| Ordering.KeyCmpTransitive | 0/PostgreSQL_scripts/pgdbdump4comparison.py:95-97 | not-after is transitive on keys; with the two above, the key comparison is a total preorder |
| StableSort.InsSortPermutation | 0/PostgreSQL_scripts/pgdbdump4comparison.py:95-97 | the stable sort returns exactly the rows it was given |
| StableSort.InsSort | 0/PostgreSQL_scripts/pgdbdump4comparison.py:95-97 | the stable sort by key that `sorted` performs; `InsSortPermutation`, `InsSortSorted`, `InsSortStable` and `InsSortCharacterised` state what it returns |
| StableSort.InsSortSorted | 0/PostgreSQL_scripts/pgdbdump4comparison.py:95-97 | the stable sort's output is ordered by key |
| StableSort.InsSortStable | 0/PostgreSQL_scripts/pgdbdump4comparison.py:95-97 | for every key, the rows with that key keep their input order |
| StableSort.SortedIsFixpoint | 0/PostgreSQL_scripts/pgdbdump4comparison.py:95-97 | rows already in key order are returned unchanged |
| StableSort.StableSortUnique | 0/PostgreSQL_scripts/pgdbdump4comparison.py:95-97 | two key-ordered sequences that agree on every key's subsequence are equal |
| StableSort.InsSortCharacterised | 0/PostgreSQL_scripts/pgdbdump4comparison.py:95-97 | any key-ordered sequence that keeps every key's rows in input order is the stable sort's output, so every stable sort gives this result |
| StableSort.SortedPermutationUnique | 0/PostgreSQL_scripts/pgdbdump4comparison.py:95-97 | when equivalent keys come only from identical rows, two key orderings of the same rows are equal |
| StableSort.OrderIndependent | 0/PostgreSQL_scripts/pgdbdump4comparison.py:95-97 | under that condition, the sorted output depends only on the multiset of the input |
| StableSort.InsertStep | 0/PostgreSQL_scripts/pgdbdump4comparison.py:95-97 | one step of the in-place sort inserts the next row into the sorted prefix and leaves the rest of the array alone |
| StableSort.MakeRoom | 0/PostgreSQL_scripts/pgdbdump4comparison.py:95-97 | the rows of the prefix whose key is after the new row's key move one place right, the others stay, and the gap lies just after the last row not after it |
| StableSort.SortInPlace | 0/PostgreSQL_scripts/pgdbdump4comparison.py:95-97 | sorting the array in place leaves exactly the stable sort of its old contents |
| SortDx.KeyRows | 0/PostgreSQL_scripts/pgdbdump4comparison.py:95-97 | keying succeeds exactly when every row's key succeeds; it then pairs each row, in order, with its key |
| SortDx.SortedBy | 0/PostgreSQL_scripts/pgdbdump4comparison.py:95-97 | `sorted(rows, key=key)` for any key function; the `SortedBy...` lemmas below state its properties |
| SortDx.SortedBlock | 0/PostgreSQL_scripts/pgdbdump4comparison.py:35-98 | `sort_dx(rows, table, schema)`: `SortedBy` with `row_to_tuple` as the key; `SortedBlockIdempotent`, `EmptyBlock` and `SingleRow` state its properties |
| SortDx.KeyAll | 0/PostgreSQL_scripts/pgdbdump4comparison.py:95-97 | the loop computing every key in input order gives `KeyRows`: all the keys, or the first row's error |
| SortDx.ReadLines | 0/PostgreSQL_scripts/pgdbdump4comparison.py:98 | the returned list is the sorted rows' lines in array order |
| SortDx.SortByKey | 0/PostgreSQL_scripts/pgdbdump4comparison.py:95-98 | computing all keys, sorting in place and reading the lines back gives the specified `sorted(rows, key=key)` |
| SortDx.SortBlock | 0/PostgreSQL_scripts/pgdbdump4comparison.py:35-98 | `sort_dx(rows, table, schema)` as a program gives the specified sorted block or error |
| SortDx.FirstErrorDecides | 0/PostgreSQL_scripts/pgdbdump4comparison.py:95-97 | when rows before index i have keys and row i does not, row i's error is the error of the whole sort |
| SortDx.SortedByPermutation | 0/PostgreSQL_scripts/pgdbdump4comparison.py:95-98 | the output is a permutation of the input lines, with each line's text unchanged |
| SortDx.SortedByOrdered | 0/PostgreSQL_scripts/pgdbdump4comparison.py:95-97 | every output line has a key, and the keys do not decrease along the output |
| SortDx.SortedByStable | 0/PostgreSQL_scripts/pgdbdump4comparison.py:95-97 | for every key, the lines with an equivalent key come out in their input order, duplicates included |
| SortDx.SortedByIdempotent | 0/PostgreSQL_scripts/pgdbdump4comparison.py:95-97 | sorting the output again returns it unchanged |
| SortDx.SortedByOrderIndependent | 0/PostgreSQL_scripts/pgdbdump4comparison.py:95-97 | when equal keys come only from identical lines, any reordering of the input gives the same output |
| SortDx.KeyedPermutation | 0/PostgreSQL_scripts/pgdbdump4comparison.py:95-97 | reordering the lines reorders their keyed rows the same way, and every key still derives |
| SortDx.DistinctKeys | 0/PostgreSQL_scripts/pgdbdump4comparison.py:95-97 | when equal keys come only from identical lines, equal keys come only from identical keyed rows |
| SortDx.SortedBlockIdempotent | 0/PostgreSQL_scripts/pgdbdump4comparison.py:35-98 | `sort_dx` applied to its own output returns it unchanged |
| SortDx.EmptyBlock | 0/PostgreSQL_scripts/pgdbdump4comparison.py:95-98 | an empty block sorts to itself, even for a table the schema lacks |
| SortDx.SingleRow | 0/PostgreSQL_scripts/pgdbdump4comparison.py:95-97 | a one-row block comes back unchanged when its key derives, and fails with its key's error otherwise |
| SortDx.SortTwoSwapped | 0/PostgreSQL_scripts/pgdbdump4comparison.py:95-97 | two rows with the second strictly before the first come out swapped |
| SortDx.SortedByTwoSwapped | 0/PostgreSQL_scripts/pgdbdump4comparison.py:95-97 | two lines whose keys derive, the second strictly before the first, come out swapped |
| SortDx.IntegerColumnSortsByValue | 0/PostgreSQL_scripts/pgdbdump4comparison.py:57-60 | with an `'integer'` first column, `"2\t1\n"` sorts before `"10\t1\n"`, although `"10"` is before `"2"` as text |
| PythonCompare.AsWritten | 0/PostgreSQL_scripts/pgdbdump4comparison.py:58-62 | a null or text cell is a Python `str`, and a null is the `str` `\N` itself; numbers stay numbers |
| PythonCompare.PyCell | 0/PostgreSQL_scripts/pgdbdump4comparison.py:57-68 | one pass of the loop body as written: an `'integer'` or `'numeric'` cell other than `\N` goes through `int` or `Decimal`, and every other cell stays a `str`; `PyCellAgrees` relates it to `DecodeCell` |
| PythonCompare.PyCells | 0/PostgreSQL_scripts/pgdbdump4comparison.py:56-73 | the loop as written: cell i is read against column i, `IndexError` once the columns run out, and the first raise stops it; `PyCellsAgree` relates it to `DecodeCells` |
| PythonCompare.PyRowKey | 0/PostgreSQL_scripts/pgdbdump4comparison.py:43-73 | `row_to_tuple` exactly as written, with its own decoding loop: `KeyError` for an unknown table, then the cells decoded left to right; `PyRowKeyAgrees` relates it to the model's key |
| PythonCompare.PyCellAgrees | 0/PostgreSQL_scripts/pgdbdump4comparison.py:57-68 | the source's decode of one cell fails exactly when the model's does, with the same error; otherwise it gives the model's element with a null as `\N` |
| PythonCompare.PyCellsAgree | 0/PostgreSQL_scripts/pgdbdump4comparison.py:56-73 | the source's loop fails exactly when the model's does, with the same error; otherwise it gives the model's key as written |
| PythonCompare.PyRowKeyAgrees | 0/PostgreSQL_scripts/pgdbdump4comparison.py:43-73 | `row_to_tuple` as written raises exactly when the model's key fails, with the same error, and otherwise returns the model's key with each null left as the `str` `\N` |
| PythonCompare.PyEq | 0/PostgreSQL_scripts/pgdbdump4comparison.py:95-97 | Python's `==` on two items: a `str` never equals a number |
| PythonCompare.PyLess | 0/PostgreSQL_scripts/pgdbdump4comparison.py:95-97 | Python's `<` on two items: `TypeError` between a `str` and a number |
| PythonCompare.PyListLess | 0/PostgreSQL_scripts/pgdbdump4comparison.py:95-97 | Python's `<` on two lists: the first unequal position decides with the items' own `<`, otherwise the shorter list is less; `AgreesWhereDefined` relates it to `KeyCmp` |
| PythonCompare.AgreesWhereDefined | 0/PostgreSQL_scripts/pgdbdump4comparison.py:95-97 | where Python's comparison of two keys of one table does not raise, it agrees with the model's comparison; it never raises on keys without nulls |
| PythonCompare.RowKeysSameFamilies | 0/PostgreSQL_scripts/pgdbdump4comparison.py:56-72 | two keys of one table hold strings at the same positions |
| PythonCompare.SortPairAsWritten | 0/PostgreSQL_scripts/pgdbdump4comparison.py:95-97 | when CPython sorts a two-row block, its result holds the same two lines |
| PythonCompare.SortPairAgrees | 0/PostgreSQL_scripts/pgdbdump4comparison.py:95-97 | whenever the source sorts a two-row block, the model gives the same lines; when it raises a key error, the model gives the same error |
| PythonCompare.PairKeyFails | 0/PostgreSQL_scripts/pgdbdump4comparison.py:95-97 | when a key of a two-row block fails, the source raises, and the model reports the same error |
| PythonCompare.PairRaisesAt | 0/PostgreSQL_scripts/pgdbdump4comparison.py:95-97 | the source raises the error of the first row whose key fails |
| PythonCompare.PairKeysDerive | 0/PostgreSQL_scripts/pgdbdump4comparison.py:95-97 | when both keys derive, the source does not raise a key error, and when it sorts, the model gives the same lines |
| PythonCompare.SortedPair | 0/PostgreSQL_scripts/pgdbdump4comparison.py:95-97 | the model swaps two rows exactly when the second key is strictly before the first |
| PythonCompare.NullAndFiveKeys | 0/PostgreSQL_scripts/pgdbdump4comparison.py:57-60 | in an `'integer'` column, `\N` gives a null key and `5` gives the key 5 |
| PythonCompare.NullBesideNumberRaises | 0/PostgreSQL_scripts/pgdbdump4comparison.py:58-60 | as written, the keys are `['\N']` and `[5]`, and sorting the two rows cannot order them (TypeError) |
| PythonCompare.NullSortsAfterNumber | 0/PostgreSQL_scripts/pgdbdump4comparison.py:95-97 | in the model the same block sorts, with the number first and the null after it |
| Scanner.TableNameIsWord | 0/PostgreSQL_scripts/pgdbdump4comparison.py:278 | on a COPY line, the table name is `line.split(' ')[1]`: a word with no space that follows `COPY ` and ends at a space or at the end of the line |
| Scanner.TableName | 0/PostgreSQL_scripts/pgdbdump4comparison.py:278 | the table name of a COPY line; `TableNameIsWord` states that it is `line.split(' ')[1]` |
| Scanner.IsCopyStart | 0/PostgreSQL_scripts/pgdbdump4comparison.py:277 | `line[:5] == 'COPY '`, a prefix test |
| Scanner.IsTerminator | 0/PostgreSQL_scripts/pgdbdump4comparison.py:283 | `line[:3] == '\.\n'`, a prefix test |
| Scanner.SortDxBlock | 0/PostgreSQL_scripts/pgdbdump4comparison.py:287 | the sort the scanner applies to a block: `sort_dx` with the table named by the start line; `SortDxSettles` states its properties |
| Scanner.FindTerminator | 0/PostgreSQL_scripts/pgdbdump4comparison.py:283 | the result is the position of the first end-of-data marker, or the length when there is none |
| Scanner.EmittedBlock | 0/PostgreSQL_scripts/pgdbdump4comparison.py:277-291 | a block is written only when its end-of-data marker is present |
| Scanner.Canonical | 0/PostgreSQL_scripts/pgdbdump4comparison.py:275-294 | the lines the loop writes for a data section, or the error that stops it; `Rewrite` computes it, and `PassThrough`, `OutsideLinesKept`, `BlockOutput`, `TruncatedIsError` and `RewriteSettles` state its properties |
| Scanner.Rewrite | 0/PostgreSQL_scripts/pgdbdump4comparison.py:275-294 | the loop over the dump writes exactly `Canonical` with `sort_dx`: the rewritten data section, or the error that stops it |
| Scanner.Advance | 0/PostgreSQL_scripts/pgdbdump4comparison.py:276-294 | one turn of the loop consumes at least one line; the rest of the run's output follows what the turn writes, and an error of the turn is the error of the run |
| Scanner.EmitBlock | 0/PostgreSQL_scripts/pgdbdump4comparison.py:277-291 | the COPY branch writes the block as `EmittedBlock` specifies and resumes just after the block's marker |
| Scanner.WriteRows | 0/PostgreSQL_scripts/pgdbdump4comparison.py:289-290 | writing the rows appends them, in order, to what was written |
| Scanner.CollectRows | 0/PostgreSQL_scripts/pgdbdump4comparison.py:282-285 | the inner loop collects the lines up to the first end-of-data marker, or to the end of the input |
| Scanner.CopyUnfold | 0/PostgreSQL_scripts/pgdbdump4comparison.py:277-291 | on a COPY line, the run writes the block and then the rest of the dump from just after the marker, or stops with the block's error |
| Scanner.TerminatorAt | 0/PostgreSQL_scripts/pgdbdump4comparison.py:283 | where the inner loop stops is the first end-of-data marker |
| Scanner.FirstTerminator | 0/PostgreSQL_scripts/pgdbdump4comparison.py:283 | the first marker of `rows + [t] + rest` is `t` when the rows hold none |
| Scanner.OutsideLinesKept | 0/PostgreSQL_scripts/pgdbdump4comparison.py:292-293 | lines before the first COPY line are written unchanged and in order, ahead of the rest of the output |
| Scanner.PassThrough | 0/PostgreSQL_scripts/pgdbdump4comparison.py:292-294 | a dump with no COPY block comes out exactly as it went in |
| Scanner.BlockOutput | 0/PostgreSQL_scripts/pgdbdump4comparison.py:277-291 | a block is written as its start line, its rows as the sort orders them, and exactly `\.\n`, followed by the rest; a failing sort stops the run with its error |
| Scanner.EmptyBlockOutput | 0/PostgreSQL_scripts/pgdbdump4comparison.py:277-291 | with `sort_dx`, an empty block is written as its start line immediately followed by the marker |
| Scanner.TruncatedIsError | 0/PostgreSQL_scripts/pgdbdump4comparison.py:283-285 | a block whose marker never comes is an error naming the block's start line |
| Scanner.SortDxSettles | 0/PostgreSQL_scripts/pgdbdump4comparison.py:287 | `sort_dx`, as the scanner calls it, returns a permutation of its rows, and sorting its result again changes nothing |
| Scanner.RewriteSettles | 0/PostgreSQL_scripts/pgdbdump4comparison.py:276-294 | for any sort that keeps lines and settles at once, rewriting a rewritten dump changes nothing |
| Scanner.BlockIdempotent | 0/PostgreSQL_scripts/pgdbdump4comparison.py:277-291 | a rewritten block followed by a part that rewriting leaves alone is left alone too |
| Scanner.SortedRowsKept | 0/PostgreSQL_scripts/pgdbdump4comparison.py:277-291 | a block whose rows are already in sorted order is written back as it is |
| Scanner.CanonicalIdempotent | 0/PostgreSQL_scripts/pgdbdump4comparison.py:276-294 | with `sort_dx`, rewriting an already rewritten data section returns it unchanged |

## Left out

- Argument parsing, verbosity selection, logging and the debug `eval` calls: configuration and
  diagnostics only.
- Running `pg_dump` through `pexpect`/`os.system`, password handling, and the spawn-and-poll
  loops: external processes.
- The `psycopg2` schema queries: the schema map is an input. The column query does not order
  by column position. The model takes the i-th column of a table's entry to describe the i-th
  cell of its rows.
- Opening, reading and writing the dump files: the data section is an input sequence of lines
  and the rewritten section is the output sequence.
- Timing with `dt.now()` and its message.
- Python literal syntax beyond `-?digits` for `int` and `-?digits(.digits)?` for `Decimal`
  (`+`, whitespace, underscores, exponents, `NaN`, `Infinity`, `.5`, `5.`): these are
  decode errors in the model. Values are exact integers and rationals. The precision and
  exponent of a `Decimal` are not kept, only its value.
- Keys.DecodeCell: the `print` of the offending cell before `InvalidOperation` is re-raised
  is not modelled; only the error is.
- Scanner.Rewrite: when the run stops with an error, the model returns only the error. The
  lines the source has already written to the output file are not modelled.
- Scanner.Canonical: an empty string in the input sequence stands for nothing in the source,
  whose `readline` returns `''` only at end of file. The model copies such an element through
  as an ordinary line instead of stopping there.
- Scanner.EmittedBlock: a block whose end-of-data marker never comes is an error in the
  model. The source loops forever on such input.
- StableSort.SortInPlace: CPython's timsort is not modelled step by step. The array sort is
  an insertion sort. `StableSort.InsSortCharacterised` shows that every stable sort by the
  same key gives its result.
- PythonCompare.SortPairAsWritten: Python 3's comparison of the keys as the source builds them
  is modelled for two-row blocks only. For longer blocks only the model's order is given.
- The commented-out example code inside `sort_dx`.

## Findings

| source | as written | input that shows it | evidently intended | confidence | as-written member | corrected member |
|---|---|---|---|---|---|---|
| 0/PostgreSQL_scripts/pgdbdump4comparison.py:58-60 | the null marker `\N` of an `'integer'` or `'numeric'` column is skipped and left in the key as the `str` `'\N'`, while the other cells of that column become `int` or `Decimal`; Python 3 raises `TypeError` when it compares the two | the rows `"\N\n"` and `"5\n"` of a table with one `'integer'` column | the null is skipped so that it sorts without error, so every block of a nullable numeric column sorts; the model puts nulls after every number | not executed; high | PythonCompare.NullBesideNumberRaises | PythonCompare.NullSortsAfterNumber |
