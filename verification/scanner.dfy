/**
 * The pass of run() over the data section of a dump. Every line outside a COPY block is
 * written out as it is; a COPY block is written as its start line, its rows as sort_dx
 * orders them for the table the start line names, and the end-of-data marker.
 *
 * The dump is the sequence of its lines, each with its end-of-line character. readline
 * never returns an empty line before the end of the file, so the end of the sequence is
 * where the source's readline returns ''.
 *
 * The specification of the pass, Canonical, takes the sort of a block's rows as a
 * parameter; the loop that run() executes, Rewrite, uses sort_dx (SortDxBlock).
 */
module Scanner {
  import opened Outcome
  import opened Text
  import opened Keys
  import opened SortDx

  /** The prefix that marks the start of a COPY block. */
  const CopyPrefix: string := "COPY "

  /** The end-of-data marker of the COPY text format: a backslash, a dot, an end of line. */
  const Terminator: string := "\\.\n"

  /** line[:5] == 'COPY ' */
  predicate IsCopyStart(line: string) {
    StartsWith(line, CopyPrefix)
  }

  /** line[:3] == '\.\n': a prefix test, so only the first three characters count. */
  predicate IsTerminator(line: string) {
    StartsWith(line, Terminator)
  }

  /** On a COPY start line, the text after "COPY " up to the next space or the end of the line. */
  function TableName(line: string): string {
    var word := if |line| < |CopyPrefix| then "" else line[|CopyPrefix|..];
    if ' ' in word then word[..IndexOf(word, ' ')] else word
  }

  /**
   * The table name of a COPY start line is line.split(' ')[1], a word with no space in it
   * that ends at a space or at the end of the line.
   */
  lemma TableNameIsWord(line: string)
    requires IsCopyStart(line)
    ensures |Split(line, ' ')| >= 2 && TableName(line) == Split(line, ' ')[1]
    ensures ' ' !in TableName(line)
    ensures StartsWith(line[|CopyPrefix|..], TableName(line))
    ensures |CopyPrefix| + |TableName(line)| == |line| || line[|CopyPrefix| + |TableName(line)|] == ' '
  {
    var word := line[5..];
    assert line == "COPY" + [' '] + word by { assert line[..5] == CopyPrefix; }
    SplitAtFirst("COPY", ' ', word);
    assert Split(line, ' ')[1] == Split(word, ' ')[0];
  }

  /** A way of putting the rows of a block in order, given the block's start line and its rows. */
  type BlockSort = (string, seq<string>) -> Result<seq<string>>

  /** sort_dx(a_list, table, schema) with the table named by the block's start line. */
  function SortDxBlock(schema: Schema): BlockSort {
    (start, rows) => SortedBlock(rows, TableName(start), schema)
  }

  /**
   * The position of the first end-of-data marker in lines, or |lines| when there is none:
   * the rows of a block are the lines before it.
   */
  function FindTerminator(lines: seq<string>): (k: nat)
    ensures k <= |lines|
    ensures forall j :: 0 <= j < k ==> !IsTerminator(lines[j])
    ensures k < |lines| ==> IsTerminator(lines[k])
  {
    if |lines| == 0 then 0
    else if IsTerminator(lines[0]) then 0
    else 1 + FindTerminator(lines[1..])
  }

  /** Output already written, followed by the output of the rest of the run. */
  function Prepend(written: seq<string>, rest: Result<seq<string>>): Result<seq<string>>
  {
    match rest
    case Ok(lines) => Ok(written + lines)
    case Err(e) => Err(e)
  }

  /**
   * What the COPY branch writes for a block whose start line is start and whose following
   * lines are body: the start line, the rows before the first end-of-data marker in sorted
   * order, and the marker. A block with no marker is an error: the source's inner loop never
   * ends on such input.
   */
  function EmittedBlock(start: string, body: seq<string>, sort: BlockSort): (r: Result<seq<string>>)
    ensures r.Ok? ==> FindTerminator(body) < |body|
  {
    var end := FindTerminator(body);
    if end == |body| then Err(TruncatedBlock(start))
    else
      match sort(start, body[..end])
      case Err(e) => Err(e)
      case Ok(sorted) => Ok([start] + sorted + [Terminator])
  }

  /** The lines the run writes for a data section, or the error that stops it. */
  function Canonical(lines: seq<string>, sort: BlockSort): Result<seq<string>>
    decreases |lines|
  {
    if |lines| == 0 then Ok([])
    else if !IsCopyStart(lines[0]) then Prepend([lines[0]], Canonical(lines[1..], sort))
    else
      match EmittedBlock(lines[0], lines[1..], sort)
      case Err(e) => Err(e)
      case Ok(block) => Prepend(block, Canonical(lines[FindTerminator(lines[1..]) + 2..], sort))
  }

  /** The while loop over readline() in run(), with the output file as the returned lines. */
  method Rewrite(lines: seq<string>, schema: Schema) returns (r: Result<seq<string>>)
    ensures r == Canonical(lines, SortDxBlock(schema))
  {
    var written: seq<string> := [];
    var unread := lines;
    PrependNothing(Canonical(lines, SortDxBlock(schema)));
    while |unread| > 0
      invariant Canonical(lines, SortDxBlock(schema)) == Prepend(written, Canonical(unread, SortDxBlock(schema)))
      decreases |unread|
    {
      var out, rest := Advance(unread, schema);
      if out.Err? {
        return Err(out.error);
      }
      PrependJoin(written, out.value, Canonical(rest, SortDxBlock(schema)));
      written := written + out.value;
      unread := rest;
    }
    assert written + [] == written;
    return Ok(written);
  }

  /**
   * One turn of the loop over the unread lines: a line outside a block is written as it is,
   * a block start line writes its whole block; rest is what the following turn reads.
   */
  method Advance(unread: seq<string>, schema: Schema) returns (out: Result<seq<string>>, rest: seq<string>)
    requires |unread| > 0
    ensures |rest| < |unread|
    ensures out.Err? ==> Canonical(unread, SortDxBlock(schema)) == Err(out.error)
    ensures out.Ok? ==> Canonical(unread, SortDxBlock(schema)) == Prepend(out.value, Canonical(rest, SortDxBlock(schema)))
  {
    var line := unread[0];
    if IsCopyStart(line) {
      var next;
      out, next := EmitBlock(unread, schema);
      CopyUnfold(unread, SortDxBlock(schema));
      rest := if out.Ok? then unread[next..] else [];
    } else {
      out, rest := Ok([line]), unread[1..];
    }
  }

  /**
   * The body of the COPY branch, on the unread lines from the block's start line: the start
   * line, the rows of the block in sorted order, the end-of-data marker, and the number of
   * lines the block takes up.
   */
  method EmitBlock(unread: seq<string>, schema: Schema) returns (block: Result<seq<string>>, next: nat)
    requires |unread| > 0 && IsCopyStart(unread[0])
    ensures block == EmittedBlock(unread[0], unread[1..], SortDxBlock(schema))
    ensures block.Ok? ==> next == 2 + FindTerminator(unread[1..]) <= |unread|
  {
    var line := unread[0];
    var table := TableName(line);
    var rows, end := CollectRows(unread, 1);
    TerminatorAt(unread, 1, end);
    ghost var body := unread[1..];
    if end == |unread| {
      assert FindTerminator(body) == |body|;
      return Err(TruncatedBlock(line)), end;
    }
    assert FindTerminator(body) < |body| && body[..FindTerminator(body)] == rows;
    var sorted := SortBlock(rows, table, schema);
    assert SortDxBlock(schema)(line, rows) == sorted;
    if sorted.Err? {
      return Err(sorted.error), end + 1;
    }
    var written := WriteRows([line], sorted.value);
    return Ok(written + [Terminator]), end + 1;
  }

  /** for row in a_list: write(row) */
  method WriteRows(written: seq<string>, rows: seq<string>) returns (out: seq<string>)
    ensures out == written + rows
  {
    out := written;
    for k := 0 to |rows|
      invariant out == written + rows[..k]
    {
      out := out + [rows[k]];
      assert rows[..k + 1] == rows[..k] + [rows[k]];
    }
    assert rows[..|rows|] == rows;
  }

  /** The inner loop of the block: the lines up to the next end-of-data marker or the end. */
  method CollectRows(lines: seq<string>, from: nat) returns (rows: seq<string>, end: nat)
    requires from <= |lines|
    ensures from <= end <= |lines| && rows == lines[from..end]
    ensures forall j :: from <= j < end ==> !IsTerminator(lines[j])
    ensures end < |lines| ==> IsTerminator(lines[end])
  {
    rows, end := [], from;
    while end < |lines| && !IsTerminator(lines[end])
      invariant from <= end <= |lines|
      invariant rows == lines[from..end]
      invariant forall j :: from <= j < end ==> !IsTerminator(lines[j])
      decreases |lines| - end
    {
      rows := rows + [lines[end]];
      end := end + 1;
    }
  }

  lemma PrependNothing(rest: Result<seq<string>>)
    ensures Prepend([], rest) == rest
  {
    if rest.Ok? {
      assert [] + rest.value == rest.value;
    }
  }

  lemma PrependJoin(a: seq<string>, b: seq<string>, rest: Result<seq<string>>)
    ensures Prepend(a, Prepend(b, rest)) == Prepend(a + b, rest)
  {
    if rest.Ok? {
      assert a + (b + rest.value) == (a + b) + rest.value;
    }
  }

  /** Canonical on a dump that starts with a COPY line, one step unfolded. */
  lemma CopyUnfold(lines: seq<string>, sort: BlockSort)
    requires |lines| > 0 && IsCopyStart(lines[0])
    ensures var block := EmittedBlock(lines[0], lines[1..], sort);
      block.Err? ==> Canonical(lines, sort) == Err(block.error)
    ensures var block := EmittedBlock(lines[0], lines[1..], sort);
      block.Ok? ==> Canonical(lines, sort) == Prepend(block.value, Canonical(lines[FindTerminator(lines[1..]) + 2..], sort))
  {
  }

  /** Where the inner loop stops is where the first end-of-data marker after from is. */
  lemma TerminatorAt(lines: seq<string>, from: nat, end: nat)
    requires from <= end <= |lines|
    requires forall j :: from <= j < end ==> !IsTerminator(lines[j])
    requires end < |lines| ==> IsTerminator(lines[end])
    ensures FindTerminator(lines[from..]) == end - from
    ensures lines[from..][..end - from] == lines[from..end]
  {
    var body := lines[from..];
    assert forall j :: 0 <= j < |body| ==> body[j] == lines[from + j];
  }

  /** The first end-of-data marker of rows + [t] + rest is t when rows hold none. */
  lemma FirstTerminator(rows: seq<string>, t: string, rest: seq<string>)
    requires forall j :: 0 <= j < |rows| ==> !IsTerminator(rows[j])
    requires IsTerminator(t)
    ensures FindTerminator(rows + [t] + rest) == |rows|
    ensures (rows + [t] + rest)[..|rows|] == rows
    ensures (rows + [t] + rest)[|rows| + 1..] == rest
  {
    var lines := rows + [t] + rest;
    assert forall j :: 0 <= j < |rows| ==> lines[j] == rows[j];
    assert lines[|rows|] == t;
  }

  /** Lines before the first block start are written unchanged and in order. */
  lemma {:induction false} OutsideLinesKept(outside: seq<string>, rest: seq<string>, sort: BlockSort)
    requires forall j :: 0 <= j < |outside| ==> !IsCopyStart(outside[j])
    ensures Canonical(outside + rest, sort) == Prepend(outside, Canonical(rest, sort))
    decreases |outside|
  {
    if |outside| == 0 {
      assert outside + rest == rest;
      PrependNothing(Canonical(rest, sort));
    } else {
      var lines := outside + rest;
      assert lines[0] == outside[0];
      assert lines[1..] == outside[1..] + rest;
      OutsideLinesKept(outside[1..], rest, sort);
      PrependJoin([outside[0]], outside[1..], Canonical(rest, sort));
      assert [outside[0]] + outside[1..] == outside;
    }
  }

  /** A dump with no COPY block comes out exactly as it went in. */
  lemma PassThrough(lines: seq<string>, sort: BlockSort)
    requires forall j :: 0 <= j < |lines| ==> !IsCopyStart(lines[j])
    ensures Canonical(lines, sort) == Ok(lines)
  {
    OutsideLinesKept(lines, [], sort);
    assert lines + [] == lines;
  }

  /**
   * A COPY block is written as its start line, its rows in sorted order and the end-of-data
   * marker, followed by the rest of the dump; a failure of the sort is the failure of the run.
   */
  lemma BlockOutput(start: string, rows: seq<string>, end: string, rest: seq<string>, sort: BlockSort)
    requires IsCopyStart(start) && IsTerminator(end)
    requires forall j :: 0 <= j < |rows| ==> !IsTerminator(rows[j])
    ensures sort(start, rows).Err? ==> Canonical([start] + rows + [end] + rest, sort) == Err(sort(start, rows).error)
    ensures sort(start, rows).Ok? ==>
      Canonical([start] + rows + [end] + rest, sort) == Prepend([start] + sort(start, rows).value + [Terminator], Canonical(rest, sort))
  {
    var lines := [start] + rows + [end] + rest;
    assert lines[1..] == rows + [end] + rest;
    FirstTerminator(rows, end, rest);
    assert lines[|rows| + 2..] == rest;
  }

  /** With sort_dx, an empty block comes out as its start line immediately followed by the marker. */
  lemma EmptyBlockOutput(start: string, end: string, rest: seq<string>, schema: Schema)
    requires IsCopyStart(start) && IsTerminator(end)
    ensures Canonical([start, end] + rest, SortDxBlock(schema)) == Prepend([start, Terminator], Canonical(rest, SortDxBlock(schema)))
  {
    BlockOutput(start, [], end, rest, SortDxBlock(schema));
    EmptyBlock(TableName(start), schema);
    assert [start] + [] + [end] + rest == [start, end] + rest;
    assert [start] + [] + [Terminator] == [start, Terminator];
  }

  /** A block whose marker never comes is an error naming the block's start line. */
  lemma TruncatedIsError(start: string, rows: seq<string>, sort: BlockSort)
    requires IsCopyStart(start)
    requires forall j :: 0 <= j < |rows| ==> !IsTerminator(rows[j])
    ensures Canonical([start] + rows, sort) == Err(TruncatedBlock(start))
  {
    var lines := [start] + rows;
    assert lines[1..] == rows;
  }

  /** The sort returns the lines it was given, in some order. */
  ghost predicate KeepsLines(sort: BlockSort) {
    forall start, rows :: sort(start, rows).Ok? ==> multiset(sort(start, rows).value) == multiset(rows)
  }

  /** The sort leaves these rows as they are. */
  ghost predicate Settled(sort: BlockSort, start: string, rows: seq<string>) {
    sort(start, rows) == Ok(rows)
  }

  /** Sorting what the sort returned changes nothing. */
  ghost predicate SettlesAtOnce(sort: BlockSort) {
    forall start, rows :: sort(start, rows).Ok? ==> Settled(sort, start, sort(start, rows).value)
  }

  /** sort_dx returns a permutation of its rows, and sorting its result again changes nothing. */
  lemma SortDxSettles(schema: Schema)
    ensures KeepsLines(SortDxBlock(schema)) && SettlesAtOnce(SortDxBlock(schema))
  {
    var sort := SortDxBlock(schema);
    forall start, rows | sort(start, rows).Ok?
      ensures multiset(sort(start, rows).value) == multiset(rows)
      ensures Settled(sort, start, sort(start, rows).value)
    {
      SortedByPermutation(rows, RowKeyOf(TableName(start), schema));
      SortedBlockIdempotent(rows, TableName(start), schema);
    }
  }

  /** For a sort that keeps lines and settles at once, rewriting a rewritten dump changes nothing. */
  lemma {:induction false} RewriteSettles(lines: seq<string>, sort: BlockSort)
    requires KeepsLines(sort) && SettlesAtOnce(sort)
    requires Canonical(lines, sort).Ok?
    ensures Canonical(Canonical(lines, sort).value, sort) == Canonical(lines, sort)
    decreases |lines|
  {
    if |lines| == 0 {
    } else if !IsCopyStart(lines[0]) {
      var rest := Canonical(lines[1..], sort).value;
      RewriteSettles(lines[1..], sort);
      OutsideLinesKept([lines[0]], rest, sort);
    } else {
      CopyUnfold(lines, sort);
      var end := FindTerminator(lines[1..]);
      var rows := lines[1..][..end];
      var after := lines[end + 2..];
      RewriteSettles(after, sort);
      assert forall j :: 0 <= j < |rows| ==> rows[j] == lines[1..][j];
      assert lines == [lines[0]] + rows + [lines[end + 1]] + after;
      BlockIdempotent(lines[0], rows, lines[end + 1], after, sort);
    }
  }

  /** A block followed by a dump that rewriting leaves alone is left alone too once rewritten. */
  lemma BlockIdempotent(start: string, rows: seq<string>, end: string, after: seq<string>, sort: BlockSort)
    requires KeepsLines(sort) && SettlesAtOnce(sort)
    requires IsCopyStart(start) && IsTerminator(end) && sort(start, rows).Ok?
    requires forall j :: 0 <= j < |rows| ==> !IsTerminator(rows[j])
    requires Canonical(after, sort).Ok?
    requires Canonical(Canonical(after, sort).value, sort) == Canonical(after, sort)
    ensures var lines := [start] + rows + [end] + after;
      Canonical(lines, sort).Ok? && Canonical(Canonical(lines, sort).value, sort) == Canonical(lines, sort)
  {
    BlockOutput(start, rows, end, after, sort);
    SortedRowsKept(start, rows, Canonical(after, sort).value, sort);
  }

  /** A block whose rows are already in sorted order is written back as it is. */
  lemma SortedRowsKept(start: string, rows: seq<string>, rest: seq<string>, sort: BlockSort)
    requires KeepsLines(sort) && SettlesAtOnce(sort)
    requires IsCopyStart(start) && sort(start, rows).Ok?
    requires forall j :: 0 <= j < |rows| ==> !IsTerminator(rows[j])
    ensures var block := [start] + sort(start, rows).value + [Terminator];
      Canonical(block + rest, sort) == Prepend(block, Canonical(rest, sort))
  {
    var sorted := sort(start, rows).value;
    assert multiset(sorted) == multiset(rows);
    forall j | 0 <= j < |sorted| ensures !IsTerminator(sorted[j]) {
      assert sorted[j] in multiset(rows);
      var i :| 0 <= i < |rows| && rows[i] == sorted[j];
    }
    assert Settled(sort, start, sorted);
    assert IsTerminator(Terminator) by { assert Terminator[..3] == Terminator; }
    BlockOutput(start, sorted, Terminator, rest, sort);
  }

  /** Rewriting an already rewritten dump changes nothing. */
  lemma CanonicalIdempotent(lines: seq<string>, schema: Schema)
    requires Canonical(lines, SortDxBlock(schema)).Ok?
    ensures var once := Canonical(lines, SortDxBlock(schema));
      Canonical(once.value, SortDxBlock(schema)) == once
  {
    SortDxSettles(schema);
    RewriteSettles(lines, SortDxBlock(schema));
  }
}
