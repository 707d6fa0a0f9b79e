/**
 * The stable sort behind Python's sorted(rows, key=...): a row line paired with its key,
 * the specification of a stable sort as insertion in input order, its properties
 * (permutation, order, stability, uniqueness), and the in-place array sort proved to
 * compute it.
 */
module StableSort {
  import opened Keys
  import opened Ordering
  import opened Sequences

  /** A row line of a COPY block together with its sort key. */
  datatype Row = Row(line: string, key: Key)

  /** Every row's key is not after the key of any later row. */
  predicate Sorted(s: seq<Row>) {
    forall i, j :: 0 <= i < j < |s| ==> KeyCmp(s[i].key, s[j].key) <= 0
  }

  /** Places x after every row of s whose key is not after x's key. */
  function Insert(x: Row, s: seq<Row>): seq<Row> {
    if |s| == 0 then [x]
    else if KeyCmp(x.key, s[0].key) < 0 then [x] + s
    else [s[0]] + Insert(x, s[1..])
  }

  /** The stable sort of s: each row is inserted, in input order, after its equals. */
  function InsSort(s: seq<Row>): seq<Row> {
    if |s| == 0 then [] else Insert(s[|s| - 1], InsSort(s[..|s| - 1]))
  }

  /** The rows of s whose key is equivalent to k, in their order in s. */
  function Filter(s: seq<Row>, k: Key): seq<Row> {
    if |s| == 0 then []
    else (if KeyCmp(s[0].key, k) == 0 then [s[0]] else []) + Filter(s[1..], k)
  }

  function RowLine(r: Row): string {
    r.line
  }

  /** The line texts of the rows. */
  function Lines(s: seq<Row>): seq<string> {
    MapSeq(RowLine, s)
  }

  /** Rows whose keys are equivalent are the same row (equal keys come only from equal lines). */
  predicate EquivalentAreIdentical(s: seq<Row>) {
    forall x, y :: x in s && y in s && KeyCmp(x.key, y.key) == 0 ==> x == y
  }

  lemma {:induction false} FilterConcat(a: seq<Row>, b: seq<Row>, k: Key)
    ensures Filter(a + b, k) == Filter(a, k) + Filter(b, k)
  {
    if |a| > 0 {
      assert (a + b)[1..] == a[1..] + b;
      FilterConcat(a[1..], b, k);
    } else {
      assert a + b == b;
    }
  }

  lemma {:induction false} FilterMembers(s: seq<Row>, k: Key)
    ensures forall e :: e in Filter(s, k) ==> e in s && KeyCmp(e.key, k) == 0
  {
    if |s| > 0 {
      FilterMembers(s[1..], k);
    }
  }

  lemma {:induction false} FilterNone(s: seq<Row>, k: Key)
    requires forall i :: 0 <= i < |s| ==> KeyCmp(s[i].key, k) != 0
    ensures Filter(s, k) == []
  {
    if |s| > 0 {
      FilterNone(s[1..], k);
    }
  }

  lemma SortedFirstIsLeast(s: seq<Row>, e: Row)
    requires Sorted(s) && e in s
    ensures KeyCmp(s[0].key, e.key) <= 0
  {
    var j :| 0 <= j < |s| && s[j] == e;
    if j == 0 { KeyCmpReflexive(e.key); }
  }

  lemma {:induction false} InsertPermutation(x: Row, s: seq<Row>)
    ensures multiset(Insert(x, s)) == multiset(s) + multiset{x}
  {
    if |s| > 0 && KeyCmp(x.key, s[0].key) >= 0 {
      InsertPermutation(x, s[1..]);
      assert s == [s[0]] + s[1..];
    }
  }

  /** The sort only reorders: it returns exactly the rows it was given. */
  lemma {:induction false} InsSortPermutation(s: seq<Row>)
    ensures multiset(InsSort(s)) == multiset(s)
  {
    if |s| > 0 {
      InsSortPermutation(s[..|s| - 1]);
      InsertPermutation(s[|s| - 1], InsSort(s[..|s| - 1]));
      assert s == s[..|s| - 1] + [s[|s| - 1]];
    }
  }

  lemma {:induction false} InsertSorted(x: Row, s: seq<Row>)
    requires Sorted(s)
    ensures Sorted(Insert(x, s))
  {
    if |s| == 0 {
    } else if KeyCmp(x.key, s[0].key) < 0 {
      var r := Insert(x, s);
      forall i, j | 0 <= i < j < |r| ensures KeyCmp(r[i].key, r[j].key) <= 0 {
        if i == 0 && j > 1 { StrictThenWeak(x.key, s[0].key, s[j - 1].key); }
      }
    } else {
      var t := Insert(x, s[1..]);
      InsertSorted(x, s[1..]);
      InsertPermutation(x, s[1..]);
      KeyCmpAntisymmetric(x.key, s[0].key);
      forall j | 0 <= j < |t| ensures KeyCmp(s[0].key, t[j].key) <= 0 {
        assert t[j] in multiset(t);
        if t[j] != x {
          assert t[j] in s[1..];
          var m :| 0 <= m < |s[1..]| && s[1..][m] == t[j];
          assert s[1 + m] == t[j];
        }
      }
    }
  }

  /** The sort's output is ordered by key. */
  lemma {:induction false} InsSortSorted(s: seq<Row>)
    ensures Sorted(InsSort(s))
  {
    if |s| > 0 {
      InsSortSorted(s[..|s| - 1]);
      InsertSorted(s[|s| - 1], InsSort(s[..|s| - 1]));
    }
  }

  lemma {:induction false} InsertFilter(x: Row, s: seq<Row>, k: Key)
    requires Sorted(s)
    ensures Filter(Insert(x, s), k) == Filter(s, k) + (if KeyCmp(x.key, k) == 0 then [x] else [])
  {
    if |s| == 0 {
    } else if KeyCmp(x.key, s[0].key) < 0 {
      if KeyCmp(x.key, k) == 0 {
        forall i | 0 <= i < |s| ensures KeyCmp(s[i].key, k) != 0 {
          if i > 0 { StrictThenWeak(x.key, s[0].key, s[i].key); }
          if KeyCmp(s[i].key, k) == 0 {
            KeyCmpAntisymmetric(x.key, k);
            KeyCmpAntisymmetric(s[i].key, k);
            KeyCmpTransitive(s[i].key, k, x.key);
            KeyCmpAntisymmetric(s[i].key, x.key);
          }
        }
        FilterNone(s, k);
      }
      assert Insert(x, s) == [x] + s;
      FilterConcat([x], s, k);
    } else {
      InsertFilter(x, s[1..], k);
      assert Insert(x, s)[1..] == Insert(x, s[1..]);
    }
  }

  /**
   * Stability: for every key, the rows with that key appear in the output in the same
   * relative order as in the input (byte-identical duplicates included).
   */
  lemma {:induction false} InsSortStable(s: seq<Row>, k: Key)
    ensures Filter(InsSort(s), k) == Filter(s, k)
  {
    if |s| > 0 {
      var init, last := s[..|s| - 1], s[|s| - 1];
      InsSortStable(init, k);
      InsSortSorted(init);
      InsertFilter(last, InsSort(init), k);
      assert s == init + [last];
      FilterConcat(init, [last], k);
    }
  }

  /** Where the in-place sort puts a row: after the rows not after it, before the rest. */
  lemma {:induction false} InsertAt(x: Row, p: seq<Row>, j: nat)
    requires j <= |p|
    requires forall i :: 0 <= i < j ==> KeyCmp(p[i].key, x.key) <= 0
    requires forall i :: j <= i < |p| ==> KeyCmp(p[i].key, x.key) > 0
    ensures Insert(x, p) == p[..j] + [x] + p[j..]
  {
    if |p| == 0 {
    } else if j == 0 {
      KeyCmpAntisymmetric(p[0].key, x.key);
    } else {
      KeyCmpAntisymmetric(p[0].key, x.key);
      InsertAt(x, p[1..], j - 1);
      assert p[1..][..j - 1] == p[1..j];
      assert p[1..][j - 1..] == p[j..];
      assert p[..j] == [p[0]] + p[1..j];
    }
  }

  /** Sorting rows that are already in order changes nothing: the sort is idempotent. */
  lemma {:induction false} SortedIsFixpoint(s: seq<Row>)
    requires Sorted(s)
    ensures InsSort(s) == s
  {
    if |s| > 0 {
      var init, last := s[..|s| - 1], s[|s| - 1];
      SortedIsFixpoint(init);
      InsertAt(last, init, |init|);
      assert init[..|init|] == init && init[|init|..] == [];
    }
  }

  lemma FilterOwnKey(s: seq<Row>)
    requires |s| > 0
    ensures Filter(s, s[0].key) == [s[0]] + Filter(s[1..], s[0].key)
  {
    KeyCmpReflexive(s[0].key);
  }

  /** Two sequences ordered by key that agree on every key's subsequence are the same. */
  lemma {:induction false} StableSortUnique(u: seq<Row>, v: seq<Row>)
    requires Sorted(u) && Sorted(v)
    requires forall k :: Filter(u, k) == Filter(v, k)
    ensures u == v
    decreases |u| + |v|
  {
    if |u| == 0 || |v| == 0 {
      if |u| > 0 {
        FilterOwnKey(u);
        assert false;
      } else if |v| > 0 {
        FilterOwnKey(v);
        assert false;
      }
    } else {
      SameFirst(u, v);
      TailFilters(u, v);
      SortedTail(u);
      SortedTail(v);
      StableSortUnique(u[1..], v[1..]);
      SameHeadSameTail(u, v);
    }
  }

  /** Ordered sequences that agree on every key's subsequence start with the same row. */
  lemma SameFirst(u: seq<Row>, v: seq<Row>)
    requires Sorted(u) && Sorted(v) && |u| > 0 && |v| > 0
    requires forall k :: Filter(u, k) == Filter(v, k)
    ensures u[0] == v[0]
  {
    var k0, k1 := u[0].key, v[0].key;
    KeyCmpReflexive(k0);
    KeyCmpReflexive(k1);
    FilterMembers(v, k0);
    var e := Filter(v, k0)[0];
    assert e in Filter(v, k0);
    SortedFirstIsLeast(v, e);
    KeyCmpTransitive(k1, e.key, k0);
    FilterMembers(u, k1);
    var f := Filter(u, k1)[0];
    assert f in Filter(u, k1);
    SortedFirstIsLeast(u, f);
    KeyCmpTransitive(k0, f.key, k1);
    KeyCmpAntisymmetric(k0, k1);
    assert Filter(v, k0)[0] == v[0];
  }

  lemma TailFilters(u: seq<Row>, v: seq<Row>)
    requires |u| > 0 && |v| > 0 && u[0] == v[0]
    requires forall k :: Filter(u, k) == Filter(v, k)
    ensures forall k :: Filter(u[1..], k) == Filter(v[1..], k)
  {
    forall k ensures Filter(u[1..], k) == Filter(v[1..], k) {
      var head := if KeyCmp(u[0].key, k) == 0 then [u[0]] else [];
      assert Filter(u, k) == head + Filter(u[1..], k);
      assert Filter(v, k) == head + Filter(v[1..], k);
      assert Filter(u[1..], k) == Filter(u, k)[|head|..];
    }
  }

  /**
   * The sort is the only stable ordering of its input: any sequence ordered by key that
   * keeps every key's rows in input order is InsSort's output. So any stable sort,
   * Python's sorted included, returns the same rows in the same order.
   */
  lemma InsSortCharacterised(s: seq<Row>, t: seq<Row>)
    requires Sorted(t)
    requires forall k :: Filter(t, k) == Filter(s, k)
    ensures t == InsSort(s)
  {
    InsSortSorted(s);
    forall k ensures Filter(t, k) == Filter(InsSort(s), k) {
      InsSortStable(s, k);
    }
    StableSortUnique(t, InsSort(s));
  }

  lemma TailKeepsIdentical(u: seq<Row>)
    requires |u| > 0 && EquivalentAreIdentical(u)
    ensures EquivalentAreIdentical(u[1..])
  {
    forall x, y | x in u[1..] && y in u[1..] && KeyCmp(x.key, y.key) == 0 ensures x == y {
      assert x in u && y in u;
    }
  }

  /** Two orderings by key of the same rows are equal when equivalent keys mean identical rows. */
  lemma {:induction false} SortedPermutationUnique(u: seq<Row>, v: seq<Row>)
    requires Sorted(u) && Sorted(v)
    requires multiset(u) == multiset(v)
    requires EquivalentAreIdentical(u)
    ensures u == v
    decreases |u|
  {
    if |u| == 0 {
      assert |multiset(v)| == 0;
    } else {
      SameLeast(u, v);
      TailsPermutation(u, v);
      TailKeepsIdentical(u);
      SortedTail(u);
      SortedTail(v);
      SortedPermutationUnique(u[1..], v[1..]);
      SameHeadSameTail(u, v);
    }
  }

  lemma SortedTail(u: seq<Row>)
    requires Sorted(u) && |u| > 0
    ensures Sorted(u[1..])
  {
  }

  lemma SameHeadSameTail(u: seq<Row>, v: seq<Row>)
    requires |u| > 0 && |v| > 0 && u[0] == v[0] && u[1..] == v[1..]
    ensures u == v
  {
    assert u == [u[0]] + u[1..] && v == [v[0]] + v[1..];
  }

  /** Two orderings by key of the same rows start with the same row. */
  lemma SameLeast(u: seq<Row>, v: seq<Row>)
    requires Sorted(u) && Sorted(v) && |u| > 0
    requires multiset(u) == multiset(v)
    requires EquivalentAreIdentical(u)
    ensures |v| > 0 && u[0] == v[0]
  {
    assert |v| > 0 by { assert |multiset(v)| == |multiset(u)| == |u|; }
    var x, y := u[0], v[0];
    assert x in multiset(v) && y in multiset(u);
    assert x in v && y in u;
    SortedFirstIsLeast(v, x);
    SortedFirstIsLeast(u, y);
    KeyCmpAntisymmetric(x.key, y.key);
  }

  lemma TailsPermutation(u: seq<Row>, v: seq<Row>)
    requires |u| > 0 && |v| > 0 && u[0] == v[0]
    requires multiset(u) == multiset(v)
    ensures multiset(u[1..]) == multiset(v[1..])
  {
    var x := u[0];
    assert multiset(u) == multiset{x} + multiset(u[1..]) by { assert u == [x] + u[1..]; }
    assert multiset(v) == multiset{x} + multiset(v[1..]) by { assert v == [x] + v[1..]; }
    assert multiset(u[1..]) == multiset(u) - multiset{x};
    assert multiset(v[1..]) == multiset(v) - multiset{x};
  }

  /**
   * Order independence: when equivalent keys only come from identical rows, the sort's
   * output depends only on the multiset of its input.
   */
  lemma OrderIndependent(s: seq<Row>, t: seq<Row>)
    requires multiset(s) == multiset(t)
    requires EquivalentAreIdentical(s)
    ensures InsSort(s) == InsSort(t)
  {
    InsSortSorted(s);
    InsSortSorted(t);
    InsSortPermutation(s);
    InsSortPermutation(t);
    IdenticalCarries(s, InsSort(s));
    SortedPermutationUnique(InsSort(s), InsSort(t));
  }

  lemma IdenticalCarries(s: seq<Row>, u: seq<Row>)
    requires multiset(s) == multiset(u)
    requires EquivalentAreIdentical(s)
    ensures EquivalentAreIdentical(u)
  {
    forall x, y | x in u && y in u && KeyCmp(x.key, y.key) == 0 ensures x == y {
      assert x in multiset(u) && y in multiset(u);
      assert x in s && y in s;
    }
  }

  /** The array prefix the in-place step leaves behind is Insert's result. */
  lemma ShiftedIsInsert(x: Row, p: seq<Row>, j: nat, b: seq<Row>)
    requires Sorted(p) && j <= |p| && |b| == |p| + 1
    requires j > 0 ==> KeyCmp(p[j - 1].key, x.key) <= 0
    requires forall k :: j <= k < |p| ==> KeyCmp(p[k].key, x.key) > 0
    requires forall k :: 0 <= k < j ==> b[k] == p[k]
    requires b[j] == x
    requires forall k :: j < k < |b| ==> b[k] == p[k - 1]
    ensures b == Insert(x, p)
  {
    forall k | 0 <= k < j ensures KeyCmp(p[k].key, x.key) <= 0 {
      if k < j - 1 { KeyCmpTransitive(p[k].key, p[j - 1].key, x.key); }
    }
    InsertAt(x, p, j);
    var r := p[..j] + [x] + p[j..];
    assert |r| == |b|;
    forall k | 0 <= k < |b| ensures b[k] == r[k] {
      if k < j { assert r[k] == p[k]; }
      else if k > j { assert r[k] == p[k - 1]; }
    }
    assert b == r;
  }

  /**
   * One step of the in-place sort: the row at index i moves left past every row of the
   * sorted prefix whose key is after its own.
   */
  method InsertStep(a: array<Row>, i: nat)
    requires i < a.Length && Sorted(a[..i])
    modifies a
    ensures a[..i + 1] == Insert(old(a[i]), old(a[..i]))
    ensures a[i + 1..] == old(a[i + 1..])
  {
    var x := a[i];
    ghost var p := a[..i];
    var j := MakeRoom(a, i, x);
    a[j] := x;
    ghost var b := a[..i + 1];
    assert forall k :: 0 <= k < j ==> b[k] == p[k];
    assert forall k :: j < k < |b| ==> b[k] == p[k - 1];
    ShiftedIsInsert(x, p, j, b);
    assert a[i + 1..] == old(a[i + 1..]);
  }

  /**
   * The shifting loop of InsertStep: the rows of a[..i] whose key is after x's move one
   * place right, leaving a gap at the returned index j.
   */
  method MakeRoom(a: array<Row>, i: nat, x: Row) returns (j: nat)
    requires i < a.Length
    modifies a
    ensures j <= i
    ensures forall k :: 0 <= k < j ==> a[k] == old(a[k])
    ensures forall k :: j < k <= i ==> a[k] == old(a[k - 1])
    ensures forall k :: i < k < a.Length ==> a[k] == old(a[k])
    ensures forall k :: j <= k < i ==> KeyCmp(old(a[k]).key, x.key) > 0
    ensures j > 0 ==> KeyCmp(old(a[j - 1]).key, x.key) <= 0
  {
    j := i;
    while j > 0 && KeyCmp(a[j - 1].key, x.key) > 0
      invariant 0 <= j <= i
      invariant forall k :: 0 <= k < j ==> a[k] == old(a[k])
      invariant forall k :: j < k <= i ==> a[k] == old(a[k - 1])
      invariant forall k :: i < k < a.Length ==> a[k] == old(a[k])
      invariant forall k :: j <= k < i ==> KeyCmp(old(a[k]).key, x.key) > 0
    {
      a[j] := a[j - 1];
      j := j - 1;
    }
  }

  /** Sorts the array in place, stably, by key: the in-place counterpart of InsSort. */
  method SortInPlace(a: array<Row>)
    modifies a
    ensures a[..] == InsSort(old(a[..]))
  {
    ghost var input := a[..];
    var i := 0;
    while i < a.Length
      invariant 0 <= i <= a.Length
      invariant a[..i] == InsSort(input[..i])
      invariant a[i..] == input[i..]
    {
      InsSortSorted(input[..i]);
      assert input[..i + 1] == input[..i] + [input[i]];
      InsertStep(a, i);
      i := i + 1;
    }
    assert input[..a.Length] == input;
    assert a[..a.Length] == a[..];
  }
}
