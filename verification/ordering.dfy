/**
 * How two sort keys compare: Python's list comparison, where the first position at which
 * the keys differ decides and a key that is a proper prefix of the other comes first.
 * Numbers compare by value, strings by code point. The null of a numeric column is placed
 * after every number (see the README's findings for why this is a choice).
 */
module Ordering {
  import opened Keys

  /** Python's comparison of two str values: -1, 0 or 1. */
  function StrCmp(a: string, b: string): (c: int)
    ensures -1 <= c <= 1
  {
    if |a| == 0 && |b| == 0 then 0
    else if |a| == 0 then -1
    else if |b| == 0 then 1
    else if a[0] < b[0] then -1
    else if a[0] > b[0] then 1
    else StrCmp(a[1..], b[1..])
  }

  function NumValue(c: Cell): real
    requires c.Int? || c.Dec?
  {
    if c.Int? then c.i as real else c.d
  }

  /** Numbers first, then the null of a numeric column, then strings. */
  function Rank(c: Cell): nat {
    match c
    case Int(_) => 0
    case Dec(_) => 0
    case Null => 1
    case Str(_) => 2
  }

  function CellCmp(a: Cell, b: Cell): (c: int)
    ensures -1 <= c <= 1
  {
    if Rank(a) < Rank(b) then -1
    else if Rank(a) > Rank(b) then 1
    else if Rank(a) == 0 then
      (if NumValue(a) < NumValue(b) then -1 else if NumValue(a) > NumValue(b) then 1 else 0)
    else if Rank(a) == 1 then 0
    else StrCmp(a.s, b.s)
  }

  /** Python's comparison of two lists of cells: -1, 0 or 1. */
  function KeyCmp(a: Key, b: Key): (c: int)
    ensures -1 <= c <= 1
  {
    if |a| == 0 && |b| == 0 then 0
    else if |a| == 0 then -1
    else if |b| == 0 then 1
    else if CellCmp(a[0], b[0]) != 0 then CellCmp(a[0], b[0])
    else KeyCmp(a[1..], b[1..])
  }

  lemma {:induction false} StrCmpReflexive(a: string)
    ensures StrCmp(a, a) == 0
  {
    if |a| > 0 { StrCmpReflexive(a[1..]); }
  }

  lemma {:induction false} StrCmpAntisymmetric(a: string, b: string)
    ensures StrCmp(a, b) == -StrCmp(b, a)
    ensures StrCmp(a, b) == 0 ==> a == b
  {
    if |a| > 0 && |b| > 0 && a[0] == b[0] {
      StrCmpAntisymmetric(a[1..], b[1..]);
      assert a == [a[0]] + a[1..] && b == [b[0]] + b[1..];
    }
  }

  lemma {:induction false} StrCmpTransitive(a: string, b: string, c: string)
    requires StrCmp(a, b) <= 0 && StrCmp(b, c) <= 0
    ensures StrCmp(a, c) <= 0
  {
    if |a| > 0 && |b| > 0 && |c| > 0 && a[0] == b[0] == c[0] {
      StrCmpTransitive(a[1..], b[1..], c[1..]);
    }
  }

  lemma CellCmpReflexive(a: Cell)
    ensures CellCmp(a, a) == 0
  {
    if a.Str? { StrCmpReflexive(a.s); }
  }

  lemma CellCmpAntisymmetric(a: Cell, b: Cell)
    ensures CellCmp(a, b) == -CellCmp(b, a)
  {
    if a.Str? && b.Str? { StrCmpAntisymmetric(a.s, b.s); }
  }

  lemma CellCmpTransitive(a: Cell, b: Cell, c: Cell)
    requires CellCmp(a, b) <= 0 && CellCmp(b, c) <= 0
    ensures CellCmp(a, c) <= 0
  {
    if a.Str? && b.Str? && c.Str? { StrCmpTransitive(a.s, b.s, c.s); }
  }

  /** Every key is equivalent to itself. */
  lemma {:induction false} KeyCmpReflexive(a: Key)
    ensures KeyCmp(a, a) == 0
  {
    if |a| > 0 {
      CellCmpReflexive(a[0]);
      KeyCmpReflexive(a[1..]);
    }
  }

  /** Swapping the keys flips the outcome, so any two keys are ordered one way or the other. */
  lemma {:induction false} KeyCmpAntisymmetric(a: Key, b: Key)
    ensures KeyCmp(a, b) == -KeyCmp(b, a)
  {
    if |a| > 0 && |b| > 0 {
      CellCmpAntisymmetric(a[0], b[0]);
      KeyCmpAntisymmetric(a[1..], b[1..]);
    }
  }

  /** Not-after is transitive: together with the two lemmas above, KeyCmp is a total preorder. */
  lemma {:induction false} KeyCmpTransitive(a: Key, b: Key, c: Key)
    requires KeyCmp(a, b) <= 0 && KeyCmp(b, c) <= 0
    ensures KeyCmp(a, c) <= 0
  {
    if |a| > 0 && |b| > 0 && |c| > 0 {
      CellCmpAntisymmetric(a[0], b[0]);
      CellCmpAntisymmetric(b[0], c[0]);
      CellCmpAntisymmetric(a[0], c[0]);
      CellCmpTransitive(a[0], b[0], c[0]);
      if CellCmp(a[0], b[0]) == 0 && CellCmp(b[0], c[0]) == 0 {
        KeyCmpTransitive(a[1..], b[1..], c[1..]);
      } else if CellCmp(a[0], c[0]) == 0 {
        CellCmpTransitive(c[0], a[0], b[0]);
        CellCmpTransitive(b[0], c[0], a[0]);
      }
    }
  }

  /** Strictly-before followed by not-after is strictly-before. */
  lemma StrictThenWeak(a: Key, b: Key, c: Key)
    requires KeyCmp(a, b) < 0 && KeyCmp(b, c) <= 0
    ensures KeyCmp(a, c) < 0
  {
    KeyCmpTransitive(a, b, c);
    if KeyCmp(a, c) == 0 {
      KeyCmpAntisymmetric(a, c);
      KeyCmpTransitive(b, c, a);
      KeyCmpAntisymmetric(a, b);
    }
  }
}
