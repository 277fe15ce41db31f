/**
 * Finite sums and counts over a sequence of keys, used to state that a
 * distribution over the pages of a corpus adds up to one.
 */
module Sums {

  /** No key occurs twice in `s` (the keys of a dictionary, in order). */
  predicate Distinct<T(==)>(s: seq<T>)
  {
    s == [] || (s[0] !in s[1..] && Distinct(s[1..]))
  }

  /** Distinct keys sit at distinct positions. */
  lemma {:induction false} DistinctAt<T>(s: seq<T>, i: nat, j: nat)
    requires Distinct(s) && i < |s| && j < |s| && i != j
    ensures s[i] != s[j]
  {
    if i > 0 && j > 0 {
      DistinctAt(s[1..], i - 1, j - 1);
    } else if i == 0 {
      assert s[j] == s[1..][j - 1];
    } else {
      assert s[i] == s[1..][i - 1];
    }
  }

  /** The sum of the values that `m` gives to the keys `ks`. */
  function Sum<T(==)>(ks: seq<T>, m: map<T, real>): real
    requires forall k | k in ks :: k in m
  {
    if ks == [] then 0.0 else m[ks[0]] + Sum(ks[1..], m)
  }

  /** The number of positions of `ks` that hold a member of `s`. */
  function CountIn<T(==)>(ks: seq<T>, s: set<T>): (r: nat)
    ensures r <= |ks|
  {
    if ks == [] then 0 else (if ks[0] in s then 1 else 0) + CountIn(ks[1..], s)
  }

  /** Over keys without repetition, counting the members of `s` gives the size of their intersection. */
  lemma {:induction false} CountInDistinct<T>(ks: seq<T>, s: set<T>)
    requires Distinct(ks)
    ensures CountIn(ks, s) == |set k | k in ks && k in s|
  {
    if ks == [] {
      assert (set k | k in ks && k in s) == {};
    } else {
      var rest := ks[1..];
      CountInDistinct(rest, s);
      var all := set k | k in ks && k in s;
      var tail := set k | k in rest && k in s;
      assert ks == [ks[0]] + rest;
      if ks[0] in s {
        assert all == tail + {ks[0]};
        assert ks[0] !in tail;
      } else {
        assert all == tail;
      }
    }
  }

  /** Every member of `s` occurs exactly once among distinct keys, so it is counted |s| times. */
  lemma CountInCovered<T>(ks: seq<T>, s: set<T>)
    requires Distinct(ks)
    requires forall k | k in s :: k in ks
    ensures CountIn(ks, s) == |s|
  {
    CountInDistinct(ks, s);
    assert (set k | k in ks && k in s) == s;
  }

  /** When every key is in `s`, every position is counted. */
  lemma {:induction false} AllCounted<T>(ks: seq<T>, s: set<T>)
    requires forall k | k in ks :: k in s
    ensures CountIn(ks, s) == |ks|
  {
    if ks != [] {
      AllCounted(ks[1..], s);
    }
  }

  /** `x` added to itself `n` times. */
  function Repeat(n: nat, x: real): real
  {
    if n == 0 then 0.0 else x + Repeat(n - 1, x)
  }

  lemma {:induction false} RepeatIsProduct(n: nat, x: real)
    ensures Repeat(n, x) == n as real * x
  {
    if n > 0 {
      RepeatIsProduct(n - 1, x);
      assert n as real * x == (n - 1) as real * x + x;
    }
  }

  lemma {:induction false} SumAsRepeats<T>(ks: seq<T>, m: map<T, real>, b: real, extra: real, s: set<T>)
    requires forall k | k in ks :: k in m && m[k] == b + (if k in s then extra else 0.0)
    ensures Sum(ks, m) == Repeat(|ks|, b) + Repeat(CountIn(ks, s), extra)
  {
    if ks != [] {
      SumAsRepeats(ks[1..], m, b, extra, s);
    }
  }

  /** The sum of `g(r, c)` over the keys `c` of `cols`, for one key `r`. */
  function RowTotal<T>(r: T, cols: seq<T>, g: (T, T) -> real): real
  {
    if cols == [] then 0.0 else g(r, cols[0]) + RowTotal(r, cols[1..], g)
  }

  /** The sum of `g(r, c)` over the keys `r` of `rows`, for one key `c`. */
  function ColumnTotal<T>(rows: seq<T>, c: T, g: (T, T) -> real): real
  {
    if rows == [] then 0.0 else g(rows[0], c) + ColumnTotal(rows[1..], c, g)
  }

  /** The double sum of `g`, one row at a time. */
  function ByRows<T>(rows: seq<T>, cols: seq<T>, g: (T, T) -> real): real
  {
    if rows == [] then 0.0 else RowTotal(rows[0], cols, g) + ByRows(rows[1..], cols, g)
  }

  /** The double sum of `g`, one column at a time. */
  function ByColumns<T>(rows: seq<T>, cols: seq<T>, g: (T, T) -> real): real
  {
    if cols == [] then 0.0 else ColumnTotal(rows, cols[0], g) + ByColumns(rows, cols[1..], g)
  }

  /** Taking the first row out of a sum by columns. */
  lemma {:induction false} PeelRow<T>(rows: seq<T>, cols: seq<T>, g: (T, T) -> real)
    requires rows != []
    ensures ByColumns(rows, cols, g) == RowTotal(rows[0], cols, g) + ByColumns(rows[1..], cols, g)
  {
    if cols != [] {
      PeelRow(rows, cols[1..], g);
    }
  }

  /** A double sum can be taken in either order. */
  lemma {:induction false} RowsThenColumns<T>(rows: seq<T>, cols: seq<T>, g: (T, T) -> real)
    ensures ByRows(rows, cols, g) == ByColumns(rows, cols, g)
  {
    if rows == [] {
      ZeroColumns(rows, cols, g);
    } else {
      RowsThenColumns(rows[1..], cols, g);
      PeelRow(rows, cols, g);
    }
  }

  /** Without rows every column sums to zero. */
  lemma {:induction false} ZeroColumns<T>(rows: seq<T>, cols: seq<T>, g: (T, T) -> real)
    requires rows == []
    ensures ByColumns(rows, cols, g) == 0.0
  {
    if cols != [] {
      ZeroColumns(rows, cols[1..], g);
    }
  }

  /** A row that is `x` on the members of `s` and zero elsewhere sums to x times their count. */
  lemma {:induction false} RowOfIndicator<T>(r: T, cols: seq<T>, g: (T, T) -> real, s: set<T>, x: real)
    requires forall c | c in cols :: g(r, c) == if c in s then x else 0.0
    ensures RowTotal(r, cols, g) == CountIn(cols, s) as real * x
  {
    if cols != [] {
      RowOfIndicator(r, cols[1..], g, s, x);
    }
  }

  /** A map whose values are the row totals sums to the double sum by rows. */
  lemma {:induction false} SumOfRows<T>(rows: seq<T>, cols: seq<T>, g: (T, T) -> real, m: map<T, real>)
    requires forall r | r in rows :: r in m && m[r] == RowTotal(r, cols, g)
    ensures Sum(rows, m) == ByRows(rows, cols, g)
  {
    if rows != [] {
      SumOfRows(rows[1..], cols, g, m);
    }
  }

  /** Scaling every term of a column by d scales the column by d. */
  lemma {:induction false} ColumnScaled<T>(rows: seq<T>, c: T, g: (T, T) -> real, h: (T, T) -> real, d: real)
    requires forall r :: h(r, c) == d * g(r, c)
    ensures ColumnTotal(rows, c, h) == d * ColumnTotal(rows, c, g)
  {
    if rows != [] {
      ColumnScaled(rows[1..], c, g, h, d);
      assert d * ColumnTotal(rows, c, g) == d * g(rows[0], c) + d * ColumnTotal(rows[1..], c, g);
    }
  }

  /** Scaling every term of a double sum by d scales the double sum by d. */
  lemma {:induction false} ByColumnsScaled<T>(rows: seq<T>, cols: seq<T>, g: (T, T) -> real, h: (T, T) -> real, d: real)
    requires forall r, c :: h(r, c) == d * g(r, c)
    ensures ByColumns(rows, cols, h) == d * ByColumns(rows, cols, g)
  {
    if cols != [] {
      ByColumnsScaled(rows, cols[1..], g, h, d);
      ColumnScaled(rows, cols[0], g, h, d);
      assert d * ByColumns(rows, cols, g) == d * ColumnTotal(rows, cols[0], g) + d * ByColumns(rows, cols[1..], g);
    }
  }

  /** A map whose values are t plus the column totals sums to N * t plus the double sum by columns. */
  lemma {:induction false} SumOfColumns<T>(rows: seq<T>, cols: seq<T>, g: (T, T) -> real, m: map<T, real>, t: real)
    requires forall c | c in cols :: c in m && m[c] == t + ColumnTotal(rows, c, g)
    ensures Sum(cols, m) == Repeat(|cols|, t) + ByColumns(rows, cols, g)
  {
    if cols != [] {
      SumOfColumns(rows, cols[1..], g, m, t);
    }
  }
}
