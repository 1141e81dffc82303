/**
  The three-column split of one group. The exporter computes the number of
  items per column as the ceiling of a third of the group's size, then gives
  column `col` the items that LINQ `Skip` and `Take` leave when skipping
  `col` times that number and taking that number.

  `Skip` and `Take` are written as LINQ enumerates them, one element at a
  time, and proved equal to slices clipped to the length of the list.
*/
module ColumnSplit {

  /** The number of column slots every group occupies. */
  const ColumnCount: nat := 3

  /**
    `itemsPerColumn`: the ceiling of n / 3, the least number of items per
    column that fits n items into three columns.
  */
  function Capacity(n: nat): (cap: nat)
    ensures n <= 3 * cap < n + 3
  {
    (n + 2) / 3
  }

  /** LINQ `Skip`: drops the first `k` elements, or all of them if there are fewer. */
  function Skip<T>(s: seq<T>, k: nat): (r: seq<T>)
    ensures r == s[if k < |s| then k else |s|..]
  {
    if k == 0 || s == [] then s else Skip(s[1..], k - 1)
  }

  /** LINQ `Take`: keeps the first `k` elements, or all of them if there are fewer. */
  function Take<T>(s: seq<T>, k: nat): (r: seq<T>)
    ensures r == s[..if k < |s| then k else |s|]
  {
    if k == 0 || s == [] then [] else [s[0]] + Take(s[1..], k - 1)
  }

  function Min(a: nat, b: nat): nat
  {
    if a < b then a else b
  }

  /** `Skip(k).Take(m)` is the slice [k, k + m), clipped to the length. */
  lemma TakeSkip<T>(s: seq<T>, k: nat, m: nat)
    ensures Take(Skip(s, k), m) == s[Min(k, |s|)..Min(k + m, |s|)]
  {
    var from := Min(k, |s|);
    SliceOfSlice(s, from, Min(m, |s| - from));
  }

  lemma SliceOfSlice<T>(s: seq<T>, i: nat, m: nat)
    requires i + m <= |s|
    ensures s[i..][..m] == s[i..i + m]
  {
  }

  /** Cutting a sequence at two points and gluing the pieces gives it back. */
  lemma Reassemble<T>(s: seq<T>, a: nat, b: nat)
    requires a <= b <= |s|
    ensures s[..a] + s[a..b] + s[b..] == s
  {
  }

  /**
    The three columns of a group, left to right: the group's items cut at
    `cap` and `2 * cap`, the cuts clipped to the group's length.
  */
  function Columns<T>(items: seq<T>): (cols: seq<seq<T>>)
    ensures |cols| == ColumnCount
  {
    var n, cap := |items|, Capacity(|items|);
    var a, b := Min(cap, n), Min(cap + cap, n);
    [items[..a], items[a..b], items[b..]]
  }

  /**
    Together the columns are the group's items, in order, nothing dropped or
    repeated; none holds more than `cap` items; they never grow from left to
    right; and the first is empty only for an empty group.
  */
  lemma ColumnsSplit<T>(items: seq<T>)
    ensures var cols := Columns(items);
      && cols[0] + cols[1] + cols[2] == items
      && Capacity(|items|) >= |cols[0]| >= |cols[1]| >= |cols[2]|
      && (|cols[0]| > 0 <==> |items| > 0)
  {
    var n, cap := |items|, Capacity(|items|);
    Reassemble(items, Min(cap, n), Min(cap + cap, n));
  }

  /**
    What the exporter selects for column `col`, skipping `col * cap` items and
    taking `cap`, is column `col` of `Columns`: the slice
    [col * cap, (col + 1) * cap) of the group, clipped to its length.
  */
  lemma SkipTakeColumn<T>(items: seq<T>, col: nat)
    requires col < ColumnCount
    ensures var n, cap := |items|, Capacity(|items|);
      && Take(Skip(items, col * cap), cap) == Columns(items)[col]
      && Columns(items)[col] == items[Min(col * cap, n)..Min(col * cap + cap, n)]
  {
    var start := StartOf(col, Capacity(|items|));
    ColumnWindow(items, col, start);
  }

  /** Column `col` of `Columns` is the window of `cap` items from its start. */
  lemma ColumnWindow<T>(items: seq<T>, col: nat, start: nat)
    requires col < ColumnCount
    requires var cap := Capacity(|items|);
      start == if col == 0 then 0 else if col == 1 then cap else cap + cap
    ensures var n, cap := |items|, Capacity(|items|);
      && Take(Skip(items, start), cap) == Columns(items)[col]
      && Columns(items)[col] == items[Min(start, n)..Min(start + cap, n)]
  {
    var n, cap := |items|, Capacity(|items|);
    TakeSkip(items, start, cap);
    assert Min(cap + cap + cap, n) == n;
  }

  /** Column `col` starts after `col` full columns: at 0, `cap` or `2 * cap`. */
  lemma StartOf(col: nat, cap: nat) returns (start: nat)
    requires col < ColumnCount
    ensures start == col * cap
    ensures start == if col == 0 then 0 else if col == 1 then cap else cap + cap
  {
    start := col * cap;
    if col == 2 {
      assert start == cap + cap;
    }
  }

  /** Two items split 1/1/0; four items split 2/2/0; seven split 3/3/1. */
  lemma ColumnSizeExamples<T>(two: seq<T>, four: seq<T>, seven: seq<T>)
    requires |two| == 2 && |four| == 4 && |seven| == 7
    ensures var c := Columns(two); |c[0]| == 1 && |c[1]| == 1 && |c[2]| == 0
    ensures var c := Columns(four); |c[0]| == 2 && |c[1]| == 2 && |c[2]| == 0
    ensures var c := Columns(seven); |c[0]| == 3 && |c[1]| == 3 && |c[2]| == 1
  {
    assert Capacity(2) == 1 && Capacity(4) == 2 && Capacity(7) == 3;
  }
}
