/** Index windows: the arithmetic of LRANGE, ZRANGE and LINDEX against the inclusive,
    negative-index slice they stand for. */
module Windows {
  import opened Bytes

  // ------------------------------------------------------------- the reference

  /** A client index: negative ones count from the end. */
  function Position(len: nat, index: int): int { if index < 0 then len + index else index }

  /** The elements from `start` to `stop`, both included, in order. */
  function Slice<T>(q: seq<T>, start: int, stop: int): seq<T>
  {
    SliceFrom(q, 0, Position(|q|, start), Position(|q|, stop))
  }

  function SliceFrom<T>(q: seq<T>, i: nat, first: int, last: int): seq<T>
    requires i <= |q|
    decreases |q| - i
  {
    if i == |q| then []
    else (if first <= i <= last then [q[i]] else []) + SliceFrom(q, i + 1, first, last)
  }

  // ------------------------------------------------------------- the code

  /** The cast `n as usize` of an i64. */
  function AsUsize(n: int): int { if n < 0 then n + TWO_TO_64 else n }

  function StartIndex(len: nat, start: int): nat
  {
    var s := if start < 0 then len + start else start;
    if s < 0 then 0 else s
  }

  function StopIndex(len: nat, stop: int): int
  {
    var s := if stop < 0 then len + stop else stop;
    AsUsize(if s < len - 1 then s else len - 1)
  }

  /** `l_range`: None stands for the panic of an out-of-bounds range. */
  function ListWindow<T>(q: seq<T>, start: i64, stop: i64): Option<seq<T>>
  {
    var lo, hi := StartIndex(|q|, start), StopIndex(|q|, stop);
    if lo > hi || lo >= |q| then Some([])
    else if hi >= |q| then None
    else Some(q[lo..hi + 1])
  }

  /** `z_range`: the stop is clamped once more after the cast. */
  function RankWindow<T>(q: seq<T>, start: i64, stop: i64): seq<T>
  {
    var lo, hi := StartIndex(|q|, start), StopIndex(|q|, stop);
    if lo > hi || lo >= |q| then []
    else q[lo..(if hi < |q| - 1 then hi else |q| - 1) + 1]
  }

  /** `l_index`. */
  function ListIndex<T>(q: seq<T>, index: i64): Option<T>
  {
    var idx := AsUsize(if index < 0 then |q| + index else index);
    if idx < |q| then Some(q[idx]) else None
  }

  // ------------------------------------------------------------- the two agree

  /** The stop lies before the first element while the start lies before the end. */
  predicate StopsBeforeStart(len: nat, start: int, stop: int)
  {
    len + stop < 0 && StartIndex(len, start) < len
  }

  lemma {:induction false} SliceFromIs<T>(q: seq<T>, i: nat, first: int, last: int)
    requires i <= |q|
    ensures var lo := if first < i then i else if first > |q| then |q| else first;
      var end := if last + 1 < lo then lo else if last + 1 > |q| then |q| else last + 1;
      SliceFrom(q, i, first, last) == q[lo..end]
    decreases |q| - i
  {
    if i < |q| { SliceFromIs(q, i + 1, first, last); }
  }

  /** LRANGE gives the reference slice exactly when the stop is not before the first element
      of a window that starts inside the list; otherwise it panics. */
  lemma ListWindowExactly<T>(q: seq<T>, start: i64, stop: i64)
    ensures ListWindow(q, start, stop) ==
      if StopsBeforeStart(|q|, start, stop) then None else Some(Slice(q, start, stop))
  {
    SliceFromIs(q, 0, Position(|q|, start), Position(|q|, stop));
  }

  /** In the same case ZRANGE runs to the end instead, which is never the reference slice:
      that slice is empty. */
  lemma RankWindowExactly<T>(q: seq<T>, start: i64, stop: i64)
    ensures RankWindow(q, start, stop) ==
      if StopsBeforeStart(|q|, start, stop) then q[StartIndex(|q|, start)..] else Slice(q, start, stop)
    ensures RankWindow(q, start, stop) == Slice(q, start, stop) <==> !StopsBeforeStart(|q|, start, stop)
  {
    SliceFromIs(q, 0, Position(|q|, start), Position(|q|, stop));
  }

  lemma SliceIs<T>(q: seq<T>, first: nat, last: nat)
    requires first <= last + 1
    ensures Slice(q, first, last) ==
      if first > |q| then [] else q[first..(if last + 1 > |q| then |q| else last + 1)]
  {
    SliceFromIs(q, 0, first, last);
  }

  lemma SliceToEnd<T>(q: seq<T>, first: nat)
    ensures Slice(q, first, -1) == if first > |q| then [] else q[first..]
  {
    SliceFromIs(q, 0, first, |q| - 1);
  }

  /** Adjacent windows tile: two windows that meet make the window that spans them, and
      cutting the whole list after any element and appending the parts gives the list. */
  lemma WindowsTile<T>(q: seq<T>, first: nat, middle: nat, last: nat)
    requires first <= middle <= last
    ensures Slice(q, first, middle) + Slice(q, middle + 1, last) == Slice(q, first, last)
    ensures Slice(q, 0, middle) + Slice(q, middle + 1, -1) == q == Slice(q, 0, -1)
  {
    hide Slice;
    SliceIs(q, first, middle);
    SliceIs(q, middle + 1, last);
    SliceIs(q, first, last);
    SliceIs(q, 0, middle);
    SliceToEnd(q, middle + 1);
    SliceToEnd(q, 0);
  }

  /** LINDEX finds the element of the one-element window, and nothing when that is empty. */
  lemma ListIndexExactly<T>(q: seq<T>, index: i64)
    ensures Slice(q, index, index) == if ListIndex(q, index).Some? then [ListIndex(q, index).value] else []
    ensures ListIndex(q, index).Some? <==> -|q| <= index < |q|
  {
    var p := Position(|q|, index);
    SliceFromIs(q, 0, p, p);
  }
}
