/**
 * The two uses of `Array.prototype.splice` in the drag-end handler, on a
 * fresh copy of an activity list: `splice(i, 1)` removes one element and
 * `splice(i, 0, x)` inserts one. Both are stated for in-range indices only.
 */
module Splice {

  /** The list after `splice(i, 1)`: the element at `i` is gone and every later one moved down by one. */
  function RemoveAt<T>(s: seq<T>, i: nat): (r: seq<T>)
    requires i < |s|
    ensures |r| == |s| - 1
    ensures forall k :: 0 <= k < i ==> r[k] == s[k]
    ensures forall k :: i <= k < |r| ==> r[k] == s[k + 1]
  {
    s[..i] + s[i + 1..]
  }

  /** The list after `splice(i, 0, x)`: `x` sits at `i` and every element from `i` on moved up by one. */
  function InsertAt<T>(s: seq<T>, i: nat, x: T): (r: seq<T>)
    requires i <= |s|
    ensures |r| == |s| + 1
    ensures r[i] == x
    ensures forall k :: 0 <= k < i ==> r[k] == s[k]
    ensures forall k :: i < k < |r| ==> r[k] == s[k - 1]
  {
    s[..i] + [x] + s[i..]
  }

  /** Removing takes exactly one occurrence of the removed element out of the list's multiset. */
  lemma RemoveAtMultiset<T>(s: seq<T>, i: nat)
    requires i < |s|
    ensures multiset(RemoveAt(s, i)) + multiset{s[i]} == multiset(s)
  {
    assert s == s[..i] + [s[i]] + s[i + 1..];
  }

  /** Inserting adds exactly one occurrence of the inserted element to the list's multiset. */
  lemma InsertAtMultiset<T>(s: seq<T>, i: nat, x: T)
    requires i <= |s|
    ensures multiset(InsertAt(s, i, x)) == multiset(s) + multiset{x}
  {
    assert s == s[..i] + s[i..];
  }

  /** Putting the removed element back where it was restores the list. */
  lemma InsertUndoesRemove<T>(s: seq<T>, i: nat)
    requires i < |s|
    ensures InsertAt(RemoveAt(s, i), i, s[i]) == s
  {
  }

  /** Removing the element just inserted restores the list. */
  lemma RemoveUndoesInsert<T>(s: seq<T>, i: nat, x: T)
    requires i <= |s|
    ensures RemoveAt(InsertAt(s, i, x), i) == s
  {
  }

  /**
   * Where the element at index `k` of a list came from, after the element at
   * `from` was moved to `to`: the moved element lands on `to`, the elements it
   * passed over shift by one towards `from`, and all others stay put.
   */
  function OriginOf(from: nat, to: nat, k: nat): (o: nat)
    ensures o == from <==> k == to
    ensures k != to ==> k - 1 <= o <= k + 1
  {
    if k == to then from
    else if from < to && from <= k < to then k + 1
    else if to < k <= from then k - 1
    else k
  }

  /**
   * Moving the element at `from` to index `to` of the shortened list (a
   * remove followed by an insert) keeps the length and the multiset, puts
   * the moved element at `to`, and otherwise only shifts the elements between.
   */
  lemma MoveWithin<T>(s: seq<T>, from: nat, to: nat)
    requires from < |s| && to < |s|
    ensures var r := InsertAt(RemoveAt(s, from), to, s[from]);
      && |r| == |s|
      && r[to] == s[from]
      && multiset(r) == multiset(s)
      && forall k :: 0 <= k < |s| ==> r[k] == s[OriginOf(from, to, k)]
  {
    var t := RemoveAt(s, from);
    RemoveAtMultiset(s, from);
    InsertAtMultiset(t, to, s[from]);
  }
}
