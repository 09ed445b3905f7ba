/**
 * `arrayMove` from `@dnd-kit/sortable`, which the board imports: copy the array,
 * splice out the element at `from`, and splice it back in at `to`, where a
 * negative `to` counts back from the length of the array before the removal
 * (so `to == -1` appends the element at the end).
 */
module ArrayMoves {

  /** `from` names an element, and `to`, read as above, names a slot of the copy. */
  predicate ValidMove(n: int, from: int, to: int)
  {
    0 <= from < n && -n <= to < n
  }

  /** The slot the element is spliced back into. */
  function Target(n: int, to: int): int
  {
    if to < 0 then n + to else to
  }

  /** `s` with the element at `i` spliced out. */
  function Without<T>(s: seq<T>, i: int): (r: seq<T>)
    requires 0 <= i < |s|
    ensures |r| == |s| - 1
  {
    s[..i] + s[i + 1..]
  }

  predicate Distinct<T(==)>(s: seq<T>)
  {
    forall i, j :: 0 <= i < j < |s| ==> s[i] != s[j]
  }

  function ArrayMove<T>(s: seq<T>, from: int, to: int): (r: seq<T>)
    requires ValidMove(|s|, from, to)
    ensures |r| == |s|
  {
    var rest := Without(s, from);
    var t := Target(|s|, to);
    rest[..t] + [s[from]] + rest[t..]
  }

  /** The position in `s` of the element that `ArrayMove(s, from, to)` holds at `k`. */
  function Source(n: int, from: int, to: int, k: int): int
  {
    var t := Target(n, to);
    if k == t then from
    else
      var m := if k < t then k else k - 1;
      if m < from then m else m + 1
  }

  /** An element-wise description of the move, independent of the splicing. */
  lemma ArrayMoveAt<T>(s: seq<T>, from: int, to: int, k: int)
    requires ValidMove(|s|, from, to) && 0 <= k < |s|
    ensures 0 <= Source(|s|, from, to, k) < |s|
    ensures ArrayMove(s, from, to)[k] == s[Source(|s|, from, to, k)]
  {
    var rest, t := Without(s, from), Target(|s|, to);
    var r := ArrayMove(s, from, to);
    if k < t {
      assert r[k] == rest[k];
    } else if k > t {
      assert r[k] == rest[k - 1];
    }
  }

  /** Two slots of the result never come from the same element. */
  lemma SourceInjective(n: int, from: int, to: int, i: int, j: int)
    requires ValidMove(n, from, to) && 0 <= i < n && 0 <= j < n && i != j
    ensures Source(n, from, to, i) != Source(n, from, to, j)
  {
  }

  /** No element is created or dropped. */
  lemma ArrayMovePermutes<T>(s: seq<T>, from: int, to: int)
    requires ValidMove(|s|, from, to)
    ensures multiset(ArrayMove(s, from, to)) == multiset(s)
  {
    var rest, t := Without(s, from), Target(|s|, to);
    assert s == s[..from] + [s[from]] + s[from + 1..];
    assert rest == rest[..t] + rest[t..];
    calc {
      multiset(ArrayMove(s, from, to));
      multiset(rest[..t]) + multiset{s[from]} + multiset(rest[t..]);
      multiset(rest) + multiset{s[from]};
      multiset(s[..from]) + multiset(s[from + 1..]) + multiset{s[from]};
      multiset(s);
    }
  }

  /** The result holds exactly the elements of the input. */
  lemma ArrayMoveMembers<T>(s: seq<T>, from: int, to: int)
    requires ValidMove(|s|, from, to)
    ensures forall x :: x in ArrayMove(s, from, to) <==> x in s
  {
    ArrayMovePermutes(s, from, to);
    forall x
      ensures x in ArrayMove(s, from, to) <==> x in s
    {
      assert x in ArrayMove(s, from, to) <==> x in multiset(ArrayMove(s, from, to));
      assert x in s <==> x in multiset(s);
    }
  }

  /** The moved element lands exactly at the target slot. */
  lemma ArrayMovePlaces<T>(s: seq<T>, from: int, to: int)
    requires ValidMove(|s|, from, to)
    ensures 0 <= Target(|s|, to) < |s|
    ensures ArrayMove(s, from, to)[Target(|s|, to)] == s[from]
  {
    ArrayMoveAt(s, from, to, Target(|s|, to));
  }

  /** Every other element keeps its relative order. */
  lemma ArrayMoveKeepsOthersInOrder<T>(s: seq<T>, from: int, to: int)
    requires ValidMove(|s|, from, to)
    ensures 0 <= Target(|s|, to) < |s|
    ensures Without(ArrayMove(s, from, to), Target(|s|, to)) == Without(s, from)
  {
    var rest, t := Without(s, from), Target(|s|, to);
    var r := ArrayMove(s, from, to);
    assert r[..t] == rest[..t];
    assert r[t + 1..] == rest[t..];
    assert rest == rest[..t] + rest[t..];
  }

  /** Moving an element to its own slot rebuilds the same sequence. */
  lemma ArrayMoveInPlace<T>(s: seq<T>, i: int)
    requires 0 <= i < |s|
    ensures ArrayMove(s, i, i) == s
  {
    var r := ArrayMove(s, i, i);
    forall k | 0 <= k < |s|
      ensures r[k] == s[k]
    {
      ArrayMoveAt(s, i, i, k);
    }
  }

  /** `to == -1` appends the element after all the others. */
  lemma ArrayMoveToEnd<T>(s: seq<T>, from: int)
    requires 0 <= from < |s|
    ensures ArrayMove(s, from, -1) == Without(s, from) + [s[from]]
  {
    assert Without(s, from)[..|s| - 1] == Without(s, from);
  }

  /**
   * Moving to `over - 1`, the slot before `over`: when the element came from a lower
   * index than `over` it ends right before the element that was there; from a higher
   * index, one element earlier still; and with `over == 0` at the very end.
   */
  lemma ArrayMoveBefore<T>(s: seq<T>, from: int, over: int)
    requires 0 <= from < |s| && 0 <= over < |s| && from != over
    ensures ValidMove(|s|, from, over - 1)
    ensures over == 0 ==> ArrayMove(s, from, over - 1)[|s| - 1] == s[from]
    ensures from < over ==>
      (ArrayMove(s, from, over - 1)[over - 1] == s[from] &&
       ArrayMove(s, from, over - 1)[over] == s[over])
    ensures 0 < over < from ==>
      (ArrayMove(s, from, over - 1)[over - 1] == s[from] &&
       ArrayMove(s, from, over - 1)[over] == s[over - 1] &&
       ArrayMove(s, from, over - 1)[over + 1] == s[over])
  {
    ArrayMovePlaces(s, from, over - 1);
    if from < over {
      ArrayMoveAt(s, from, over - 1, over);
    } else if 0 < over {
      ArrayMoveAt(s, from, over - 1, over);
      ArrayMoveAt(s, from, over - 1, over + 1);
    }
  }

  /** A move keeps a sequence free of duplicates. */
  lemma ArrayMoveKeepsDistinct<T>(s: seq<T>, from: int, to: int)
    requires ValidMove(|s|, from, to) && Distinct(s)
    ensures Distinct(ArrayMove(s, from, to))
  {
    var r := ArrayMove(s, from, to);
    forall i, j | 0 <= i < j < |s|
      ensures r[i] != r[j]
    {
      ArrayMoveAt(s, from, to, i);
      ArrayMoveAt(s, from, to, j);
      SourceInjective(|s|, from, to, i, j);
    }
  }

  /** The library call: a fresh array holding the moved sequence; `a` is left as it was. */
  method ArrayMoveCopy<T>(a: array<T>, from: int, to: int) returns (b: array<T>)
    requires ValidMove(a.Length, from, to)
    ensures fresh(b) && b[..] == ArrayMove(a[..], from, to)
  {
    var r := ArrayMove(a[..], from, to);
    b := new T[|r|](i requires 0 <= i < |r| => r[i]);
  }
}
