/**
 * The in-place sort that `Array.prototype.sort(compare)` performs, as used by the
 * cache's eviction candidates, the row filter and `sortByPriority`: a comparator
 * returns a negative number, zero or a positive number, and the sorted array
 * puts `x` before `y` only when `compare(x, y) <= 0` or the two compare equal.
 */
module Sorting {

  /** `s` is ordered by `cmp`: every earlier element compares at most 0 with every later one. */
  ghost predicate SortedBy<T>(cmp: (T, T) -> int, s: seq<T>) {
    forall i, j | 0 <= i < j < |s| :: cmp(s[i], s[j]) <= 0
  }

  /** Neighbours are in order. */
  ghost predicate AdjacentSorted<T>(cmp: (T, T) -> int, s: seq<T>) {
    forall i | 0 <= i < |s| - 1 :: cmp(s[i], s[i + 1]) <= 0
  }

  /** Any two elements of `s` are comparable: one of them compares at most 0 with the other. */
  ghost predicate Connex<T>(cmp: (T, T) -> int, s: seq<T>) {
    forall x, y | x in s && y in s :: cmp(x, y) <= 0 || cmp(y, x) <= 0
  }

  ghost predicate Transitive<T>(cmp: (T, T) -> int, s: seq<T>) {
    forall x, y, z | x in s && y in s && z in s :: cmp(x, y) <= 0 && cmp(y, z) <= 0 ==> cmp(x, z) <= 0
  }

  /** On the elements of `s`, "cmp(x, y) <= 0" is a total preorder. */
  ghost predicate TotalPreorderOn<T>(cmp: (T, T) -> int, s: seq<T>) {
    Connex(cmp, s) && Transitive(cmp, s)
  }

  /**
   * Sorts `a` in place. The result is always a permutation of the input; it is
   * ordered by `cmp` whenever `cmp` is a total preorder on the elements (a
   * comparator that is not gives an order nobody can rely on, as in JavaScript).
   */
  method SortBy<T>(a: array<T>, cmp: (T, T) -> int)
    modifies a
    ensures multiset(a[..]) == multiset(old(a[..]))
    ensures Connex(cmp, old(a[..])) ==> AdjacentSorted(cmp, a[..])
    ensures TotalPreorderOn(cmp, old(a[..])) ==> SortedBy(cmp, a[..])
  {
    ghost var conn := Connex(cmp, old(a[..]));
    var i := 0;
    while i < a.Length
      invariant 0 <= i <= a.Length
      invariant multiset(a[..]) == multiset(old(a[..]))
      invariant conn ==> AdjacentSorted(cmp, a[..i])
    {
      InsertLast(a, i, cmp, old(a[..]));
      i := i + 1;
    }
    assert a[..a.Length] == a[..];
    if TotalPreorderOn(cmp, old(a[..])) {
      SortedFromAdjacent(cmp, a[..], old(a[..]));
    }
  }

  /**
   * While `a[i]` moves left, its current slot `j` is the only gap in the order
   * of `a[..i + 1]`: the neighbours left of it and right of it are in order, and
   * so are the two neighbours of the gap. Promised only when `conn` holds.
   */
  ghost predicate InsertionGap<T>(cmp: (T, T) -> int, b: seq<T>, i: int, j: int, conn: bool)
    requires 0 <= j <= i < |b|
  {
    conn ==>
      && (forall k | 0 <= k < j - 1 :: cmp(b[k], b[k + 1]) <= 0)
      && (forall k | j + 1 <= k < i :: cmp(b[k], b[k + 1]) <= 0)
      && (0 < j < i ==> cmp(b[j - 1], b[j + 1]) <= 0)
      && (j < i ==> cmp(b[j], b[j + 1]) <= 0)
  }

  /** One step of insertion sort: moves `a[i]` left into the ordered prefix `a[..i]`. */
  method InsertLast<T>(a: array<T>, i: int, cmp: (T, T) -> int, ghost s: seq<T>)
    requires 0 <= i < a.Length
    requires multiset(a[..]) == multiset(s)
    requires Connex(cmp, s) ==> AdjacentSorted(cmp, a[..i])
    modifies a
    ensures multiset(a[..]) == multiset(s)
    ensures Connex(cmp, s) ==> AdjacentSorted(cmp, a[..i + 1])
  {
    ghost var conn := Connex(cmp, s);
    GapOpen(cmp, a[..], i, conn);
    var j := i;
    while j > 0 && cmp(a[j - 1], a[j]) > 0
      invariant 0 <= j <= i
      invariant multiset(a[..]) == multiset(s)
      invariant InsertionGap(cmp, a[..], i, j, conn)
    {
      ghost var b := a[..];
      assert b[j - 1] == a[j - 1] && b[j] == a[j];
      Swap(a, j - 1, j);
      GapMoves(cmp, b, a[..], i, j, s, conn);
      j := j - 1;
    }
    assert j > 0 ==> a[..][j - 1] == a[j - 1] && a[..][j] == a[j];
    GapClosed(cmp, a[..], i, j, conn);
  }

  /** Before the move the gap is at `i`, right after the ordered prefix. */
  lemma GapOpen<T>(cmp: (T, T) -> int, b: seq<T>, i: int, conn: bool)
    requires 0 <= i < |b| && (conn ==> AdjacentSorted(cmp, b[..i]))
    ensures InsertionGap(cmp, b, i, i, conn)
  {
    if conn {
      forall k | 0 <= k < i - 1
        ensures cmp(b[k], b[k + 1]) <= 0
      {
        assert b[..i][k] == b[k] && b[..i][k + 1] == b[k + 1];
      }
    }
  }

  /** Swapping the out-of-order pair at the gap moves the gap one slot left. */
  lemma GapMoves<T>(cmp: (T, T) -> int, b: seq<T>, c: seq<T>, i: int, j: int, s: seq<T>, conn: bool)
    requires 0 < j <= i < |b| && multiset(b) == multiset(s) && (conn ==> Connex(cmp, s))
    requires InsertionGap(cmp, b, i, j, conn) && cmp(b[j - 1], b[j]) > 0
    requires c == b[j - 1 := b[j]][j := b[j - 1]]
    ensures InsertionGap(cmp, c, i, j - 1, conn)
  {
    assert b[j] in multiset(b) && b[j - 1] in multiset(b);
  }

  /** A gap whose left neighbour is in order, or at the front, is no gap. */
  lemma GapClosed<T>(cmp: (T, T) -> int, b: seq<T>, i: int, j: int, conn: bool)
    requires 0 <= j <= i < |b| && InsertionGap(cmp, b, i, j, conn)
    requires j == 0 || cmp(b[j - 1], b[j]) <= 0
    ensures conn ==> AdjacentSorted(cmp, b[..i + 1])
  {
  }

  method Swap<T>(a: array<T>, i: int, j: int)
    requires 0 <= i < j < a.Length
    modifies a
    ensures a[..] == old(a[..])[i := old(a[j])][j := old(a[i])]
    ensures multiset(a[..]) == multiset(old(a[..]))
  {
    a[i], a[j] := a[j], a[i];
  }

  /** Under a transitive comparator, ordered neighbours make an ordered sequence. */
  lemma {:induction false} SortedFromAdjacent<T>(cmp: (T, T) -> int, t: seq<T>, s: seq<T>)
    requires multiset(t) == multiset(s)
    requires Transitive(cmp, s)
    requires AdjacentSorted(cmp, t)
    ensures SortedBy(cmp, t)
  {
    forall i, j | 0 <= i < j < |t|
      ensures cmp(t[i], t[j]) <= 0
    {
      var k := i + 1;
      while k < j
        invariant i < k <= j
        invariant cmp(t[i], t[k]) <= 0
      {
        assert t[i] in multiset(t) && t[k] in multiset(t) && t[k + 1] in multiset(t);
        k := k + 1;
      }
    }
  }
}
