/**
 * `simpleRowArrayFilter`: the in-memory read of a data table. Rows are kept by a
 * global text filter, ordered by the first sorting rule and cut to one page;
 * the result carries the number of rows before paging and the page offset.
 */
module RowFilter {
  import opened Wrappers
  import opened Text
  import opened JsValues
  import opened Sorting

  /** A row: a plain object. */
  type Row = Object

  /** `{field?, value}`: search `value` in one field, or in any field when `field` is falsy. */
  datatype GlobalFilter = GlobalFilter(field: Option<string>, value: string)

  /** `{id, desc}`: order by field `id`, descending when `desc`. */
  datatype FieldSorting = FieldSorting(id: string, desc: bool)

  datatype PageExtraction = PageExtraction(pageIndex: int, pageSize: int)

  /** The read parameters; an absent `sorting` list is the empty one. */
  datatype RowArrayFilter = RowArrayFilter(page: Option<PageExtraction>, filter: Option<GlobalFilter>,
                                           sorting: seq<FieldSorting>)

  datatype ReadResult = ReadResult(rows: seq<Row>, total: int, offset: int)

  // ----- Filtering -----

  /** A defined value whose text contains `needle`. */
  predicate ValueMatches(v: Value, needle: string) {
    v != Undefined && Includes(Show(v), needle)
  }

  /** The test the filter applies to one row. */
  predicate Keeps(f: GlobalFilter, r: Row) {
    if Truthy(f.field) then ValueMatches(Get(r, f.field.value), f.value)
    else exists name | name in r :: ValueMatches(r[name], f.value)
  }

  /** `rows.filter(...)`: the rows the filter keeps, in their order. */
  function FilterRows(rows: seq<Row>, f: GlobalFilter): (kept: seq<Row>)
    ensures |kept| <= |rows|
    ensures forall r | r in kept :: r in rows && Keeps(f, r)
    ensures forall r | r in rows && Keeps(f, r) :: r in kept
  {
    if rows == [] then []
    else
      var last := rows[|rows| - 1];
      assert rows == rows[..|rows| - 1] + [last];
      FilterRows(rows[..|rows| - 1], f) + (if Keeps(f, last) then [last] else [])
  }

  /** `idx` lists, in increasing order, the positions of `s` that make up `sub`. */
  ghost predicate PicksPositions<T>(sub: seq<T>, s: seq<T>, idx: seq<int>) {
    && |idx| == |sub|
    && (forall j | 0 <= j < |idx| :: 0 <= idx[j] < |s| && sub[j] == s[idx[j]])
    && (forall j, l | 0 <= j < l < |idx| :: idx[j] < idx[l])
  }

  /**
   * The kept rows are a subsequence of the input: they sit at increasing
   * positions, and a position is among them exactly when its row passes.
   */
  lemma {:induction false} FilterIsSubsequence(rows: seq<Row>, f: GlobalFilter) returns (idx: seq<int>)
    ensures PicksPositions(FilterRows(rows, f), rows, idx)
    ensures forall i | 0 <= i < |rows| :: i in idx <==> Keeps(f, rows[i])
  {
    if rows == [] {
      idx := [];
    } else {
      var n := |rows| - 1;
      var front := FilterIsSubsequence(rows[..n], f);
      var last := rows[n];
      assert rows == rows[..n] + [last];
      idx := PicksExtend(FilterRows(rows[..n], f), rows[..n], front, last, Keeps(f, last));
      forall i | 0 <= i < |rows|
        ensures i in idx <==> Keeps(f, rows[i])
      {
        if i < n {
          assert rows[..n][i] == rows[i];
        }
      }
    }
  }

  /** Extending the sequence by `x`, and the subsequence by `x` when `keep`, extends the positions by `|s|` when `keep`. */
  lemma PicksExtend<T>(sub: seq<T>, s: seq<T>, idx: seq<int>, x: T, keep: bool) returns (idx': seq<int>)
    requires PicksPositions(sub, s, idx)
    ensures PicksPositions(sub + (if keep then [x] else []), s + [x], idx')
    ensures idx' == if keep then idx + [|s|] else idx
  {
    idx' := if keep then idx + [|s|] else idx;
    var sub' := sub + (if keep then [x] else []);
    forall j | 0 <= j < |idx'|
      ensures 0 <= idx'[j] < |s| + 1 && sub'[j] == (s + [x])[idx'[j]]
    {
      if j < |idx| {
        assert idx'[j] == idx[j] && sub'[j] == sub[j];
      }
    }
  }

  // ----- Sorting -----

  /** The value a row is ordered by; `undefined` counts as the empty string. */
  function SortKey(r: Row, field: string): Value {
    var v := Get(r, field);
    if v == Undefined then Str("") else v
  }

  /**
   * The comparator of the sort: two numbers by their difference, anything else
   * by `localeCompare` of their texts, written `collate` here; `desc` swaps the
   * two sides.
   */
  function CompareRows(field: string, desc: bool, collate: (string, string) -> int, a: Row, b: Row): int {
    var av := SortKey(a, field);
    var bv := SortKey(b, field);
    if av.Num? && bv.Num? then
      if desc then bv.n - av.n else av.n - bv.n
    else
      if desc then collate(Show(bv), Show(av)) else collate(Show(av), Show(bv))
  }

  function RowOrder(s: FieldSorting, collate: (string, string) -> int): (Row, Row) -> int {
    (a: Row, b: Row) => CompareRows(s.id, s.desc, collate, a, b)
  }

  /** A descending sort compares the two rows the other way round. */
  lemma DescendingSwaps(field: string, collate: (string, string) -> int, a: Row, b: Row)
    ensures CompareRows(field, true, collate, a, b) == CompareRows(field, false, collate, b, a)
    ensures CompareRows(field, false, collate, a, b) == CompareRows(field, true, collate, b, a)
  {
  }

  /** A row whose sort field is missing is ordered as if it held the empty string. */
  lemma MissingSortsAsEmpty(field: string, desc: bool, collate: (string, string) -> int, a: Row, b: Row)
    requires field !in a
    ensures CompareRows(field, desc, collate, a, b) == CompareRows(field, desc, collate, a[field := Str("")], b)
  {
  }

  /** When every row holds a number in the sort field, the comparator is a total preorder. */
  lemma NumbersTotal(s: FieldSorting, collate: (string, string) -> int, rows: seq<Row>)
    requires forall r | r in rows :: SortKey(r, s.id).Num?
    ensures TotalPreorderOn(RowOrder(s, collate), rows)
  {
  }

  /** Rows ordered by a numeric field hold ascending numbers, or descending ones when `desc`. */
  lemma NumbersSorted(s: FieldSorting, collate: (string, string) -> int, rows: seq<Row>)
    requires forall r | r in rows :: SortKey(r, s.id).Num?
    requires SortedBy(RowOrder(s, collate), rows)
    ensures forall i, j | 0 <= i < j < |rows| ::
              if s.desc then SortKey(rows[i], s.id).n >= SortKey(rows[j], s.id).n
              else SortKey(rows[i], s.id).n <= SortKey(rows[j], s.id).n
  {
    forall i, j | 0 <= i < j < |rows|
      ensures if s.desc then SortKey(rows[i], s.id).n >= SortKey(rows[j], s.id).n
              else SortKey(rows[i], s.id).n <= SortKey(rows[j], s.id).n
    {
      assert rows[i] in rows && rows[j] in rows;
      assert RowOrder(s, collate)(rows[i], rows[j]) <= 0;
    }
  }

  /** "`collate(x, y) <= 0`" is a total preorder on all strings. */
  ghost predicate CollationTotal(collate: (string, string) -> int) {
    && (forall x, y :: collate(x, y) <= 0 || collate(y, x) <= 0)
    && (forall x, y, z :: collate(x, y) <= 0 && collate(y, z) <= 0 ==> collate(x, z) <= 0)
  }

  /** When no row holds a number in the sort field, a total collation makes the comparator total. */
  lemma TextsTotal(s: FieldSorting, collate: (string, string) -> int, rows: seq<Row>)
    requires CollationTotal(collate)
    requires forall r | r in rows :: !SortKey(r, s.id).Num?
    ensures TotalPreorderOn(RowOrder(s, collate), rows)
  {
    var cmp := RowOrder(s, collate);
    forall x, y, z | x in rows && y in rows && z in rows && cmp(x, y) <= 0 && cmp(y, z) <= 0
      ensures cmp(x, z) <= 0
    {
      var tx, ty, tz := Show(SortKey(x, s.id)), Show(SortKey(y, s.id)), Show(SortKey(z, s.id));
      if s.desc {
        assert collate(tz, ty) <= 0 && collate(ty, tx) <= 0;
      } else {
        assert collate(tx, ty) <= 0 && collate(ty, tz) <= 0;
      }
    }
    forall x, y | x in rows && y in rows
      ensures cmp(x, y) <= 0 || cmp(y, x) <= 0
    {
      var tx, ty := Show(SortKey(x, s.id)), Show(SortKey(y, s.id));
      assert collate(tx, ty) <= 0 || collate(ty, tx) <= 0;
    }
  }

  // ----- Paging -----

  /** How `Array.prototype.slice` reads an index: negative counts from the end, then clamped. */
  function SliceIndex(i: int, len: nat): (c: nat)
    ensures c <= len
    ensures 0 <= i ==> c == if i < len then i else len
  {
    if i < 0 then (if len + i < 0 then 0 else len + i)
    else if i < len then i else len
  }

  /** `s.slice(start, end)`. */
  function Slice<T>(s: seq<T>, start: int, end: int): seq<T> {
    var from := SliceIndex(start, |s|);
    var to := SliceIndex(end, |s|);
    if to <= from then [] else s[from..to]
  }

  /**
   * A page with a non-negative index and size holds the rows from the offset
   * on, at most `pageSize` of them, and none when the offset is past the end.
   */
  lemma PageSlice<T>(s: seq<T>, offset: int, size: int)
    requires 0 <= offset && 0 <= size
    ensures var page := Slice(s, offset, offset + size);
            && |page| <= size
            && (offset >= |s| ==> page == [])
            && (offset < |s| ==> page == s[offset..if offset + size < |s| then offset + size else |s|])
  {
  }

  /** The paging step and the result record. */
  function Paginate(rows: seq<Row>, page: Option<PageExtraction>): (r: ReadResult)
    ensures r.total == |rows|
    ensures page.None? ==> r.rows == rows && r.offset == 0
  {
    if page.None? then ReadResult(rows, |rows|, 0)
    else
      var offset := page.value.pageIndex * page.value.pageSize;
      ReadResult(Slice(rows, offset, offset + page.value.pageSize), |rows|, offset)
  }

  // ----- The whole read -----

  /** The rows the filter step leaves. */
  function Filtered(rows: seq<Row>, filter: Option<GlobalFilter>): seq<Row> {
    if filter.Some? then FilterRows(rows, filter.value) else rows
  }

  /**
   * `simpleRowArrayFilter(rows, params)`. Filtering builds a new array, so with
   * a filter the caller's array is left alone; without one the sort reorders
   * the caller's array in place. `ordered` is the row order before paging.
   */
  method SimpleRowArrayFilter(rows: array<Row>, params: RowArrayFilter, collate: (string, string) -> int)
    returns (result: ReadResult, ghost ordered: seq<Row>)
    modifies rows
    ensures var kept := Filtered(old(rows[..]), params.filter);
            && multiset(ordered) == multiset(kept)
            && (params.sorting == [] ==> ordered == kept)
            && (params.sorting != [] && TotalPreorderOn(RowOrder(params.sorting[0], collate), kept) ==>
                  SortedBy(RowOrder(params.sorting[0], collate), ordered))
            && result.total == |kept|
    ensures result == Paginate(ordered, params.page)
    ensures params.filter.None? ==> rows[..] == ordered
    ensures params.filter.Some? ==> rows[..] == old(rows[..])
    ensures params.filter.None? && params.sorting == [] && params.page.None? ==>
              result == ReadResult(old(rows[..]), rows.Length, 0)
  {
    var work := rows;
    if params.filter.Some? {
      var kept := FilterRows(rows[..], params.filter.value);
      work := new Row[|kept|](i requires 0 <= i < |kept| => kept[i]);
      assert work[..] == kept;
    }
    if params.sorting != [] {
      SortBy(work, RowOrder(params.sorting[0], collate));
    }
    ordered := work[..];
    result := Paginate(work[..], params.page);
  }
}
