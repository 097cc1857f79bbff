/**
 * Values, entries, sizes, expiry and capacity rules of the in-memory cache
 * (`JkMemCache`), as pure definitions. The cache class itself is in module MemCache.
 */
module CacheEntries {
  import opened Wrappers
  import opened Sorting

  /**
   * A stored value with the tag the cache keeps beside it: a byte buffer, a text,
   * or a structured value kept as its JSON text (`serialized` stands for what
   * `JSON.stringify` produced; reading it back hands out the same value).
   */
  datatype Payload = Buffer(bytes: seq<bv8>) | Text(text: string) | Json(serialized: string)

  /** Attached metadata: absent (or falsy), or a value whose JSON text is `serialized`. */
  datatype Meta = NoMeta | Meta(serialized: string)

  /** The options of `set`; `None` stands for an option left undefined. */
  datatype EntryOptions = EntryOptions(
    importance: Option<int>,
    ttl: Option<int>,
    expiresAt: Option<int>,
    meta: Meta)

  /** One cache entry. `expiresAt == None` is JavaScript's `null`. */
  datatype Entry = Entry(
    key: string,
    value: Payload,
    size: int,
    createdAt: int,
    expiresAt: Option<int>,
    accessCount: nat,
    importance: int,
    meta: Meta)

  /** Fixed per-entry overhead added to every size estimate. */
  const EntryOverhead: nat := 100

  /** Default `maxSize`: 50 MiB. */
  const DefaultMaxSize: int := 50 * 1024 * 1024

  /** Default sweep interval in milliseconds. */
  const DefaultCleanupInterval: int := 60000

  /** Highest importance level the eviction's importance phase visits. */
  const MaxSearchLevel: int := 10

  /** Importance levels up to this one are evicted down to the low-water mark. */
  const BufferTargetLevel: int := 5

  /** Estimated bytes of a payload: exact byte length, or 2 bytes per character. */
  function PayloadSize(v: Payload): nat {
    match v
    case Buffer(bytes) => |bytes|
    case Text(text) => 2 * |text|
    case Json(serialized) => 2 * |serialized|
  }

  /** Estimated bytes of metadata: 2 per character of its JSON text, 0 when absent. */
  function MetaSize(m: Meta): nat {
    match m
    case NoMeta => 0
    case Meta(serialized) => 2 * |serialized|
  }

  /** The size `set` charges for an entry. */
  function EntrySize(v: Payload, m: Meta): (r: nat)
    ensures r >= EntryOverhead
    ensures r - EntryOverhead >= PayloadSize(v) && r - EntryOverhead >= MetaSize(m)
  {
    PayloadSize(v) + EntryOverhead + MetaSize(m)
  }

  /** JavaScript truthiness of an optional number (undefined and 0 are falsy). */
  predicate Truthy(n: Option<int>) {
    n.Some? && n.value != 0
  }

  /** The absolute expiry `set` stores: an explicit `expiresAt` wins over `ttl`. */
  function ExpiryFor(options: EntryOptions, now: int): Option<int> {
    if Truthy(options.expiresAt) then options.expiresAt
    else if Truthy(options.ttl) then Some(now + options.ttl.value)
    else None
  }

  /** The entry `set(key, value, options)` builds at time `now`. */
  function NewEntry(key: string, value: Payload, options: EntryOptions, now: int): Entry {
    Entry(key, value, EntrySize(value, options.meta), now, ExpiryFor(options, now), 0,
          options.importance.GetOr(1), options.meta)
  }

  /** Read paths treat an entry as gone once its truthy `expiresAt` lies before `now`. */
  predicate Expired(e: Entry, now: int) {
    Truthy(e.expiresAt) && e.expiresAt.value < now
  }

  /**
   * An entry set with only a non-zero `ttl` is live up to and including
   * `now + ttl` and expired afterwards (unless `now + ttl` happens to be 0,
   * which JavaScript reads as "never expires").
   */
  lemma TtlRoundTrip(key: string, value: Payload, options: EntryOptions, now: int, later: int)
    requires !Truthy(options.expiresAt) && Truthy(options.ttl)
    requires now + options.ttl.value != 0
    ensures Expired(NewEntry(key, value, options, now), later) <==> later > now + options.ttl.value
  {
  }

  /** An explicit non-zero `expiresAt` decides expiry whatever `ttl` says. */
  lemma ExpiresAtWins(key: string, value: Payload, options: EntryOptions, now: int, later: int)
    requires Truthy(options.expiresAt)
    ensures Expired(NewEntry(key, value, options, now), later) <==> later > options.expiresAt.value
  {
  }

  /** Entries set with neither option never expire. */
  lemma NoExpiryOptionNeverExpires(key: string, value: Payload, options: EntryOptions, now: int, later: int)
    requires !Truthy(options.expiresAt) && !Truthy(options.ttl)
    ensures !Expired(NewEntry(key, value, options, now), later)
  {
  }

  /** A fresh entry starts unused, with importance 1 unless given. */
  lemma NewEntryDefaults(key: string, value: Payload, options: EntryOptions, now: int)
    ensures NewEntry(key, value, options, now).accessCount == 0
    ensures options.importance.None? ==> NewEntry(key, value, options, now).importance == 1
    ensures NewEntry(key, value, options, now).size == PayloadSize(value) + 100 + MetaSize(options.meta)
  {
  }

  // ---------------------------------------------------------------------------
  // Capacity

  /** The two bounds; `maxCount == None` is `Infinity`. */
  datatype Limits = Limits(maxCount: Option<int>, maxSize: int)

  /** `needsEviction`: one more entry of `incoming` bytes would break a bound. */
  predicate NeedsEviction(lim: Limits, count: int, size: int, incoming: int) {
    (lim.maxCount.Some? && count + 1 > lim.maxCount.value) || size + incoming > lim.maxSize
  }

  /** The low-water mark: size and count at most 90% of their bounds. */
  predicate UnderLowWaterMark(lim: Limits, count: int, size: int, required: int) {
    10 * (size + required) <= 9 * lim.maxSize
    && (lim.maxCount.None? || 10 * count <= 9 * lim.maxCount.value)
  }

  /**
   * `isTargetReached`: the loose target is "an entry of `required` bytes fits",
   * the strict one also asks for the low-water mark.
   */
  predicate TargetReached(lim: Limits, strict: bool, count: int, size: int, required: int) {
    !NeedsEviction(lim, count, size, required)
    && (strict ==> UnderLowWaterMark(lim, count, size, required))
  }

  /** What the store may hold: an empty store, or one within both bounds. */
  predicate WithinLimits(lim: Limits, count: int, size: int) {
    count == 0 || ((lim.maxCount.None? || count <= lim.maxCount.value) && size <= lim.maxSize)
  }

  /** Admitting an entry only when no eviction is needed keeps the store within its bounds. */
  lemma AdmitKeepsLimits(lim: Limits, count: nat, size: int, incoming: int)
    requires !NeedsEviction(lim, count, size, incoming)
    requires incoming >= 0
    ensures WithinLimits(lim, count + 1, size + incoming)
  {
  }

  /** `set` stores an entry of this size at all: it fits `maxSize` and the count bound allows one entry. */
  predicate Admissible(lim: Limits, size: int) {
    size <= lim.maxSize && (lim.maxCount.None? || lim.maxCount.value >= 1)
  }

  /** An empty store takes any entry no larger than `maxSize` once the count bound allows one entry. */
  lemma EmptyStoreAdmits(lim: Limits, incoming: int)
    requires incoming <= lim.maxSize
    ensures !NeedsEviction(lim, 0, 0, incoming) <==> (lim.maxCount.None? || lim.maxCount.value >= 1)
  {
  }

  // ---------------------------------------------------------------------------
  // Eviction order

  /** The comparator of the importance phase: fewer accesses first, then older first. */
  function RankCompare(a: Entry, b: Entry): int {
    if a.accessCount != b.accessCount then a.accessCount - b.accessCount
    else a.createdAt - b.createdAt
  }

  /** `a` goes no later than `b` within one importance level. */
  predicate RankLe(a: Entry, b: Entry) {
    a.accessCount < b.accessCount || (a.accessCount == b.accessCount && a.createdAt <= b.createdAt)
  }

  /** Across the importance phase: a lower level first, then rank within a level. */
  predicate EvictsBefore(a: Entry, b: Entry) {
    a.importance < b.importance || (a.importance == b.importance && RankLe(a, b))
  }

  lemma RankCompareMeansRankLe(a: Entry, b: Entry)
    ensures RankCompare(a, b) <= 0 <==> RankLe(a, b)
  {
  }

  /** The comparator is a total preorder, so sorting by it orders the candidates. */
  lemma RankCompareTotalPreorder(s: seq<Entry>)
    ensures TotalPreorderOn(RankCompare, s)
  {
  }

  // ---------------------------------------------------------------------------
  // Key order and size accounting

  /** No key occurs twice. */
  predicate Distinct(s: seq<string>) {
    s == [] || (s[0] !in s[1..] && Distinct(s[1..]))
  }

  /** Distinctness, element by element: no two positions hold the same key. */
  lemma {:induction false} DistinctIndices(s: seq<string>)
    requires Distinct(s)
    ensures forall i, j | 0 <= i < j < |s| :: s[i] != s[j]
  {
    if s != [] {
      DistinctIndices(s[1..]);
      forall i, j | 0 <= i < j < |s|
        ensures s[i] != s[j]
      {
        assert s[j] == s[1..][j - 1];
        if i > 0 {
          assert s[i] == s[1..][i - 1];
        }
      }
    }
  }

  /** In a duplicate-free sequence no key occurs before its own position. */
  lemma DistinctFresh(s: seq<string>, i: int)
    requires Distinct(s) && 0 <= i < |s|
    ensures s[i] !in s[..i]
  {
    DistinctIndices(s);
  }

  /** In a duplicate-free sequence no key occurs after its own position. */
  lemma DistinctLater(s: seq<string>, i: int)
    requires Distinct(s) && 0 <= i < |s|
    ensures forall j | i < j < |s| :: s[j] != s[i]
  {
    DistinctIndices(s);
  }

  /** A sequence extended at the back stays duplicate-free exactly when the new key is new. */
  lemma {:induction false} DistinctSnoc(s: seq<string>, x: string)
    ensures Distinct(s + [x]) <==> Distinct(s) && x !in s
  {
    if s != [] {
      assert (s + [x])[1..] == s[1..] + [x];
      DistinctSnoc(s[1..], x);
      assert x in s <==> x == s[0] || x in s[1..];
    }
  }

  /** `s` without `k`: what deleting `k` from the map does to its iteration order. */
  function RemoveKey(s: seq<string>, k: string): (r: seq<string>)
    ensures forall x :: x in r <==> x in s && x != k
  {
    if s == [] then []
    else if s[0] == k then RemoveKey(s[1..], k)
    else [s[0]] + RemoveKey(s[1..], k)
  }

  /** The elements of `s` that lie in `keys`, in the order of `s`. */
  function Keep(s: seq<string>, keys: set<string>): seq<string> {
    if s == [] then []
    else if s[0] in keys then [s[0]] + Keep(s[1..], keys)
    else Keep(s[1..], keys)
  }

  /** Keeping the elements in `keys` keeps exactly those. */
  lemma {:induction false} KeepMembership(s: seq<string>, keys: set<string>)
    ensures forall x :: x in Keep(s, keys) <==> x in s && x in keys
  {
    if s != [] {
      KeepMembership(s[1..], keys);
    }
  }

  lemma {:induction false} RemoveKeyDistinct(s: seq<string>, k: string)
    requires Distinct(s)
    ensures Distinct(RemoveKey(s, k))
    ensures k in s ==> |RemoveKey(s, k)| == |s| - 1
    ensures k !in s ==> RemoveKey(s, k) == s
  {
    if s != [] {
      RemoveKeyDistinct(s[1..], k);
      if s[0] != k {
        var r := [s[0]] + RemoveKey(s[1..], k);
        assert r[1..] == RemoveKey(s[1..], k);
      }
    }
  }

  /** Deleting one more key from a filtered order filters by one key fewer. */
  lemma {:induction false} RemoveKeyFromKeep(s: seq<string>, keys: set<string>, k: string)
    ensures RemoveKey(Keep(s, keys), k) == Keep(s, keys - {k})
  {
    if s != [] {
      RemoveKeyFromKeep(s[1..], keys, k);
      if s[0] in keys && s[0] != k {
        assert Keep(s, keys) == [s[0]] + Keep(s[1..], keys);
      }
    }
  }

  /** Keeping every element of `s` keeps `s`. */
  lemma {:induction false} KeepAll(s: seq<string>, keys: set<string>)
    requires forall x | x in s :: x in keys
    ensures Keep(s, keys) == s
  {
    if s != [] {
      KeepAll(s[1..], keys);
    }
  }

  lemma {:induction false} KeepDistinct(s: seq<string>, keys: set<string>)
    requires Distinct(s)
    ensures Distinct(Keep(s, keys))
  {
    if s != [] {
      KeepDistinct(s[1..], keys);
      KeepMembership(s[1..], keys);
      if s[0] in keys {
        var r := [s[0]] + Keep(s[1..], keys);
        assert r[1..] == Keep(s[1..], keys);
      }
    }
  }

  /** The running total: the sum of the sizes of the entries that the keys `ks` name. */
  function SumSizes(ks: seq<string>, m: map<string, Entry>): int {
    if ks == [] then 0
    else (if ks[0] in m then m[ks[0]].size else 0) + SumSizes(ks[1..], m)
  }

  /** The sum only looks at the sizes of the named entries. */
  lemma {:induction false} SumSizesFrame(ks: seq<string>, m1: map<string, Entry>, m2: map<string, Entry>)
    requires forall k | k in ks :: k in m1 && k in m2 && m1[k].size == m2[k].size
    ensures SumSizes(ks, m1) == SumSizes(ks, m2)
  {
    if ks != [] {
      SumSizesFrame(ks[1..], m1, m2);
    }
  }

  /** Appending a key adds exactly that entry's size. */
  lemma {:induction false} SumSizesAppend(ks: seq<string>, k: string, m: map<string, Entry>)
    requires forall x | x in ks :: x in m
    requires k in m
    ensures SumSizes(ks + [k], m) == SumSizes(ks, m) + m[k].size
  {
    if ks != [] {
      assert (ks + [k])[1..] == ks[1..] + [k];
      SumSizesAppend(ks[1..], k, m);
    }
  }

  /** Removing a key subtracts exactly that entry's size. */
  lemma {:induction false} SumSizesRemove(ks: seq<string>, k: string, m: map<string, Entry>)
    requires forall x | x in ks :: x in m
    requires Distinct(ks) && k in ks
    ensures SumSizes(RemoveKey(ks, k), m - {k}) == SumSizes(ks, m) - m[k].size
  {
    if ks[0] == k {
      RemoveKeyDistinct(ks[1..], k);
      SumSizesFrame(ks[1..], m - {k}, m);
    } else {
      SumSizesRemove(ks[1..], k, m);
    }
  }

  /** The sizes of a sequence of entries, added up. */
  function TotalSize(es: seq<Entry>): int {
    if es == [] then 0 else TotalSize(es[..|es| - 1]) + es[|es| - 1].size
  }

  /** No two entries share a key. */
  predicate KeysDistinct(es: seq<Entry>) {
    forall i, j | 0 <= i < j < |es| :: es[i].key != es[j].key
  }

  /** Entries with pairwise distinct keys occur once each. */
  lemma {:induction false} KeysDistinctOnce(es: seq<Entry>, x: Entry)
    requires KeysDistinct(es)
    ensures multiset(es)[x] <= 1
  {
    if es != [] {
      assert KeysDistinct(es[1..]) by {
        forall i, j | 0 <= i < j < |es[1..]| ensures es[1..][i].key != es[1..][j].key {
          assert es[1..][i] == es[i + 1] && es[1..][j] == es[j + 1];
        }
      }
      KeysDistinctOnce(es[1..], x);
      assert es == [es[0]] + es[1..];
      if x == es[0] {
        assert x !in es[1..] by {
          forall t | 0 <= t < |es[1..]| ensures es[1..][t] != x {
            assert es[1..][t] == es[t + 1];
          }
        }
      }
    }
  }

  /** A permutation of entries with distinct keys has distinct keys. */
  lemma PermutationKeysDistinct(a: seq<Entry>, c: seq<Entry>)
    requires multiset(a) == multiset(c)
    requires KeysDistinct(c)
    ensures KeysDistinct(a)
  {
    forall i, j | 0 <= i < j < |a|
      ensures a[i].key != a[j].key
    {
      if a[i].key == a[j].key {
        assert a[i] in multiset(c) && a[j] in multiset(c);
        var p :| 0 <= p < |c| && c[p] == a[i];
        var q :| 0 <= q < |c| && c[q] == a[j];
        assert p == q;
        assert a[i] == a[j];
        assert a == a[..j] + a[j..];
        assert a[i] in a[..j];
        assert a[j] in a[j..];
        assert multiset(a)[a[i]] == multiset(a[..j])[a[i]] + multiset(a[j..])[a[i]];
        KeysDistinctOnce(c, a[i]);
        assert false;
      }
    }
  }
}
