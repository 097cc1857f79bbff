/**
 * `JkMemCache`: a size- and count-bounded in-memory cache whose storage is an
 * insertion-ordered map from keys to entries. The map is modelled by `storage`
 * (the key/entry pairs) beside `order` (the keys in JavaScript `Map` iteration
 * order); the running total of entry sizes is `currentSize`.
 *
 * Time enters as the `now` parameter of the operations that read the clock;
 * the cleanup timer is the flag `autoCleanup` (an armed interval), whose
 * periodic call of `PerformCleanup` is left to the environment.
 */
module MemCache {
  import opened Wrappers
  import Text
  import opened Sorting
  import opened CacheEntries

  /** `m` is `m0` with some entries removed and none changed. */
  ghost predicate SubStore(m: map<string, Entry>, m0: map<string, Entry>) {
    forall k | k in m :: k in m0 && m[k] == m0[k]
  }

  /** The entry after a read: a read without `peek` counts one more access. */
  function Touched(e: Entry, peek: bool): Entry {
    if peek then e else e.(accessCount := e.accessCount + 1)
  }

  /** What `getWithMeta` hands out. */
  datatype ValueWithMeta = ValueWithMeta(value: Payload, meta: Meta)

  /** The three key filters `keysStartingWith`, `keysEndingWith` and `keysContaining`. */
  datatype KeyPattern = StartsWith(prefix: string) | EndsWith(suffix: string) | Contains(text: string)

  predicate Matches(p: KeyPattern, key: string) {
    match p
    case StartsWith(prefix) => Text.StartsWith(key, prefix)
    case EndsWith(suffix) => Text.EndsWith(key, suffix)
    case Contains(text) => Text.Includes(key, text)
  }

  /** The keys of `ks` that match `p`, in the order of `ks`. */
  function Select(ks: seq<string>, p: KeyPattern): seq<string> {
    if ks == [] then []
    else Select(ks[..|ks| - 1], p) + (if Matches(p, ks[|ks| - 1]) then [ks[|ks| - 1]] else [])
  }

  lemma {:induction false} SelectMembership(ks: seq<string>, p: KeyPattern)
    ensures forall x :: x in Select(ks, p) <==> x in ks && Matches(p, x)
  {
    if ks != [] {
      SelectMembership(ks[..|ks| - 1], p);
      assert ks == ks[..|ks| - 1] + [ks[|ks| - 1]];
    }
  }

  /** The filtering loop of `keysStartingWith`, `keysEndingWith` and `keysContaining`. */
  method SelectKeys(ks: seq<string>, p: KeyPattern) returns (r: seq<string>)
    ensures r == Select(ks, p)
    ensures forall x :: x in r <==> x in ks && Matches(p, x)
  {
    r := [];
    var i := 0;
    while i < |ks|
      invariant 0 <= i <= |ks|
      invariant r == Select(ks[..i], p)
    {
      assert ks[..i + 1][..i] == ks[..i];
      if Matches(p, ks[i]) {
        r := r + [ks[i]];
      }
      i := i + 1;
    }
    assert ks[..|ks|] == ks;
    SelectMembership(ks, p);
  }

  /** The filtered keys keep their relative order: they form a subsequence of `ks`. */
  lemma {:induction false} SelectIsKeep(ks: seq<string>, p: KeyPattern)
    requires Distinct(ks)
    ensures Select(ks, p) == Keep(ks, set x | x in ks && Matches(p, x))
  {
    if ks != [] {
      var front := ks[..|ks| - 1];
      var last := ks[|ks| - 1];
      assert ks == front + [last];
      DistinctSnoc(front, last);
      SelectIsKeep(front, p);
      KeepSnoc(front, last, set x | x in ks && Matches(p, x));
      KeepSame(front, set x | x in front && Matches(p, x), set x | x in ks && Matches(p, x));
    }
  }

  lemma {:induction false} KeepSnoc(s: seq<string>, x: string, keys: set<string>)
    ensures Keep(s + [x], keys) == Keep(s, keys) + (if x in keys then [x] else [])
  {
    if s != [] {
      assert (s + [x])[1..] == s[1..] + [x];
      KeepSnoc(s[1..], x, keys);
    }
  }

  lemma {:induction false} KeepSame(s: seq<string>, a: set<string>, b: set<string>)
    requires forall x | x in s :: x in a <==> x in b
    ensures Keep(s, a) == Keep(s, b)
  {
    if s != [] {
      KeepSame(s[1..], a, b);
    }
  }

  /** Filtering twice, the second time by a smaller set, is filtering once. */
  lemma {:induction false} KeepTwice(s: seq<string>, a: set<string>, b: set<string>)
    requires b <= a
    ensures Keep(Keep(s, a), b) == Keep(s, b)
  {
    if s != [] {
      KeepTwice(s[1..], a, b);
      if s[0] in a {
        assert Keep(s, a) == [s[0]] + Keep(s[1..], a);
      }
    }
  }

  /** Dropping a prefix of a duplicate-free order is keeping the keys of the rest. */
  lemma {:induction false} DropIsKeep(s: seq<string>, n: nat, keys: set<string>)
    requires Distinct(s) && n <= |s|
    requires forall x :: x in keys <==> x in s[n..]
    ensures Keep(s, keys) == s[n..]
  {
    if n == 0 {
      KeepAll(s, keys);
    } else {
      assert s[1..][n - 1..] == s[n..];
      DropIsKeep(s[1..], n - 1, keys);
    }
  }

  /** The entries of `ks` whose importance is `level`, in the order of `ks`. */
  function AtLevel(ks: seq<string>, m: map<string, Entry>, level: int): seq<Entry>
    requires forall k | k in ks :: k in m
  {
    if ks == [] then []
    else AtLevel(ks[..|ks| - 1], m, level)
         + (if m[ks[|ks| - 1]].importance == level then [m[ks[|ks| - 1]]] else [])
  }

  /** The candidates of one level are exactly the stored entries of that level, each once. */
  lemma {:induction false} AtLevelFacts(ks: seq<string>, m: map<string, Entry>, level: int)
    requires forall k | k in ks :: k in m && m[k].key == k
    requires Distinct(ks)
    ensures forall x | x in AtLevel(ks, m, level) :: x.key in ks && m[x.key] == x && x.importance == level
    ensures forall k | k in ks && m[k].importance == level :: m[k] in AtLevel(ks, m, level)
    ensures KeysDistinct(AtLevel(ks, m, level))
  {
    if ks != [] {
      var front := ks[..|ks| - 1];
      var last := ks[|ks| - 1];
      assert ks == front + [last];
      DistinctSnoc(front, last);
      AtLevelFacts(front, m, level);
      var r := AtLevel(ks, m, level);
      var fr := AtLevel(front, m, level);
      assert last !in front;
      if m[last].importance == level {
        assert r == fr + [m[last]];
        forall i, j | 0 <= i < j < |r| ensures r[i].key != r[j].key {
          if j == |r| - 1 {
            assert r[i] in fr;
          } else {
            assert r[i] == fr[i] && r[j] == fr[j];
          }
        }
      } else {
        assert r == fr;
      }
    }
  }

  /** Distinct keys that name exactly the keys of a set are as many as the set. */
  lemma {:induction false} CountMatchesOrder(keys: set<string>, o: seq<string>)
    requires Distinct(o)
    requires forall k :: k in keys <==> k in o
    ensures |keys| == |o|
  {
    if o != [] {
      var last := o[|o| - 1];
      var front := o[..|o| - 1];
      assert o == front + [last];
      DistinctSnoc(front, last);
      CountMatchesOrder(keys - {last}, front);
    } else {
      assert keys == {};
    }
  }

  /** The store while the sweep is under way: expired entries survive only among the keys still `pending`. */
  ghost function Swept(m0: map<string, Entry>, pending: set<string>, now: int): map<string, Entry> {
    map k | k in m0 && (k in pending || !Expired(m0[k], now)) :: m0[k]
  }

  lemma SweptNothing(m0: map<string, Entry>, now: int)
    ensures Swept(m0, m0.Keys, now) == m0
  {
  }

  /** One step of the sweep: an expired pending entry goes, a live one stays. */
  lemma SweptStep(m0: map<string, Entry>, pending: set<string>, now: int, key: string)
    requires key in pending && key in m0
    ensures key in Swept(m0, pending, now) && Swept(m0, pending, now)[key] == m0[key]
    ensures Expired(m0[key], now) ==> Swept(m0, pending, now) - {key} == Swept(m0, pending - {key}, now)
    ensures !Expired(m0[key], now) ==> Swept(m0, pending, now) == Swept(m0, pending - {key}, now)
    ensures (Swept(m0, pending, now) - {key}).Keys == Swept(m0, pending, now).Keys - {key}
  {
  }

  /** Appending an entry adds its size. */
  lemma TotalSizeSnoc(es: seq<Entry>, e: Entry)
    ensures TotalSize(es + [e]) == TotalSize(es) + e.size
  {
    assert (es + [e])[..|es|] == es;
  }

  /**
   * The bookkeeping of an eviction under way, relative to the store `m0`, its
   * iteration order `o0` and its total size `s0` when the eviction began: the
   * store `m` has only lost entries, the survivors keep their order in `o`,
   * and the entries deleted so far are `evicted`, which account exactly for
   * the lost entries, count and size.
   */
  ghost predicate Trace(m0: map<string, Entry>, o0: seq<string>, s0: int,
                        m: map<string, Entry>, o: seq<string>, size: int, evicted: seq<Entry>) {
    && SubStore(m, m0) && o == Keep(o0, m.Keys)
    && (forall x | x in evicted :: x.key in m0 && m0[x.key] == x && x.key !in m)
    && (forall k | k in m0 && k !in m :: m0[k] in evicted)
    && |o| + |evicted| == |o0| && size + TotalSize(evicted) == s0
  }

  lemma TraceStart(m0: map<string, Entry>, o0: seq<string>, s0: int)
    requires forall k | k in o0 :: k in m0
    ensures Trace(m0, o0, s0, m0, o0, s0, [])
  {
    KeepAll(o0, m0.Keys);
  }

  /** Deleting one more stored entry extends the trace by that entry. */
  lemma TraceStep(m0: map<string, Entry>, o0: seq<string>, s0: int,
                  m: map<string, Entry>, o: seq<string>, size: int, evicted: seq<Entry>, e: Entry)
    requires Trace(m0, o0, s0, m, o, size, evicted)
    requires e.key in m && m[e.key] == e && |RemoveKey(o, e.key)| == |o| - 1
    ensures Trace(m0, o0, s0, m - {e.key}, RemoveKey(o, e.key), size - e.size, evicted + [e])
  {
    RemoveKeyFromKeep(o0, m.Keys, e.key);
    assert (m - {e.key}).Keys == m.Keys - {e.key};
    TotalSizeSnoc(evicted, e);
  }

  /** Two traces in a row make one. */
  lemma TraceConcat(m0: map<string, Entry>, o0: seq<string>, s0: int,
                    m1: map<string, Entry>, o1: seq<string>, s1: int, ev1: seq<Entry>,
                    m2: map<string, Entry>, o2: seq<string>, s2: int, ev2: seq<Entry>)
    requires Trace(m0, o0, s0, m1, o1, s1, ev1) && Trace(m1, o1, s1, m2, o2, s2, ev2)
    ensures Trace(m0, o0, s0, m2, o2, s2, ev1 + ev2)
  {
    KeepTwice(o0, m1.Keys, m2.Keys);
    TotalSizeConcat(ev1, ev2);
  }

  /**
   * The stopping rule of an eviction loop: the target (the low-water mark
   * when `strict`) was not reached just before the last deletion, and `done`
   * says whether it is reached now.
   */
  ghost predicate Stopped(lim: Limits, strict: bool, required: int, count: int, size: int,
                          evicted: seq<Entry>, done: bool) {
    && (|evicted| > 1 ==>
          !TargetReached(lim, strict, count + 1, size + evicted[|evicted| - 1].size, required))
    && (done <==> |evicted| > 0 && TargetReached(lim, strict, count, size, required))
  }

  lemma StoppedStep(lim: Limits, strict: bool, required: int, count: int, size: int,
                    evicted: seq<Entry>, e: Entry)
    requires Stopped(lim, strict, required, count, size, evicted, false)
    ensures Stopped(lim, strict, required, count - 1, size - e.size, evicted + [e],
                    TargetReached(lim, strict, count - 1, size - e.size, required))
  {
  }

  /** After deleting an entry of importance 1 to 5, step 2 aims for the low-water mark. */
  predicate AimsForBuffer(e: Entry) {
    e.importance <= BufferTargetLevel
  }

  /**
   * The check step 2 makes after its last deletion succeeds: with `count`
   * entries of `size` bytes left, the target of the level of the last entry of
   * `byImportance` is reached.
   */
  ghost predicate LevelTargetReached(lim: Limits, required: int, count: int, size: int,
                                     byImportance: seq<Entry>) {
    byImportance != [] &&
    TargetReached(lim, AimsForBuffer(byImportance[|byImportance| - 1]), count, size, required)
  }

  /**
   * The check step 2 made just before its last deletion failed: that check
   * used the target of the level of the entry deleted before it.
   */
  ghost predicate LevelChecksFail(lim: Limits, required: int, count: int, size: int,
                                  byImportance: seq<Entry>) {
    var n := |byImportance|;
    n > 1 ==>
      !TargetReached(lim, AimsForBuffer(byImportance[n - 2]), count + 1, size + byImportance[n - 1].size, required)
  }

  /**
   * The stopping rule of step 2 as a whole, across levels: no check before
   * the last deletion succeeded, and `done` says whether the last one did.
   */
  ghost predicate StoppedByLevel(lim: Limits, required: int, count: int, size: int,
                                 byImportance: seq<Entry>, done: bool) {
    && LevelChecksFail(lim, required, count, size, byImportance)
    && (done <==> LevelTargetReached(lim, required, count, size, byImportance))
  }

  /** A level run to its stopping rule extends the stopping rule of step 2. */
  lemma ByLevelStep(lim: Limits, required: int, c2: int, s2: int, byImportance: seq<Entry>,
                    c3: int, s3: int, ev: seq<Entry>, level: int, done: bool)
    requires StoppedByLevel(lim, required, c2, s2, byImportance, false)
    requires Stopped(lim, level <= BufferTargetLevel, required, c3, s3, ev, done)
    requires forall x | x in ev :: x.importance == level
    requires c3 + |ev| == c2 && s3 + TotalSize(ev) == s2
    ensures StoppedByLevel(lim, required, c3, s3, byImportance + ev, done)
  {
    var b := byImportance + ev;
    var strict := level <= BufferTargetLevel;
    if ev == [] {
      assert b == byImportance;
    } else {
      var last := ev[|ev| - 1];
      assert b[|b| - 1] == last && last in ev;
      assert AimsForBuffer(last) == strict;
      assert done <==> TargetReached(lim, strict, c3, s3, required);
      if |ev| == 1 {
        if byImportance != [] {
          assert TotalSize(ev) == last.size by {
            assert ev[..0] == [];
          }
          assert b[|b| - 2] == byImportance[|byImportance| - 1];
          assert c3 + 1 == c2 && s3 + last.size == s2;
        }
      } else {
        assert b[|b| - 2] == ev[|ev| - 2] && ev[|ev| - 2] in ev;
        assert !TargetReached(lim, strict, c3 + 1, s3 + last.size, required);
      }
    }
  }

  /** Deleting more entries of non-negative size never lowers the total deleted. */
  lemma {:induction false} TotalSizePrefixMono(es: seq<Entry>, i: nat, j: nat)
    requires i <= j <= |es| && forall x | x in es :: x.size >= 0
    ensures TotalSize(es[..i]) <= TotalSize(es[..j])
    decreases j - i
  {
    if i < j {
      TotalSizePrefixMono(es, i, j - 1);
      assert es[..j][..j - 1] == es[..j - 1];
      assert es[j - 1] in es;
    }
  }

  /**
   * What the stopping rule of step 2 means: as the deletions come in
   * importance order, no check before the last deletion succeeded. After the
   * first `t` deletions the store held `count + |byImportance| - t` entries of
   * `size + TotalSize(byImportance) - TotalSize(byImportance[..t])` bytes, and
   * the check then used the target of the level of the t-th deleted entry.
   */
  lemma {:induction false} LevelStopsAtFirstSuccess(lim: Limits, required: int, count: int, size: int,
                                                   byImportance: seq<Entry>)
    requires LevelChecksFail(lim, required, count, size, byImportance)
    requires forall x | x in byImportance :: x.size >= 0
    requires forall i, j | 0 <= i < j < |byImportance| :: byImportance[i].importance <= byImportance[j].importance
    ensures forall t | 1 <= t < |byImportance| ::
              !TargetReached(lim, AimsForBuffer(byImportance[t - 1]), count + |byImportance| - t,
                             size + TotalSize(byImportance) - TotalSize(byImportance[..t]), required)
  {
    var b, n := byImportance, |byImportance|;
    if n > 1 {
      assert TotalSize(b) - TotalSize(b[..n - 1]) == b[n - 1].size;
      forall t | 1 <= t < n
        ensures !TargetReached(lim, AimsForBuffer(b[t - 1]), count + n - t,
                               size + TotalSize(b) - TotalSize(b[..t]), required)
      {
        if t < n - 1 {
          TotalSizePrefixMono(b, t, n - 1);
          assert b[t - 1].importance <= b[n - 2].importance;
        }
      }
    }
  }

  /** The total size of two traces in a row. */
  lemma {:induction false} TotalSizeConcat(a: seq<Entry>, b: seq<Entry>)
    ensures TotalSize(a + b) == TotalSize(a) + TotalSize(b)
  {
    if b != [] {
      var front := b[..|b| - 1];
      assert a + b == (a + front) + [b[|b| - 1]];
      assert b == front + [b[|b| - 1]];
      TotalSizeConcat(a, front);
      TotalSizeSnoc(a + front, b[|b| - 1]);
      TotalSizeSnoc(front, b[|b| - 1]);
    } else {
      assert a + b == a;
    }
  }

  /**
   * Sorted candidates deleted from the front: every deleted candidate ranks at
   * most as high as every candidate still stored, and the deleted ones come
   * in rank order.
   */
  lemma LevelRanked(m0: map<string, Entry>, m: map<string, Entry>, sorted: seq<Entry>, i: nat, level: int)
    requires SubStore(m, m0) && i <= |sorted| && (forall k | k in m0 :: m0[k].key == k)
    requires SortedBy(RankCompare, sorted)
    requires forall t | 0 <= t < |sorted| :: sorted[t].importance == level
    requires forall k | k in m0 && m0[k].importance == level :: m0[k] in sorted
    requires forall x | x in sorted[..i] :: x.key !in m
    ensures forall x | x in sorted[..i] :: x.importance == level
    ensures forall x, k | x in sorted[..i] && k in m && m[k].importance == level :: RankLe(x, m[k])
    ensures forall i1, j1 | 0 <= i1 < j1 < i :: RankLe(sorted[i1], sorted[j1])
    ensures i == |sorted| ==> forall k | k in m :: m[k].importance != level
  {
    forall j | 0 <= j < i
      ensures sorted[j].key !in m
    {
      assert sorted[j] in sorted[..i];
    }
    forall x | x in sorted[..i]
      ensures x.importance == level
    {
      var s :| 0 <= s < i && sorted[..i][s] == x;
    }
    forall x, k | x in sorted[..i] && k in m && m[k].importance == level
      ensures RankLe(x, m[k])
    {
      var s :| 0 <= s < i && sorted[s] == x;
      var t :| 0 <= t < |sorted| && sorted[t] == m0[k];
      assert s < t;
      RankCompareMeansRankLe(sorted[s], sorted[t]);
    }
    forall i1, j1 | 0 <= i1 < j1 < i
      ensures RankLe(sorted[i1], sorted[j1])
    {
      RankCompareMeansRankLe(sorted[i1], sorted[j1]);
    }
    if i == |sorted| {
      forall k | k in m0 && m0[k].importance == level
        ensures k !in m
      {
        var t :| 0 <= t < |sorted| && sorted[t] == m0[k];
      }
    }
  }

  /**
   * The ordering promise of the importance step over the store `m` it leaves:
   * no entry of importance 1 to `cleared - 1` is left, and the deleted entries
   * `byImportance` each have importance 1 to 10, come in eviction order, and
   * each goes ahead of every survivor of importance 1 to 10.
   */
  ghost predicate ImportanceOrder(m: map<string, Entry>, cleared: int, byImportance: seq<Entry>) {
    && (forall k | k in m :: !(1 <= m[k].importance < cleared))
    && (forall x | x in byImportance :: 1 <= x.importance <= MaxSearchLevel)
    && (forall i, j | 0 <= i < j < |byImportance| :: EvictsBefore(byImportance[i], byImportance[j]))
    && (forall x, k | x in byImportance && k in m && 1 <= m[k].importance <= MaxSearchLevel ::
          EvictsBefore(x, m[k]))
  }

  /** One level of the importance step keeps its ordering promise. */
  lemma ImportanceStep(m2: map<string, Entry>, m3: map<string, Entry>, byImportance: seq<Entry>,
                       ev: seq<Entry>, level: int, done: bool)
    requires 1 <= level <= MaxSearchLevel
    requires ImportanceOrder(m2, level, byImportance)
    requires forall x | x in byImportance :: x.importance < level
    requires SubStore(m3, m2)
    requires forall x | x in ev :: x.importance == level
    requires forall i, j | 0 <= i < j < |ev| :: RankLe(ev[i], ev[j])
    requires forall x, k | x in ev && k in m3 && m3[k].importance == level :: RankLe(x, m3[k])
    requires !done ==> forall k | k in m3 :: m3[k].importance != level
    ensures ImportanceOrder(m3, if done then level else level + 1, byImportance + ev)
    ensures forall x | x in byImportance + ev :: x.importance <= level
  {
    var b := byImportance + ev;
    forall i, j | 0 <= i < j < |b|
      ensures EvictsBefore(b[i], b[j])
    {
      if j < |byImportance| {
        assert b[i] == byImportance[i] && b[j] == byImportance[j];
      } else if i >= |byImportance| {
        assert b[i] == ev[i - |byImportance|] && b[j] == ev[j - |byImportance|];
      } else {
        assert b[i] in byImportance && b[j] in ev;
      }
    }
  }

  /** The ordering promise survives further deletions and a lower `cleared` bound. */
  lemma ImportanceOrderShrink(m0: map<string, Entry>, m: map<string, Entry>, cleared: int, lower: int,
                              byImportance: seq<Entry>)
    requires ImportanceOrder(m0, cleared, byImportance) && SubStore(m, m0) && lower <= cleared
    ensures ImportanceOrder(m, lower, byImportance)
  {
  }

  lemma PrefixSnoc<T>(s: seq<T>, i: int)
    requires 0 <= i < |s|
    ensures s[..i + 1] == s[..i] + [s[i]]
  {
  }

  /** The candidates of one level, sorted: stored entries of that level, each key once. */
  lemma CandidatesSorted(m0: map<string, Entry>, cands: seq<Entry>, sorted: seq<Entry>, level: int)
    requires multiset(sorted) == multiset(cands) && KeysDistinct(cands)
    requires forall x | x in cands :: x.key in m0 && m0[x.key] == x && x.importance == level
    ensures forall t | 0 <= t < |sorted| ::
              sorted[t].key in m0 && m0[sorted[t].key] == sorted[t] && sorted[t].importance == level
    ensures forall t | 0 <= t < |sorted| :: sorted[t] !in sorted[..t]
    ensures forall x | x in cands :: x in sorted
  {
    PermutationKeysDistinct(sorted, cands);
    forall x | x in cands
      ensures x in sorted
    {
      assert x in multiset(cands);
    }
    forall t | 0 <= t < |sorted|
      ensures sorted[t].key in m0 && m0[sorted[t].key] == sorted[t] && sorted[t].importance == level
    {
      assert sorted[t] in multiset(sorted);
    }
    forall t | 0 <= t < |sorted|
      ensures sorted[t] !in sorted[..t]
    {
      forall s | 0 <= s < t
        ensures sorted[..t][s] != sorted[t]
      {
        assert sorted[s].key != sorted[t].key;
      }
    }
  }

  /** One entry offered to the scan of step 3: it takes the first of the three places it beats. */
  function Offer(b1: Option<Entry>, b2: Option<Entry>, b3: Option<Entry>, e: Entry)
    : (Option<Entry>, Option<Entry>, Option<Entry>)
  {
    if b1.None? || e.size > b1.value.size then (Some(e), b1, b2)
    else if b2.None? || e.size > b2.value.size then (b1, Some(e), b2)
    else if b3.None? || e.size > b3.value.size then (b1, b2, Some(e))
    else (b1, b2, b3)
  }

  /** The position of `k` in `ks`: the index of its first occurrence, or `|ks|` when it is absent. */
  function Pos(ks: seq<string>, k: string): (i: nat)
    ensures i <= |ks| && (i < |ks| <==> k in ks)
    ensures i < |ks| ==> ks[i] == k
  {
    if ks == [] then 0 else if ks[0] == k then 0 else 1 + Pos(ks[1..], k)
  }

  /** `Pos` finds the first occurrence: no earlier index holds `k`. */
  lemma {:induction false} PosFirst(ks: seq<string>, k: string)
    ensures forall j | 0 <= j < Pos(ks, k) :: ks[j] != k
  {
    if ks != [] && ks[0] != k {
      PosFirst(ks[1..], k);
      forall j | 0 <= j < Pos(ks, k)
        ensures ks[j] != k
      {
        if j > 0 {
          assert ks[j] == ks[1..][j - 1];
        }
      }
    }
  }

  /** Appending a key leaves the positions of the keys before it alone, and puts a new key last. */
  lemma PosSnoc(p: seq<string>, k: string, x: string)
    ensures x in p ==> Pos(p + [k], x) == Pos(p, x)
    ensures x !in p && x == k ==> Pos(p + [k], x) == |p|
  {
    var q := p + [k];
    PosFirst(q, x);
    PosFirst(p, x);
    if x in p {
      var i := Pos(p, x);
      assert q[i] == x;
      assert Pos(q, x) <= i;
      assert Pos(q, x) < |p| && p[Pos(q, x)] == x;
    } else if x == k {
      assert q[|p|] == x;
    }
  }

  /**
   * The scan of step 3 after the keys `ks`: as many picks as keys up to
   * three, stored entries under distinct keys of `ks`, largest first, and no
   * unpicked key of `ks` holds an entry larger than the third pick. The scan
   * moves an entry up only when it is strictly larger, so of two entries of
   * equal size the one met first in `ks` ranks higher.
   */
  ghost predicate TopThree(m: map<string, Entry>, ks: seq<string>,
                           b1: Option<Entry>, b2: Option<Entry>, b3: Option<Entry>) {
    && (b1.Some? <==> |ks| >= 1) && (b2.Some? <==> |ks| >= 2) && (b3.Some? <==> |ks| >= 3)
    && (b1.Some? ==> b1.value.key in ks && b1.value.key in m && m[b1.value.key] == b1.value)
    && (b2.Some? ==> b2.value.key in ks && b2.value.key in m && m[b2.value.key] == b2.value)
    && (b3.Some? ==> b3.value.key in ks && b3.value.key in m && m[b3.value.key] == b3.value)
    && (b2.Some? ==> b1.value.key != b2.value.key && b1.value.size >= b2.value.size)
    && (b3.Some? ==> b1.value.key != b3.value.key && b2.value.key != b3.value.key
                     && b2.value.size >= b3.value.size)
    && (forall k | k in ks && !Picked(k, b1, b2, b3) :: b3.Some? && k in m && m[k].size <= b3.value.size)
    && FirstMetFirst(m, ks, b1, b2, b3)
  }

  /** The tie rule of the scan of step 3: among equal sizes, the key met first in `ks` ranks higher. */
  ghost predicate FirstMetFirst(m: map<string, Entry>, ks: seq<string>,
                                b1: Option<Entry>, b2: Option<Entry>, b3: Option<Entry>) {
    && (b1.Some? && b2.Some? && b1.value.size == b2.value.size ==> Pos(ks, b1.value.key) < Pos(ks, b2.value.key))
    && (b2.Some? && b3.Some? && b2.value.size == b3.value.size ==> Pos(ks, b2.value.key) < Pos(ks, b3.value.key))
    && (forall k | k in ks && !Picked(k, b1, b2, b3) && b3.Some? && k in m && m[k].size == b3.value.size ::
          Pos(ks, b3.value.key) < Pos(ks, k))
  }

  /** Offering the entry of a new key `k` keeps the scan's promise, case by case. */
  lemma OfferFirst(m: map<string, Entry>, p: seq<string>, k: string,
                   b1: Option<Entry>, b2: Option<Entry>, b3: Option<Entry>)
    requires TopThree(m, p, b1, b2, b3) && k !in p && k in m && m[k].key == k
    requires b1.None? || m[k].size > b1.value.size
    ensures TopThree(m, p + [k], Some(m[k]), b1, b2)
  {
    forall x | x in p + [k] && !Picked(x, Some(m[k]), b1, b2)
      ensures b2.Some? && x in m && m[x].size <= b2.value.size
    {
      assert x in p;
    }
    if b2.Some? {
      PosSnoc(p, k, b1.value.key);
      PosSnoc(p, k, b2.value.key);
    }
    forall x | x in p + [k] && !Picked(x, Some(m[k]), b1, b2) && b2.Some? && x in m && m[x].size == b2.value.size
      ensures Pos(p + [k], b2.value.key) < Pos(p + [k], x)
    {
      assert x in p;
      PosSnoc(p, k, x);
    }
  }

  lemma OfferSecond(m: map<string, Entry>, p: seq<string>, k: string,
                    b1: Option<Entry>, b2: Option<Entry>, b3: Option<Entry>)
    requires TopThree(m, p, b1, b2, b3) && k !in p && k in m && m[k].key == k
    requires b1.Some? && m[k].size <= b1.value.size
    requires b2.None? || m[k].size > b2.value.size
    ensures TopThree(m, p + [k], b1, Some(m[k]), b2)
  {
    forall x | x in p + [k] && !Picked(x, b1, Some(m[k]), b2)
      ensures b2.Some? && x in m && m[x].size <= b2.value.size
    {
      assert x in p;
    }
    PosSnoc(p, k, b1.value.key);
    PosSnoc(p, k, k);
    forall x | x in p + [k] && !Picked(x, b1, Some(m[k]), b2) && b2.Some? && x in m && m[x].size == b2.value.size
      ensures Pos(p + [k], b2.value.key) < Pos(p + [k], x)
    {
      assert x in p;
      PosSnoc(p, k, x);
      PosSnoc(p, k, b2.value.key);
    }
  }

  lemma OfferThird(m: map<string, Entry>, p: seq<string>, k: string,
                   b1: Option<Entry>, b2: Option<Entry>, b3: Option<Entry>)
    requires TopThree(m, p, b1, b2, b3) && k !in p && k in m && m[k].key == k
    requires b1.Some? && m[k].size <= b1.value.size
    requires b2.Some? && m[k].size <= b2.value.size
    requires b3.None? || m[k].size > b3.value.size
    ensures TopThree(m, p + [k], b1, b2, Some(m[k]))
  {
    forall x | x in p + [k] && !Picked(x, b1, b2, Some(m[k]))
      ensures x in m && m[x].size < m[k].size
    {
      assert x in p;
    }
    PosSnoc(p, k, b1.value.key);
    PosSnoc(p, k, b2.value.key);
    PosSnoc(p, k, k);
  }

  lemma OfferNone(m: map<string, Entry>, p: seq<string>, k: string,
                  b1: Option<Entry>, b2: Option<Entry>, b3: Option<Entry>)
    requires TopThree(m, p, b1, b2, b3) && k !in p && k in m && m[k].key == k
    requires b1.Some? && m[k].size <= b1.value.size
    requires b2.Some? && m[k].size <= b2.value.size
    requires b3.Some? && m[k].size <= b3.value.size
    ensures TopThree(m, p + [k], b1, b2, b3)
  {
    PosSnoc(p, k, b1.value.key);
    PosSnoc(p, k, b2.value.key);
    PosSnoc(p, k, b3.value.key);
    PosSnoc(p, k, k);
    forall x | x in p + [k] && !Picked(x, b1, b2, b3) && x in m && m[x].size == b3.value.size
      ensures Pos(p + [k], b3.value.key) < Pos(p + [k], x)
    {
      if x in p {
        PosSnoc(p, k, x);
      }
    }
  }

  /** Offering the entry of a new key `k` keeps the scan's promise. */
  lemma TopThreeStep(m: map<string, Entry>, p: seq<string>, k: string,
                     b1: Option<Entry>, b2: Option<Entry>, b3: Option<Entry>)
    requires TopThree(m, p, b1, b2, b3) && k !in p && k in m && m[k].key == k
    ensures var (c1, c2, c3) := Offer(b1, b2, b3, m[k]);
            TopThree(m, p + [k], c1, c2, c3)
  {
    var e := m[k];
    if b1.None? || e.size > b1.value.size {
      OfferFirst(m, p, k, b1, b2, b3);
    } else if b2.None? || e.size > b2.value.size {
      OfferSecond(m, p, k, b1, b2, b3);
    } else if b3.None? || e.size > b3.value.size {
      OfferThird(m, p, k, b1, b2, b3);
    } else {
      OfferNone(m, p, k, b1, b2, b3);
    }
  }

  /** The picks of step 3 that are present, largest first. */
  function Picks(b1: Option<Entry>, b2: Option<Entry>, b3: Option<Entry>): (picks: seq<Entry>)
    ensures |picks| <= 3
  {
    (if b1.Some? then [b1.value] else []) + (if b2.Some? then [b2.value] else [])
      + (if b3.Some? then [b3.value] else [])
  }

  /** Whether one of the three picks of step 3 names `k`. */
  predicate Picked(k: string, b1: Option<Entry>, b2: Option<Entry>, b3: Option<Entry>) {
    (b1.Some? && b1.value.key == k) || (b2.Some? && b2.value.key == k) || (b3.Some? && b3.value.key == k)
  }

  /** The picks of step 3 are stored entries, each key once. */
  lemma PicksStored(m0: map<string, Entry>, o0: seq<string>, b1: Option<Entry>, b2: Option<Entry>,
                    b3: Option<Entry>)
    requires TopThree(m0, o0, b1, b2, b3)
    ensures var picks := Picks(b1, b2, b3);
            && (forall t | 0 <= t < |picks| :: picks[t].key in m0 && m0[picks[t].key] == picks[t])
            && (forall t | 0 <= t < |picks| :: picks[t] !in picks[..t])
  {
  }

  /** No pick of step 3 names `k`. */
  predicate Unpicked(k: string, picks: seq<Entry>) {
    forall t | 0 <= t < |picks| :: picks[t].key != k
  }

  /** A key that no pick in the sequence names is named by none of the three picks. */
  lemma UnpickedNotPicked(b1: Option<Entry>, b2: Option<Entry>, b3: Option<Entry>)
    requires (b2.Some? ==> b1.Some?) && (b3.Some? ==> b2.Some?)
    ensures forall k | Unpicked(k, Picks(b1, b2, b3)) :: !Picked(k, b1, b2, b3)
  {
    var picks := Picks(b1, b2, b3);
    forall k | Unpicked(k, picks)
      ensures !Picked(k, b1, b2, b3)
    {
      if b1.Some? {
        assert picks[0] == b1.value;
      }
      if b2.Some? {
        assert picks[1] == b2.value;
      }
      if b3.Some? {
        assert picks[2] == b3.value;
      }
    }
  }

  /**
   * The picks of step 3 over the store `m0`: stored entries, largest first,
   * and no unpicked entry larger than the last pick.
   */
  ghost predicate RankedSizes(m0: map<string, Entry>, picks: seq<Entry>) {
    && |picks| <= 3
    && (forall t | 0 <= t < |picks| :: picks[t].key in m0 && m0[picks[t].key] == picks[t])
    && (forall s, t | 0 <= s <= t < |picks| :: picks[s].size >= picks[t].size)
    && (forall k | k in m0 && Unpicked(k, picks) :: |picks| == 3 && m0[k].size <= picks[2].size)
  }

  /** The tie rule of step 3 over the picks: of equal sizes, the key met first in `o0` ranks higher. */
  ghost predicate RankedTies(m0: map<string, Entry>, o0: seq<string>, picks: seq<Entry>) {
    && (forall t | 0 < t < |picks| && picks[t - 1].size == picks[t].size ::
          Pos(o0, picks[t - 1].key) < Pos(o0, picks[t].key))
    && (forall k | k in m0 && Unpicked(k, picks) && |picks| == 3 && m0[k].size == picks[2].size ::
          Pos(o0, picks[2].key) < Pos(o0, k))
  }

  /**
   * What the scan of step 3 promises, restated over the sequence of picks:
   * there are as many as there are keys, up to three, ranked by size, ties
   * going to the key met first.
   */
  lemma PicksFacts(m0: map<string, Entry>, o0: seq<string>, b1: Option<Entry>, b2: Option<Entry>,
                   b3: Option<Entry>)
    requires TopThree(m0, o0, b1, b2, b3)
    requires forall k :: k in m0 <==> k in o0
    ensures |Picks(b1, b2, b3)| == (if |o0| < 3 then |o0| else 3)
    ensures RankedSizes(m0, Picks(b1, b2, b3))
    ensures RankedTies(m0, o0, Picks(b1, b2, b3))
  {
    UnpickedNotPicked(b1, b2, b3);
    PicksSizes(m0, o0, b1, b2, b3);
    PicksTieRule(m0, o0, b1, b2, b3);
  }

  /** The size part of `PicksFacts`. */
  lemma PicksSizes(m0: map<string, Entry>, o0: seq<string>, b1: Option<Entry>, b2: Option<Entry>,
                   b3: Option<Entry>)
    requires TopThree(m0, o0, b1, b2, b3)
    requires forall k :: k in m0 <==> k in o0
    requires forall k | Unpicked(k, Picks(b1, b2, b3)) :: !Picked(k, b1, b2, b3)
    ensures |Picks(b1, b2, b3)| == (if |o0| < 3 then |o0| else 3)
    ensures RankedSizes(m0, Picks(b1, b2, b3))
  {
    var picks := Picks(b1, b2, b3);
    forall k | k in m0 && Unpicked(k, picks)
      ensures b3.Some? && m0[k].size <= b3.value.size
    {
      assert k in o0 && !Picked(k, b1, b2, b3);
    }
    if b3.Some? {
      assert picks == [b1.value, b2.value, b3.value];
    } else if b2.Some? {
      assert picks == [b1.value, b2.value];
    } else if b1.Some? {
      assert picks == [b1.value];
    } else {
      assert picks == [];
    }
  }

  /** The tie part of `PicksFacts`. */
  lemma PicksTieRule(m0: map<string, Entry>, o0: seq<string>, b1: Option<Entry>, b2: Option<Entry>,
                     b3: Option<Entry>)
    requires TopThree(m0, o0, b1, b2, b3)
    requires forall k :: k in m0 <==> k in o0
    requires forall k | Unpicked(k, Picks(b1, b2, b3)) :: !Picked(k, b1, b2, b3)
    ensures RankedTies(m0, o0, Picks(b1, b2, b3))
  {
    var picks := Picks(b1, b2, b3);
    if b3.Some? {
      assert picks == [b1.value, b2.value, b3.value];
    } else if b2.Some? {
      assert picks == [b1.value, b2.value];
    } else if b1.Some? {
      assert picks == [b1.value];
    } else {
      assert picks == [];
    }
  }

  /**
   * Step 3's deleted picks `ev`, with the store now `m`: largest first, ties
   * in the order of `o0`, no survivor larger than a deleted pick, and none as
   * large that was met before it.
   */
  ghost predicate LargestDeleted(o0: seq<string>, m: map<string, Entry>, ev: seq<Entry>) {
    && (forall t | 0 < t < |ev| :: ev[t - 1].size >= ev[t].size)
    && (forall t | 0 < t < |ev| && ev[t - 1].size == ev[t].size :: Pos(o0, ev[t - 1].key) < Pos(o0, ev[t].key))
    && NoneLarger(m, ev)
    && (forall x, k | x in ev && k in m && m[k].size == x.size :: Pos(o0, x.key) < Pos(o0, k))
  }

  /** Deleting a prefix of the picks leaves no entry larger than a deleted one. */
  lemma PicksDominate(m0: map<string, Entry>, m: map<string, Entry>, picks: seq<Entry>, i: nat)
    requires SubStore(m, m0) && i <= |picks| && RankedSizes(m0, picks)
    requires forall x | x in picks[..i] :: x.key !in m
    ensures NoneLarger(m, picks[..i])
  {
    forall x, k | x in picks[..i] && k in m
      ensures m[k].size <= x.size
    {
      var s :| 0 <= s < i && picks[s] == x;
      if t :| 0 <= t < |picks| && picks[t].key == k {
        assert picks[t] !in picks[..i];
        assert s < t;
      }
    }
  }

  /** Deleting a prefix of the picks leaves no entry as large as a deleted one and met before it. */
  lemma PicksTies(m0: map<string, Entry>, o0: seq<string>, m: map<string, Entry>, picks: seq<Entry>, i: nat)
    requires SubStore(m, m0) && i <= |picks| && RankedSizes(m0, picks) && RankedTies(m0, o0, picks)
    requires forall x | x in picks[..i] :: x.key !in m
    ensures forall x, k | x in picks[..i] && k in m && m[k].size == x.size :: Pos(o0, x.key) < Pos(o0, k)
  {
    forall x, k | x in picks[..i] && k in m && m[k].size == x.size
      ensures Pos(o0, x.key) < Pos(o0, k)
    {
      var s :| 0 <= s < i && picks[s] == x;
      if t :| 0 <= t < |picks| && picks[t].key == k {
        assert picks[t] !in picks[..i];
        assert s < t;
        if t == s + 2 {
          assert picks[s + 1].size == x.size;
        }
      } else {
        assert Unpicked(k, picks);
        if s == 0 {
          assert picks[1].size == x.size;
        }
      }
    }
  }

  /** The deleted prefix of the picks keeps their order by size and their tie rule. */
  lemma PicksPrefix(m0: map<string, Entry>, o0: seq<string>, picks: seq<Entry>, i: nat)
    requires i <= |picks| && RankedSizes(m0, picks) && RankedTies(m0, o0, picks)
    ensures forall t | 0 < t < |picks[..i]| :: picks[..i][t - 1].size >= picks[..i][t].size
    ensures forall t | 0 < t < |picks[..i]| && picks[..i][t - 1].size == picks[..i][t].size ::
              Pos(o0, picks[..i][t - 1].key) < Pos(o0, picks[..i][t].key)
  {
  }

  /**
   * After the deletions of step 3 stop, the entries evicted are the largest
   * ones, ranked as `LargestDeleted` says, and all three (or every entry, if
   * fewer) unless the entry to be stored fitted earlier.
   */
  lemma LargestEvicted(m0: map<string, Entry>, o0: seq<string>, m: map<string, Entry>,
                       b1: Option<Entry>, b2: Option<Entry>, b3: Option<Entry>,
                       picks: seq<Entry>, i: nat)
    requires TopThree(m0, o0, b1, b2, b3) && (forall k :: k in m0 <==> k in o0)
    requires picks == Picks(b1, b2, b3) && i <= |picks|
    requires SubStore(m, m0) && forall x | x in picks[..i] :: x.key !in m
    ensures |picks[..i]| <= 3
    ensures i == |picks| ==> |picks[..i]| == if |o0| < 3 then |o0| else 3
    ensures LargestDeleted(o0, m, picks[..i])
  {
    PicksFacts(m0, o0, b1, b2, b3);
    PicksDominate(m0, m, picks, i);
    PicksTies(m0, o0, m, picks, i);
    PicksPrefix(m0, o0, picks, i);
  }

  /** The keys of a sequence of entries, in order. */
  function KeySeq(es: seq<Entry>): (ks: seq<string>)
    ensures |ks| == |es| && forall t | 0 <= t < |es| :: ks[t] == es[t].key
  {
    seq(|es|, t requires 0 <= t < |es| => es[t].key)
  }

  /** The keys of a sequence of entries, as a set. */
  ghost function KeySet(es: seq<Entry>): set<string> {
    set x | x in es :: x.key
  }

  /** Entries deleted from the front of an order carry its first keys. */
  lemma KeySeqFront(o: seq<string>, front: seq<Entry>, rest: seq<string>)
    requires |front| <= |o| && rest == o[|front|..]
    requires forall t | 0 <= t < |front| :: front[t].key == o[t]
    ensures o == KeySeq(front) + rest
  {
    assert KeySeq(front) == o[..|front|];
    assert o == o[..|front|] + o[|front|..];
  }

  /** A trace loses exactly the keys of the entries it deleted. */
  lemma TraceKeys(m0: map<string, Entry>, o0: seq<string>, s0: int,
                  m: map<string, Entry>, o: seq<string>, size: int, evicted: seq<Entry>)
    requires Trace(m0, o0, s0, m, o, size, evicted) && forall k | k in m0 :: m0[k].key == k
    ensures m0.Keys == m.Keys + KeySet(evicted)
  {
    forall k | k in m0 && k !in m
      ensures k in KeySet(evicted)
    {
      assert m0[k] in evicted;
    }
  }

  /**
   * The stopping rules of steps 3 and 4, for a store left with `count`
   * entries of `size` bytes: step 3 deleted the picks `largest` until the
   * entry fitted, no check before its last deletion succeeding; step 4 ran
   * only when all three picks were gone without that, deleted `fallback`
   * until the entry fitted, no check before its last deletion succeeding,
   * and deleted no entry larger than a pick.
   */
  ghost predicate LastResortStops(lim: Limits, required: int, count: int, size: int,
                                  largest: seq<Entry>, fallback: seq<Entry>) {
    var c, s := count + |fallback|, size + TotalSize(fallback);
    && (|largest| > 1 ==> !TargetReached(lim, false, c + 1, s + largest[|largest| - 1].size, required))
    && (fallback != [] ==> |largest| == 3 && !TargetReached(lim, false, c, s, required))
    && (|fallback| > 1 ==>
          !TargetReached(lim, false, count + 1, size + fallback[|fallback| - 1].size, required))
    && (forall x, y | x in largest && y in fallback :: y.size <= x.size)
  }

  /**
   * The stopping rules of steps 2 to 4, for a store left with `count` entries
   * of `size` bytes: step 2 deleted `byImportance` with no check before its
   * last deletion succeeding; steps 3 and 4 ran only when step 2 had cleared
   * every level 1 to 10 and the entry still did not fit, so they deleted no
   * entry of those levels; then they stopped as `LastResortStops` says.
   */
  ghost predicate EvictionStops(lim: Limits, required: int, count: int, size: int,
                                byImportance: seq<Entry>, largest: seq<Entry>, fallback: seq<Entry>) {
    var rest := largest + fallback;
    var c, s := count + |rest|, size + TotalSize(rest);
    && LevelChecksFail(lim, required, c, s, byImportance)
    && (rest != [] ==> !TargetReached(lim, false, c, s, required))
    && (forall x | x in rest :: !(1 <= x.importance <= MaxSearchLevel))
    && LastResortStops(lim, required, count, size, largest, fallback)
  }

  /** Steps 3 and 4 in a row keep their stopping rules, and step 4 deleted the front of the order. */
  lemma LastResortCompose(lim: Limits, required: int,
                          m0: map<string, Entry>, o0: seq<string>, s0: int,
                          m1: map<string, Entry>, o1: seq<string>, s1: int, largest: seq<Entry>, done3: bool,
                          m: map<string, Entry>, o: seq<string>, size: int, fallback: seq<Entry>, done4: bool)
    requires Trace(m0, o0, s0, m1, o1, s1, largest) && Trace(m1, o1, s1, m, o, size, fallback)
    requires forall k | k in m1 :: m1[k].key == k
    requires Stopped(lim, false, required, |o1|, s1, largest, done3)
    requires !done3 ==> |largest| == if |o0| < 3 then |o0| else 3
    requires NoneLarger(m1, largest)
    requires fallback != [] ==> !done3 && !TargetReached(lim, false, |o1|, s1, required)
    requires Stopped(lim, false, required, |o|, size, fallback, done4)
    requires o1 == KeySeq(fallback) + o
    ensures LastResortStops(lim, required, |o|, size, largest, fallback)
    ensures NoneLarger(m, largest)
    ensures KeySeq(fallback) + o == Keep(o0, m.Keys + KeySet(fallback))
  {
    TraceKeys(m1, o1, s1, m, o, size, fallback);
    forall x, y | x in largest && y in fallback
      ensures y.size <= x.size
    {
      assert y.key in m1 && m1[y.key] == y;
    }
  }

  /** The keys of entries that are all stored lie among the stored keys. */
  lemma KeySetWithin(es: seq<Entry>, m: map<string, Entry>)
    requires forall x | x in es :: x.key in m
    ensures KeySet(es) <= m.Keys
  {
  }

  /**
   * Steps 2 to 4 seen as one trace: the later deletions keep what step 2
   * promised, and the stopping rules of the steps make up `EvictionStops`.
   */
  lemma StepsCompose(lim: Limits, required: int, m0: map<string, Entry>, o0: seq<string>, s0: int,
                     m1: map<string, Entry>, o1: seq<string>, s1: int, byImportance: seq<Entry>, done2: bool,
                     m2: map<string, Entry>, o2: seq<string>, s2: int,
                     largest: seq<Entry>, fallback: seq<Entry>)
    requires Trace(m0, o0, s0, m1, o1, s1, byImportance)
    requires Trace(m1, o1, s1, m2, o2, s2, largest + fallback)
    requires forall k | k in m1 :: m1[k].key == k
    requires ImportanceOrder(m1, if done2 then 1 else MaxSearchLevel + 1, byImportance)
    requires StoppedByLevel(lim, required, |o1|, s1, byImportance, done2)
    requires largest + fallback != [] ==> !done2 && !TargetReached(lim, false, |o1|, s1, required)
    requires LastResortStops(lim, required, |o2|, s2, largest, fallback)
    requires KeySeq(fallback) + o2 == Keep(o1, m2.Keys + KeySet(fallback))
    ensures Trace(m0, o0, s0, m2, o2, s2, byImportance + largest + fallback)
    ensures EvictionStops(lim, required, |o2|, s2, byImportance, largest, fallback)
    ensures ImportanceOrder(m2, if LevelTargetReached(lim, required, |o2| + |largest + fallback|,
                                                      s2 + TotalSize(largest + fallback), byImportance)
                                then 1 else MaxSearchLevel + 1, byImportance)
    ensures KeySeq(fallback) + o2 == Keep(o0, m2.Keys + KeySet(fallback))
  {
    var rest := largest + fallback;
    StepsTrace(m0, o0, s0, m1, o1, s1, byImportance, m2, o2, s2, largest, fallback);
    StepsOrder(m1, m2, byImportance, rest, done2);
    StepsStop(lim, required, |o1|, s1, byImportance, done2, |o2|, s2, largest, fallback);
  }

  /** The trace part of `StepsCompose`: step 4 deleted the front of the order as it was before step 2. */
  lemma StepsTrace(m0: map<string, Entry>, o0: seq<string>, s0: int,
                   m1: map<string, Entry>, o1: seq<string>, s1: int, byImportance: seq<Entry>,
                   m2: map<string, Entry>, o2: seq<string>, s2: int,
                   largest: seq<Entry>, fallback: seq<Entry>)
    requires Trace(m0, o0, s0, m1, o1, s1, byImportance)
    requires Trace(m1, o1, s1, m2, o2, s2, largest + fallback)
    requires KeySeq(fallback) + o2 == Keep(o1, m2.Keys + KeySet(fallback))
    ensures Trace(m0, o0, s0, m2, o2, s2, byImportance + largest + fallback)
    ensures KeySeq(fallback) + o2 == Keep(o0, m2.Keys + KeySet(fallback))
  {
    var rest := largest + fallback;
    TraceConcat(m0, o0, s0, m1, o1, s1, byImportance, m2, o2, s2, rest);
    assert byImportance + rest == byImportance + largest + fallback;
    assert KeySet(fallback) <= m1.Keys by {
      forall x | x in fallback ensures x.key in m1 {
        assert x in rest;
      }
    }
    KeepTwice(o0, m1.Keys, m2.Keys + KeySet(fallback));
  }

  /** When step 2 alone makes the entry fit, steps 3 and 4 delete nothing. */
  lemma StepTwoOnly(lim: Limits, required: int, m0: map<string, Entry>, o0: seq<string>, s0: int,
                    m1: map<string, Entry>, o1: seq<string>, s1: int, byImportance: seq<Entry>, done2: bool,
                    largest: seq<Entry>, fallback: seq<Entry>)
    requires largest == [] && fallback == []
    requires Trace(m0, o0, s0, m1, o1, s1, byImportance)
    requires ImportanceOrder(m1, if done2 then 1 else MaxSearchLevel + 1, byImportance)
    requires StoppedByLevel(lim, required, |o1|, s1, byImportance, done2)
    ensures Trace(m0, o0, s0, m1, o1, s1, byImportance + largest + fallback)
    ensures EvictionStops(lim, required, |o1|, s1, byImportance, largest, fallback)
    ensures ImportanceOrder(m1, if LevelTargetReached(lim, required, |o1| + |largest + fallback|,
                                                      s1 + TotalSize(largest + fallback), byImportance)
                                then 1 else MaxSearchLevel + 1, byImportance)
    ensures NoneLarger(m1, largest)
    ensures KeySeq(fallback) + o1 == Keep(o0, m1.Keys + KeySet(fallback))
  {
    assert byImportance + largest + fallback == byImportance && largest + fallback == [];
    assert m1.Keys + KeySet(fallback) == m1.Keys;
  }

  /** Step 2's ordering promise survives steps 3 and 4, which delete no entry of levels 1 to 10. */
  lemma StepsOrder(m1: map<string, Entry>, m2: map<string, Entry>, byImportance: seq<Entry>,
                   rest: seq<Entry>, done2: bool)
    requires SubStore(m2, m1) && ImportanceOrder(m1, if done2 then 1 else MaxSearchLevel + 1, byImportance)
    requires forall x | x in rest :: x.key in m1 && m1[x.key] == x
    requires rest != [] ==> !done2
    ensures ImportanceOrder(m2, if done2 then 1 else MaxSearchLevel + 1, byImportance)
    ensures forall x | x in rest :: !(1 <= x.importance <= MaxSearchLevel)
  {
    ImportanceOrderShrink(m1, m2, if done2 then 1 else MaxSearchLevel + 1,
                          if done2 then 1 else MaxSearchLevel + 1, byImportance);
    forall x | x in rest
      ensures !(1 <= x.importance <= MaxSearchLevel)
    {
      assert x.key in m1 && m1[x.key] == x;
    }
  }

  /** The stopping rules of steps 2, 3 and 4 in a row. */
  lemma StepsStop(lim: Limits, required: int, c1: int, s1: int, byImportance: seq<Entry>, done2: bool,
                  c2: int, s2: int, largest: seq<Entry>, fallback: seq<Entry>)
    requires StoppedByLevel(lim, required, c1, s1, byImportance, done2)
    requires largest + fallback != [] ==> !done2 && !TargetReached(lim, false, c1, s1, required)
    requires LastResortStops(lim, required, c2, s2, largest, fallback)
    requires c2 + |largest + fallback| == c1 && s2 + TotalSize(largest + fallback) == s1
    requires forall x | x in largest + fallback :: !(1 <= x.importance <= MaxSearchLevel)
    ensures EvictionStops(lim, required, c2, s2, byImportance, largest, fallback)
    ensures done2 == LevelTargetReached(lim, required, c1, s1, byImportance)
  {
  }

  /**
   * Entries are only removed from `m0`, leaving `m`: the expired ones by the
   * sweep, then the live `evicted` ones.
   */
  ghost predicate SweptThenEvicted(now: int, m0: map<string, Entry>, m: map<string, Entry>, evicted: seq<Entry>) {
    && (forall k | k in m :: !Expired(m[k], now))
    && (forall k | k in m0 && k !in m :: Expired(m0[k], now) || m0[k] in evicted)
    && (forall x | x in evicted :: x.key in m0 && m0[x.key] == x && x.key !in m && !Expired(x, now))
  }

  /** No entry of `m` is larger than one of `picks`. */
  ghost predicate NoneLarger(m: map<string, Entry>, picks: seq<Entry>) {
    forall x, k | x in picks && k in m :: m[k].size <= x.size
  }

  /**
   * What `evictFor(required)` promises, run at time `now` on the store `m0`
   * iterated in the order `o0`, when it leaves the store `m`, iterated in the
   * order it inherits: `byImportance`, `largest` and `fallback` are the
   * entries steps 2, 3 and 4 deleted, in the order they deleted them.
   */
  ghost predicate EvictedFor(lim: Limits, required: int, now: int, m0: map<string, Entry>, o0: seq<string>,
                             m: map<string, Entry>, o: seq<string>, size: int,
                             byImportance: seq<Entry>, largest: seq<Entry>, fallback: seq<Entry>) {
    var rest := largest + fallback;
    var evicted := byImportance + largest + fallback;
    // the count and size the sweep of expired entries left
    var swept, sweptSize := |o| + |evicted|, size + TotalSize(evicted);
    && SubStore(m, m0) && o == Keep(o0, m.Keys) && size == SumSizes(o, m)
    && SweptThenEvicted(now, m0, m, evicted)
    // The entry fits, or the store is empty.
    && (!NeedsEviction(lim, |o|, size, required) || m == map[])
    // Steps 2 to 4 ran only when the sweep left the low-water mark unreached;
    && (TargetReached(lim, true, swept, sweptSize, required) ==> evicted == [])
    // step 2 then left no entry of a level below the one it stopped at (of
    // levels 1 to 10 when it did not stop), deleting in eviction order;
    && (!TargetReached(lim, true, swept, sweptSize, required) ==>
          ImportanceOrder(m, if LevelTargetReached(lim, required, |o| + |rest|, size + TotalSize(rest), byImportance)
                             then 1 else MaxSearchLevel + 1, byImportance))
    // every step stopped as soon as its target was reached;
    && EvictionStops(lim, required, |o|, size, byImportance, largest, fallback)
    // step 3 deleted the largest entries, step 4 the oldest.
    && NoneLarger(m, largest)
    && KeySeq(fallback) + o == Keep(o0, m.Keys + KeySet(fallback))
  }

  /** The sweep of expired entries followed by steps 2 to 4 keeps the promise of `evictFor`. */
  lemma SweepThenSteps(lim: Limits, required: int, now: int, m0: map<string, Entry>, o0: seq<string>,
                       swept: int, sweptSize: int, m: map<string, Entry>, o: seq<string>, size: int,
                       byImportance: seq<Entry>, largest: seq<Entry>, fallback: seq<Entry>)
    requires SubStore(m, m0) && o == Keep(o0, m.Keys) && size == SumSizes(o, m)
    requires SweptThenEvicted(now, m0, m, byImportance + largest + fallback)
    requires |o| + |byImportance + largest + fallback| == swept
    requires size + TotalSize(byImportance + largest + fallback) == sweptSize
    requires !TargetReached(lim, true, swept, sweptSize, required)
    requires ImportanceOrder(m, if LevelTargetReached(lim, required, |o| + |largest + fallback|,
                                                      size + TotalSize(largest + fallback), byImportance)
                                then 1 else MaxSearchLevel + 1, byImportance)
    requires EvictionStops(lim, required, |o|, size, byImportance, largest, fallback)
    requires NoneLarger(m, largest)
    requires KeySeq(fallback) + o == Keep(o0, m.Keys + KeySet(fallback))
    requires !NeedsEviction(lim, |o|, size, required) || m == map[]
    ensures EvictedFor(lim, required, now, m0, o0, m, o, size, byImportance, largest, fallback)
  {
  }

  /** When the sweep of expired entries reaches the low-water mark, `evictFor` deletes nothing more. */
  lemma SweepSufficed(lim: Limits, required: int, now: int, m0: map<string, Entry>, o0: seq<string>,
                      m: map<string, Entry>, o: seq<string>, size: int)
    requires forall k :: k in m <==> k in m0 && !Expired(m0[k], now)
    requires SubStore(m, m0) && o == Keep(o0, m.Keys) && size == SumSizes(o, m)
    requires TargetReached(lim, true, |o|, size, required)
    ensures EvictedFor(lim, required, now, m0, o0, m, o, size, [], [], [])
  {
    var none: seq<Entry> := [];
    assert none + none + none == none && none + none == none;
    assert m.Keys + KeySet(none) == m.Keys;
  }

  /**
   * What admitting `entry` into the store `m0` (its order `o0`, its size `s0`)
   * leaves behind, `m` of `size` bytes: an entry larger than `maxSize` changes
   * nothing; one that fits without eviction is simply added; otherwise
   * `evictFor` ran as `EvictedFor` says, and the entry was added after it
   * when it then fitted.
   */
  ghost predicate Admitted(lim: Limits, now: int, entry: Entry, m0: map<string, Entry>, o0: seq<string>, s0: int,
                           m: map<string, Entry>, size: int,
                           byImportance: seq<Entry>, largest: seq<Entry>, fallback: seq<Entry>) {
    && (entry.size > lim.maxSize ==> m == m0)
    && (entry.size <= lim.maxSize && !NeedsEviction(lim, |o0|, s0, entry.size) ==> m == m0[entry.key := entry])
    && (entry.size > lim.maxSize || !NeedsEviction(lim, |o0|, s0, entry.size)
        ==> byImportance + largest + fallback == [])
    && (entry.size <= lim.maxSize && NeedsEviction(lim, |o0|, s0, entry.size)
        ==> EvictedFor(lim, entry.size, now, m0, o0, m - {entry.key}, Keep(o0, (m - {entry.key}).Keys),
                       size - (if entry.key in m then entry.size else 0), byImportance, largest, fallback))
  }

  /** The entries stored under `ks`, in the order of `ks`. */
  function Values(ks: seq<string>, m: map<string, Entry>): (vs: seq<Entry>)
    requires forall k | k in ks :: k in m
    ensures |vs| == |ks| && forall t | 0 <= t < |ks| :: vs[t] == m[ks[t]]
  {
    seq(|ks|, t requires 0 <= t < |ks| => m[ks[t]])
  }

  /** The entries of a duplicate-free order occur once each. */
  lemma ValuesFresh(ks: seq<string>, m: map<string, Entry>)
    requires Distinct(ks) && (forall k | k in ks :: k in m && m[k].key == k)
    ensures var vs := Values(ks, m);
            forall t | 0 <= t < |vs| :: vs[t] !in vs[..t]
  {
    var vs := Values(ks, m);
    DistinctIndices(ks);
    forall t | 0 <= t < |vs|
      ensures vs[t] !in vs[..t]
    {
      forall s | 0 <= s < t
        ensures vs[..t][s] != vs[t]
      {
        assert vs[s].key == ks[s] && vs[t].key == ks[t];
      }
    }
  }

  /** The survivors of deleting the entries of a prefix of the order lie after that prefix. */
  lemma DropTraceSurvivors(m0: map<string, Entry>, o0: seq<string>, m: map<string, Entry>, i: nat)
    requires Distinct(o0) && (forall k :: k in m0 <==> k in o0) && (forall k | k in m0 :: m0[k].key == k)
    requires i <= |o0| && SubStore(m, m0)
    requires forall x | x in Values(o0, m0)[..i] :: x.key !in m
    ensures forall x | x in m :: x in o0[i..]
  {
    var vs := Values(o0, m0);
    forall j | 0 <= j < i
      ensures o0[j] !in m
    {
      assert vs[j] in vs[..i];
    }
    forall x | x in m
      ensures x in o0[i..]
    {
      var j :| 0 <= j < |o0| && o0[j] == x;
      assert o0[i..][j - i] == x;
    }
  }

  /** Every key after the deleted prefix of the order survives. */
  lemma DropTraceRest(m0: map<string, Entry>, o0: seq<string>, m: map<string, Entry>, i: nat)
    requires Distinct(o0) && (forall k :: k in m0 <==> k in o0) && (forall k | k in m0 :: m0[k].key == k)
    requires i <= |o0|
    requires forall k | k in m0 && k !in m :: m0[k] in Values(o0, m0)[..i]
    ensures forall x | x in o0[i..] :: x in m
  {
    var vs := Values(o0, m0);
    DistinctIndices(o0);
    forall j | i <= j < |o0|
      ensures o0[j] in m
    {
      var x := o0[j];
      forall s | 0 <= s < i
        ensures vs[..i][s] != m0[x]
      {
        assert vs[s].key == o0[s];
      }
    }
    forall x | x in o0[i..]
      ensures x in m
    {
      var j :| 0 <= j < |o0| - i && o0[i..][j] == x;
      assert o0[i + j] == x;
    }
  }

  /** Deleting the entries of a prefix of the order leaves the rest of the order. */
  lemma DropTrace(m0: map<string, Entry>, o0: seq<string>, s0: int,
                  m: map<string, Entry>, o: seq<string>, size: int, i: nat)
    requires Distinct(o0) && (forall k :: k in m0 <==> k in o0) && (forall k | k in m0 :: m0[k].key == k)
    requires i <= |o0|
    requires Trace(m0, o0, s0, m, o, size, Values(o0, m0)[..i])
    ensures o == o0[i..]
    ensures forall t | 0 <= t < i :: Values(o0, m0)[..i][t].key == o0[t]
    ensures i == |o0| ==> m == map[]
  {
    DropTraceSurvivors(m0, o0, m, i);
    DropTraceRest(m0, o0, m, i);
    DropIsKeep(o0, i, m.Keys);
    if i == |o0| {
      assert m.Keys == {};
    }
  }

  /** The sweep of expired entries followed by an eviction trace, seen from before the sweep. */
  lemma CleanupThenEvict(m0: map<string, Entry>, o0: seq<string>, m1: map<string, Entry>, o1: seq<string>,
                         s1: int, m: map<string, Entry>, o: seq<string>, size: int, now: int,
                         evicted: seq<Entry>)
    requires forall k :: k in m1 <==> k in m0 && !Expired(m0[k], now)
    requires SubStore(m1, m0) && o1 == Keep(o0, m1.Keys)
    requires Trace(m1, o1, s1, m, o, size, evicted)
    ensures SubStore(m, m0) && o == Keep(o0, m.Keys)
    ensures SweptThenEvicted(now, m0, m, evicted)
  {
    KeepTwice(o0, m1.Keys, m.Keys);
  }

  class JkMemCache {
    const name: string
    const limits: Limits
    const cleanupInterval: int
    var storage: map<string, Entry>
    var order: seq<string>
    var currentSize: int
    var autoCleanup: bool

    /**
     * The class invariant: `order` lists each stored key once, every entry is
     * filed under its own key, `currentSize` is the sum of the entry sizes, and
     * the store is empty or within both bounds.
     */
    ghost predicate Valid()
      reads this
    {
      && Distinct(order)
      && (forall k :: k in storage <==> k in order)
      && (forall k | k in storage :: storage[k].key == k && storage[k].size >= 0)
      && currentSize == SumSizes(order, storage)
      && WithinLimits(limits, |order|, currentSize)
    }

    /** The number of stored entries (`_storage.size`). */
    function Count(): (n: nat)
      requires Valid()
      reads this
      ensures n == |storage|
    {
      CountMatchesOrder(storage.Keys, order);
      |order|
    }

    /** `needsEviction` on the current state. */
    predicate NeedsEvictionNow(incoming: int)
      requires Valid()
      reads this
    {
      NeedsEviction(limits, Count(), currentSize, incoming)
    }

    /** `isTargetReached` on the current state. */
    predicate TargetReachedNow(strict: bool, required: int)
      requires Valid()
      reads this
    {
      TargetReached(limits, strict, Count(), currentSize, required)
    }

    constructor (name: string, maxCount: Option<int>, maxSize: Option<int>, cleanupInterval: Option<int>)
      ensures Valid()
      ensures this.name == name
      ensures limits == Limits(maxCount, maxSize.GetOr(DefaultMaxSize))
      ensures this.cleanupInterval == cleanupInterval.GetOr(DefaultCleanupInterval)
      ensures storage == map[] && order == [] && currentSize == 0
      ensures autoCleanup <==> this.cleanupInterval > 0
    {
      this.name := name;
      limits := Limits(maxCount, maxSize.GetOr(DefaultMaxSize));
      this.cleanupInterval := cleanupInterval.GetOr(DefaultCleanupInterval);
      storage := map[];
      order := [];
      currentSize := 0;
      autoCleanup := false;
      new;
      if this.cleanupInterval > 0 {
        StartAutoCleanup();
      }
    }

    /** Arms (or re-arms) the cleanup interval. */
    method StartAutoCleanup()
      modifies `autoCleanup
      ensures autoCleanup
    {
      autoCleanup := true;
    }

    /** Disarms the cleanup interval; a second call changes nothing. */
    method StopAutoCleanup()
      modifies `autoCleanup
      ensures !autoCleanup
    {
      if autoCleanup {
        autoCleanup := false;
      }
    }

    /** Removes `key` and its size from the total; an absent key changes nothing. */
    method Delete(key: string)
      requires Valid()
      modifies `storage, `order, `currentSize
      ensures Valid()
      ensures storage == old(storage) - {key}
      ensures order == RemoveKey(old(order), key)
      ensures key in old(storage) ==> currentSize == old(currentSize) - old(storage)[key].size
      ensures key in old(storage) ==> |order| == |old(order)| - 1
      ensures key !in old(storage) ==> currentSize == old(currentSize) && order == old(order)
    {
      RemoveKeyDistinct(order, key);
      if key in storage {
        SumSizesRemove(order, key, storage);
        currentSize := currentSize - storage[key].size;
        storage := storage - {key};
        order := RemoveKey(order, key);
      }
    }

    /** Empties the cache. */
    method Clear()
      modifies `storage, `order, `currentSize
      ensures Valid()
      ensures storage == map[] && order == [] && currentSize == 0
    {
      storage := map[];
      order := [];
      currentSize := 0;
    }

    /** `getStats`: the number of entries and the running total of their sizes. */
    method GetStats() returns (count: nat, size: int)
      requires Valid()
      ensures count == |storage| && size == SumSizes(order, storage)
      ensures WithinLimits(limits, count, size)
    {
      count := Count();
      size := currentSize;
    }

    /**
     * The lookup shared by `get`, `getWithMeta` and `has`: an expired entry is
     * deleted and reported missing; a live one is handed out and, unless
     * `peek`, its access count goes up.
     */
    method Lookup(key: string, peek: bool, now: int) returns (found: Option<Entry>)
      requires Valid()
      modifies `storage, `order, `currentSize
      ensures Valid()
      ensures found.Some? <==> key in old(storage) && !Expired(old(storage)[key], now)
      ensures found.Some? ==> found.value == old(storage)[key]
      ensures found.Some? ==> storage == old(storage)[key := Touched(old(storage)[key], peek)] && order == old(order)
      ensures found.None? ==> storage == old(storage) - {key} && order == RemoveKey(old(order), key)
    {
      if key !in storage {
        RemoveKeyDistinct(order, key);
        return None;
      }
      var entry := storage[key];
      if Expired(entry, now) {
        Delete(key);
        return None;
      }
      found := Some(entry);
      var touched := Touched(entry, peek);
      SumSizesFrame(order, storage, storage[key := touched]);
      storage := storage[key := touched];
    }

    /** `get`: the live value under `key`, or nothing. */
    method Get(key: string, peek: bool, now: int) returns (r: Option<Payload>)
      requires Valid()
      modifies `storage, `order, `currentSize
      ensures Valid()
      ensures r.Some? <==> key in old(storage) && !Expired(old(storage)[key], now)
      ensures r.Some? ==> r.value == old(storage)[key].value
      ensures r.Some? ==> storage == old(storage)[key := Touched(old(storage)[key], peek)] && order == old(order)
      ensures r.None? ==> storage == old(storage) - {key} && order == RemoveKey(old(order), key)
    {
      var found := Lookup(key, peek, now);
      r := if found.Some? then Some(found.value.value) else None;
    }

    /** `getWithMeta`: the live value under `key` with its metadata, or nothing. */
    method GetWithMeta(key: string, peek: bool, now: int) returns (r: Option<ValueWithMeta>)
      requires Valid()
      modifies `storage, `order, `currentSize
      ensures Valid()
      ensures r.Some? <==> key in old(storage) && !Expired(old(storage)[key], now)
      ensures r.Some? ==> r.value == ValueWithMeta(old(storage)[key].value, old(storage)[key].meta)
      ensures r.Some? ==> storage == old(storage)[key := Touched(old(storage)[key], peek)] && order == old(order)
      ensures r.None? ==> storage == old(storage) - {key} && order == RemoveKey(old(order), key)
    {
      var found := Lookup(key, peek, now);
      r := if found.Some? then Some(ValueWithMeta(found.value.value, found.value.meta)) else None;
    }

    /** `has`: whether a live entry sits under `key`; it never counts an access. */
    method Has(key: string, now: int) returns (b: bool)
      requires Valid()
      modifies `storage, `order, `currentSize
      ensures Valid()
      ensures b <==> key in old(storage) && !Expired(old(storage)[key], now)
      ensures b ==> storage == old(storage) && order == old(order)
      ensures !b ==> storage == old(storage) - {key} && order == RemoveKey(old(order), key)
    {
      var found := Lookup(key, true, now);
      b := found.Some?;
    }

    /**
     * The sweep of expired entries, in iteration order, as `performCleanup`,
     * `keys` and the first step of `evictFor` each run it. Returns how many
     * entries it removed.
     */
    method PerformCleanup(now: int) returns (removed: nat)
      requires Valid()
      modifies `storage, `order, `currentSize
      ensures Valid()
      ensures forall k :: k in storage <==> k in old(storage) && !Expired(old(storage)[k], now)
      ensures SubStore(storage, old(storage))
      ensures order == Keep(old(order), storage.Keys)
      ensures removed == |old(order)| - |order|
    {
      ghost var m0, o0 := storage, order;
      KeepAll(o0, m0.Keys);
      var ks := order;
      ghost var pending := storage.Keys;
      assert Distinct(ks);
      CountMatchesOrder(pending, ks);
      SweptNothing(m0, now);
      var i := 0;
      removed := 0;
      while i < |ks|
        invariant 0 <= i <= |ks|
        invariant Valid()
        invariant storage == Swept(m0, pending, now)
        invariant forall j | i <= j < |ks| :: ks[j] in pending
        invariant pending <= m0.Keys && |pending| <= |ks| - i
        invariant order == Keep(o0, storage.Keys)
        invariant removed == |o0| - |order|
      {
        var key := ks[i];
        DistinctLater(ks, i);
        SweptStep(m0, pending, now, key);
        if Expired(storage[key], now) {
          RemoveKeyFromKeep(o0, storage.Keys, key);
          Delete(key);
          removed := removed + 1;
        }
        pending := pending - {key};
        i := i + 1;
      }
    }

    /** `keys`: sweeps the expired entries and lists the live keys in insertion order. */
    method Keys(now: int) returns (ks: seq<string>)
      requires Valid()
      modifies `storage, `order, `currentSize
      ensures Valid()
      ensures forall k :: k in ks <==> k in old(storage) && !Expired(old(storage)[k], now)
      ensures ks == Keep(old(order), storage.Keys) && ks == order
      ensures SubStore(storage, old(storage))
    {
      var _ := PerformCleanup(now);
      ks := order;
    }

    /** The live keys that match `p`, in insertion order; the sweep of `keys` runs first. */
    method KeysMatching(p: KeyPattern, now: int) returns (r: seq<string>)
      requires Valid()
      modifies `storage, `order, `currentSize
      ensures Valid()
      ensures forall k :: k in r <==> k in old(storage) && !Expired(old(storage)[k], now) && Matches(p, k)
      ensures r == Select(order, p)
      ensures SubStore(storage, old(storage)) && order == Keep(old(order), storage.Keys)
    {
      var ks := Keys(now);
      r := SelectKeys(ks, p);
    }

    /** `keysStartingWith`. */
    method KeysStartingWith(prefix: string, now: int) returns (r: seq<string>)
      requires Valid()
      modifies `storage, `order, `currentSize
      ensures Valid()
      ensures forall k :: k in r <==> k in old(storage) && !Expired(old(storage)[k], now) && prefix <= k
      ensures r == Select(order, StartsWith(prefix))
    {
      r := KeysMatching(StartsWith(prefix), now);
    }

    /** `keysEndingWith`. */
    method KeysEndingWith(suffix: string, now: int) returns (r: seq<string>)
      requires Valid()
      modifies `storage, `order, `currentSize
      ensures Valid()
      ensures forall k :: k in r <==> k in old(storage) && !Expired(old(storage)[k], now) && Matches(EndsWith(suffix), k)
      ensures r == Select(order, EndsWith(suffix))
    {
      r := KeysMatching(EndsWith(suffix), now);
    }

    /** `keysContaining`. */
    method KeysContaining(text: string, now: int) returns (r: seq<string>)
      requires Valid()
      modifies `storage, `order, `currentSize
      ensures Valid()
      ensures forall k :: k in r <==> k in old(storage) && !Expired(old(storage)[k], now) && Matches(Contains(text), k)
      ensures r == Select(order, Contains(text))
    {
      r := KeysMatching(Contains(text), now);
    }

    /** The entries of importance `level`, in iteration order. */
    method CollectCandidates(level: int) returns (cands: seq<Entry>)
      requires Valid()
      ensures cands == AtLevel(order, storage, level)
      ensures forall x | x in cands :: x.key in storage && storage[x.key] == x && x.importance == level
      ensures forall k | k in storage && storage[k].importance == level :: storage[k] in cands
      ensures KeysDistinct(cands)
    {
      cands := [];
      var i := 0;
      while i < |order|
        invariant 0 <= i <= |order|
        invariant cands == AtLevel(order[..i], storage, level)
      {
        assert order[..i + 1][..i] == order[..i];
        if storage[order[i]].importance == level {
          cands := cands + [storage[order[i]]];
        }
        i := i + 1;
      }
      assert order[..|order|] == order;
      AtLevelFacts(order, storage, level);
    }

    /**
     * The candidates of one level of step 2 of `evictFor`, sorted least used
     * first and among equals oldest first: a permutation of the stored
     * entries of that importance, each once.
     */
    method SortedCandidates(level: int) returns (sorted: seq<Entry>)
      requires Valid()
      ensures multiset(sorted) == multiset(AtLevel(order, storage, level))
      ensures SortedBy(RankCompare, sorted)
      ensures forall t | 0 <= t < |sorted| ::
                sorted[t].key in storage && storage[sorted[t].key] == sorted[t] && sorted[t].importance == level
      ensures forall t | 0 <= t < |sorted| :: sorted[t] !in sorted[..t]
      ensures forall k | k in storage && storage[k].importance == level :: storage[k] in sorted
    {
      var cands := CollectCandidates(level);
      var a := new Entry[|cands|](i requires 0 <= i < |cands| => cands[i]);
      assert a[..] == cands;
      RankCompareTotalPreorder(cands);
      SortBy(a, RankCompare);
      sorted := a[..];
      CandidatesSorted(storage, cands, sorted, level);
    }

    /**
     * `delete` of a stored entry on behalf of `evictFor`, then
     * `isTargetReached(strict)`; the eviction's trace and stopping rule carry
     * over to the trace extended by `e`.
     */
    method EvictTracked(e: Entry, required: int, strict: bool, ghost m0: map<string, Entry>,
                        ghost o0: seq<string>, ghost s0: int, ghost evicted: seq<Entry>)
      returns (reached: bool)
      requires Valid() && e.key in storage && storage[e.key] == e
      requires Trace(m0, o0, s0, storage, order, currentSize, evicted)
      requires Stopped(limits, strict, required, |order|, currentSize, evicted, false)
      modifies `storage, `order, `currentSize
      ensures Valid()
      ensures storage == old(storage) - {e.key} && order == RemoveKey(old(order), e.key)
      ensures Trace(m0, o0, s0, storage, order, currentSize, evicted + [e])
      ensures Stopped(limits, strict, required, |order|, currentSize, evicted + [e], reached)
    {
      ghost var m, o, z := storage, order, currentSize;
      Delete(e.key);
      reached := TargetReachedNow(strict, required);
      TraceStep(m0, o0, s0, m, o, z, evicted, e);
      StoppedStep(limits, strict, required, |o|, z, evicted, e);
    }

    /**
     * The delete loop of one level of step 2 of `evictFor`: deletes the
     * candidates `sorted` from the front until the target is reached (the
     * low-water mark when `strict`); `i` is the number deleted.
     */
    method EvictPrefix(sorted: seq<Entry>, required: int, strict: bool) returns (done: bool, i: nat)
      requires Valid()
      requires forall t | 0 <= t < |sorted| :: sorted[t].key in storage && storage[sorted[t].key] == sorted[t]
      requires forall t | 0 <= t < |sorted| :: sorted[t] !in sorted[..t]
      modifies `storage, `order, `currentSize
      ensures Valid()
      ensures i <= |sorted| && (!done ==> i == |sorted|)
      ensures Trace(old(storage), old(order), old(currentSize), storage, order, currentSize, sorted[..i])
      ensures Stopped(limits, strict, required, |order|, currentSize, sorted[..i], done)
    {
      ghost var m0, o0, s0 := storage, order, currentSize;
      TraceStart(m0, o0, s0);
      done := false;
      i := 0;
      while i < |sorted| && !done
        invariant 0 <= i <= |sorted|
        invariant Valid()
        invariant Trace(m0, o0, s0, storage, order, currentSize, sorted[..i])
        invariant Stopped(limits, strict, required, |order|, currentSize, sorted[..i], done)
      {
        var e := sorted[i];
        assert e.key in storage;
        PrefixSnoc(sorted, i);
        done := EvictTracked(e, required, strict, m0, o0, s0, sorted[..i]);
        i := i + 1;
      }
    }

    /**
     * One level of the importance step of `evictFor`: the entries of
     * importance `level`, least used first and among equals oldest first, are
     * deleted one at a time until the target is reached (the low-water mark
     * when `strict`). The ghost `evicted` is the sequence of deleted entries.
     */
    method EvictLevel(level: int, required: int, strict: bool) returns (done: bool, ghost evicted: seq<Entry>)
      requires Valid()
      modifies `storage, `order, `currentSize
      ensures Valid()
      ensures Trace(old(storage), old(order), old(currentSize), storage, order, currentSize, evicted)
      ensures Stopped(limits, strict, required, |order|, currentSize, evicted, done)
      ensures forall x | x in evicted :: x.importance == level
      ensures forall i, j | 0 <= i < j < |evicted| :: RankLe(evicted[i], evicted[j])
      ensures forall x, k | x in evicted && k in storage && storage[k].importance == level :: RankLe(x, storage[k])
      ensures !done ==> forall k | k in storage :: storage[k].importance != level
    {
      ghost var m0 := storage;
      assert forall k | k in m0 :: m0[k].key == k;
      var sorted := SortedCandidates(level);
      var i;
      done, i := EvictPrefix(sorted, required, strict);
      LevelRanked(m0, storage, sorted, i, level);
      evicted := sorted[..i];
    }

    /**
     * Step 2 of `evictFor`: the importance levels 1 to 10 in turn, levels up to
     * 5 aiming for the low-water mark, until one reaches its target.
     */
    method EvictByImportance(required: int) returns (done: bool, ghost byImportance: seq<Entry>)
      requires Valid()
      modifies `storage, `order, `currentSize
      ensures Valid()
      ensures Trace(old(storage), old(order), old(currentSize), storage, order, currentSize, byImportance)
      ensures ImportanceOrder(storage, if done then 1 else MaxSearchLevel + 1, byImportance)
      ensures StoppedByLevel(limits, required, |order|, currentSize, byImportance, done)
      ensures done ==> !NeedsEviction(limits, |order|, currentSize, required)
    {
      ghost var m0, o0, s0 := storage, order, currentSize;
      TraceStart(m0, o0, s0);
      done := false;
      byImportance := [];
      var level := 1;
      while level <= MaxSearchLevel && !done
        invariant 1 <= level <= MaxSearchLevel + 1
        invariant Valid()
        invariant Trace(m0, o0, s0, storage, order, currentSize, byImportance)
        invariant ImportanceOrder(storage, if done then level - 1 else level, byImportance)
        invariant !done ==> forall x | x in byImportance :: x.importance < level
        invariant done ==> level >= 2 && !NeedsEviction(limits, |order|, currentSize, required)
        invariant StoppedByLevel(limits, required, |order|, currentSize, byImportance, done)
      {
        ghost var m2, o2, s2 := storage, order, currentSize;
        ghost var ev: seq<Entry>;
        done, ev := EvictLevel(level, required, level <= BufferTargetLevel);
        ImportanceStep(m2, storage, byImportance, ev, level, done);
        ByLevelStep(limits, required, |o2|, s2, byImportance, |order|, currentSize, ev, level, done);
        TraceConcat(m0, o0, s0, m2, o2, s2, byImportance, storage, order, currentSize, ev);
        byImportance := byImportance + ev;
        level := level + 1;
      }
      if done {
        ImportanceOrderShrink(storage, storage, level - 1, 1, byImportance);
      }
    }

    /** The scan of step 3 of `evictFor`: the three largest entries, the largest first. */
    method LargestThree() returns (b1: Option<Entry>, b2: Option<Entry>, b3: Option<Entry>)
      requires Valid()
      ensures TopThree(storage, order, b1, b2, b3)
    {
      b1, b2, b3 := None, None, None;
      var i := 0;
      ghost var seen: seq<string> := [];
      while i < |order|
        invariant 0 <= i <= |order| && seen == order[..i]
        invariant TopThree(storage, seen, b1, b2, b3)
      {
        var e := storage[order[i]];
        DistinctFresh(order, i);
        TopThreeStep(storage, seen, order[i], b1, b2, b3);
        if b1.None? || e.size > b1.value.size {
          b3, b2, b1 := b2, b1, Some(e);
        } else if b2.None? || e.size > b2.value.size {
          b3, b2 := b2, Some(e);
        } else if b3.None? || e.size > b3.value.size {
          b3 := Some(e);
        }
        PrefixSnoc(order, i);
        seen := seen + [order[i]];
        i := i + 1;
      }
      assert order[..i] == order;
    }

    /**
     * Step 3 of `evictFor`: deletes the largest, then the second and the third
     * largest entry, stopping as soon as the entry to be stored fits. The
     * three guarded deletions of the source are the delete loop run over the
     * picks present, largest first.
     */
    method EvictLargest(required: int) returns (done: bool, ghost evicted: seq<Entry>)
      requires Valid()
      modifies `storage, `order, `currentSize
      ensures Valid()
      ensures Trace(old(storage), old(order), old(currentSize), storage, order, currentSize, evicted)
      ensures Stopped(limits, false, required, |order|, currentSize, evicted, done)
      ensures |evicted| <= 3 && (!done ==> |evicted| == if |old(order)| < 3 then |old(order)| else 3)
      ensures LargestDeleted(old(order), storage, evicted)
    {
      ghost var m0 := storage;
      var b1, b2, b3 := LargestThree();
      var picks := Picks(b1, b2, b3);
      ghost var o0 := order;
      PicksStored(m0, order, b1, b2, b3);
      var i;
      done, i := EvictPrefix(picks, required, false);
      LargestEvicted(m0, o0, storage, b1, b2, b3, picks, i);
      evicted := picks[..i];
    }

    /**
     * Step 4 of `evictFor`: deletes entries in iteration order until the entry
     * to be stored fits or the cache is empty. Each key the live iterator of
     * the source yields is deleted before it advances, so it visits the keys
     * in their order at the start of the step: the delete loop runs over the
     * entries in that order.
     */
    method EvictInOrder(required: int) returns (done: bool, ghost evicted: seq<Entry>)
      requires Valid()
      modifies `storage, `order, `currentSize
      ensures Valid()
      ensures Trace(old(storage), old(order), old(currentSize), storage, order, currentSize, evicted)
      ensures Stopped(limits, false, required, |order|, currentSize, evicted, done)
      ensures |evicted| <= |old(order)| && order == old(order)[|evicted|..]
      ensures forall t | 0 <= t < |evicted| :: evicted[t].key == old(order)[t]
      ensures old(order) == KeySeq(evicted) + order
      ensures !done ==> storage == map[]
    {
      ghost var m0, o0, s0 := storage, order, currentSize;
      assert Distinct(o0) && (forall k :: k in m0 <==> k in o0) && (forall k | k in m0 :: m0[k].key == k);
      var firsts := Values(order, storage);
      ValuesFresh(o0, m0);
      var i;
      done, i := EvictPrefix(firsts, required, false);
      evicted := firsts[..i];
      DropTrace(m0, o0, s0, storage, order, currentSize, i);
      KeySeqFront(o0, evicted, order);
    }

    /**
     * Steps 3 and 4 of `evictFor`: the three largest entries, then entries in
     * iteration order, the second step only while the entry to be stored does
     * not fit.
     */
    method EvictLastResort(required: int) returns (ghost largest: seq<Entry>, ghost fallback: seq<Entry>)
      requires Valid()
      modifies `storage, `order, `currentSize
      ensures Valid()
      ensures Trace(old(storage), old(order), old(currentSize), storage, order, currentSize, largest + fallback)
      ensures NoneLarger(storage, largest)
      ensures !NeedsEviction(limits, |order|, currentSize, required) || storage == map[]
      ensures LastResortStops(limits, required, |order|, currentSize, largest, fallback)
      ensures KeySeq(fallback) + order == Keep(old(order), storage.Keys + KeySet(fallback))
    {
      ghost var m0, o0, s0 := storage, order, currentSize;
      var done;
      done, largest := EvictLargest(required);
      ghost var m1, o1, s1, done3 := storage, order, currentSize, done;
      if !done && !TargetReachedNow(false, required) {
        done, fallback := EvictInOrder(required);
        LastResortCompose(limits, required, m0, o0, s0, m1, o1, s1, largest, done3,
                          storage, order, currentSize, fallback, done);
      } else {
        fallback := [];
        TraceStart(m1, o1, s1);
        LastResortCompose(limits, required, m0, o0, s0, m1, o1, s1, largest, done3,
                          storage, order, currentSize, fallback, false);
      }
      TraceConcat(m0, o0, s0, m1, o1, s1, largest, storage, order, currentSize, fallback);
    }

    /**
     * Steps 2 to 4 of `evictFor`, run when the sweep of expired entries did
     * not reach the low-water mark.
     */
    method EvictSteps(required: int)
      returns (ghost byImportance: seq<Entry>, ghost largest: seq<Entry>, ghost fallback: seq<Entry>)
      requires Valid()
      modifies `storage, `order, `currentSize
      ensures Valid()
      ensures Trace(old(storage), old(order), old(currentSize), storage, order, currentSize,
                    byImportance + largest + fallback)
      ensures EvictionStops(limits, required, |order|, currentSize, byImportance, largest, fallback)
      ensures ImportanceOrder(storage, if LevelTargetReached(limits, required, |order| + |largest + fallback|,
                                                             currentSize + TotalSize(largest + fallback), byImportance)
                                       then 1 else MaxSearchLevel + 1, byImportance)
      ensures NoneLarger(storage, largest)
      ensures KeySeq(fallback) + order == Keep(old(order), storage.Keys + KeySet(fallback))
      ensures !NeedsEviction(limits, |order|, currentSize, required) || storage == map[]
    {
      ghost var m0, o0, s0 := storage, order, currentSize;
      var done;
      done, byImportance := EvictByImportance(required);
      ghost var m1, o1, s1 := storage, order, currentSize;
      if !done && !TargetReachedNow(false, required) {
        largest, fallback := EvictLastResort(required);
        StepsCompose(limits, required, m0, o0, s0, m1, o1, s1, byImportance, done, storage, order, currentSize,
                     largest, fallback);
      } else {
        largest, fallback := [], [];
        StepTwoOnly(limits, required, m0, o0, s0, storage, order, currentSize, byImportance, done,
                    largest, fallback);
      }
    }

    /**
     * `evictFor`: makes room for an entry of `required` bytes. Expired entries
     * go first; then the importance levels 1 to 10 are visited in turn, levels
     * up to 5 cleared down to the low-water mark and higher levels only until
     * the entry fits; then the three largest entries; at last entries in
     * iteration order. Each step runs only while the target is not reached.
     * The ghost results are the entries each of the last three steps deleted.
     */
    method EvictFor(required: int, now: int)
      returns (ghost byImportance: seq<Entry>, ghost largest: seq<Entry>, ghost fallback: seq<Entry>)
      requires Valid()
      modifies `storage, `order, `currentSize
      ensures Valid()
      ensures order == Keep(old(order), storage.Keys)
      ensures EvictedFor(limits, required, now, old(storage), old(order), storage, order, currentSize,
                         byImportance, largest, fallback)
    {
      ghost var m0, o0 := storage, order;
      var _ := PerformCleanup(now);
      ghost var m1, o1, s1 := storage, order, currentSize;
      if !TargetReachedNow(true, required) {
        byImportance, largest, fallback := EvictSteps(required);
        KeySetWithin(fallback, m1);
        KeepTwice(o0, m1.Keys, storage.Keys + KeySet(fallback));
        CleanupThenEvict(m0, o0, m1, o1, s1, storage, order, currentSize, now, byImportance + largest + fallback);
        SweepThenSteps(limits, required, now, m0, o0, |o1|, s1, storage, order, currentSize,
                       byImportance, largest, fallback);
      } else {
        byImportance, largest, fallback := [], [], [];
        SweepSufficed(limits, required, now, m0, o0, storage, order, currentSize);
      }
    }

    /**
     * Step 5 of `set`: when the entry to be stored does not fit, `evictFor`
     * makes room; `fits` says whether it fits afterwards.
     */
    method MakeRoom(size: int, now: int)
      returns (fits: bool, ghost byImportance: seq<Entry>, ghost largest: seq<Entry>, ghost fallback: seq<Entry>)
      requires Valid() && size <= limits.maxSize
      modifies `storage, `order, `currentSize
      ensures Valid()
      ensures SubStore(storage, old(storage)) && order == Keep(old(order), storage.Keys)
      ensures fits <==> !NeedsEviction(limits, |order|, currentSize, size)
      ensures fits <==> Admissible(limits, size)
      ensures !NeedsEviction(limits, |old(order)|, old(currentSize), size) ==>
                storage == old(storage) && byImportance + largest + fallback == []
      ensures NeedsEviction(limits, |old(order)|, old(currentSize), size) ==>
                EvictedFor(limits, size, now, old(storage), old(order), storage, order, currentSize,
                           byImportance, largest, fallback)
    {
      KeepAll(order, storage.Keys);
      byImportance, largest, fallback := [], [], [];
      if NeedsEvictionNow(size) {
        byImportance, largest, fallback := EvictFor(size, now);
        if storage == map[] {
          assert order == [];
          EmptyStoreAdmits(limits, size);
        }
      }
      fits := !NeedsEvictionNow(size);
    }

    /** The last step of `set`: files a new entry under its key, at the end of the iteration order. */
    method Store(entry: Entry)
      requires Valid() && entry.key !in storage && entry.size >= 0
      requires !NeedsEviction(limits, |order|, currentSize, entry.size)
      modifies `storage, `order, `currentSize
      ensures Valid()
      ensures storage == old(storage)[entry.key := entry] && order == old(order) + [entry.key]
      ensures currentSize == old(currentSize) + entry.size
    {
      assert entry.key !in order;
      DistinctSnoc(order, entry.key);
      SumSizesFrame(order, storage, storage[entry.key := entry]);
      SumSizesAppend(order, entry.key, storage[entry.key := entry]);
      AdmitKeepsLimits(limits, |order|, currentSize, entry.size);
      storage := storage[entry.key := entry];
      order := order + [entry.key];
      currentSize := currentSize + entry.size;
    }

    /**
     * Steps 4 and 5 of `set` and the insertion, for an entry whose key is not
     * stored: an entry larger than `maxSize` is dropped; otherwise room is
     * made for it and it is stored if it then fits.
     */
    method Admit(entry: Entry, now: int)
      returns (ghost byImportance: seq<Entry>, ghost largest: seq<Entry>, ghost fallback: seq<Entry>)
      requires Valid() && entry.key !in storage && entry.size >= 0
      modifies `storage, `order, `currentSize
      ensures Valid()
      ensures forall k | k in storage && k != entry.key :: k in old(storage) && storage[k] == old(storage)[k]
      ensures entry.key in storage <==> Admissible(limits, entry.size)
      ensures entry.key in storage ==>
                storage[entry.key] == entry && order == Keep(old(order), storage.Keys - {entry.key}) + [entry.key]
      ensures entry.key !in storage ==> order == Keep(old(order), storage.Keys)
      ensures Admitted(limits, now, entry, old(storage), old(order), old(currentSize), storage, currentSize,
                       byImportance, largest, fallback)
    {
      byImportance, largest, fallback := [], [], [];
      if entry.size > limits.maxSize {
        KeepAll(order, storage.Keys);
        return;
      }
      var fits;
      fits, byImportance, largest, fallback := MakeRoom(entry.size, now);
      ghost var m2 := storage;
      if fits {
        Store(entry);
        assert storage.Keys - {entry.key} == m2.Keys;
      }
      assert storage - {entry.key} == m2;
    }

    /**
     * `set`: stores `value` under `key`, replacing any previous entry. The entry
     * is dropped when it is larger than `maxSize` or when eviction cannot make
     * room for it.
     */
    method Set(key: string, value: Payload, options: EntryOptions, now: int)
      returns (ghost byImportance: seq<Entry>, ghost largest: seq<Entry>, ghost fallback: seq<Entry>)
      requires Valid()
      modifies `storage, `order, `currentSize
      ensures Valid()
      ensures key in storage <==> Admissible(limits, EntrySize(value, options.meta))
      ensures key in storage ==> storage[key] == NewEntry(key, value, options, now)
      ensures key in storage ==> order == Keep(old(order), storage.Keys - {key}) + [key]
      ensures key !in storage ==> order == Keep(old(order), storage.Keys)
      ensures forall k | k in storage && k != key :: k in old(storage) && storage[k] == old(storage)[k]
      ensures Admitted(limits, now, NewEntry(key, value, options, now), old(storage) - {key},
                       RemoveKey(old(order), key),
                       old(currentSize) - (if key in old(storage) then old(storage)[key].size else 0),
                       storage, currentSize, byImportance, largest, fallback)
    {
      ghost var m0, o0 := storage, order;
      KeepAll(o0, m0.Keys);
      RemoveKeyFromKeep(o0, m0.Keys, key);
      var entry := NewEntry(key, value, options, now);
      Delete(key);
      CountMatchesOrder(storage.Keys, order);
      ghost var m1, o1, s1 := storage, order, currentSize;
      assert m1 == m0 - {key} && o1 == RemoveKey(o0, key);
      assert s1 == old(currentSize) - (if key in m0 then m0[key].size else 0);
      byImportance, largest, fallback := Admit(entry, now);
      if key in storage {
        KeepTwice(o0, m1.Keys, storage.Keys - {key});
      } else {
        KeepTwice(o0, m1.Keys, storage.Keys);
      }
    }
  }
}
