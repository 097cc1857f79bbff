/**
 * The small helpers of the toolkit: ordering values by priority, a throttle
 * that lets a call through only once enough time has passed, merging options
 * over defaults, and the shape of a version-4 UUID together with the template
 * the fallback generator fills.
 */
module Tools {
  import opened Wrappers
  import opened Sorting

  // ----- sortByPriority -----

  /** The levels callers use; any integer is accepted. */
  const VeryLow := -200
  const Low := -100
  const DefaultPriority := 0
  const High := 100
  const VeryHigh := 200

  datatype ValueWithPriority<T> = ValueWithPriority(value: T, priority: int)

  /** The comparator of `sortByPriority`: -1, 0 or 1 by priority. */
  function ComparePriority<T>(a: ValueWithPriority<T>, b: ValueWithPriority<T>): int {
    if a.priority < b.priority then -1
    else if a.priority > b.priority then 1
    else 0
  }

  function PriorityOrder<T>(): (ValueWithPriority<T>, ValueWithPriority<T>) -> int {
    (a: ValueWithPriority<T>, b: ValueWithPriority<T>) => ComparePriority(a, b)
  }

  /** The priority comparator orders any list totally, and "at most 0" means "priority not larger". */
  lemma PriorityOrderTotal<T>(s: seq<ValueWithPriority<T>>)
    ensures TotalPreorderOn(PriorityOrder<T>(), s)
    ensures forall a, b :: PriorityOrder<T>()(a, b) <= 0 <==> a.priority <= b.priority
  {
  }

  /** `values.map(v => v.value)`. */
  function ValuesOf<T>(s: seq<ValueWithPriority<T>>): seq<T> {
    seq(|s|, i requires 0 <= i < |s| => s[i].value)
  }

  /**
   * `sortByPriority(values)`: sorts the caller's array in place, lowest
   * priority first, and returns the values in that order; `undefined` (here
   * `null`) gives `undefined`.
   */
  method SortByPriority<T>(values: array?<ValueWithPriority<T>>) returns (r: Option<seq<T>>)
    modifies values
    ensures values == null ==> r == None
    ensures values != null ==>
              && multiset(values[..]) == multiset(old(values[..]))
              && (forall i, j | 0 <= i < j < values.Length :: values[i].priority <= values[j].priority)
              && r == Some(ValuesOf(values[..]))
  {
    if values == null {
      return None;
    }
    SortBy(values, PriorityOrder<T>());
    PriorityOrderTotal(old(values[..]));
    assert SortedBy(PriorityOrder<T>(), values[..]);
    forall i, j | 0 <= i < j < values.Length
      ensures values[i].priority <= values[j].priority
    {
      assert PriorityOrder<T>()(values[..][i], values[..][j]) <= 0;
    }
    r := Some(ValuesOf(values[..]));
  }

  /** The returned values are as many as the inputs, each the value of the entry at its place. */
  lemma ValuesOfMatches<T>(s: seq<ValueWithPriority<T>>)
    ensures |ValuesOf(s)| == |s|
    ensures forall i | 0 <= i < |s| :: ValuesOf(s)[i] == s[i].value
  {
  }

  // ----- DontCallBeforeElapsed -----

  const DefaultRequireMs := 1000

  /**
   * A throttle: `Check(now)` lets a call through when at least `requireMs`
   * milliseconds separate `now` from the last call it let through (the clock
   * starting at 0). `accepted` records the instants it let through.
   */
  class DontCallBeforeElapsed {
    var lastTime: int
    const requireMs: int
    ghost var accepted: seq<int>

    /** Every call let through came at least `requireMs` after the previous one. */
    ghost predicate Valid()
      reads this
    {
      && lastTime == (if accepted == [] then 0 else accepted[|accepted| - 1])
      && (accepted != [] ==> accepted[0] >= requireMs)
      && (forall i | 0 < i < |accepted| :: accepted[i] - accepted[i - 1] >= requireMs)
    }

    constructor (requireMs: int)
      ensures Valid() && this.requireMs == requireMs && lastTime == 0 && accepted == []
    {
      this.requireMs := requireMs;
      lastTime := 0;
      accepted := [];
    }

    /** The constructor without argument: one second. */
    constructor WithDefault()
      ensures Valid() && requireMs == DefaultRequireMs && lastTime == 0 && accepted == []
    {
      requireMs := DefaultRequireMs;
      lastTime := 0;
      accepted := [];
    }

    /** `check()`, with the clock reading passed in. */
    method Check(now: int) returns (ok: bool)
      requires Valid()
      modifies this
      ensures Valid()
      ensures ok <==> now - old(lastTime) >= requireMs
      ensures lastTime == (if ok then now else old(lastTime))
      ensures accepted == (if ok then old(accepted) + [now] else old(accepted))
    {
      if now - lastTime < requireMs {
        return false;
      }
      lastTime := now;
      accepted := accepted + [now];
      return true;
    }
  }

  /** With a positive delay, calls let through are at strictly increasing instants, so never two at once. */
  lemma AcceptedIncreasing(accepted: seq<int>, requireMs: int)
    requires requireMs > 0
    requires forall i | 0 < i < |accepted| :: accepted[i] - accepted[i - 1] >= requireMs
    ensures forall i, j | 0 <= i < j < |accepted| :: accepted[j] - accepted[i] >= requireMs
  {
    forall i, j | 0 <= i < j < |accepted|
      ensures accepted[j] - accepted[i] >= requireMs
    {
      var k := i + 1;
      while k < j
        invariant i < k <= j
        invariant accepted[k] - accepted[i] >= requireMs
      {
        k := k + 1;
      }
    }
  }

  // ----- applyDefaults -----

  /** `{...defaults, ...source}`, a missing `source` counting as `{}`. */
  function ApplyDefaults<K, V>(source: Option<map<K, V>>, defaults: map<K, V>): (r: map<K, V>)
    ensures r.Keys == defaults.Keys + (if source.Some? then source.value.Keys else {})
    ensures forall k | k in r :: r[k] == if source.Some? && k in source.value then source.value[k] else defaults[k]
  {
    if source.Some? then defaults + source.value else defaults + map[]
  }

  /** Applying the same defaults again changes nothing, and defaults over themselves are the defaults. */
  lemma ApplyDefaultsIdempotent<K, V>(source: Option<map<K, V>>, defaults: map<K, V>)
    ensures ApplyDefaults(Some(ApplyDefaults(source, defaults)), defaults) == ApplyDefaults(source, defaults)
    ensures ApplyDefaults(Some(defaults), defaults) == defaults
    ensures ApplyDefaults(None, defaults) == defaults
  {
  }

  // ----- UUID -----

  /** The template the fallback generator fills: `x` takes any hex digit, `y` one of 8, 9, a, b. */
  const UuidTemplate: string := "xxxxxxxx-xxxx-4xxx-yxxx-xxxxxxxxxxxx"

  /** `d.toString(16)` for a digit: `0`-`9`, then lower-case `a`-`f`. */
  function HexDigit(d: int): char
    requires 0 <= d < 16
  {
    if d < 10 then (d + '0' as int) as char else (d - 10 + 'a' as int) as char
  }

  predicate IsLowerHex(c: char) {
    ('0' <= c <= '9') || ('a' <= c <= 'f')
  }

  /** The value of a lower-case hex digit. */
  function HexValue(c: char): (d: int)
    requires IsLowerHex(c)
    ensures 0 <= d < 16 && HexDigit(d) == c
  {
    if c <= '9' then c as int - '0' as int else c as int - 'a' as int + 10
  }

  predicate IsHex(c: char) {
    ('0' <= c <= '9') || ('a' <= c <= 'f') || ('A' <= c <= 'F')
  }

  /** `r & 0x3 | 0x8`, the digit a `y` takes for the random digit `r`. */
  function VariantDigit(r: int): (v: int)
    requires 0 <= r < 16
    ensures 8 <= v < 12
  {
    (((r as bv8) & 0x3) | 0x8) as int
  }

  /**
   * The character the generator puts where the template holds `c`, given the
   * random digit `r` drawn for that place.
   */
  function FillChar(c: char, r: int): char
    requires 0 <= r < 16
  {
    if c == 'x' then HexDigit(r)
    else if c == 'y' then HexDigit(VariantDigit(r))
    else c
  }

  /**
   * The fallback of `generateUUIDv4`: each `x` and `y` of `t` replaced by a
   * digit made from the random digit `rs[i]` (in 0..15) drawn for its place.
   */
  function FillTemplate(t: string, rs: seq<int>): (u: string)
    requires |rs| == |t| && forall i | 0 <= i < |rs| :: 0 <= rs[i] < 16
    ensures |u| == |t|
    ensures forall i | 0 <= i < |t| && t[i] != 'x' && t[i] != 'y' :: u[i] == t[i]
    ensures forall i | 0 <= i < |t| && t[i] == 'x' :: IsLowerHex(u[i])
    ensures forall i | 0 <= i < |t| && t[i] == 'y' :: u[i] in "89ab"
  {
    seq(|t|, i requires 0 <= i < |t| => FillChar(t[i], rs[i]))
  }

  /** What the pattern of `isUUIDv4` demands at place `i` (letters in either case). */
  predicate UuidCharOk(i: int, c: char) {
    if i == 8 || i == 13 || i == 18 || i == 23 then c == '-'
    else if i == 14 then c == '4'
    else if i == 19 then c in "89abAB"
    else IsHex(c)
  }

  /** `isUUIDv4(text)`. */
  predicate IsUuidV4(text: string) {
    |text| == 36 && forall i | 0 <= i < 36 :: UuidCharOk(i, text[i])
  }

  /** Whatever the random digits, the fallback generator yields a string `isUUIDv4` accepts. */
  lemma GeneratedIsUuid(rs: seq<int>)
    requires |rs| == |UuidTemplate| && forall i | 0 <= i < |rs| :: 0 <= rs[i] < 16
    ensures IsUuidV4(FillTemplate(UuidTemplate, rs))
  {
    var u := FillTemplate(UuidTemplate, rs);
    forall i | 0 <= i < 36
      ensures UuidCharOk(i, u[i])
    {
      if i == 8 || i == 13 || i == 18 || i == 23 {
        assert UuidTemplate[i] == '-';
      } else if i == 14 {
        assert UuidTemplate[i] == '4';
      } else if i == 19 {
        assert UuidTemplate[i] == 'y';
      } else {
        assert UuidTemplate[i] == 'x';
      }
    }
  }

  /** Every lower-case string `isUUIDv4` accepts is one the fallback generator can produce. */
  lemma UuidIsGenerated(text: string) returns (rs: seq<int>)
    requires IsUuidV4(text) && forall i | 0 <= i < |text| :: !('A' <= text[i] <= 'F')
    ensures |rs| == |UuidTemplate| && (forall i | 0 <= i < |rs| :: 0 <= rs[i] < 16)
    ensures FillTemplate(UuidTemplate, rs) == text
  {
    rs := seq(36, i requires 0 <= i < 36 =>
      if i == 8 || i == 13 || i == 14 || i == 18 || i == 23 then 0
      else if i == 19 then HexValue(text[i]) - 8
      else HexValue(text[i]));
    var u := FillTemplate(UuidTemplate, rs);
    forall i | 0 <= i < 36
      ensures u[i] == text[i]
    {
      assert UuidCharOk(i, text[i]);
      if i == 8 || i == 13 || i == 18 || i == 23 {
        assert UuidTemplate[i] == '-';
      } else if i == 14 {
        assert UuidTemplate[i] == '4';
      } else if i == 19 {
        assert UuidTemplate[i] == 'y';
        VariantOfSmall(rs[i]);
      } else {
        assert UuidTemplate[i] == 'x';
      }
    }
  }

  /** For a random digit below 4, `r & 0x3 | 0x8` is `8 + r`. */
  lemma VariantOfSmall(r: int)
    requires 0 <= r < 4
    ensures VariantDigit(r) == 8 + r
  {
    if r == 0 {
      assert VariantDigit(0) == 8;
    } else if r == 1 {
      assert VariantDigit(1) == 9;
    } else if r == 2 {
      assert VariantDigit(2) == 10;
    } else {
      assert VariantDigit(3) == 11;
    }
  }
}
