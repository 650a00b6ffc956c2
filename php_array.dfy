/**
 * A PHP array whose keys are all strings, as an ordered list of key/value
 * pairs: PHP keeps insertion order, and a key appears at most once.
 * `Set` is `$a[$k] = $v` and `Merge` is `array_merge($a, $b)` for string keys.
 */
module PhpArray {

  import opened Optional
  import opened PhpStrings

  /** A non-empty run of decimal digits with no leading zero (except "0" itself). */
  predicate CanonicalDigits(d: string) {
    && d != []
    && (forall k :: 0 <= k < |d| ==> IsDigit(d[k]))
    && (d[0] == '0' ==> |d| == 1)
  }

  /**
   * A string key that PHP stores as an integer key instead (64-bit PHP): "0",
   * or an optional "-" followed by a non-zero digit and more digits, whose
   * value lies in the range of a PHP integer. "-0", "00" and "1a" stay strings.
   */
  predicate IntegerKey(k: string) {
    if k != [] && k[0] == '-' then
      CanonicalDigits(k[1..]) && k[1..] != "0" && ParseDecimal(k[1..]) <= 0x8000_0000_0000_0000
    else
      CanonicalDigits(k) && ParseDecimal(k) <= 0x7FFF_FFFF_FFFF_FFFF
  }

  /** The string of a non-negative PHP integer is itself an integer key. */
  lemma DecimalIsIntegerKey(n: nat)
    requires n <= 0x7FFF_FFFF_FFFF_FFFF
    ensures IntegerKey(Decimal(n))
  {
    ParseDecimalOfDecimal(n);
  }

  datatype Pair = Pair(key: string, value: string)

  type OrderedMap = seq<Pair>

  function Keys(a: OrderedMap): seq<string> {
    seq(|a|, k requires 0 <= k < |a| => a[k].key)
  }

  /** The invariant of every PHP array: no key twice. */
  ghost predicate UniqueKeys(a: OrderedMap) {
    forall i, j :: 0 <= i < j < |a| ==> a[i].key != a[j].key
  }

  /** `$a[$k] ?? null`: the value stored under `k`, if any. */
  function Get(a: OrderedMap, k: string): (r: Option<string>)
    ensures r.None? <==> k !in Keys(a)
    ensures r.Some? ==> exists i :: 0 <= i < |a| && a[i] == Pair(k, r.value)
  {
    if a == [] then None
    else if a[0].key == k then
      assert Keys(a)[0] == k;
      Some(a[0].value)
    else
      assert Keys(a) == [a[0].key] + Keys(a[1..]);
      var r := Get(a[1..], k);
      assert r.Some? ==> exists i :: 1 <= i < |a| && a[i] == Pair(k, r.value) by {
        if r.Some? {
          var i :| 0 <= i < |a[1..]| && a[1..][i] == Pair(k, r.value);
          assert a[i + 1] == Pair(k, r.value);
        }
      }
      r
  }

  /** `$a[$k] = $v`: overwrite the value in place when `k` is present, else append. */
  function Set(a: OrderedMap, k: string, v: string): OrderedMap {
    if a == [] then [Pair(k, v)]
    else if a[0].key == k then [Pair(k, v)] + a[1..]
    else [a[0]] + Set(a[1..], k, v)
  }

  /** `array_merge($a, $b)` for string keys: `b`'s pairs set into `a` in order. */
  function Merge(a: OrderedMap, b: OrderedMap): OrderedMap
    decreases |b|
  {
    if b == [] then a else Merge(Set(a, b[0].key, b[0].value), b[1..])
  }

  /** In an array without duplicate keys, every stored pair is what a lookup finds. */
  lemma {:induction false} GetUnique(a: OrderedMap, i: nat)
    requires UniqueKeys(a)
    requires i < |a|
    ensures Get(a, a[i].key) == Some(a[i].value)
  {
    if i > 0 {
      GetUnique(a[1..], i - 1);
    }
  }

  /** After `$a[$k] = $v`, `k` holds `v` and every other key holds what it held. */
  lemma {:induction false} GetSet(a: OrderedMap, k: string, v: string, k': string)
    ensures Get(Set(a, k, v), k') == if k' == k then Some(v) else Get(a, k')
  {
    if a != [] && a[0].key != k {
      GetSet(a[1..], k, v, k');
    }
  }

  /** `$a[$k] = $v` keeps the key order and appends `k` only when it is new. */
  lemma {:induction false} KeysSet(a: OrderedMap, k: string, v: string)
    ensures Keys(Set(a, k, v)) == if k in Keys(a) then Keys(a) else Keys(a) + [k]
  {
    if a == [] {
    } else if a[0].key == k {
      assert Keys(a)[0] == k;
      assert Keys(Set(a, k, v)) == Keys(a);
    } else {
      KeysSet(a[1..], k, v);
      assert Keys(a) == [a[0].key] + Keys(a[1..]);
      assert Keys(Set(a, k, v)) == [a[0].key] + Keys(Set(a[1..], k, v));
    }
  }

  /** Setting a key that is not present appends the pair at the end. */
  lemma {:induction false} SetAbsent(a: OrderedMap, k: string, v: string)
    requires k !in Keys(a)
    ensures Set(a, k, v) == a + [Pair(k, v)]
  {
    if a != [] {
      assert Keys(a) == [a[0].key] + Keys(a[1..]);
      SetAbsent(a[1..], k, v);
      assert a == [a[0]] + a[1..];
    }
  }

  lemma SetKeepsUnique(a: OrderedMap, k: string, v: string)
    requires UniqueKeys(a)
    ensures UniqueKeys(Set(a, k, v))
  {
    KeysSet(a, k, v);
    var r := Set(a, k, v);
    forall i, j | 0 <= i < j < |r| ensures r[i].key != r[j].key {
      assert Keys(r)[i] == r[i].key && Keys(r)[j] == r[j].key;
      if j < |a| {
        assert Keys(a)[i] == a[i].key && Keys(a)[j] == a[j].key;
      } else {
        assert Keys(a)[i] == a[i].key;
      }
    }
  }

  /** `array_merge` keeps keys unique. */
  lemma {:induction false} MergeKeepsUnique(a: OrderedMap, b: OrderedMap)
    requires UniqueKeys(a)
    ensures UniqueKeys(Merge(a, b))
    decreases |b|
  {
    if b != [] {
      SetKeepsUnique(a, b[0].key, b[0].value);
      MergeKeepsUnique(Set(a, b[0].key, b[0].value), b[1..]);
    }
  }

  /**
   * After `array_merge($a, $b)`, a key of `b` holds `b`'s value (the later
   * value wins) and any other key holds what it held in `a`.
   */
  lemma {:induction false} GetMerge(a: OrderedMap, b: OrderedMap, k: string)
    requires UniqueKeys(b)
    ensures Get(Merge(a, b), k) == if k in Keys(b) then Get(b, k) else Get(a, k)
    decreases |b|
  {
    if b != [] {
      var a' := Set(a, b[0].key, b[0].value);
      assert UniqueKeys(b[1..]);
      assert Keys(b) == [b[0].key] + Keys(b[1..]);
      GetMerge(a', b[1..], k);
      GetSet(a, b[0].key, b[0].value, k);
      if k in Keys(b[1..]) {
        var i :| 0 <= i < |Keys(b[1..])| && Keys(b[1..])[i] == k;
        assert b[i + 1].key == k;
      }
    }
  }

  /** `array_merge` keeps every key of `a` at its position; new keys come after. */
  lemma {:induction false} MergeKeepsKeyOrder(a: OrderedMap, b: OrderedMap)
    ensures Keys(a) <= Keys(Merge(a, b))
    decreases |b|
  {
    if b != [] {
      KeysSet(a, b[0].key, b[0].value);
      MergeKeepsKeyOrder(Set(a, b[0].key, b[0].value), b[1..]);
    }
  }
}
