/**
 * The PHP string operations that pdoutil.php relies on, as functions on
 * `seq<char>`: integer-to-string conversion, `strpos`, `str_replace`,
 * `rtrim` with a one-character list, and the suffix test
 * `StringUtil::endsWith`. `explode`/`implode` are not called by pdoutil.php;
 * they are reference definitions that the proofs about `str_replace` and
 * the placeholder list are stated with.
 */
module PhpStrings {

  import opened Optional

  predicate IsDigit(c: char) {
    '0' <= c <= '9'
  }

  function DigitChar(d: nat): (c: char)
    requires d < 10
    ensures IsDigit(c)
  {
    "0123456789"[d]
  }

  function DigitValue(c: char): (d: nat)
    requires IsDigit(c)
    ensures d < 10 && DigitChar(d) == c
  {
    (c as int - '0' as int) as nat
  }

  /** The string PHP produces for a non-negative integer (as in `$prefix . $i`). */
  function Decimal(n: nat): (r: string)
    ensures |r| >= 1
    ensures forall k :: 0 <= k < |r| ==> IsDigit(r[k])
    ensures n >= 10 ==> |r| >= 2
    ensures r[0] == '0' <==> n == 0
    decreases n
  {
    if n < 10 then [DigitChar(n)] else Decimal(n / 10) + [DigitChar(n % 10)]
  }

  /** The number a string of decimal digits denotes: the inverse of `Decimal`. */
  function ParseDecimal(s: string): nat
    requires forall k :: 0 <= k < |s| ==> IsDigit(s[k])
  {
    if s == [] then 0 else ParseDecimal(s[..|s| - 1]) * 10 + DigitValue(s[|s| - 1])
  }

  lemma {:induction false} ParseDecimalOfDecimal(n: nat)
    ensures ParseDecimal(Decimal(n)) == n
    decreases n
  {
    var r := Decimal(n);
    if n < 10 {
      assert r[..|r| - 1] == [];
    } else {
      assert r[..|r| - 1] == Decimal(n / 10);
      ParseDecimalOfDecimal(n / 10);
    }
  }

  /** Distinct numbers give distinct strings, so generated names never collide. */
  lemma DecimalInjective(i: nat, j: nat)
    ensures Decimal(i) == Decimal(j) ==> i == j
  {
    ParseDecimalOfDecimal(i);
    ParseDecimalOfDecimal(j);
  }

  /** `StringUtil::endsWith($s, $suffix)`. */
  predicate EndsWith(s: string, suffix: string) {
    |suffix| <= |s| && s[|s| - |suffix|..] == suffix
  }

  /** `pat` occurs in `s` starting at index `j`. */
  predicate OccursAt(s: string, pat: string, j: int) {
    0 <= j && j + |pat| <= |s| && s[j..j + |pat|] == pat
  }

  /** `strpos($s, $pat)`: the first index at which `pat` occurs, or none (PHP's `false`). */
  function IndexOf(s: string, pat: string): (r: Option<nat>)
    ensures r.Some? ==> OccursAt(s, pat, r.value)
    ensures r.Some? ==> forall j :: 0 <= j < r.value ==> !OccursAt(s, pat, j)
    ensures r.None? ==> forall j :: !OccursAt(s, pat, j)
    decreases |s|
  {
    if |s| < |pat| then None
    else if s[..|pat|] == pat then Some(0)
    else
      var rest := IndexOf(s[1..], pat);
      assert forall j :: 1 <= j ==> (OccursAt(s, pat, j) <==> OccursAt(s[1..], pat, j - 1));
      if rest.None? then None else Some(rest.value + 1)
  }

  /** `strpos($s, $pat) !== false`: `pat` occurs somewhere in `s`. */
  function Contains(s: string, pat: string): (r: bool)
    ensures r <==> exists j :: OccursAt(s, pat, j)
  {
    IndexOf(s, pat).Some?
  }

  /**
   * `str_replace($pat, $rep, $s)`: every occurrence of `pat`, found left to right
   * without overlap, is replaced by `rep`; the inserted text is not searched again.
   * An empty `pat` leaves `s` as it is.
   */
  function ReplaceAll(s: string, pat: string, rep: string): string
    decreases |s|
  {
    if pat == [] || |s| < |pat| then s
    else if s[..|pat|] == pat then rep + ReplaceAll(s[|pat|..], pat, rep)
    else [s[0]] + ReplaceAll(s[1..], pat, rep)
  }

  /** `explode($sep, $s)`: the pieces between the left-to-right occurrences of `sep`. */
  function Explode(sep: string, s: string): (parts: seq<string>)
    requires sep != []
    ensures |parts| >= 1
    decreases |s|
  {
    if |s| < |sep| then [s]
    else if s[..|sep|] == sep then [""] + Explode(sep, s[|sep|..])
    else
      var rest := Explode(sep, s[1..]);
      [[s[0]] + rest[0]] + rest[1..]
  }

  /** `implode($glue, $parts)`: the parts joined by `glue`, with no trailing `glue`. */
  function Implode(glue: string, parts: seq<string>): string {
    if |parts| == 0 then ""
    else if |parts| == 1 then parts[0]
    else parts[0] + glue + Implode(glue, parts[1..])
  }

  /** `rtrim($s, $c)` for a one-character list: every trailing `c` is removed. */
  function RTrim(s: string, c: char): (r: string)
    ensures r <= s
    ensures r == [] || r[|r| - 1] != c
    ensures forall k :: |r| <= k < |s| ==> s[k] == c
    decreases |s|
  {
    if |s| > 0 && s[|s| - 1] == c then RTrim(s[..|s| - 1], c) else s
  }

  lemma ImplodeConsFirst(glue: string, c: char, parts: seq<string>)
    requires |parts| >= 1
    ensures Implode(glue, [[c] + parts[0]] + parts[1..]) == [c] + Implode(glue, parts)
  {
    var ps := [[c] + parts[0]] + parts[1..];
    assert ps[1..] == parts[1..];
  }

  /** `str_replace` is `implode($rep, explode($pat, $s))`: an independent reading of it. */
  lemma {:induction false} ReplaceAllIsImplodeExplode(s: string, pat: string, rep: string)
    requires pat != []
    ensures ReplaceAll(s, pat, rep) == Implode(rep, Explode(pat, s))
    decreases |s|
  {
    if |s| < |pat| {
    } else if s[..|pat|] == pat {
      ReplaceAllIsImplodeExplode(s[|pat|..], pat, rep);
      var ps := [""] + Explode(pat, s[|pat|..]);
      assert ps[1..] == Explode(pat, s[|pat|..]);
    } else {
      ReplaceAllIsImplodeExplode(s[1..], pat, rep);
      ImplodeConsFirst(rep, s[0], Explode(pat, s[1..]));
    }
  }

  lemma {:induction false} ExplodeNoSeparator(c: char, t: string)
    requires c !in t
    ensures Explode([c], t) == [t]
    decreases |t|
  {
    if |t| >= 1 {
      assert t[..1] != [c] by { assert t[..1][0] == t[0]; }
      ExplodeNoSeparator(c, t[1..]);
      assert [t[0]] + t[1..] == t;
    }
  }

  lemma {:induction false} ExplodeCons(c: char, t: string, rest: string)
    requires c !in t
    ensures Explode([c], t + [c] + rest) == [t] + Explode([c], rest)
    decreases |t|
  {
    var s := t + [c] + rest;
    if t == [] {
      assert s[..1] == [c];
      assert s[1..] == rest;
    } else {
      assert s[..1] != [c] by { assert s[..1][0] == t[0]; }
      assert s[1..] == t[1..] + [c] + rest;
      ExplodeCons(c, t[1..], rest);
      assert [t[0]] + t[1..] == t;
    }
  }

  /**
   * `explode` undoes `implode` when the separator is one character that
   * occurs in none of the parts.
   */
  lemma {:induction false} ExplodeImplode(c: char, parts: seq<string>)
    requires |parts| >= 1
    requires forall k :: 0 <= k < |parts| ==> c !in parts[k]
    ensures Explode([c], Implode([c], parts)) == parts
    decreases |parts|
  {
    if |parts| == 1 {
      ExplodeNoSeparator(c, parts[0]);
    } else {
      ExplodeImplode(c, parts[1..]);
      ExplodeCons(c, parts[0], Implode([c], parts[1..]));
    }
  }

  /** Joining one more part at the end appends the glue and that part. */
  lemma {:induction false} ImplodeSnoc(glue: string, parts: seq<string>, x: string)
    ensures Implode(glue, parts + [x]) == if parts == [] then x else Implode(glue, parts) + glue + x
    decreases |parts|
  {
    if |parts| >= 1 {
      assert (parts + [x])[1..] == parts[1..] + [x];
      ImplodeSnoc(glue, parts[1..], x);
    }
  }

  /** Text before the first character of `pat` can hold no occurrence, so it is copied as is. */
  lemma {:induction false} ReplaceAllSkip(x: string, s: string, pat: string, rep: string)
    requires pat != [] && pat[0] !in x
    ensures ReplaceAll(x + s, pat, rep) == x + ReplaceAll(s, pat, rep)
    decreases |x|
  {
    if x != [] {
      var t := x + s;
      ReplaceAllSkip(x[1..], s, pat, rep);
      assert t[1..] == x[1..] + s;
      assert x[0] != pat[0] by { assert x[0] in x; }
      if |t| >= |pat| {
        assert t[..|pat|] != pat by { assert t[..|pat|][0] == x[0]; }
        assert ReplaceAll(t, pat, rep) == [x[0]] + ReplaceAll(t[1..], pat, rep);
      } else {
        assert ReplaceAll(s, pat, rep) == s;
      }
      calc {
        ReplaceAll(t, pat, rep);
        [x[0]] + ReplaceAll(x[1..] + s, pat, rep);
        [x[0]] + (x[1..] + ReplaceAll(s, pat, rep));
        { assert [x[0]] + x[1..] == x; }
        x + ReplaceAll(s, pat, rep);
      }
    } else {
      assert x + s == s;
    }
  }

  /** A text that lacks some character of `pat` does not contain `pat`. */
  lemma AbsentChar(s: string, pat: string, k: nat)
    requires k < |pat| && pat[k] !in s
    ensures !Contains(s, pat)
  {
  }
}
