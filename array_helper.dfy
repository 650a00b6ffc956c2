/**
 * `PDOUtil_ArrayHelper`: from a name prefix and a list of values it builds,
 * once, at construction, the placeholder list `:p0,:p1,...` and the bindings
 * `p0 => v[0], p1 => v[1], ...`.
 */
module PdoArrayHelper {

  import opened Optional
  import opened PhpStrings
  import opened PhpArray

  /** The generated parameter name for position `i`: `$prefix . $i`. */
  function Key(prefix: string, i: nat): string {
    prefix + Decimal(i)
  }

  /** The placeholder tokens `:p0`, ..., `:p(n-1)`. */
  function Tokens(prefix: string, n: nat): seq<string> {
    seq(n, i requires 0 <= i < n => ":" + Key(prefix, i))
  }

  /** What `get_string` returns: the tokens joined by "," with nothing after the last. */
  function PlaceholderList(prefix: string, n: nat): string {
    Implode(",", Tokens(prefix, n))
  }

  /** What `get_params` returns: the i-th generated name bound to the i-th value, in input order. */
  function Bindings(prefix: string, data: seq<string>): OrderedMap {
    seq(|data|, i requires 0 <= i < |data| => Pair(Key(prefix, i), data[i]))
  }

  /** The text the string loop has built after the tokens `ts`: each token followed by ",". */
  function Terminated(ts: seq<string>): string {
    if ts == [] then "" else Terminated(ts[..|ts| - 1]) + (ts[|ts| - 1] + ",")
  }

  lemma TerminatedStep(ts: seq<string>, i: nat)
    requires i < |ts|
    ensures Terminated(ts[..i + 1]) == Terminated(ts[..i]) + (ts[i] + ",")
  {
    assert ts[..i + 1][..i] == ts[..i];
  }

  lemma KeyInjective(prefix: string, i: nat, j: nat)
    ensures Key(prefix, i) == Key(prefix, j) ==> i == j
  {
    if Key(prefix, i) == Key(prefix, j) {
      assert Decimal(i) == Key(prefix, i)[|prefix|..];
      assert Decimal(j) == Key(prefix, j)[|prefix|..];
      DecimalInjective(i, j);
    }
  }

  /** Every generated name is distinct: the bindings are a proper PHP array. */
  lemma BindingsUniqueKeys(prefix: string, data: seq<string>)
    ensures UniqueKeys(Bindings(prefix, data))
  {
    var b := Bindings(prefix, data);
    forall i, j | 0 <= i < j < |b| ensures b[i].key != b[j].key {
      KeyInjective(prefix, i, j);
    }
  }

  /**
   * The bindings have exactly one entry per value; the name `prefix . i`
   * holds the i-th value, and no other name holds anything.
   */
  lemma BindingsLookup(prefix: string, data: seq<string>, k: string)
    ensures |Bindings(prefix, data)| == |data|
    ensures forall i :: 0 <= i < |data| && k == Key(prefix, i) ==> Get(Bindings(prefix, data), k) == Some(data[i])
    ensures Get(Bindings(prefix, data), k).Some? <==> exists i :: 0 <= i < |data| && k == Key(prefix, i)
  {
    var b := Bindings(prefix, data);
    BindingsUniqueKeys(prefix, data);
    forall i | 0 <= i < |data| && k == Key(prefix, i)
      ensures Get(b, k) == Some(data[i])
    {
      GetUnique(b, i);
    }
    if Get(b, k).Some? {
      var i :| 0 <= i < |b| && b[i] == Pair(k, Get(b, k).value);
      assert k == Key(prefix, i);
    }
  }

  /**
   * The i-th placeholder is ":" followed by the i-th generated name, so
   * placeholders and bindings correspond one to one and in the same order.
   */
  lemma TokensMatchKeys(prefix: string, data: seq<string>)
    ensures |Tokens(prefix, |data|)| == |Keys(Bindings(prefix, data))| == |data|
    ensures forall i :: 0 <= i < |data| ==> Tokens(prefix, |data|)[i] == ":" + Keys(Bindings(prefix, data))[i]
  {
  }

  /**
   * When the prefix holds no ",", splitting the placeholder list at "," gives
   * back exactly the n tokens, in order: ":p0", ..., ":p(n-1)".
   */
  lemma PlaceholderListSplits(prefix: string, n: nat)
    requires n >= 1
    requires ',' !in prefix
    ensures Explode(",", PlaceholderList(prefix, n)) == Tokens(prefix, n)
  {
    var ts := Tokens(prefix, n);
    forall k | 0 <= k < n ensures ',' !in ts[k] {
      assert ts[k] == ":" + prefix + Decimal(k);
    }
    ExplodeImplode(',', ts);
  }

  /** No values: the placeholder list is empty and so are the bindings. */
  lemma EmptyData(prefix: string)
    ensures PlaceholderList(prefix, 0) == ""
    ensures Bindings(prefix, []) == []
  {
  }

  /** After its last token, the loop's text ends in exactly one ",". */
  lemma {:induction false} TerminatedIsImplode(ts: seq<string>)
    ensures Terminated(ts) == if ts == [] then "" else Implode(",", ts) + ","
    decreases |ts|
  {
    if ts != [] {
      var init, last := ts[..|ts| - 1], ts[|ts| - 1];
      assert ts == init + [last];
      TerminatedIsImplode(init);
      ImplodeSnoc(",", init, last);
    }
  }

  lemma RTrimDropsOne(body: string, c: char)
    requires body != [] && body[|body| - 1] != c
    ensures RTrim(body + [c], c) == body
  {
    assert (body + [c])[..|body|] == body;
  }

  /**
   * The loop's text with its trailing commas trimmed is the joined token
   * list, provided the last token is not empty and does not end in ",".
   */
  lemma TrimmedTerminated(ts: seq<string>)
    requires ts != [] ==> |ts[|ts| - 1]| >= 1 && ts[|ts| - 1][|ts[|ts| - 1]| - 1] != ','
    ensures RTrim(Terminated(ts), ',') == Implode(",", ts)
  {
    TerminatedIsImplode(ts);
    if ts != [] {
      var init, last := ts[..|ts| - 1], ts[|ts| - 1];
      assert ts == init + [last];
      ImplodeSnoc(",", init, last);
      var body := Implode(",", ts);
      if init == [] {
        assert body == last;
      } else {
        var before := Implode(",", init) + ",";
        assert body == before + last;
        assert body[|body| - 1] == last[|last| - 1];
      }
      RTrimDropsOne(body, ',');
    }
  }

  /** Every token ends in a digit, never in ",". */
  lemma TokenEndsInDigit(prefix: string, i: nat)
    ensures var t := ":" + Key(prefix, i); |t| >= 1 && IsDigit(t[|t| - 1])
  {
    var d := Decimal(i);
    var t := ":" + Key(prefix, i);
    assert t == ":" + prefix + d;
    assert t[|t| - 1] == d[|d| - 1];
  }

  class ArrayHelper {
    const prefix: string
    const data: seq<string>
    var pdoString: string
    var pdoParams: OrderedMap

    /** Both outputs have been built from `prefix` and `data`. */
    ghost predicate Valid()
      reads this
    {
      && pdoString == PlaceholderList(prefix, |data|)
      && pdoParams == Bindings(prefix, data)
    }

    /** Both outputs are computed eagerly, string first. */
    constructor (prefix: string, data: seq<string>)
      ensures this.prefix == prefix && this.data == data
      ensures Valid()
    {
      this.prefix := prefix;
      this.data := data;
      pdoString := "";
      pdoParams := [];
      new;
      GeneratePdoString();
      GeneratePdoParams();
    }

    /** The placeholder list, `get_string`. */
    function GetString(): (r: string)
      reads this
      requires Valid()
      ensures r == PlaceholderList(prefix, |data|)
    {
      pdoString
    }

    /** The bindings, `get_params`: one pair per value, keys distinct. */
    function GetParams(): (r: OrderedMap)
      reads this
      requires Valid()
      ensures r == Bindings(prefix, data)
      ensures UniqueKeys(r)
    {
      BindingsUniqueKeys(prefix, data);
      pdoParams
    }

    /** Append ":prefix i," for each value, then strip the trailing commas. */
    method GeneratePdoString()
      requires pdoString == ""
      modifies this`pdoString
      ensures pdoString == PlaceholderList(prefix, |data|)
    {
      ghost var ts := Tokens(prefix, |data|);
      var i := 0;
      while i < |data|
        invariant 0 <= i <= |data|
        invariant pdoString == Terminated(ts[..i])
      {
        TerminatedStep(ts, i);
        assert ts[i] == ":" + prefix + Decimal(i);
        pdoString := pdoString + (":" + prefix + Decimal(i) + ",");
        i := i + 1;
      }
      assert ts[..|data|] == ts;
      if |data| > 0 {
        TokenEndsInDigit(prefix, |data| - 1);
      }
      TrimmedTerminated(ts);
      pdoString := RTrim(pdoString, ',');
    }

    /** Set `prefix . i => data[i]` for each value in turn. */
    method GeneratePdoParams()
      requires pdoParams == []
      modifies this`pdoParams
      ensures pdoParams == Bindings(prefix, data)
    {
      var i := 0;
      while i < |data|
        invariant 0 <= i <= |data|
        invariant pdoParams == Bindings(prefix, data[..i])
      {
        if Key(prefix, i) in Keys(pdoParams) {
          var j :| 0 <= j < i && Keys(pdoParams)[j] == Key(prefix, i);
          KeyInjective(prefix, i, j);
        }
        SetAbsent(pdoParams, Key(prefix, i), data[i]);
        pdoParams := Set(pdoParams, prefix + Decimal(i), data[i]);
        i := i + 1;
      }
      assert data[..|data|] == data;
    }
  }
}
