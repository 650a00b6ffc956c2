/**
 * `PDOUtil`: a query template, a registry of (label, value) bindings, and
 * `finalize`, which rewrites every array label `:x[]` found in the query
 * into `:x0,:x1,...` and collects the values to bind under each name.
 */
module PdoQuery {

  import opened Optional
  import opened PhpStrings
  import opened PhpArray
  import opened PdoArrayHelper

  /** A registered value: a string, or a list of strings for an array label. */
  datatype Value = Str(s: string) | Arr(items: seq<string>)

  /** One registration, `array('label' => $label, 'data' => $data)`. */
  datatype Entry = Entry(name: string, data: Value)

  /** The two exceptions `add_data` throws. */
  datatype ShapeError = ExpectedArray | ExpectedString

  datatype Outcome = Pass | Fail(error: ShapeError)

  /** The query text and the bindings collected so far. */
  datatype Query = Query(text: string, params: OrderedMap)

  /** A label with the `[]` suffix stands for a list of values. */
  predicate IsArrayLabel(name: string) {
    EndsWith(name, "[]")
  }

  /** The shape rule: array labels carry lists, other labels carry strings. */
  predicate WellShaped(e: Entry) {
    IsArrayLabel(e.name) <==> e.data.Arr?
  }

  /** The check `add_data` makes before it registers anything. */
  function CheckShape(name: string, data: Value): (r: Outcome)
    ensures r.Pass? <==> WellShaped(Entry(name, data))
    ensures r.Fail? ==> r.error == if IsArrayLabel(name) then ExpectedArray else ExpectedString
  {
    if IsArrayLabel(name) then
      if !data.Arr? then Fail(ExpectedArray) else Pass
    else if !data.Str? then Fail(ExpectedString) else Pass
  }

  /**
   * `substr($label, 1, -2)`: the name prefix of an array label. Under PHP 8 a
   * label too short to have one (only `[]` ends in `[]` and is shorter than 3)
   * gives "".
   */
  function ArrayPrefix(name: string): (r: string)
    ensures |name| >= 3 ==> name == name[..1] + r + name[|name| - 2..]
    ensures |name| < 3 ==> r == ""
  {
    if |name| >= 3 then name[1..|name| - 2] else ""
  }

  /** `substr($label, 1)`: the parameter name of a scalar label. */
  function ScalarKey(name: string): (r: string)
    ensures name != [] ==> name == [name[0]] + r
    ensures name == [] ==> r == ""
  {
    if name != [] then name[1..] else ""
  }

  /**
   * The labels for which every key `finalize` writes stays a string key, so
   * that PHP's `array_merge` renumbers nothing: no generated name of an array
   * label, and not the key of a scalar label, is an integer key. Nothing is
   * asked of the label's length.
   */
  predicate StringKeyed(e: Entry) {
    if IsArrayLabel(e.name) then
      e.data.Arr? ==> forall i :: 0 <= i < |e.data.items| ==> !IntegerKey(Key(ArrayPrefix(e.name), i))
    else !IntegerKey(ScalarKey(e.name))
  }

  predicate Finalizable(e: Entry) {
    WellShaped(e) && StringKeyed(e)
  }

  /**
   * What the model asks of an entry when its turn comes: if the query contains
   * its label, the entry is well shaped and writes only string keys. A label
   * the query lacks is skipped, so nothing is asked of it.
   */
  predicate Applicable(q: Query, e: Entry) {
    Contains(q.text, e.name) ==> Finalizable(e)
  }

  /** What one pass of the `finalize` loop does with one registered entry. */
  function Step(q: Query, e: Entry): Query
    requires Applicable(q, e)
  {
    if !Contains(q.text, e.name) then q
    else if IsArrayLabel(e.name) then
      var prefix := ArrayPrefix(e.name);
      Query(ReplaceAll(q.text, e.name, PlaceholderList(prefix, |e.data.items|)),
            Merge(q.params, Bindings(prefix, e.data.items)))
    else
      Query(q.text, Set(q.params, ScalarKey(e.name), e.data.s))
  }

  /** Every entry is applicable to the query as the earlier entries have left it. */
  predicate Runnable(q: Query, entries: seq<Entry>)
    decreases |entries|
  {
    entries == [] || (Applicable(q, entries[0]) && Runnable(Step(q, entries[0]), entries[1..]))
  }

  /** `finalize`: every entry, in registration order, applied to the query. */
  function Run(q: Query, entries: seq<Entry>): Query
    requires Runnable(q, entries)
    decreases |entries|
  {
    if entries == [] then q else Run(Step(q, entries[0]), entries[1..])
  }

  /** A registry whose every entry is well shaped and string-keyed runs on any query. */
  lemma {:induction false} FinalizableRunnable(q: Query, entries: seq<Entry>)
    requires forall i :: 0 <= i < |entries| ==> Finalizable(entries[i])
    ensures Runnable(q, entries)
    decreases |entries|
  {
    if entries != [] {
      assert Finalizable(entries[0]);
      FinalizableRunnable(Step(q, entries[0]), entries[1..]);
    }
  }

  /** A registered label that the query does not contain changes nothing. */
  lemma StepAbsent(q: Query, e: Entry)
    requires !Contains(q.text, e.name)
    ensures Step(q, e) == q
  {
  }

  /**
   * An array label found in the query: every occurrence of it is replaced by
   * the placeholder list (text elsewhere is kept), each generated name is
   * bound to its value, every other name keeps its binding, and the names
   * bound before keep their order.
   */
  lemma StepArray(q: Query, e: Entry, k: string)
    requires Finalizable(e)
    requires Contains(q.text, e.name) && IsArrayLabel(e.name)
    ensures var prefix, items := ArrayPrefix(e.name), e.data.items;
      && Step(q, e).text == Implode(PlaceholderList(prefix, |items|), Explode(e.name, q.text))
      && (forall i :: 0 <= i < |items| && k == Key(prefix, i) ==> Get(Step(q, e).params, k) == Some(items[i]))
      && ((forall i :: 0 <= i < |items| ==> k != Key(prefix, i)) ==> Get(Step(q, e).params, k) == Get(q.params, k))
      && Keys(q.params) <= Keys(Step(q, e).params)
  {
    var prefix, items := ArrayPrefix(e.name), e.data.items;
    var b := Bindings(prefix, items);
    ReplaceAllIsImplodeExplode(q.text, e.name, PlaceholderList(prefix, |items|));
    BindingsUniqueKeys(prefix, items);
    BindingsLookup(prefix, items, k);
    GetMerge(q.params, b, k);
    MergeKeepsKeyOrder(q.params, b);
  }

  /**
   * A scalar label found in the query: the text is unchanged, the label
   * without its first character is bound to the value, and nothing else
   * changes (the name is appended only if it was not bound before).
   */
  lemma StepScalar(q: Query, e: Entry, k: string)
    requires Finalizable(e)
    requires Contains(q.text, e.name) && !IsArrayLabel(e.name)
    ensures Step(q, e).text == q.text
    ensures Get(Step(q, e).params, ScalarKey(e.name)) == Some(e.data.s)
    ensures k != ScalarKey(e.name) ==> Get(Step(q, e).params, k) == Get(q.params, k)
    ensures Keys(Step(q, e).params) ==
      if ScalarKey(e.name) in Keys(q.params) then Keys(q.params) else Keys(q.params) + [ScalarKey(e.name)]
  {
    GetSet(q.params, ScalarKey(e.name), e.data.s, k);
    GetSet(q.params, ScalarKey(e.name), e.data.s, ScalarKey(e.name));
    KeysSet(q.params, ScalarKey(e.name), e.data.s);
  }

  /** Registering one more entry adds exactly one more step at the end of `finalize`. */
  lemma {:induction false} RunAppend(q: Query, entries: seq<Entry>, e: Entry)
    requires Runnable(q, entries)
    requires Applicable(Run(q, entries), e)
    ensures Runnable(q, entries + [e])
    ensures Run(q, entries + [e]) == Step(Run(q, entries), e)
    decreases |entries|
  {
    if entries == [] {
      assert [e][1..] == [];
    } else {
      assert (entries + [e])[1..] == entries[1..] + [e];
      RunAppend(Step(q, entries[0]), entries[1..], e);
    }
  }

  /** `finalize` keeps the bindings a proper PHP array: no name twice. */
  lemma {:induction false} RunKeepsUniqueKeys(q: Query, entries: seq<Entry>)
    requires Runnable(q, entries)
    requires UniqueKeys(q.params)
    ensures UniqueKeys(Run(q, entries).params)
    decreases |entries|
  {
    if entries != [] {
      var e := entries[0];
      if Contains(q.text, e.name) {
        if IsArrayLabel(e.name) {
          MergeKeepsUnique(q.params, Bindings(ArrayPrefix(e.name), e.data.items));
        } else {
          SetKeepsUnique(q.params, ScalarKey(e.name), e.data.s);
        }
      }
      RunKeepsUniqueKeys(Step(q, e), entries[1..]);
    }
  }

  /**
   * A registry that `add_data` has filled, with string keys throughout, can
   * be finalized on any query.
   */
  lemma RegistryRunnable(q: Query, registry: Registry)
    requires registry.Valid()
    requires forall i :: 0 <= i < |registry.entries| ==> StringKeyed(registry.entries[i])
    ensures Runnable(q, registry.entries)
  {
    FinalizableRunnable(q, registry.entries);
  }

  /** The static registry `self::$data`, shared by every query. */
  class Registry {
    var entries: seq<Entry>

    /** Every registered entry passed the shape check. */
    ghost predicate Valid()
      reads this
    {
      forall i :: 0 <= i < |entries| ==> WellShaped(entries[i])
    }

    /** The registry as first used: `self::$data ?? array()`. */
    constructor ()
      ensures entries == [] && Valid()
    {
      entries := [];
    }

    /** `add_data`: reject a value of the wrong shape, else append the entry. */
    method AddData(name: string, data: Value) returns (r: Outcome)
      requires Valid()
      modifies this
      ensures Valid()
      ensures r == CheckShape(name, data)
      ensures entries == if r.Pass? then old(entries) + [Entry(name, data)] else old(entries)
    {
      if IsArrayLabel(name) {
        if !data.Arr? {
          return Fail(ExpectedArray);
        }
      } else if !data.Str? {
        return Fail(ExpectedString);
      }
      entries := entries + [Entry(name, data)];
      r := Pass;
    }
  }

  class PdoUtil {
    var query: string
    var params: OrderedMap

    /** The bindings never hold a name twice. */
    ghost predicate Valid()
      reads this
    {
      UniqueKeys(params)
    }

    /** The template is kept as given; no bindings yet; the registry is not read. */
    constructor (query: string)
      ensures this.query == query && params == [] && Valid()
    {
      this.query := query;
      params := [];
    }

    /**
     * `finalize`: walk the registry in order, rewriting the query text and
     * collecting bindings as `Run` describes.
     */
    method Finalize(registry: Registry)
      requires Valid()
      requires Runnable(Query(query, params), registry.entries)
      modifies this
      ensures Valid()
      ensures Query(query, params) == Run(Query(old(query), old(params)), registry.entries)
    {
      var i := 0;
      while i < |registry.entries|
        invariant 0 <= i <= |registry.entries|
        invariant Valid()
        invariant Runnable(Query(query, params), registry.entries[i..])
        invariant Run(Query(query, params), registry.entries[i..])
               == Run(Query(old(query), old(params)), registry.entries)
      {
        var d := registry.entries[i];
        assert registry.entries[i..][0] == d;
        assert registry.entries[i..][1..] == registry.entries[i + 1..];
        if Contains(query, d.name) {
          if IsArrayLabel(d.name) {
            var p := new ArrayHelper(ArrayPrefix(d.name), d.data.items);
            MergeKeepsUnique(params, p.GetParams());
            query := ReplaceAll(query, d.name, p.GetString());
            params := Merge(params, p.GetParams());
          } else {
            SetKeepsUnique(params, ScalarKey(d.name), d.data.s);
            params := Set(params, ScalarKey(d.name), d.data.s);
          }
        }
        i := i + 1;
      }
    }

    /** `get_query`: the query text as it now stands. */
    function GetQuery(): string
      reads this
    {
      query
    }

    /** `get_params`: the bindings collected, with no name twice. */
    function GetParams(): (r: OrderedMap)
      reads this
      requires Valid()
      ensures UniqueKeys(r)
    {
      params
    }
  }
}
