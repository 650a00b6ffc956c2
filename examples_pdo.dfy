/** Worked examples: the helper's documented example and whole `finalize` runs. */
module PdoExamples {

  import opened PhpStrings
  import opened PhpArray
  import opened PdoArrayHelper
  import opened PdoQuery

  /** The helper's output for two values, whatever the prefix. */
  lemma TwoValues(prefix: string, a: string, b: string)
    ensures PlaceholderList(prefix, 2) == ":" + prefix + "0,:" + prefix + "1"
    ensures Bindings(prefix, [a, b]) == [Pair(prefix + "0", a), Pair(prefix + "1", b)]
  {
    assert Decimal(0) == "0" && Decimal(1) == "1";
    var ts := Tokens(prefix, 2);
    assert ts[0] == ":" + prefix + "0";
    assert ts[1] == ":" + prefix + "1";
    assert ts[1..] == [ts[1]];
    assert Implode(",", ts) == ts[0] + "," + ts[1];
    var bs := Bindings(prefix, [a, b]);
    assert bs[0] == Pair(prefix + "0", a);
    assert bs[1] == Pair(prefix + "1", b);
  }

  /** Prefix "pre" with values foo, bar: the placeholder list and bindings. */
  lemma HelperExample()
    ensures PlaceholderList("pre", 2) == ":pre0,:pre1"
    ensures Bindings("pre", ["foo", "bar"]) == [Pair("pre0", "foo"), Pair("pre1", "bar")]
  {
    TwoValues("pre", "foo", "bar");
    assert "pre" + "0" == "pre0" && "pre" + "1" == "pre1";
  }

  /** `add_data` rejects a string for an array label and a list for a scalar label. */
  lemma ShapeExamples()
    ensures CheckShape(":tags[]", Str("x")) == Fail(ExpectedArray)
    ensures CheckShape(":name", Arr(["a", "b"])) == Fail(ExpectedString)
    ensures CheckShape(":tags[]", Arr(["a", "b"])) == Pass
    ensures CheckShape(":name", Str("x")) == Pass
  {
    assert IsArrayLabel(":tags[]");
    assert !IsArrayLabel(":name") by { assert ":name"[3..] != "[]"; }
  }

  /** A prefix or key that merely starts with a digit stays a string key. */
  lemma DigitLeadingLabels()
    ensures Finalizable(Entry(":1a[]", Arr(["x", "y"])))
    ensures Finalizable(Entry(":0[]", Arr(["x", "y"])))
    ensures Finalizable(Entry(":1a", Str("x")))
  {
    assert IsArrayLabel(":1a[]") && ArrayPrefix(":1a[]") == "1a";
    forall i | 0 <= i < 2 ensures !IntegerKey(Key("1a", i)) {
      assert Key("1a", i)[1] == 'a';
    }
    assert IsArrayLabel(":0[]") && ArrayPrefix(":0[]") == "0";
    forall i | 0 <= i < 2 ensures !IntegerKey(Key("0", i)) {
      assert Key("0", i)[0] == '0' && |Key("0", i)| == 2;
    }
    assert !IsArrayLabel(":1a") && ScalarKey(":1a") == "1a";
    assert !IntegerKey("1a") by { assert "1a"[1] == 'a'; }
  }

  /** The array label ":1[]" would write the name "10", an integer key. */
  lemma IntegerArrayLabel()
    ensures !Finalizable(Entry(":1[]", Arr(["x", "y"])))
  {
    var k := Key("1", 0);
    assert k == "10" by { assert Decimal(0) == "0"; }
    assert CanonicalDigits(k);
    assert ParseDecimal(k) == 10 by { assert k[..1] == "1"; }
    assert IsArrayLabel(":1[]") && ArrayPrefix(":1[]") == "1";
  }

  /** An empty prefix writes "0", "1", ...: integer keys. */
  lemma EmptyPrefixLabel()
    ensures !Finalizable(Entry(":[]", Arr(["x"])))
  {
    var e := Entry(":[]", Arr(["x"]));
    assert IsArrayLabel(e.name);
    assert ArrayPrefix(e.name) == "";
    assert Key("", 0) == Decimal(0);
    DecimalIsIntegerKey(0);
    assert IntegerKey(Key(ArrayPrefix(e.name), 0));
    assert !StringKeyed(e);
  }

  /** The scalar label ":7" would bind the integer key 7. */
  lemma IntegerScalarLabel()
    ensures !Finalizable(Entry(":7", Str("x")))
  {
    assert !IsArrayLabel(":7") by { assert ":7"[0..] != "[]"; }
    assert ScalarKey(":7") == "7";
    assert CanonicalDigits("7");
    assert ParseDecimal("7") == 7 by { assert "7"[..0] == ""; }
  }

  const UsersHead := "SELECT * FROM users WHERE user IN ("
  const UsersQuery := UsersHead + ":u[])"
  const UsersResult := UsersHead + ":u0,:u1)"

  lemma UsersQueryRewritten()
    ensures Contains(UsersQuery, ":u[]")
    ensures ReplaceAll(UsersQuery, ":u[]", ":u0,:u1") == UsersResult
  {
    assert OccursAt(UsersQuery, ":u[]", |UsersHead|);
    ReplaceAllSkip(UsersHead, ":u[])", ":u[]", ":u0,:u1");
    assert (":u[])")[..4] == ":u[]" && (":u[])")[4..] == ")";
  }

  lemma MergeTwo(p0: Pair, p1: Pair)
    requires p0.key != p1.key
    ensures Merge([], [p0, p1]) == [p0, p1]
  {
    assert [p0, p1][1..] == [p1];
    assert Set([], p0.key, p0.value) == [p0];
    assert Set([p0], p1.key, p1.value) == [p0] + Set([p0][1..], p1.key, p1.value);
    assert [p0][1..] == [];
    assert Merge([p0], [p1]) == Merge(Set([p0], p1.key, p1.value), []);
  }

  /** The query "... IN (:u[])" with :u[] bound to admin1, admin2. */
  lemma ArrayLabelExample()
    ensures Runnable(Query(UsersQuery, []), [Entry(":u[]", Arr(["admin1", "admin2"]))])
    ensures Run(Query(UsersQuery, []), [Entry(":u[]", Arr(["admin1", "admin2"]))])
         == Query(UsersResult, [Pair("u0", "admin1"), Pair("u1", "admin2")])
  {
    var e := Entry(":u[]", Arr(["admin1", "admin2"]));
    assert IsArrayLabel(e.name);
    assert ArrayPrefix(e.name) == "u";
    forall i | 0 <= i < 2 ensures !IntegerKey(Key("u", i)) {
      assert Key("u", i)[0] == 'u';
    }
    assert Finalizable(e);
    TwoValues("u", "admin1", "admin2");
    assert ":" + "u" + "0,:" + "u" + "1" == ":u0,:u1";
    assert "u" + "0" == "u0" && "u" + "1" == "u1";
    UsersQueryRewritten();
    MergeTwo(Pair("u0", "admin1"), Pair("u1", "admin2"));
    assert Step(Query(UsersQuery, []), e) == Query(UsersResult, [Pair("u0", "admin1"), Pair("u1", "admin2")]);
    assert [e][1..] == [];
  }

  /** A scalar label: the text stays, and "id" is bound to "42". */
  lemma ScalarLabelExample()
    ensures Run(Query("SELECT * FROM t WHERE id = :id", []), [Entry(":id", Str("42"))])
         == Query("SELECT * FROM t WHERE id = :id", [Pair("id", "42")])
  {
    var e := Entry(":id", Str("42"));
    assert !IsArrayLabel(e.name) by { assert e.name[1..] != "[]"; }
    assert OccursAt("SELECT * FROM t WHERE id = :id", e.name, 27);
    assert [e][1..] == [];
  }

  /** A registered label the query does not use adds no binding and changes no text. */
  lemma UnusedLabelExample()
    ensures Run(Query("SELECT 1", []), [Entry(":id", Str("42"))]) == Query("SELECT 1", [])
  {
    var e := Entry(":id", Str("42"));
    assert !IsArrayLabel(e.name) by { assert e.name[1..] != "[]"; }
    AbsentChar("SELECT 1", e.name, 0);
    assert [e][1..] == [];
  }

  /**
   * A registered label the query lacks is skipped before its shape or its
   * key is looked at: ":1[]" would write the integer-like names "10", "11",
   * but it is never used here.
   */
  lemma UnusedNumericLabelExample()
    ensures Runnable(Query("SELECT :a", []), [Entry(":1[]", Arr(["x"]))])
    ensures Run(Query("SELECT :a", []), [Entry(":1[]", Arr(["x"]))]) == Query("SELECT :a", [])
  {
    var e := Entry(":1[]", Arr(["x"]));
    AbsentChar("SELECT :a", e.name, 1);
    assert [e][1..] == [];
  }

  /**
   * Under PHP 8 the empty label occurs at index 0 of every query; it is not an
   * array label, and `substr("", 1)` is "", so the empty name is bound.
   */
  lemma EmptyLabelExample()
    ensures Runnable(Query("SELECT 1", []), [Entry("", Str("v"))])
    ensures Run(Query("SELECT 1", []), [Entry("", Str("v"))]) == Query("SELECT 1", [Pair("", "v")])
  {
    var e := Entry("", Str("v"));
    assert OccursAt("SELECT 1", e.name, 0);
    assert !IsArrayLabel(e.name);
    assert !IntegerKey(ScalarKey(e.name));
    assert [e][1..] == [];
  }

  /**
   * Labels are found by plain substring search: ":id" is found inside ":id2",
   * so "id" is bound although the query has no placeholder of that name.
   */
  lemma OverMatchExample()
    ensures Run(Query("SELECT * FROM t WHERE id = :id2", []), [Entry(":id", Str("7"))])
         == Query("SELECT * FROM t WHERE id = :id2", [Pair("id", "7")])
  {
    var e := Entry(":id", Str("7"));
    assert !IsArrayLabel(e.name) by { assert e.name[1..] != "[]"; }
    assert OccursAt("SELECT * FROM t WHERE id = :id2", e.name, 27);
    assert [e][1..] == [];
  }

  /** A caller's whole session: register, build, finalize, read back. */
  method ClientSession() returns (query: string, params: OrderedMap, rejected: Outcome)
    ensures query == UsersResult
    ensures params == [Pair("u0", "admin1"), Pair("u1", "admin2")]
    ensures rejected == Fail(ExpectedString)
  {
    var e := Entry(":u[]", Arr(["admin1", "admin2"]));
    assert IsArrayLabel(e.name) && ArrayPrefix(e.name) == "u";
    assert !IsArrayLabel(":v") by { assert ":v"[0..] != "[]"; }
    var registry := new Registry();
    var ok := registry.AddData(e.name, e.data);
    rejected := registry.AddData(":v", Arr(["x"]));
    assert registry.entries == [e];
    var util := new PdoUtil(UsersQuery);
    util.Finalize(registry);
    ArrayLabelExample();
    query := util.GetQuery();
    params := util.GetParams();
  }
}
