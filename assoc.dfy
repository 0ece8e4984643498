/** src/Constraint/AssociativeArray.php: every key and every value of an
    array is validated; the pairs are combined with the applicative `and`, so
    the failures of all pairs are reported together, in iteration order. A
    key failure is put under `key(<raw key>)`; a value failure under the raw
    key, or under `''` for the empty key. */
module AssociativeArrays {
  import opened Text
  import opened Values
  import opened Failures
  import opened Validations
  import opened Constraints

  /** `sprintf('key(%s)', $key)`. */
  function KeySegment(k: Key): NonEmptyString
  {
    "key(" + KeyText(k) + ")"
  }

  /** `match ($key) { '' => "''", default => (string) $key }`. */
  function ValueSegment(k: Key): NonEmptyString
  {
    if k == StrKey("") then "''"
    else
      match k
      case IntKey(i) => IntToString(i)
      case StrKey(s) => s
  }

  /** The validation of one pair: the key first; the value only when the
      key is valid. */
  function Pair<K, V>(key: Constraint<Value, K>, value: Constraint<Value, V>, k: Key, v: Value): (r: Validation<(K, V)>)
    ensures key(KeyValue(k)).Fail? ==>
      r == Fail(UnderAll(key(KeyValue(k)).failures, KeySegment(k)))
    ensures key(KeyValue(k)).Success? && value(v).Fail? ==>
      r == Fail(UnderAll(value(v).failures, ValueSegment(k)))
    ensures key(KeyValue(k)).Success? && value(v).Success? ==>
      r == Success((key(KeyValue(k)).value, value(v).value))
  {
    FlatMap(
      MapFailures(key(KeyValue(k)), f => Under(f, KeySegment(k))),
      parsedKey =>
        MapFailures(Map(value(v), parsed => (parsedKey, parsed)), f => Under(f, ValueSegment(k))))
  }

  /** The validation of every pair, in iteration order. */
  function Pairs<K, V>(key: Constraint<Value, K>, value: Constraint<Value, V>, es: Entries): (rs: seq<Validation<(K, V)>>)
    ensures |rs| == |es|
    ensures forall i | 0 <= i < |es| :: rs[i] == Pair(key, value, es[i].0, es[i].1)
  {
    seq(|es|, i requires 0 <= i < |es| => Pair(key, value, es[i].0, es[i].1))
  }

  /** The combine closure: `($map)($pair->key(), $pair->value())`. */
  function Insert<K, V>(m: map<K, V>, p: (K, V)): map<K, V>
  {
    m[p.0 := p.1]
  }

  /** `AssociativeArray::validate($array)`: the fold of `And` over the pairs,
      starting from success with an empty map. */
  function Validate<K, V>(key: Constraint<Value, K>, value: Constraint<Value, V>, es: Entries): (r: Validation<map<K, V>>)
    ensures es == [] ==> r == Success(map[])
    decreases |es|
  {
    if es == [] then Success(map[])
    else And(Validate(key, value, es[..|es| - 1]), Pair(key, value, es[|es| - 1].0, es[|es| - 1].1), Insert)
  }

  /** The pairs of a prefix are the prefix of the pairs. */
  lemma PairsPrefix<K, V>(key: Constraint<Value, K>, value: Constraint<Value, V>, es: Entries, n: nat)
    requires n <= |es|
    ensures Pairs(key, value, es[..n]) == Pairs(key, value, es)[..n]
  {
  }

  /** One more pair appends its failures to those of the pairs before. */
  lemma ValidateStep<K, V>(key: Constraint<Value, K>, value: Constraint<Value, V>, es: Entries)
    requires es != []
    ensures FailuresOf(Validate(key, value, es)) ==
      FailuresOf(Validate(key, value, es[..|es| - 1])) + FailuresOf(Pair(key, value, es[|es| - 1].0, es[|es| - 1].1))
  {
  }

  /** The failures of all rejected pairs are reported together, in
      iteration order. */
  lemma ValidateFailures<K, V>(key: Constraint<Value, K>, value: Constraint<Value, V>, es: Entries)
    ensures FailuresOf(Validate(key, value, es)) == CollectFailures(Pairs(key, value, es))
  {
    var acc := seq(|es| + 1, i requires 0 <= i <= |es| => Validate(key, value, es[..i]));
    var vs := Pairs(key, value, es);
    forall i | 0 <= i < |es|
      ensures FailuresOf(acc[i + 1]) == FailuresOf(acc[i]) + FailuresOf(vs[i])
    {
      assert es[..i + 1][..i] == es[..i];
      ValidateStep(key, value, es[..i + 1]);
    }
    FoldReportsAll(acc, vs);
    assert es[..|es|] == es;
  }

  /** The array is accepted exactly when every pair is. */
  lemma ValidateSucceeds<K, V>(key: Constraint<Value, K>, value: Constraint<Value, V>, es: Entries)
    ensures Validate(key, value, es).Success? <==> forall i | 0 <= i < |es| :: Pairs(key, value, es)[i].Success?
  {
    ValidateFailures(key, value, es);
    CollectFailuresEmpty(Pairs(key, value, es));
  }

  /** The map built by inserting parsed pairs in order, a later pair
      overwriting an earlier one with the same key. */
  function Assemble<K, V>(ps: seq<(K, V)>): map<K, V>
    decreases |ps|
  {
    if ps == [] then map[] else Insert(Assemble(ps[..|ps| - 1]), ps[|ps| - 1])
  }

  /** The assembled map holds exactly the keys of the pairs. */
  lemma {:induction false} AssembleKeys<K, V>(ps: seq<(K, V)>)
    ensures Assemble(ps).Keys == set p | p in ps :: p.0
    decreases |ps|
  {
    if ps != [] {
      var n := |ps| - 1;
      AssembleKeys(ps[..n]);
      assert ps == ps[..n] + [ps[n]];
      assert forall p :: p in ps <==> p in ps[..n] || p == ps[n];
    }
  }

  /** A key holds the value of its last pair. */
  lemma {:induction false} AssembleLastWins<K, V>(ps: seq<(K, V)>, i: int)
    requires 0 <= i < |ps|
    requires forall j | i < j < |ps| :: ps[j].0 != ps[i].0
    ensures ps[i].0 in Assemble(ps) && Assemble(ps)[ps[i].0] == ps[i].1
    decreases |ps|
  {
    var n := |ps| - 1;
    if i < n {
      AssembleLastWins(ps[..n], i);
    }
  }

  /** The parsed key/value of every pair, when every pair is accepted. */
  function Parsed<K, V>(key: Constraint<Value, K>, value: Constraint<Value, V>, es: Entries): (ps: seq<(K, V)>)
    requires forall i | 0 <= i < |es| :: Pairs(key, value, es)[i].Success?
    ensures |ps| == |es|
    ensures forall i | 0 <= i < |es| :: ps[i] == Pairs(key, value, es)[i].value
  {
    var rs := Pairs(key, value, es);
    seq(|es|, i requires 0 <= i < |es| => rs[i].value)
  }

  /** When every pair is accepted, the result is the map assembled from the
      parsed pairs in iteration order. */
  lemma {:induction false} ValidateAssembles<K, V>(key: Constraint<Value, K>, value: Constraint<Value, V>, es: Entries)
    requires forall i | 0 <= i < |es| :: Pairs(key, value, es)[i].Success?
    ensures Validate(key, value, es) == Success(Assemble(Parsed(key, value, es)))
    decreases |es|
  {
    if es != [] {
      var n := |es| - 1;
      PairsPrefix(key, value, es, n);
      ValidateAssembles(key, value, es[..n]);
      assert Parsed(key, value, es)[..n] == Parsed(key, value, es[..n]);
    }
  }

  /** `AssociativeArray::__invoke`: the array check, then `validate`. */
  function AssociativeArray<K, V>(key: Constraint<Value, K>, value: Constraint<Value, V>): (c: Constraint<Value, map<K, V>>)
    ensures forall v: Value :: !v.VArray? ==> c(v) == TypeMismatch("array")
    ensures forall v: Value :: v.VArray? ==> c(v) == Validate(key, value, v.entries)
  {
    var arrays := ArrayType();
    v => FlatMap(arrays(v), w => Validate(key, value, EntriesOf(w)))
  }

  /** The `foreach` of `validate`, reassigning the accumulated validation. */
  method ValidateLoop<K, V>(key: Constraint<Value, K>, value: Constraint<Value, V>, es: Entries)
    returns (validation: Validation<map<K, V>>)
    ensures validation == Validate(key, value, es)
  {
    validation := Success(map[]);
    var i := 0;
    while i < |es|
      invariant 0 <= i <= |es|
      invariant validation == Validate(key, value, es[..i])
    {
      var (k, v) := es[i];
      var pair := Pair(key, value, k, v);
      assert es[..i + 1][..i] == es[..i];
      validation := And(validation, pair, Insert);
      i := i + 1;
    }
    assert es[..|es|] == es;
  }

  /** An integer key rejected by a string key constraint is reported under
      `key(5)`. */
  lemma IntKeyFailurePath()
    ensures var r := AssociativeArray(StringType(), IntType())(VArray([(IntKey(5), VInt(5))]));
      r.Fail? && |r.failures| == 1 &&
      KeyPaths.ToString(r.failures[0].path) == "key(5)" &&
      r.failures[0].message == "Value is not of type string"
  {
    var es := [(IntKey(5), VInt(5))];
    var f := Failures.Of("Value is not of type " + "string");
    assert StringType()(VInt(5)) == Fail([f]);
    assert f.message == "Value is not of type string";
    assert KeySegment(IntKey(5)) == "key(5)";
    assert UnderAll([f], "key(5)") == [Under(f, "key(5)")];
    assert Pair(StringType(), IntType(), IntKey(5), VInt(5)) == Fail([Under(f, "key(5)")]);
    assert es[..0] == [];
    assert Validate(StringType(), IntType(), es) == Fail([Under(f, "key(5)")]);
    KeyPaths.RootUnder("key(5)");
  }

  /** A value rejected under the empty key is reported under `''`. */
  lemma EmptyKeyFailurePath()
    ensures var r := AssociativeArray(StringType(), IntType())(VArray([(StrKey(""), VStr("bad"))]));
      r.Fail? && |r.failures| == 1 &&
      KeyPaths.ToString(r.failures[0].path) == "''" &&
      r.failures[0].message == "Value is not of type int"
  {
    var es := [(StrKey(""), VStr("bad"))];
    var f := Failures.Of("Value is not of type " + "int");
    assert IntType()(VStr("bad")) == Fail([f]);
    assert f.message == "Value is not of type int";
    assert UnderAll([f], "''") == [Under(f, "''")];
    assert Pair(StringType(), IntType(), StrKey(""), VStr("bad")) == Fail([Under(f, "''")]);
    assert es[..0] == [];
    assert Validate(StringType(), IntType(), es) == Fail([Under(f, "''")]);
    KeyPaths.RootUnder("''");
  }
}
