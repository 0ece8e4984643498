/** The older top-level structural validators. src/Shape.php checks an
    array against named fields with `Has::key($key)->and($ofType)` and
    stores each validated value under its key; it has no array type check
    and none of the optional keys, defaults, renames or custom messages of
    src/Constraint/Shape.php, and it is proved to be that newer shape with
    all of those left empty. src/AssociativeArray.php is the same key/value
    fold as src/Constraint/AssociativeArray.php behind `Is::array()`. */
module Legacy {
  import opened Text
  import opened Outcomes
  import opened Values
  import opened Failures
  import opened Validations
  import opened Constraints
  import Facade
  import Shapes
  import ShapeBuilders
  import AssociativeArrays

  /** An older shape: its fields in declaration order. */
  datatype Shape = Shape(constraints: seq<(NonEmptyString, Constraint<Value, Value>)>)

  /** `Shape::of($key, $constraint)`: a single field. */
  function Of(key: NonEmptyString, c: Constraint<Value, Value>): (s: Shape)
    ensures ShapeBuilders.FieldKeys(s.constraints) == [key] && s.constraints[0].1 == c
  {
    Shape([(key, c)])
  }

  /** `$shape->with($key, $constraint)`: `$constraints[$key] = $constraint`
      on a copy. */
  function With(s: Shape, key: NonEmptyString, c: Constraint<Value, Value>): Shape
  {
    Shape(ShapeBuilders.Assign(s.constraints, key, c))
  }

  /** `with` replaces the constraint of a declared key in place and appends
      a new key; the key then holds the given constraint, and no key is
      declared twice. */
  lemma WithAddsOrReplaces(s: Shape, key: NonEmptyString, c: Constraint<Value, Value>)
    ensures var ks := ShapeBuilders.FieldKeys(s.constraints);
      ShapeBuilders.FieldKeys(With(s, key, c).constraints) == if key in ks then ks else ks + [key]
    ensures exists i | 0 <= i < |With(s, key, c).constraints| :: With(s, key, c).constraints[i] == (key, c)
    ensures ShapeBuilders.DistinctKeys(s.constraints) ==> ShapeBuilders.DistinctKeys(With(s, key, c).constraints)
  {
    ShapeBuilders.AssignKeys(s.constraints, key, c);
    if ShapeBuilders.DistinctKeys(s.constraints) {
      ShapeBuilders.AssignDistinct(s.constraints, key, c);
    }
  }

  /** `Has::key($key)->and($ofType)` on the input: the value at the key
      through the field's constraint, its failures put under the key; a
      missing key is one root failure. */
  function Field(key: NonEmptyString, c: Constraint<Value, Value>, es: Entries): Validation<Value>
  {
    match Lookup(es, StrKey(key))
    case Some(v) => if c(v).Success? then Success(c(v).value) else Fail(UnderAll(c(v).failures, key))
    case None => Fail([Failures.Of(MissingKey(key))])
  }

  /** `$ofType`: the field's constraint with its failures put under the
      key. */
  function OfType(key: NonEmptyString, c: Constraint<Value, Value>): (r: Constraint<Value, Value>)
    ensures forall v: Value :: c(v).Success? ==> r(v) == c(v)
    ensures forall v: Value :: c(v).Fail? ==> r(v) == Fail(UnderAll(c(v).failures, key))
  {
    Constraints.Of((v: Value) => MapFailures(c(v), f => Under(f, key)))
  }

  /** The key lookup composed with `$ofType` is exactly the case analysis
      of `Field`. */
  lemma FieldComposes(key: NonEmptyString, c: Constraint<Value, Value>, es: Entries)
    ensures AndConstraint(Has(key), OfType(key, c))(es) == Field(key, c, es)
  {
  }

  /** `$validation->and($field, fn($array, $value) => $array[$key] = $value)`,
      written without the closure. */
  function Combine(key: NonEmptyString, v: Validation<Entries>, w: Validation<Value>): Validation<Entries>
  {
    match (v, w)
    case (Success(out), Success(x)) => Success(Put(out, StrKey(key), x))
    case (Fail(fs), Success(_)) => Fail(fs)
    case (Success(_), Fail(gs)) => Fail(gs)
    case (Fail(fs), Fail(gs)) => Fail(fs + gs)
  }

  /** The combine closure of the `foreach`. */
  function Store(key: NonEmptyString): (Entries, Value) -> Entries
  {
    (out: Entries, x: Value) => Put(out, StrKey(key), x)
  }

  /** The fold of the `foreach` over the first `n` fields, from success
      with the empty array. */
  function ValidatePrefix(s: Shape, es: Entries, n: nat): Validation<Entries>
    requires n <= |s.constraints|
  {
    if n == 0 then Success([])
    else
      var key := s.constraints[n - 1].0;
      Combine(key, ValidatePrefix(s, es, n - 1), Field(key, s.constraints[n - 1].1, es))
  }

  /** `Shape::__invoke`. */
  function Validate(s: Shape, es: Entries): Validation<Entries>
  {
    ValidatePrefix(s, es, |s.constraints|)
  }

  /** The newer shape with the same fields and nothing else declared. */
  function AsNewer(s: Shape): (def: Shapes.ShapeDef)
    ensures def.constraints == s.constraints && def.optional == [] && def.defaults == map[]
    ensures def.rename == map[] && def.message.None?
  {
    Shapes.ShapeDef(s.constraints, [], map[], map[], None)
  }

  /** One field of the older shape contributes as the same field of the
      newer one. */
  lemma CombineAgrees(s: Shape, key: NonEmptyString, c: Constraint<Value, Value>, es: Entries, v: Validation<Entries>)
    ensures Combine(key, v, Field(key, c, es)) ==
      Shapes.AndStore(AsNewer(s), key, v, Shapes.FieldResult(AsNewer(s), key, c, es))
  {
  }

  /** The older shape is the newer shape with no optional key, no default,
      no rename and no custom message, on every input and every prefix of
      the fields. */
  lemma {:induction false} AgreesWithNewer(s: Shape, es: Entries, n: nat)
    requires n <= |s.constraints|
    ensures ValidatePrefix(s, es, n) == Shapes.ValidatePrefix(AsNewer(s), es, n)
  {
    if n > 0 {
      AgreesWithNewer(s, es, n - 1);
      CombineAgrees(s, s.constraints[n - 1].0, s.constraints[n - 1].1, es, ValidatePrefix(s, es, n - 1));
    }
  }

  /** Every field is checked and all failures are reported, in declaration
      order: a missing key at the root, a rejected value under its key. */
  lemma ReportsEveryField(s: Shape, es: Entries)
    ensures FailuresOf(Validate(s, es)) ==
      CollectFailures(Shapes.Fields(AsNewer(s), es, |s.constraints|))
    ensures Validate(s, es).Success? <==>
      forall i | 0 <= i < |s.constraints| :: Lookup(es, StrKey(s.constraints[i].0)).Some? &&
        s.constraints[i].1(Lookup(es, StrKey(s.constraints[i].0)).value).Success?
  {
    AgreesWithNewer(s, es, |s.constraints|);
    Shapes.ValidateFailures(AsNewer(s), es, |s.constraints|);
    Shapes.ValidateSucceeds(AsNewer(s), es);
  }

  /** On success, with the keys declared once each, the output holds every
      declared key with its validated value, in declaration order, and no
      other key. */
  lemma KeepsDeclaredKeys(s: Shape, es: Entries)
    requires ShapeBuilders.DistinctKeys(s.constraints) && Validate(s, es).Success?
    ensures |KeysOf(Validate(s, es).value)| == |s.constraints|
    ensures forall i | 0 <= i < |s.constraints| :: KeysOf(Validate(s, es).value)[i] == StrKey(s.constraints[i].0)
    ensures forall i | 0 <= i < |s.constraints| ::
      var key := StrKey(s.constraints[i].0);
      Lookup(es, key).Some? && s.constraints[i].1(Lookup(es, key).value).Success? &&
      Lookup(Validate(s, es).value, key) == Some(s.constraints[i].1(Lookup(es, key).value).value)
    ensures forall k: Key | forall i | 0 <= i < |s.constraints| :: k != StrKey(s.constraints[i].0) ::
      Lookup(Validate(s, es).value, k) == None
  {
    var def := AsNewer(s);
    var n := |s.constraints|;
    AgreesWithNewer(s, es, n);
    forall i | 0 <= i < n
      ensures Lookup(es, StrKey(s.constraints[i].0)).Some?
      ensures s.constraints[i].1(Lookup(es, StrKey(s.constraints[i].0)).value).Success?
      ensures Lookup(Validate(s, es).value, StrKey(s.constraints[i].0)) ==
        Some(s.constraints[i].1(Lookup(es, StrKey(s.constraints[i].0)).value).value)
    {
      assert forall j | 0 <= j < n :: Shapes.OutKey(def, def.constraints[j].0) == s.constraints[j].0;
      Shapes.ValidateStoresField(def, es, n, i);
    }
    forall k: Key | forall i | 0 <= i < n :: k != StrKey(s.constraints[i].0)
      ensures Lookup(Validate(s, es).value, k) == None
    {
      Shapes.ValidateDropsOtherKeys(def, es, n, k);
    }
    Shapes.ValidateKeys(def, es, n);
    assert forall i, j | 0 <= i < j < n :: Shapes.KeysDiffer(def, i, j);
    Shapes.OutputKeysAllFields(def, es, n);
  }

  /** An older shape used as the constraint of a field of another shape:
      its output array is returned as an array value, so that shapes nest.
      On an array it is the newer shape constraint with nothing else
      declared. A non-array is validated as the empty array. */
  function AsConstraint(s: Shape): (c: Constraint<Value, Value>)
    ensures forall v: Value :: v.VArray? ==> c(v) == Map(Validate(s, v.entries), (out: Entries) => VArray(out))
  {
    v => Map(Validate(s, EntriesOf(v)), (out: Entries) => VArray(out))
  }

  /** On an array, the older shape as a constraint is the newer shape
      constraint with nothing but the fields declared. */
  lemma AsConstraintIsNewer(s: Shape, v: Value)
    requires v.VArray?
    ensures AsConstraint(s)(v) == Shapes.ShapeConstraint(AsNewer(s))(v)
  {
    AgreesWithNewer(s, v.entries, |s.constraints|);
  }

  /** A field holding a nested shape: an accepted nested array is stored as
      the inner shape's output array, and a rejected one reports the inner
      failures under the field's key. */
  lemma NestedField(key: NonEmptyString, inner: Shape, es: Entries, nested: Entries)
    requires Lookup(es, StrKey(key)) == Some(VArray(nested))
    ensures Validate(inner, nested).Success? ==>
      Field(key, AsConstraint(inner), es) == Success(VArray(Validate(inner, nested).value))
    ensures Validate(inner, nested).Fail? ==>
      Field(key, AsConstraint(inner), es) == Fail(UnderAll(Validate(inner, nested).failures, key))
  {
  }

  /** `Shape::of('baz', Is::bool())` on `['baz' => $b]`. */
  lemma InnerAccepts(inner: Shape, nested: Entries)
    requires inner == Of("baz", BoolType()) && nested == [(StrKey("baz"), VBool(true))]
    ensures Validate(inner, nested) == Success([(StrKey("baz"), VBool(true))])
  {
    assert Lookup(nested, StrKey("baz")) == Some(VBool(true));
    assert Field("baz", BoolType(), nested) == Success(VBool(true));
    assert IndexOf<Key, Value>([], StrKey("baz")).None?;
    assert Put([], StrKey("baz"), VBool(true)) == [(StrKey("baz"), VBool(true))];
    assert inner.constraints == [("baz", BoolType())];
    assert ValidatePrefix(inner, nested, 1) == Combine("baz", Success([]), Field("baz", BoolType(), nested));
  }

  /** `Shape::of('baz', Is::bool())` on `['baz' => 'string']`. */
  lemma InnerRejects(inner: Shape, nested: Entries)
    requires inner == Of("baz", BoolType()) && nested == [(StrKey("baz"), VStr("string"))]
    ensures Validate(inner, nested) == Fail([Under(Failures.Of("Value is not of type bool"), "baz")])
  {
    assert Lookup(nested, StrKey("baz")) == Some(VStr("string"));
    var mismatch := Failures.Of("Value is not of type " + "bool");
    assert "Value is not of type " + "bool" == "Value is not of type bool";
    assert BoolType()(VStr("string")) == Fail([mismatch]);
    assert Field("baz", BoolType(), nested) == Fail([Under(mismatch, "baz")]);
    assert inner.constraints == [("baz", BoolType())];
    assert ValidatePrefix(inner, nested, 1) == Combine("baz", Success([]), Field("baz", BoolType(), nested));
  }

  /** The outer shape of the nesting test: `foo` an int, `bar` the inner
      shape. */
  lemma OuterFields(outer: Shape, inner: Shape)
    requires inner == Of("baz", BoolType()) && outer == With(Of("foo", IntType()), "bar", AsConstraint(inner))
    ensures outer.constraints == [("foo", IntType()), ("bar", AsConstraint(inner))]
  {
    assert IndexOf([("foo", IntType())], "bar").None?;
  }

  /** A two-field older shape is two combine steps from the empty array. */
  lemma TwoFields(s: Shape, es: Entries)
    requires |s.constraints| == 2
    ensures Validate(s, es) ==
      Combine(s.constraints[1].0, Combine(s.constraints[0].0, Success([]), Field(s.constraints[0].0, s.constraints[0].1, es)),
        Field(s.constraints[1].0, s.constraints[1].1, es))
  {
    assert ValidatePrefix(s, es, 1) == Combine(s.constraints[0].0, Success([]), Field(s.constraints[0].0, s.constraints[0].1, es));
  }

  /** The lookups of the valid input of the nesting test. */
  lemma ValidNestingLookups(es: Entries, nested: Entries)
    requires es == [(StrKey("foo"), VInt(42)), (StrKey("bar"), VArray(nested))]
    ensures Lookup(es, StrKey("foo")) == Some(VInt(42))
    ensures Lookup(es, StrKey("bar")) == Some(VArray(nested))
  {
    IndexOfAt(es, StrKey("foo"), 0);
    assert StrKey("foo") != StrKey("bar") by {
      assert "foo"[0] != "bar"[0];
    }
    IndexOfAt(es, StrKey("bar"), 1);
  }

  /** Storing `foo` then `bar` into the empty array. */
  lemma StoreFooBar(x: Value, y: Value)
    ensures Put(Put([], StrKey("foo"), x), StrKey("bar"), y) == [(StrKey("foo"), x), (StrKey("bar"), y)]
  {
    assert IndexOf<Key, Value>([], StrKey("foo")).None?;
    assert Put([], StrKey("foo"), x) == [(StrKey("foo"), x)];
    assert StrKey("foo") != StrKey("bar") by {
      assert "foo"[0] != "bar"[0];
    }
    assert IndexOf([(StrKey("foo"), x)], StrKey("bar")).None?;
  }

  /** The nesting test on a valid input: the nested array is kept as the
      inner shape's output. */
  lemma NestingKeepsValues()
    ensures var outer := With(Of("foo", IntType()), "bar", AsConstraint(Of("baz", BoolType())));
      Validate(outer, [(StrKey("foo"), VInt(42)), (StrKey("bar"), VArray([(StrKey("baz"), VBool(true))]))]) ==
      Success([(StrKey("foo"), VInt(42)), (StrKey("bar"), VArray([(StrKey("baz"), VBool(true))]))])
  {
    var inner := Of("baz", BoolType());
    var outer := With(Of("foo", IntType()), "bar", AsConstraint(inner));
    var nested := [(StrKey("baz"), VBool(true))];
    var es := [(StrKey("foo"), VInt(42)), (StrKey("bar"), VArray(nested))];
    OuterFields(outer, inner);
    InnerAccepts(inner, nested);
    ValidNestingLookups(es, nested);
    NestedField("bar", inner, es, nested);
    TwoFields(outer, es);
    StoreFooBar(VInt(42), VArray(nested));
  }

  /** The lookups of the invalid input of the nesting test. */
  lemma InvalidNestingLookups(es: Entries, nested: Entries)
    requires es == [(StrKey("bar"), VArray(nested))]
    ensures Lookup(es, StrKey("foo")).None?
    ensures Lookup(es, StrKey("bar")) == Some(VArray(nested))
  {
    assert StrKey("bar") != StrKey("foo") by {
      assert "foo"[0] != "bar"[0];
    }
    IndexOfAt(es, StrKey("bar"), 0);
  }

  /** A two-field shape whose first key is missing and whose second field
      holds a nested shape that rejects its array: the missing key at the
      root, then the nested failures under the second key. */
  lemma MissingThenNestedFailure(outer: Shape, inner: Shape, es: Entries, nested: Entries)
    requires |outer.constraints| == 2 && outer.constraints[1].1 == AsConstraint(inner)
    requires Lookup(es, StrKey(outer.constraints[0].0)).None?
    requires Lookup(es, StrKey(outer.constraints[1].0)) == Some(VArray(nested))
    requires Validate(inner, nested).Fail?
    ensures Validate(outer, es) ==
      Fail([Failures.Of(MissingKey(outer.constraints[0].0))] + UnderAll(Validate(inner, nested).failures, outer.constraints[1].0))
  {
    TwoFields(outer, es);
    NestedField(outer.constraints[1].0, inner, es, nested);
  }

  /** The missing-key message of `foo`. */
  lemma MissingFooText()
    ensures MissingKey("foo") == "The key foo is missing"
  {
  }

  /** The nesting test on an invalid input: the missing `foo` at the root,
      then the nested `baz` failure rendered as `bar.baz`. */
  lemma NestingReportsUnderKeys()
    ensures var outer := With(Of("foo", IntType()), "bar", AsConstraint(Of("baz", BoolType())));
      var r := Validate(outer, [(StrKey("bar"), VArray([(StrKey("baz"), VStr("string"))]))]);
      r.Fail? && |r.failures| == 2 &&
      KeyPaths.ToString(r.failures[0].path) == "$" && r.failures[0].message == "The key foo is missing" &&
      KeyPaths.ToString(r.failures[1].path) == "bar.baz" && r.failures[1].message == "Value is not of type bool"
  {
    var inner := Of("baz", BoolType());
    var outer := With(Of("foo", IntType()), "bar", AsConstraint(inner));
    var nested := [(StrKey("baz"), VStr("string"))];
    var es := [(StrKey("bar"), VArray(nested))];
    OuterFields(outer, inner);
    InnerRejects(inner, nested);
    InvalidNestingLookups(es, nested);
    MissingThenNestedFailure(outer, inner, es, nested);
    var wrong := Under(Under(Failures.Of("Value is not of type bool"), "baz"), "bar");
    assert UnderAll([Under(Failures.Of("Value is not of type bool"), "baz")], "bar") == [wrong];
    MissingFooText();
    KeyPaths.RootRendersDollar();
    BarBazRenders("Value is not of type bool");
  }

  /** A failure put under `baz` and then under `bar` renders as `bar.baz`. */
  lemma BarBazRenders(m: NonEmptyString)
    ensures KeyPaths.ToString(Under(Under(Failures.Of(m), "baz"), "bar").path) == "bar.baz"
  {
    Failures.OfUnderUnder(m, "baz", "bar");
    assert "bar" + "." + "baz" == "bar.baz";
  }

  /** One step of the fold is the applicative `and` with the store closure. */
  lemma ValidatePrefixAnd(s: Shape, es: Entries, n: nat)
    requires n < |s.constraints|
    ensures ValidatePrefix(s, es, n + 1) ==
      And(ValidatePrefix(s, es, n), Field(s.constraints[n].0, s.constraints[n].1, es), Store(s.constraints[n].0))
  {
  }

  /** The `foreach` of `Shape::__invoke`, reassigning the accumulated
      validation. */
  method ValidateLoop(s: Shape, es: Entries) returns (validation: Validation<Entries>)
    ensures validation == Validate(s, es)
  {
    validation := Success([]);
    var i := 0;
    while i < |s.constraints|
      invariant 0 <= i <= |s.constraints|
      invariant validation == ValidatePrefix(s, es, i)
    {
      var (key, c) := s.constraints[i];
      var field := AndConstraint(Has(key), OfType(key, c))(es);
      FieldComposes(key, c, es);
      ValidatePrefixAnd(s, es, i);
      validation := And(validation, field, Store(key));
      i := i + 1;
    }
  }

  /** src/AssociativeArray.php: `Is::array()`, then the key/value fold; it
      gives the same result as the newer associative array on every input. */
  function AssociativeArray<K, V>(key: Constraint<Value, K>, value: Constraint<Value, V>): (c: Constraint<Value, map<K, V>>)
    ensures forall v: Value :: c(v) == AssociativeArrays.AssociativeArray(key, value)(v)
  {
    var arrays := Facade.Apply(Facade.Array());
    assert forall v: Value :: arrays(v) == ArrayType()(v) by {
      forall v: Value ensures arrays(v) == ArrayType()(v) {
        Facade.FactoriesMatchPrimitives(v);
      }
    }
    v => FlatMap(arrays(v), (w: Value) => AssociativeArrays.Validate(key, value, EntriesOf(w)))
  }
}
