/** src/Constraint/Provider/Arr/Shape.php: the immutable builder of a shape.
    Each step returns a new builder with one of the five properties changed;
    `toConstraint` hands them to the shape constraint. */
module ShapeBuilders {
  import opened Text
  import opened Outcomes
  import opened Values
  import opened Failures
  import opened Validations
  import opened Constraints
  import opened Shapes

  /** The declared field keys, in declaration order. */
  function FieldKeys(cs: seq<(NonEmptyString, Constraint<Value, Value>)>): (ks: seq<NonEmptyString>)
    ensures |ks| == |cs| && forall i | 0 <= i < |cs| :: ks[i] == cs[i].0
  {
    if cs == [] then [] else [cs[0].0] + FieldKeys(cs[1..])
  }

  /** No key is declared twice: what a PHP array keyed by field name
      guarantees. */
  predicate DistinctKeys(cs: seq<(NonEmptyString, Constraint<Value, Value>)>)
  {
    forall i, j | 0 <= i < j < |cs| :: cs[i].0 != cs[j].0
  }

  /** `$constraints[$key] = $constraint`: an existing key keeps its position
      and gets the new constraint, a new key is appended. */
  function Assign(cs: seq<(NonEmptyString, Constraint<Value, Value>)>, key: NonEmptyString, c: Constraint<Value, Value>)
    : (r: seq<(NonEmptyString, Constraint<Value, Value>)>)
  {
    match IndexOf(cs, key)
    case Some(i) => cs[i := (key, c)]
    case None => cs + [(key, c)]
  }

  /** Assigning keeps the key order when the key was declared and appends it
      otherwise; the key then holds the new constraint. */
  lemma AssignKeys(cs: seq<(NonEmptyString, Constraint<Value, Value>)>, key: NonEmptyString, c: Constraint<Value, Value>)
    ensures FieldKeys(Assign(cs, key, c)) ==
      if key in FieldKeys(cs) then FieldKeys(cs) else FieldKeys(cs) + [key]
    ensures exists i | 0 <= i < |Assign(cs, key, c)| :: Assign(cs, key, c)[i].0 == key && Assign(cs, key, c)[i].1 == c
  {
    var r := Assign(cs, key, c);
    if IndexOf(cs, key).Some? {
      var i := IndexOf(cs, key).value;
      assert FieldKeys(cs)[i] == key;
      assert FieldKeys(r) == FieldKeys(cs);
      assert r[i] == (key, c);
    } else {
      assert key !in FieldKeys(cs);
      assert FieldKeys(r) == FieldKeys(cs) + [key];
      assert r[|cs|] == (key, c);
    }
  }

  /** Assigning never declares a key twice. */
  lemma AssignDistinct(cs: seq<(NonEmptyString, Constraint<Value, Value>)>, key: NonEmptyString, c: Constraint<Value, Value>)
    requires DistinctKeys(cs)
    ensures DistinctKeys(Assign(cs, key, c))
  {
    var r := Assign(cs, key, c);
    if IndexOf(cs, key).Some? {
      assert forall j | 0 <= j < |r| :: r[j].0 == cs[j].0;
    } else {
      assert forall j | 0 <= j < |cs| :: r[j] == cs[j] && cs[j].0 != key;
    }
  }

  /** `Shape::of($build, $key, $constraint)`: one field, nothing else. */
  function Start(key: NonEmptyString, c: Constraint<Value, Value>): (b: ShapeDef)
    ensures FieldKeys(b.constraints) == [key] && b.constraints[0].1 == c
    ensures b.optional == [] && b.defaults == map[] && b.rename == map[] && b.message.None?
  {
    ShapeDef([(key, c)], [], map[], map[], None)
  }

  /** `$shape->with($key, $constraint)`. */
  function With(b: ShapeDef, key: NonEmptyString, c: Constraint<Value, Value>): (r: ShapeDef)
    ensures r.constraints == Assign(b.constraints, key, c)
    ensures r.optional == b.optional && r.defaults == b.defaults && r.rename == b.rename && r.message == b.message
  {
    b.(constraints := Assign(b.constraints, key, c))
  }

  /** `$shape->optional($key, $constraint)`: the key is marked optional; a
      constraint, when given, is assigned to it. */
  function Optional(b: ShapeDef, key: NonEmptyString, c: Option<Constraint<Value, Value>>): (r: ShapeDef)
    ensures r.optional == b.optional + [key] && key in r.optional
    ensures c.Some? ==> r.constraints == Assign(b.constraints, key, c.value)
    ensures c.None? ==> r.constraints == b.constraints
    ensures r.defaults == b.defaults && r.rename == b.rename && r.message == b.message
  {
    var constraints := if c.Some? then Assign(b.constraints, key, c.value) else b.constraints;
    b.(constraints := constraints, optional := b.optional + [key])
  }

  /** The message of the exception `default` throws for a key that was not
      marked optional. */
  function NoOptionalKey(key: NonEmptyString): string
  {
    "No optional key " + key + " defined"
  }

  /** `$shape->default($key, $value)`: only an optional key may have a
      default; otherwise the source throws a `LogicException`, modelled as an
      error carrying its message. */
  function Default(b: ShapeDef, key: NonEmptyString, v: Value): (r: Result<ShapeDef>)
    ensures r.Ok? <==> key in b.optional
    ensures r.Err? ==> r.message == NoOptionalKey(key)
    ensures r.Ok? ==> r.value == b.(defaults := b.defaults[key := v])
  {
    if key !in b.optional then Err(NoOptionalKey(key))
    else Ok(b.(defaults := b.defaults[key := v]))
  }

  /** `$shape->rename($from, $to)`. */
  function Rename(b: ShapeDef, from: NonEmptyString, to: NonEmptyString): (r: ShapeDef)
    ensures OutKey(r, from) == to
    ensures forall k: NonEmptyString :: k != from ==> OutKey(r, k) == OutKey(b, k)
    ensures r.constraints == b.constraints && r.optional == b.optional && r.defaults == b.defaults
    ensures r.message == b.message
  {
    b.(rename := b.rename[from := to])
  }

  /** `$shape->withKeyFailure($message)`: replaces any previous message. */
  function WithKeyFailure(b: ShapeDef, message: NonEmptyString -> NonEmptyString): (r: ShapeDef)
    ensures forall k: NonEmptyString :: MissingMessage(r, k) == message(k)
    ensures r.constraints == b.constraints && r.optional == b.optional && r.defaults == b.defaults
    ensures r.rename == b.rename
  {
    b.(message := Some(message))
  }

  /** `$shape->toConstraint()`, with the identity as the `build` closure. */
  function ToConstraint(b: ShapeDef): (c: Constraint<Value, Value>)
    ensures forall v: Value :: !v.VArray? ==> c(v) == TypeMismatch("array")
    ensures forall v: Value :: v.VArray? ==> c(v) == Map(Validate(b, v.entries), (out: Entries) => VArray(out))
  {
    ShapeConstraint(b)
  }

  /** Every builder step keeps the field keys distinct. */
  lemma BuilderKeepsKeysDistinct(b: ShapeDef, key: NonEmptyString, c: Constraint<Value, Value>, v: Value,
                                 from: NonEmptyString, to: NonEmptyString, message: NonEmptyString -> NonEmptyString)
    requires DistinctKeys(b.constraints)
    ensures DistinctKeys(Start(key, c).constraints)
    ensures DistinctKeys(With(b, key, c).constraints)
    ensures DistinctKeys(Optional(b, key, Some(c)).constraints) && DistinctKeys(Optional(b, key, None).constraints)
    ensures Default(b, key, v).Ok? ==> DistinctKeys(Default(b, key, v).value.constraints)
    ensures DistinctKeys(Rename(b, from, to).constraints)
    ensures DistinctKeys(WithKeyFailure(b, message).constraints)
  {
    AssignDistinct(b.constraints, key, c);
  }

  /** An optional key that the input lacks is filled with its default,
      under its output key, when no other field is stored under that key. */
  lemma DefaultFillsAbsentKey(b: ShapeDef, key: NonEmptyString, v: Value, es: Entries, i: nat)
    requires Default(b, key, v).Ok?
    requires i < |b.constraints| && b.constraints[i].0 == key
    requires forall j | 0 <= j < |b.constraints| && j != i :: OutKey(b, b.constraints[j].0) != OutKey(b, key)
    requires Lookup(es, StrKey(key)).None?
    requires Validate(Default(b, key, v).value, es).Success?
    ensures Lookup(Validate(Default(b, key, v).value, es).value, StrKey(OutKey(b, key))) == Some(v)
  {
    var d := Default(b, key, v).value;
    ValidateStoresField(d, es, |d.constraints|, i);
  }

  /** A missing required key fails with the custom message given to
      `withKeyFailure`, at the root of the path. */
  lemma KeyFailureMessageUsed(b: ShapeDef, message: NonEmptyString -> NonEmptyString, es: Entries, i: nat)
    requires i < |b.constraints| && b.constraints[i].0 !in b.optional
    requires Lookup(es, StrKey(b.constraints[i].0)).None?
    ensures var d := WithKeyFailure(b, message);
      Fields(d, es, |d.constraints|)[i] == Fail([Failures.Of(message(b.constraints[i].0))])
  {
  }

  /** The field validations do not depend on renames or defaults. */
  lemma {:induction false} FieldsIgnoreStorage(b: ShapeDef, d: ShapeDef, es: Entries, n: nat)
    requires b.constraints == d.constraints && b.optional == d.optional && b.message == d.message
    requires n <= |b.constraints|
    ensures Fields(b, es, n) == Fields(d, es, n)
  {
    if n > 0 {
      FieldsIgnoreStorage(b, d, es, n - 1);
    }
  }

  /** Renaming changes where a field is stored, not whether or how it is
      validated: the failures are the same. */
  lemma RenameKeepsFailures(b: ShapeDef, from: NonEmptyString, to: NonEmptyString, es: Entries)
    ensures FailuresOf(Validate(Rename(b, from, to), es)) == FailuresOf(Validate(b, es))
  {
    var r := Rename(b, from, to);
    ValidateFailures(r, es, |b.constraints|);
    ValidateFailures(b, es, |b.constraints|);
    FieldsIgnoreStorage(b, r, es, |b.constraints|);
  }

  /** The test of a valid input: `foo` and `bar` are kept, the undeclared
      `baz` is dropped. */
  lemma ShapeKeepsDeclaredKeys()
    ensures var b := With(Start("foo", IntType()), "bar", BoolType());
      Validate(b, [(StrKey("foo"), VInt(42)), (StrKey("bar"), VBool(true)), (StrKey("baz"), VStr("invalid"))]) ==
      Success([(StrKey("foo"), VInt(42)), (StrKey("bar"), VBool(true))])
  {
    var b := With(Start("foo", IntType()), "bar", BoolType());
    var es := [(StrKey("foo"), VInt(42)), (StrKey("bar"), VBool(true)), (StrKey("baz"), VStr("invalid"))];
    assert b.constraints == [("foo", IntType()), ("bar", BoolType())];
    assert Lookup(es, StrKey("foo")) == Some(VInt(42));
    assert Lookup(es, StrKey("bar")) == Some(VBool(true));
    assert FieldResult(b, "foo", IntType(), es) == Success(Present(VInt(42)));
    assert FieldResult(b, "bar", BoolType(), es) == Success(Present(VBool(true)));
    assert IndexOf<Key, Value>([], StrKey("foo")).None?;
    assert Put([], StrKey("foo"), VInt(42)) == [(StrKey("foo"), VInt(42))];
    assert OutKey(b, "foo") == "foo";
    assert StoreSlot(b, "foo", [], Present(VInt(42))) == [(StrKey("foo"), VInt(42))];
    assert ValidatePrefix(b, es, 1) == Success([(StrKey("foo"), VInt(42))]);
    assert IndexOf([(StrKey("foo"), VInt(42))], StrKey("bar")).None?;
    assert Put([(StrKey("foo"), VInt(42))], StrKey("bar"), VBool(true)) ==
      [(StrKey("foo"), VInt(42)), (StrKey("bar"), VBool(true))];
  }

  /** The invalid input's `foo` field: absent and required. */
  lemma MissingFooReported(b: ShapeDef, es: Entries)
    requires b == With(Start("foo", IntType()), "bar", BoolType()) && es == [(StrKey("bar"), VStr("string"))]
    ensures FieldResult(b, "foo", IntType(), es) == Fail([Failures.Of("The key foo is missing")])
  {
    assert Lookup(es, StrKey("foo")).None?;
    assert MissingMessage(b, "foo") == MissingKey("foo") == "The key foo is missing";
  }

  /** The invalid input's `bar` field: a string where a bool is expected. */
  lemma WrongBarReported(b: ShapeDef, es: Entries)
    requires es == [(StrKey("bar"), VStr("string"))]
    ensures FieldResult(b, "bar", BoolType(), es) == Fail([Under(Failures.Of("Value is not of type bool"), "bar")])
  {
    assert Lookup(es, StrKey("bar")) == Some(VStr("string"));
    var mismatch := Failures.Of("Value is not of type " + "bool");
    assert "Value is not of type " + "bool" == "Value is not of type bool";
    assert BoolType()(VStr("string")) == Fail([mismatch]);
    assert UnderAll([mismatch], "bar") == [Under(mismatch, "bar")];
  }

  /** The test of an invalid input: the missing `foo` and the wrong `bar`
      are both reported, in declaration order. */
  lemma ShapeReportsEveryField()
    ensures var b := With(Start("foo", IntType()), "bar", BoolType());
      var r := Validate(b, [(StrKey("bar"), VStr("string"))]);
      r.Fail? && |r.failures| == 2 &&
      KeyPaths.ToString(r.failures[0].path) == "$" && r.failures[0].message == "The key foo is missing" &&
      KeyPaths.ToString(r.failures[1].path) == "bar" && r.failures[1].message == "Value is not of type bool"
  {
    var b := With(Start("foo", IntType()), "bar", BoolType());
    var es := [(StrKey("bar"), VStr("string"))];
    assert b.constraints == [("foo", IntType()), ("bar", BoolType())];
    MissingFooReported(b, es);
    WrongBarReported(b, es);
    var missing := Failures.Of("The key foo is missing");
    var wrong := Under(Failures.Of("Value is not of type bool"), "bar");
    assert ValidatePrefix(b, es, 1) == Fail([missing]);
    assert Validate(b, es) == Fail([missing] + [wrong]);
    KeyPaths.RootRendersDollar();
    KeyPaths.RootUnder("bar");
  }

  /** A shape used as the constraint of a field reports its own failures
      under that field's key. */
  lemma NestedFailuresUnderKey(b: ShapeDef, key: NonEmptyString, inner: ShapeDef, es: Entries, nested: Entries)
    requires Lookup(es, StrKey(key)) == Some(VArray(nested))
    requires Validate(inner, nested).Fail?
    ensures FieldResult(b, key, ToConstraint(inner), es) == Fail(UnderAll(Validate(inner, nested).failures, key))
  {
  }
}
