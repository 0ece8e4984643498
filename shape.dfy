/** src/Constraint/Shape.php: an array is checked against a list of named
    fields. Every field is checked, whatever the others give (the fold uses
    the applicative `and`), so all failures are reported together in
    declaration order. A missing key fails with "The key <k> is missing" (or
    the custom message) unless the key is optional; the output array holds
    the declared keys only, under their renamed names, with defaults filling
    absent optional keys. */
module Shapes {
  import opened Text
  import opened Outcomes
  import opened Values
  import opened Failures
  import opened Validations
  import opened Constraints

  /** The value of one field between the key lookup and the store: the
      source uses a private `stdClass` instance as the marker of an absent
      optional key, which no input value can be identical to. */
  datatype Slot = Absent | Present(value: Value)

  /** The five properties of a shape: the fields in declaration order (a
      PHP array, so each key at most once), the optional keys, the defaults
      of optional keys, the renames and the custom missing-key message. */
  datatype ShapeDef = ShapeDef(
    constraints: seq<(NonEmptyString, Constraint<Value, Value>)>,
    optional: seq<NonEmptyString>,
    defaults: map<NonEmptyString, Value>,
    rename: map<NonEmptyString, NonEmptyString>,
    message: Option<NonEmptyString -> NonEmptyString>)

  /** The message of a missing required key. */
  function MissingMessage(def: ShapeDef, key: NonEmptyString): NonEmptyString
  {
    if def.message.Some? then def.message.value(key) else MissingKey(key)
  }

  /** `$this->rename[$key] ?? $key`: the key a field is stored under. */
  function OutKey(def: ShapeDef, key: NonEmptyString): NonEmptyString
  {
    if key in def.rename then def.rename[key] else key
  }

  /** `$keyValidation`: `Has::key`, with the custom message if any, falling
      back to the absent marker when the key is optional. */
  function KeyValidation(def: ShapeDef, key: NonEmptyString): (c: Constraint<Entries, Slot>)
    ensures forall es: Entries :: Lookup(es, StrKey(key)).Some? ==>
      c(es) == Success(Present(Lookup(es, StrKey(key)).value))
    ensures forall es: Entries :: Lookup(es, StrKey(key)).None? && key in def.optional ==>
      c(es) == Success(Absent)
    ensures forall es: Entries :: Lookup(es, StrKey(key)).None? && key !in def.optional ==>
      c(es) == Fail([Failures.Of(MissingMessage(def, key))])
  {
    var has := if def.message.Some? then HasWithFailure(key, def.message.value) else Has(key);
    var present := MapConstraint(has, v => Present(v));
    if key in def.optional then OrConstraint(present, Constraints.Of((_: Entries) => Success(Absent)))
    else present
  }

  /** `$ofType`: the absent marker passes through; a present value goes
      through the field's constraint, whose failures are put under the key. */
  function OfType(key: NonEmptyString, c: Constraint<Value, Value>): (r: Constraint<Slot, Slot>)
    ensures r(Absent) == Success(Absent)
    ensures forall v: Value :: c(v).Success? ==> r(Present(v)) == Success(Present(c(v).value))
    ensures forall v: Value :: c(v).Fail? ==> r(Present(v)) == Fail(UnderAll(c(v).failures, key))
  {
    (s: Slot) => match s
         case Absent => Success(Absent)
         case Present(v) => Map(MapFailures(c(v), f => Under(f, key)), x => Present(x))
  }

  /** `$keyValidation->and($ofType)`: the validation of one field, as the
      source composes it. */
  function Field(def: ShapeDef, key: NonEmptyString, c: Constraint<Value, Value>): Constraint<Entries, Slot>
  {
    AndConstraint(KeyValidation(def, key), OfType(key, c))
  }

  /** The validation of one field by cases: present and accepted, present
      and rejected (failures under the key), absent and optional, absent and
      required. */
  function FieldResult(def: ShapeDef, key: NonEmptyString, c: Constraint<Value, Value>, es: Entries): Validation<Slot>
  {
    match Lookup(es, StrKey(key))
    case Some(v) =>
      if c(v).Success? then Success(Present(c(v).value)) else Fail(UnderAll(c(v).failures, key))
    case None =>
      if key in def.optional then Success(Absent) else Fail([Failures.Of(MissingMessage(def, key))])
  }

  /** The composed field validation is exactly the case analysis. */
  lemma FieldCases(def: ShapeDef, key: NonEmptyString, c: Constraint<Value, Value>, es: Entries)
    ensures Field(def, key, c)(es) == FieldResult(def, key, c, es)
  {
  }

  /** The combine closure: a present value, or else the default of the key
      if there is one, stored under the renamed key. */
  function Store(def: ShapeDef, key: NonEmptyString): (Entries, Slot) -> Entries
  {
    (out: Entries, slot: Slot) => StoreSlot(def, key, out, slot)
  }

  function StoreSlot(def: ShapeDef, key: NonEmptyString, out: Entries, slot: Slot): Entries
  {
    match slot
    case Present(v) => Put(out, StrKey(OutKey(def, key)), v)
    case Absent =>
      if key in def.defaults then Put(out, StrKey(OutKey(def, key)), def.defaults[key])
      else out
  }

  /** `$validation->and($field, $combine)` for one field, written without
      the closure. */
  function AndStore(def: ShapeDef, key: NonEmptyString, v: Validation<Entries>, w: Validation<Slot>): Validation<Entries>
  {
    match (v, w)
    case (Success(out), Success(slot)) => Success(StoreSlot(def, key, out, slot))
    case (Fail(fs), Success(_)) => Fail(fs)
    case (Success(_), Fail(gs)) => Fail(gs)
    case (Fail(fs), Fail(gs)) => Fail(fs + gs)
  }

  /** What a field contributes to the output, given its validated slot. */
  function Stored(def: ShapeDef, key: NonEmptyString, slot: Slot): Option<Value>
  {
    match slot
    case Present(v) => Some(v)
    case Absent => if key in def.defaults then Some(def.defaults[key]) else None
  }

  /** The validation of each of the first `n` fields against the same
      input, in declaration order. */
  function Fields(def: ShapeDef, es: Entries, n: nat): (rs: seq<Validation<Slot>>)
    requires n <= |def.constraints|
    ensures |rs| == n
    ensures forall i | 0 <= i < n :: rs[i] == FieldResult(def, def.constraints[i].0, def.constraints[i].1, es)
  {
    if n == 0 then []
    else Fields(def, es, n - 1) + [FieldResult(def, def.constraints[n - 1].0, def.constraints[n - 1].1, es)]
  }

  /** The fold of the `foreach` over the first `n` fields. */
  function ValidatePrefix(def: ShapeDef, es: Entries, n: nat): (r: Validation<Entries>)
    requires n <= |def.constraints|
    ensures n == 0 ==> r == Success([])
  {
    if n == 0 then Success([])
    else
      var key := def.constraints[n - 1].0;
      AndStore(def, key, ValidatePrefix(def, es, n - 1), FieldResult(def, key, def.constraints[n - 1].1, es))
  }

  /** `Shape::validate($array)`. */
  function Validate(def: ShapeDef, es: Entries): Validation<Entries>
  {
    ValidatePrefix(def, es, |def.constraints|)
  }

  /** One more field is the applicative `and` of the fields before with
      that field, combined by the store closure. */
  lemma ValidatePrefixAnd(def: ShapeDef, es: Entries, n: nat)
    requires n < |def.constraints|
    ensures ValidatePrefix(def, es, n + 1) ==
      And(ValidatePrefix(def, es, n), FieldResult(def, def.constraints[n].0, def.constraints[n].1, es),
        Store(def, def.constraints[n].0))
  {
  }

  /** Storing one field after the fields before reports the failures of
      both, those before first. */
  lemma AndStoreFailures(def: ShapeDef, key: NonEmptyString, v: Validation<Entries>, w: Validation<Slot>)
    ensures FailuresOf(AndStore(def, key, v, w)) == FailuresOf(v) + FailuresOf(w)
  {
  }

  /** One more field appends its failures to those of the fields before. */
  lemma ValidatePrefixStep(def: ShapeDef, es: Entries, n: nat)
    requires 0 < n <= |def.constraints|
    ensures FailuresOf(ValidatePrefix(def, es, n)) ==
      FailuresOf(ValidatePrefix(def, es, n - 1)) +
      FailuresOf(FieldResult(def, def.constraints[n - 1].0, def.constraints[n - 1].1, es))
  {
    var key := def.constraints[n - 1].0;
    AndStoreFailures(def, key, ValidatePrefix(def, es, n - 1), FieldResult(def, key, def.constraints[n - 1].1, es));
  }

  /** The failures of all rejected fields are reported together, in
      declaration order. */
  lemma ValidateFailures(def: ShapeDef, es: Entries, n: nat)
    requires n <= |def.constraints|
    ensures FailuresOf(ValidatePrefix(def, es, n)) == CollectFailures(Fields(def, es, n))
  {
    var acc := seq(n + 1, i requires 0 <= i <= n => ValidatePrefix(def, es, i));
    var vs := Fields(def, es, n);
    forall i | 0 <= i < n
      ensures FailuresOf(acc[i + 1]) == FailuresOf(acc[i]) + FailuresOf(vs[i])
    {
      ValidatePrefixStep(def, es, i + 1);
    }
    FoldReportsAll(acc, vs);
  }

  /** The array is accepted exactly when every field is. */
  lemma ValidateSucceeds(def: ShapeDef, es: Entries)
    ensures Validate(def, es).Success? <==>
      forall i | 0 <= i < |def.constraints| :: Fields(def, es, |def.constraints|)[i].Success?
  {
    ValidateFailures(def, es, |def.constraints|);
    CollectFailuresEmpty(Fields(def, es, |def.constraints|));
  }

  /** What storing one field does to lookups: its output key now holds
      what the field contributes, if anything; no other key changes. */
  lemma LookupStoreSlot(def: ShapeDef, key: NonEmptyString, out: Entries, slot: Slot, k: Key)
    ensures Lookup(StoreSlot(def, key, out, slot), k) ==
      if k == StrKey(OutKey(def, key)) && Stored(def, key, slot).Some? then Stored(def, key, slot)
      else Lookup(out, k)
  {
    if slot.Present? {
      LookupPut(out, StrKey(OutKey(def, key)), slot.value, k);
    } else if key in def.defaults {
      LookupPut(out, StrKey(OutKey(def, key)), def.defaults[key], k);
    }
  }

  /** A successful prefix of `n` fields is the successful prefix of `n - 1`
      fields with the last field stored. */
  lemma ValidatePrefixValue(def: ShapeDef, es: Entries, n: nat)
    requires 0 < n <= |def.constraints| && ValidatePrefix(def, es, n).Success?
    ensures ValidatePrefix(def, es, n - 1).Success?
    ensures FieldResult(def, def.constraints[n - 1].0, def.constraints[n - 1].1, es).Success?
    ensures ValidatePrefix(def, es, n).value ==
      StoreSlot(def, def.constraints[n - 1].0, ValidatePrefix(def, es, n - 1).value,
        FieldResult(def, def.constraints[n - 1].0, def.constraints[n - 1].1, es).value)
  {
  }

  /** A key that no field among the first `n` is stored under is absent from
      the output; in particular, undeclared input keys are dropped. */
  lemma {:induction false} ValidateDropsOtherKeys(def: ShapeDef, es: Entries, n: nat, k: Key)
    requires n <= |def.constraints| && ValidatePrefix(def, es, n).Success?
    requires forall j | 0 <= j < n :: k != StrKey(OutKey(def, def.constraints[j].0))
    ensures Lookup(ValidatePrefix(def, es, n).value, k) == None
  {
    if n > 0 {
      var (key, c) := def.constraints[n - 1];
      ValidatePrefixValue(def, es, n);
      ValidateDropsOtherKeys(def, es, n - 1, k);
      LookupStoreSlot(def, key, ValidatePrefix(def, es, n - 1).value, FieldResult(def, key, c, es).value, k);
    }
  }

  /** On success, a field whose output key no other field shares holds its
      validated value, or its default when it was absent, or is missing when
      it was absent without a default. */
  lemma {:induction false} ValidateStoresField(def: ShapeDef, es: Entries, n: nat, i: nat)
    requires n <= |def.constraints| && ValidatePrefix(def, es, n).Success?
    requires i < n
    requires forall j | 0 <= j < n && j != i ::
      OutKey(def, def.constraints[j].0) != OutKey(def, def.constraints[i].0)
    ensures FieldResult(def, def.constraints[i].0, def.constraints[i].1, es).Success?
    ensures Lookup(ValidatePrefix(def, es, n).value, StrKey(OutKey(def, def.constraints[i].0))) ==
      Stored(def, def.constraints[i].0, FieldResult(def, def.constraints[i].0, def.constraints[i].1, es).value)
  {
    var (key, c) := def.constraints[n - 1];
    var k := StrKey(OutKey(def, def.constraints[i].0));
    ValidatePrefixValue(def, es, n);
    if i < n - 1 {
      ValidateStoresField(def, es, n - 1, i);
    } else {
      ValidateDropsOtherKeys(def, es, n - 1, k);
    }
    LookupStoreSlot(def, key, ValidatePrefix(def, es, n - 1).value, FieldResult(def, key, c, es).value, k);
  }

  /** Whether a field stores something on success: its key is in the input,
      or it has a default. */
  predicate Contributes(def: ShapeDef, key: NonEmptyString, es: Entries)
  {
    Lookup(es, StrKey(key)).Some? || key in def.defaults
  }

  /** The output keys of the first `n` fields that store something, in
      declaration order; a key met again keeps its first place. */
  function OutputKeys(def: ShapeDef, es: Entries, n: nat): (ks: seq<Key>)
    requires n <= |def.constraints|
    ensures forall i, j | 0 <= i < j < |ks| :: ks[i] != ks[j]
  {
    if n == 0 then []
    else
      var ks := OutputKeys(def, es, n - 1);
      var key := def.constraints[n - 1].0;
      var k := StrKey(OutKey(def, key));
      if Contributes(def, key, es) && k !in ks then ks + [k] else ks
  }

  /** The output keys are exactly the output keys of the fields that store
      something. */
  lemma {:induction false} OutputKeysMembers(def: ShapeDef, es: Entries, n: nat, k: Key)
    requires n <= |def.constraints|
    ensures k in OutputKeys(def, es, n) <==>
      exists j | 0 <= j < n :: Contributes(def, def.constraints[j].0, es) && k == StrKey(OutKey(def, def.constraints[j].0))
  {
    if n > 0 {
      OutputKeysMembers(def, es, n - 1, k);
    }
  }

  /** The fields at `i` and `j` have different keys. */
  predicate KeysDiffer(def: ShapeDef, i: nat, j: nat)
    requires i < |def.constraints| && j < |def.constraints|
  {
    def.constraints[i].0 != def.constraints[j].0
  }

  /** With no rename, every field's key in the input and no key declared
      twice, every one of the first `m` fields stores an entry under its own
      key, in declaration order. */
  lemma {:induction false} OutputKeysAllFields(def: ShapeDef, es: Entries, m: nat)
    requires m <= |def.constraints| && def.rename == map[]
    requires forall i, j | 0 <= i < j < m :: KeysDiffer(def, i, j)
    requires forall i | 0 <= i < m :: Lookup(es, StrKey(def.constraints[i].0)).Some?
    ensures |OutputKeys(def, es, m)| == m
    ensures forall i | 0 <= i < m :: OutputKeys(def, es, m)[i] == StrKey(def.constraints[i].0)
  {
    if m > 0 {
      OutputKeysAllFields(def, es, m - 1);
      var ks := OutputKeys(def, es, m - 1);
      var key := def.constraints[m - 1].0;
      forall i | 0 <= i < m - 1 ensures ks[i] != StrKey(key) {
        assert KeysDiffer(def, i, m - 1);
      }
      OutputKeysAppend(def, es, m);
    }
  }

  /** A field that stores under a key not yet listed appends that key. */
  lemma OutputKeysAppend(def: ShapeDef, es: Entries, m: nat)
    requires 0 < m <= |def.constraints| && def.rename == map[]
    requires Lookup(es, StrKey(def.constraints[m - 1].0)).Some?
    requires StrKey(def.constraints[m - 1].0) !in OutputKeys(def, es, m - 1)
    ensures OutputKeys(def, es, m) == OutputKeys(def, es, m - 1) + [StrKey(def.constraints[m - 1].0)]
  {
    assert OutKey(def, def.constraints[m - 1].0) == def.constraints[m - 1].0;
  }

  /** On success, the output holds one entry per field that stores
      something, in declaration order, under its output key. */
  lemma {:induction false} ValidateKeys(def: ShapeDef, es: Entries, n: nat)
    requires n <= |def.constraints| && ValidatePrefix(def, es, n).Success?
    ensures KeysOf(ValidatePrefix(def, es, n).value) == OutputKeys(def, es, n)
  {
    if n > 0 {
      var (key, c) := def.constraints[n - 1];
      var k := StrKey(OutKey(def, key));
      ValidatePrefixValue(def, es, n);
      ValidateKeys(def, es, n - 1);
      var out := ValidatePrefix(def, es, n - 1).value;
      match FieldResult(def, key, c, es).value
      case Present(v) =>
        KeysOfPut(out, k, v);
      case Absent =>
        if key in def.defaults {
          KeysOfPut(out, k, def.defaults[key]);
        }
    }
  }

  /** `Shape::__invoke`: the array check, then `validate`; the output array
      is returned as a value so that shapes nest. */
  function ShapeConstraint(def: ShapeDef): (c: Constraint<Value, Value>)
    ensures forall v: Value :: !v.VArray? ==> c(v) == TypeMismatch("array")
    ensures forall v: Value :: v.VArray? ==> c(v) == Map(Validate(def, v.entries), (out: Entries) => VArray(out))
  {
    var arrays := ArrayType();
    v => FlatMap(arrays(v), (w: Value) => Map(Validate(def, EntriesOf(w)), (out: Entries) => VArray(out)))
  }

  /** The `foreach` of `validate`, reassigning the accumulated validation. */
  method ValidateLoop(def: ShapeDef, es: Entries) returns (validation: Validation<Entries>)
    ensures validation == Validate(def, es)
  {
    validation := Success([]);
    var i := 0;
    while i < |def.constraints|
      invariant 0 <= i <= |def.constraints|
      invariant validation == ValidatePrefix(def, es, i)
    {
      var key := def.constraints[i].0;
      var field := ValidateField(def, key, def.constraints[i].1, es);
      ValidatePrefixAnd(def, es, i);
      validation := And(validation, field, Store(def, key));
      i := i + 1;
    }
  }

  /** The body of the `foreach` for one field: `$keyValidation`, then
      `$keyValidation->and($ofType)` applied to the input. */
  method ValidateField(def: ShapeDef, key: NonEmptyString, constraint: Constraint<Value, Value>, es: Entries)
    returns (validation: Validation<Slot>)
    ensures validation == FieldResult(def, key, constraint, es)
  {
    var keyValidation := KeyValidation(def, key);
    var ofType := OfType(key, constraint);
    validation := AndConstraint(keyValidation, ofType)(es);
    FieldCases(def, key, constraint, es);
  }
}
