/** PHP's `mixed` as far as the validators look at it, and PHP arrays as
    ordered lists of key/value entries. */
module Values {
  import opened Text
  import opened Outcomes

  /** An array key: PHP keeps int and string keys apart (numeric strings
      are assumed to be normalised to ints already). */
  datatype Key = IntKey(i: int) | StrKey(s: string)

  /** A PHP value. Floats are an opaque tag (no arithmetic is done on them);
      an object knows its class and every class or interface it is an
      instance of. */
  datatype Value =
    | VInt(i: int)
    | VStr(s: string)
    | VBool(b: bool)
    | VNull
    | VFloat(tag: int)
    | VObject(cls: string, supertypes: set<string>)
    | VArray(entries: seq<(Key, Value)>)

  /** The entries of a PHP array, in iteration order. */
  type Entries = seq<(Key, Value)>

  /** The position of the first pair with key `k` at or after `from`. */
  function IndexFrom<K(==), V>(es: seq<(K, V)>, k: K, from: nat): (r: Option<nat>)
    requires from <= |es|
    ensures r.Some? ==> from <= r.value < |es| && es[r.value].0 == k
    ensures r.Some? ==> forall j | from <= j < r.value :: es[j].0 != k
    ensures r.None? ==> forall j | from <= j < |es| :: es[j].0 != k
    decreases |es| - from
  {
    if from == |es| then None
    else if es[from].0 == k then Some(from)
    else IndexFrom(es, k, from + 1)
  }

  /** The position of the pair with key `k`: a PHP array holds each key at
      most once, and the first occurrence is the one that counts. */
  function IndexOf<K(==), V>(es: seq<(K, V)>, k: K): (r: Option<nat>)
    ensures r.Some? ==> r.value < |es| && es[r.value].0 == k && forall j | 0 <= j < r.value :: es[j].0 != k
    ensures r.None? ==> forall j | 0 <= j < |es| :: es[j].0 != k
  {
    IndexFrom(es, k, 0)
  }

  /** `array_key_exists($k, $a) ? $a[$k] : null`, as an option. */
  function Lookup(es: Entries, k: Key): (r: Option<Value>)
    ensures r.Some? <==> exists i | 0 <= i < |es| :: es[i].0 == k
    ensures r.Some? ==> exists i | 0 <= i < |es| :: es[i] == (k, r.value)
  {
    match IndexOf(es, k)
    case Some(i) => Some(es[i].1)
    case None => None
  }

  /** The keys of an array, in iteration order. */
  function KeysOf(es: Entries): (ks: seq<Key>)
    ensures |ks| == |es| && forall i | 0 <= i < |es| :: ks[i] == es[i].0
  {
    seq(|es|, i requires 0 <= i < |es| => es[i].0)
  }

  /** `$a[$k] = $v`: an existing key keeps its position and gets the new
      value, a new key is appended. */
  function Put(es: Entries, k: Key, v: Value): (r: Entries)
  {
    match IndexOf(es, k)
    case Some(i) => es[i := (k, v)]
    case None => es + [(k, v)]
  }

  /** The first position of a key is determined by where it occurs. */
  lemma IndexOfAt<K, V>(es: seq<(K, V)>, k: K, i: nat)
    requires i < |es| && es[i].0 == k && forall j | 0 <= j < i :: es[j].0 != k
    ensures IndexOf(es, k) == Some(i)
  {
  }

  /** What `Put` does to lookups: the key now maps to the new value and no
      other key changes. */
  lemma LookupPut(es: Entries, k: Key, v: Value, k': Key)
    ensures Lookup(Put(es, k, v), k') == if k' == k then Some(v) else Lookup(es, k')
  {
    var r := Put(es, k, v);
    if IndexOf(es, k).Some? {
      var i := IndexOf(es, k).value;
      if k' == k {
        IndexOfAt(r, k, i);
      } else if IndexOf(es, k').Some? {
        IndexOfAt(r, k', IndexOf(es, k').value);
      } else {
        assert forall j | 0 <= j < |r| :: r[j].0 != k' by {
          assert forall j | 0 <= j < |r| :: r[j].0 == es[j].0;
        }
      }
    } else {
      if k' == k {
        IndexOfAt(r, k, |es|);
      } else if IndexOf(es, k').Some? {
        IndexOfAt(r, k', IndexOf(es, k').value);
      }
    }
  }

  /** What `Put` does to the order of keys: the key sequence is unchanged
      when the key was present, otherwise the key is appended. */
  lemma KeysOfPut(es: Entries, k: Key, v: Value)
    ensures KeysOf(Put(es, k, v)) == if k in KeysOf(es) then KeysOf(es) else KeysOf(es) + [k]
  {
    if IndexOf(es, k).Some? {
      assert k in KeysOf(es) by {
        assert KeysOf(es)[IndexOf(es, k).value] == k;
      }
    } else {
      assert k !in KeysOf(es);
    }
  }

  /** The values of an array, in iteration order (what `foreach` visits). */
  function Elements(v: Value): (xs: seq<Value>)
    ensures v.VArray? ==> |xs| == |v.entries| && forall i | 0 <= i < |xs| :: xs[i] == v.entries[i].1
    ensures !v.VArray? ==> xs == []
  {
    if v.VArray? then seq(|v.entries|, i requires 0 <= i < |v.entries| => v.entries[i].1) else []
  }

  /** The entries of an array value, none for any other value. */
  function EntriesOf(v: Value): Entries
  {
    if v.VArray? then v.entries else []
  }

  // The native type predicates.
  predicate IsString(v: Value) { v.VStr? }
  predicate IsInt(v: Value) { v.VInt? }
  predicate IsFloat(v: Value) { v.VFloat? }
  predicate IsArray(v: Value) { v.VArray? }
  predicate IsBool(v: Value) { v.VBool? }
  predicate IsNull(v: Value) { v.VNull? }
  predicate IsObject(v: Value) { v.VObject? }

  /** `array_is_list`: an array whose keys are 0, 1, ..., n-1 in this order. */
  predicate IsList(v: Value)
  {
    v.VArray? && forall i | 0 <= i < |v.entries| :: v.entries[i].0 == IntKey(i)
  }

  /** `$value instanceof $class`. */
  predicate InstanceOf(v: Value, cls: string)
  {
    v.VObject? && (v.cls == cls || cls in v.supertypes)
  }

  /** A key as the value a key constraint receives (`int|string`). */
  function KeyValue(k: Key): Value
  {
    match k
    case IntKey(i) => VInt(i)
    case StrKey(s) => VStr(s)
  }

  /** `(string) $key` and `sprintf('%s', $key)`. */
  function KeyText(k: Key): string
  {
    match k
    case IntKey(i) => IntToString(i)
    case StrKey(s) => s
  }
}
