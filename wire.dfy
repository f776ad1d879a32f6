/**
 * A serialized value at the level of the JSON it becomes: null, an integer,
 * a string, a sequence, or a struct. A struct keeps the name and declared
 * size given to `serialize_struct` and its fields in the order of the
 * `serialize_field` calls. A present option is written as its value, as in
 * JSON. The textual JSON encoding is not modelled.
 */
module Wire {
  import opened Wrappers

  datatype Value =
    | Null
    | UInt(n: nat)
    | Str(s: string)
    | Seq(items: seq<Value>)
    | Struct(name: string, len: nat, fields: seq<Field>)

  datatype Field = Field(key: string, value: Value)

  /** The keys of a field list, in emission order. */
  function Keys(fields: seq<Field>): (ks: seq<string>)
    ensures |ks| == |fields|
    ensures forall i :: 0 <= i < |fields| ==> ks[i] == fields[i].key
  {
    if fields == [] then [] else [fields[0].key] + Keys(fields[1..])
  }

  /** No key is emitted twice, so a reader can find every field by its key. */
  predicate Distinct(ks: seq<string>)
  {
    forall i, j :: 0 <= i < j < |ks| ==> ks[i] != ks[j]
  }

  /** The value a reader finds under `key`, if some field carries that key. */
  function Lookup(fields: seq<Field>, key: string): (r: Option<Value>)
    ensures r.None? <==> key !in Keys(fields)
    ensures r.Some? ==> Field(key, r.value) in fields
  {
    if fields == [] then None
    else if fields[0].key == key then Some(fields[0].value)
    else
      assert Keys(fields) == [fields[0].key] + Keys(fields[1..]);
      Lookup(fields[1..], key)
  }

  /**
   * With distinct keys, every emitted field is found again under its own key:
   * `Lookup` finds some field carrying the key, and only field i carries it.
   */
  lemma {:induction false} LookupAt(fields: seq<Field>, i: nat)
    requires Distinct(Keys(fields)) && i < |fields|
    ensures Lookup(fields, fields[i].key) == Some(fields[i].value)
  {
    assert Keys(fields)[i] == fields[i].key;
  }
}
