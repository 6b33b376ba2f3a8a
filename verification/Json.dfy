/** JSON values as the program holds them: objects keep their fields sorted by key. */
module Json {
  import opened Wrappers
  import opened Text

  datatype Value =
    | Null
    | Bool(truth: bool)
    | Natural(n: nat)
    | Negative(n: nat)
    | Fraction(text: string)
    | Text(text: string)
    | Array(items: seq<Value>)
    | Object(fields: seq<Field>)

  datatype Field = Field(key: string, value: Value)

  function Get(fields: seq<Field>, key: string): Option<Value> {
    if fields == [] then None
    else if fields[0].key == key then Some(fields[0].value)
    else Get(fields[1..], key)
  }

  /** Replaces the value of a key or inserts the key at its place. */
  function Insert(fields: seq<Field>, key: string, value: Value): seq<Field> {
    if fields == [] then [Field(key, value)]
    else if fields[0].key == key then [Field(key, value)] + fields[1..]
    else if Before(key, fields[0].key) then [Field(key, value)] + fields
    else [fields[0]] + Insert(fields[1..], key, value)
  }

  /** An insertion changes the value of its key and of no other. */
  lemma {:induction false} InsertGet(fields: seq<Field>, key: string, value: Value, k: string)
    ensures Get(Insert(fields, key, value), k) == if k == key then Some(value) else Get(fields, k)
    decreases |fields|
  {
    if fields != [] {
      var r := Insert(fields, key, value);
      if fields[0].key == key {
        assert r[1..] == fields[1..];
      } else if Before(key, fields[0].key) {
        assert r[1..] == fields;
      } else {
        assert r[1..] == Insert(fields[1..], key, value);
        InsertGet(fields[1..], key, value, k);
      }
    }
  }

  lemma {:induction false} InsertTwice(fields: seq<Field>, key: string, v: Value, w: Value)
    ensures Insert(Insert(fields, key, v), key, w) == Insert(fields, key, w)
    decreases |fields|
  {
    if fields != [] {
      var r := Insert(fields, key, v);
      if fields[0].key == key {
        assert r[1..] == fields[1..];
      } else if Before(key, fields[0].key) {
        assert r[1..] == fields;
      } else {
        assert r[1..] == Insert(fields[1..], key, v);
        InsertTwice(fields[1..], key, v, w);
      }
    }
  }

  function Utf8Width(c: char): nat {
    if c < '\U{0080}' then 1 else if c < '\U{0800}' then 2 else if c < '\U{10000}' then 3 else 4
  }

  function Utf8Length(s: string): nat {
    if s == "" then 0 else Utf8Width(s[0]) + Utf8Length(s[1..])
  }
}
