/**
  Insertion-ordered string-keyed dictionaries: a Python `dict` decoded from a
  JSON object or read by `csv.DictReader`, and a JavaScript object with
  string keys. `keys` is the insertion order; assigning to a key that is
  already present keeps its position, assigning to a new key appends it.
*/
module Records {
  import opened Wrappers

  /** The scalar values the stores hold: JSON strings and JSON numbers. */
  datatype Value = Str(s: string) | Num(n: real)

  datatype Record = Record(keys: seq<string>, fields: map<string, Value>)

  /** What every dictionary the programs build satisfies: keys are distinct
      and are exactly the domain of `fields`. */
  ghost predicate WellFormed(d: Record) {
    && (forall i, j :: 0 <= i < j < |d.keys| ==> d.keys[i] != d.keys[j])
    && (forall k :: k in d.fields <==> k in d.keys)
  }

  const Empty: Record := Record([], map[])

  /** The price fields of a daily record, the same names in the JSON store
      `scraper.py` writes and in the rows `script.js` reads. */
  const Close := "close"
  const Open := "open"
  const High := "high"
  const Low := "low"
  const PerKg := "price_per_kg_inr"
  const PerGram := "price_per_gram_inr"

  /** The four OHLC fields. */
  predicate IsOHLCField(f: string) {
    f == Close || f == Open || f == High || f == Low
  }

  predicate Has(d: Record, k: string) {
    k in d.fields
  }

  /** `d.get(k)` in Python; `d[k]`, undefined when absent, in JavaScript. */
  function Get(d: Record, k: string): Option<Value> {
    if k in d.fields then Some(d.fields[k]) else None
  }

  /** `d[k] = v`: the value at `k` becomes `v`, every other key keeps its value,
      and `k` is appended to the key order only when it was absent. */
  function Set(d: Record, k: string, v: Value): (r: Record)
    ensures Get(r, k) == Some(v)
    ensures forall j :: j != k ==> Get(r, j) == Get(d, j)
    ensures forall j :: Has(r, j) <==> j == k || Has(d, j)
    ensures r.keys == if Has(d, k) then d.keys else d.keys + [k]
    ensures WellFormed(d) ==> WellFormed(r)
  {
    Record(if k in d.fields then d.keys else d.keys + [k], d.fields[k := v])
  }

  /** Assigning a key that is absent appends it to the key order. */
  lemma SetNew(d: Record, k: string, v: Value)
    requires !Has(d, k)
    ensures Set(d, k, v).keys == d.keys + [k]
  {
  }

  /** Assigning a key the value it already holds changes nothing. */
  lemma SetSame(d: Record, k: string)
    requires Has(d, k)
    ensures Set(d, k, d.fields[k]) == d
  {
  }

  /** `d.setdefault(k, v)`: assigns `v` only when `k` is absent. */
  function SetDefault(d: Record, k: string, v: Value): (r: Record)
    ensures Get(r, k) == if Has(d, k) then Get(d, k) else Some(v)
    ensures forall j :: j != k ==> Get(r, j) == Get(d, j)
    ensures forall j :: Has(r, j) <==> j == k || Has(d, j)
    ensures r.keys == if Has(d, k) then d.keys else d.keys + [k]
    ensures WellFormed(d) ==> WellFormed(r)
  {
    if Has(d, k) then d else Set(d, k, v)
  }

  /** Two records with the same key order and the same lookups are equal. */
  lemma Extensionality(a: Record, b: Record)
    requires a.keys == b.keys
    requires forall k :: Get(a, k) == Get(b, k)
    ensures a == b
  {
    forall k | k in a.fields
      ensures k in b.fields && a.fields[k] == b.fields[k]
    {
      assert Get(a, k) == Get(b, k);
    }
    forall k | k in b.fields
      ensures k in a.fields
    {
      assert Get(a, k) == Get(b, k);
    }
    assert a.fields == b.fields;
  }
}
