/**
 * The JavaScript values and plain objects that the client core passes around.
 *
 * A plain object is modelled as its own enumerable properties in insertion
 * order, a sequence of key/value entries.  Reading a property, assigning one
 * and the object spread `{...a, ...b}` are defined on that sequence.
 */
module JsValues {
  import opened Results

  /** The values the core stores in its parameter objects. */
  datatype Value = Undefined | Str(s: string) | Num(n: int)

  /** The ten decimal digits, indexed by their value. */
  const DIGITS: string := "0123456789"

  /** Decimal notation of a natural number, as `String(n)` writes it. */
  function NaturalDecimal(n: nat): (r: string)
    ensures r != []
    ensures forall i :: 0 <= i < |r| ==> r[i] in DIGITS
    decreases n
  {
    if n < 10 then [DIGITS[n]] else NaturalDecimal(n / 10) + [DIGITS[n % 10]]
  }

  /** Decimal notation of an integer, as `String(n)` writes it. */
  function Decimal(n: int): (r: string)
    ensures r != []
  {
    if n < 0 then "-" + NaturalDecimal(-n) else NaturalDecimal(n)
  }

  /** `String(v)`. */
  function ToJsString(v: Value): string {
    match v
    case Undefined => "undefined"
    case Str(s) => s
    case Num(n) => Decimal(n)
  }

  /** JavaScript truthiness of a value. */
  predicate Truthy(v: Value) {
    match v
    case Undefined => false
    case Str(s) => s != ""
    case Num(n) => n != 0
  }

  /** An optional string property read from a record: missing reads as `undefined`. */
  function OptValue(o: Option<string>): Value {
    match o
    case Some(s) => Str(s)
    case None => Undefined
  }

  /** A plain object: its properties in insertion order. */
  type Entries = seq<(string, Value)>

  /** `Object.keys(o)`. */
  function Keys(o: Entries): (ks: seq<string>)
    ensures |ks| == |o|
    ensures forall i :: 0 <= i < |o| ==> ks[i] == o[i].0
  {
    if o == [] then [] else [o[0].0] + Keys(o[1..])
  }

  /** An object never holds two properties with the same key. */
  predicate DistinctKeys(o: Entries) {
    forall i, j :: 0 <= i < j < |o| ==> o[i].0 != o[j].0
  }

  /** The property `k` of `o`, if `o` has one. */
  function Lookup(o: Entries, k: string): (r: Option<Value>)
    ensures r.Some? <==> k in Keys(o)
  {
    if o == [] then None
    else if o[0].0 == k then Some(o[0].1)
    else Lookup(o[1..], k)
  }

  /** `o[k]`: `undefined` when `o` has no property `k`. */
  function Get(o: Entries, k: string): Value {
    Lookup(o, k).GetOr(Undefined)
  }

  /**
   * The value the LAST entry with key `k` carries.  Building an object from
   * entries (`Object.fromEntries`, or spreading them) keeps that one.
   */
  function LastValue(o: Entries, k: string): (r: Option<Value>)
    ensures r.Some? <==> k in Keys(o)
  {
    if o == [] then None
    else
      var later := LastValue(o[1..], k);
      if later.Some? then later
      else if o[0].0 == k then Some(o[0].1)
      else None
  }

  /** The assignment `o[k] = v`: an existing property keeps its place. */
  function Put(o: Entries, k: string, v: Value): (r: Entries)
  {
    if o == [] then [(k, v)]
    else if o[0].0 == k then [(k, v)] + o[1..]
    else [o[0]] + Put(o[1..], k, v)
  }

  /** The object spread `{...a, ...b}`: the entries of `b` assigned in order onto `a`. */
  function Spread(a: Entries, b: Entries): Entries
    decreases |b|
  {
    if b == [] then a else Spread(Put(a, b[0].0, b[0].1), b[1..])
  }

  /** `Object.fromEntries(es)`. */
  function FromEntries(es: Entries): Entries {
    Spread([], es)
  }

  lemma {:induction false} PutLookup(o: Entries, k: string, v: Value, q: string)
    ensures Lookup(Put(o, k, v), q) == if q == k then Some(v) else Lookup(o, q)
  {
    if o != [] && o[0].0 != k {
      PutLookup(o[1..], k, v, q);
    }
  }

  /** Assigning a property keeps the old keys in front and adds `k` only when it is new. */
  lemma {:induction false} PutKeys(o: Entries, k: string, v: Value)
    ensures Keys(Put(o, k, v)) == if k in Keys(o) then Keys(o) else Keys(o) + [k]
  {
    if o != [] && o[0].0 != k {
      PutKeys(o[1..], k, v);
      assert Keys(o) == [o[0].0] + Keys(o[1..]);
    }
  }

  lemma {:induction false} PutDistinct(o: Entries, k: string, v: Value)
    requires DistinctKeys(o)
    ensures DistinctKeys(Put(o, k, v))
  {
    PutKeys(o, k, v);
    var r := Put(o, k, v);
    forall i, j | 0 <= i < j < |r| ensures r[i].0 != r[j].0 {
      assert Keys(r)[i] == r[i].0 && Keys(r)[j] == r[j].0;
      if k !in Keys(o) && j == |o| {
        assert Keys(o)[i] == r[i].0;
      } else {
        assert Keys(o)[i] == r[i].0 && Keys(o)[j] == r[j].0;
      }
    }
  }

  /**
   * Spread precedence: a property of `b` (its last value) wins over the one of
   * `a`; a key `b` lacks keeps `a`'s value.
   */
  lemma {:induction false} SpreadLookup(a: Entries, b: Entries, k: string)
    ensures Lookup(Spread(a, b), k) == if k in Keys(b) then LastValue(b, k) else Lookup(a, k)
    decreases |b|
  {
    if b != [] {
      SpreadLookup(Put(a, b[0].0, b[0].1), b[1..], k);
      PutLookup(a, b[0].0, b[0].1, k);
      assert Keys(b) == [b[0].0] + Keys(b[1..]);
    }
  }

  /** Spreading never reorders or drops the properties of `a`: its keys stay a prefix. */
  lemma {:induction false} SpreadKeysPrefix(a: Entries, b: Entries)
    ensures Keys(a) <= Keys(Spread(a, b))
    ensures forall k :: k in Keys(Spread(a, b)) <==> k in Keys(a) || k in Keys(b)
    decreases |b|
  {
    if b != [] {
      PutKeys(a, b[0].0, b[0].1);
      SpreadKeysPrefix(Put(a, b[0].0, b[0].1), b[1..]);
      assert Keys(b) == [b[0].0] + Keys(b[1..]);
    }
  }

  lemma {:induction false} SpreadDistinct(a: Entries, b: Entries)
    requires DistinctKeys(a)
    ensures DistinctKeys(Spread(a, b))
    decreases |b|
  {
    if b != [] {
      PutDistinct(a, b[0].0, b[0].1);
      SpreadDistinct(Put(a, b[0].0, b[0].1), b[1..]);
    }
  }

  /** In an object, the first and the last entry of a key are the same entry. */
  lemma {:induction false} LastValueDistinct(o: Entries, k: string)
    requires DistinctKeys(o)
    ensures LastValue(o, k) == Lookup(o, k)
  {
    if o != [] {
      assert DistinctKeys(o[1..]);
      LastValueDistinct(o[1..], k);
      if o[0].0 == k {
        assert k !in Keys(o[1..]);
      }
    }
  }

  /** A property that is in `o` is found with its value. */
  lemma {:induction false} LookupAt(o: Entries, i: nat)
    requires DistinctKeys(o) && i < |o|
    ensures Lookup(o, o[i].0) == Some(o[i].1)
  {
    if i > 0 {
      assert DistinctKeys(o[1..]);
      assert o[1..][i - 1] == o[i];
      LookupAt(o[1..], i - 1);
    }
  }
}
