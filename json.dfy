/** The values `JSON.parse` can return, as far as the embed pages look at
    them: their JavaScript truthiness and the properties an object spread
    (`{...x}`) copies out of them. */
module Json {
  import opened NumberText

  /** A parsed JSON value. Numbers are integers here (see README). */
  datatype Json =
    | JNull
    | JBool(b: bool)
    | JNum(n: int)
    | JStr(s: string)
    | JArr(items: seq<Json>)
    | JObj(fields: map<string, Json>)

  /** JavaScript truthiness: `null`, `false`, `0` and `""` are falsy. */
  predicate Truthy(j: Json)
    ensures Truthy(j) <==> j != JNull && j != JBool(false) && j != JNum(0) && j != JStr("")
  {
    match j
    case JNull => false
    case JBool(b) => b
    case JNum(n) => n != 0
    case JStr(s) => s != ""
    case _ => true
  }

  /** The own enumerable properties that `{...j}` copies: an object's fields,
      an array's elements and a string's characters under their decimal index,
      and nothing for `null`, booleans and numbers. */
  function SpreadEntries(j: Json): (m: map<string, Json>)
    ensures j.JObj? ==> m == j.fields
    ensures j.JArr? ==> forall i :: 0 <= i < |j.items| ==> DecimalString(i) in m && m[DecimalString(i)] == j.items[i]
    ensures j.JArr? ==> forall k :: k in m ==> IsIndexKey(k, |j.items|)
    ensures j.JStr? ==> m == IndexedEntries(Characters(j.s))
    ensures j.JNull? || j.JBool? || j.JNum? ==> m == map[]
  {
    match j
    case JObj(fields) => fields
    case JArr(items) => IndexedEntries(items)
    case JStr(s) => IndexedEntries(Characters(s))
    case _ => map[]
  }

  /** A string's characters, each as a one-character string. */
  function Characters(s: string): (cs: seq<Json>)
    ensures |cs| == |s| && forall i :: 0 <= i < |s| ==> cs[i] == JStr([s[i]])
  {
    seq(|s|, i requires 0 <= i < |s| => JStr([s[i]]))
  }

  /** The properties of an array: element `i` under the key `String(i)`,
      and no others. */
  function IndexedEntries(items: seq<Json>): (m: map<string, Json>)
    ensures forall i :: 0 <= i < |items| ==> DecimalString(i) in m && m[DecimalString(i)] == items[i]
    ensures forall k :: k in m ==> IsIndexKey(k, |items|)
  {
    IndexMapValues(items);
    IndexMapKeys(items);
    IndexMap(items)
  }

  /** `k` is `String(i)` for an index `i < n`: it is made of digits, and it is
      the decimal spelling of the number it denotes, which is below `n`. */
  predicate IsIndexKey(k: string, n: nat) {
    AllDigits(k, 10) && DigitsValue(k, 10) < n && k == DecimalString(DigitsValue(k, 10))
  }

  lemma {:induction false} IndexKeyIsIndexString(k: string, n: nat)
    ensures IsIndexKey(k, n) <==> exists i :: 0 <= i < n && k == DecimalString(i)
  {
    if k0: nat :| k0 < n && k == DecimalString(k0) {
      assert DigitsValue(k, 10) == k0;
      assert exists i :: 0 <= i < n && k == DecimalString(i);
    }
  }

  function IndexMap(items: seq<Json>): map<string, Json> {
    map i | 0 <= i < |items| :: DecimalString(i) := items[i]
  }

  lemma {:induction false} IndexMapValues(items: seq<Json>)
    ensures forall i :: 0 <= i < |items| ==> DecimalString(i) in IndexMap(items) && IndexMap(items)[DecimalString(i)] == items[i]
  {
    var m := IndexMap(items);
    forall i | 0 <= i < |items| ensures DecimalString(i) in m && m[DecimalString(i)] == items[i] {
      var i' :| 0 <= i' < |items| && DecimalString(i') == DecimalString(i) && m[DecimalString(i)] == items[i'];
      DecimalStringInjective(i', i);
    }
  }

  lemma {:induction false} IndexMapKeys(items: seq<Json>)
    ensures forall k :: k in IndexMap(items) ==> IsIndexKey(k, |items|)
  {
    forall k | k in IndexMap(items) ensures IsIndexKey(k, |items|) {
      var i :| 0 <= i < |items| && DecimalString(i) == k;
    }
  }

  /** Spreading anything but an object never supplies a key that starts
      with a non-digit, such as a field name of the assignment. */
  lemma {:induction false} SpreadOfNonObjectHasOnlyIndexKeys(j: Json, key: string)
    requires !j.JObj?
    requires key == [] || !IsDecimalDigit(key[0])
    ensures key !in SpreadEntries(j)
  {
  }
}
