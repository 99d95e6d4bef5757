/**
  The JSON-like values the store reads and writes (a put's value, a record's
  metadata), the property read `v[key]` the extractor performs, and the object
  spread `{...v}` that copies a value's fields into a record's metadata.
 */
module Json {
  import opened Wrappers
  import opened Text

  datatype Json =
    | JNull
    | JBool(b: bool)
    | JNum(n: real)
    | JStr(s: string)
    | JArr(items: seq<Json>)
    | JObj(fields: map<string, Json>)

  /** `JSON.stringify(v)` and `String(v)` for values other than strings, `null`
      and booleans; the model keeps them abstract. */
  datatype Serializers = Serializers(stringify: Json -> string, display: Json -> string)

  /** `String(v)`: a string is itself; `null` and the booleans print as their names. */
  function ToText(ser: Serializers, v: Json): string {
    match v
    case JStr(s) => s
    case JNull => "null"
    case JBool(b) => if b then "true" else "false"
    case _ => ser.display(v)
  }

  /** `v && typeof v === "object"`: arrays and objects, but not `null`. */
  predicate IsObject(v: Json) {
    v.JArr? || v.JObj?
  }

  predicate IsDigit(c: char) {
    '0' <= c <= '9'
  }

  function DigitValue(c: char): nat
    requires IsDigit(c)
  {
    (c as int - '0' as int) as nat
  }

  /** The number a run of decimal digits denotes. */
  function DigitsValue(s: string): nat
    requires forall i :: 0 <= i < |s| ==> IsDigit(s[i])
  {
    if s == [] then 0 else DigitsValue(s[..|s| - 1]) * 10 + DigitValue(s[|s| - 1])
  }

  /** A canonical array index: decimal digits without a leading zero (other than "0"). */
  predicate IsCanonicalIndex(key: string) {
    && key != []
    && (forall i :: 0 <= i < |key| ==> IsDigit(key[i]))
    && (|key| == 1 || key[0] != '0')
  }

  /** The index a property name denotes on an array, if any. */
  function ParseIndex(key: string): (r: Option<nat>)
    ensures r.Some? ==> NatToString(r.value) == key
  {
    if IsCanonicalIndex(key) then
      NatToStringOfDigits(key);
      Some(DigitsValue(key))
    else None
  }

  lemma {:induction false} NatToStringOfDigits(key: string)
    requires IsCanonicalIndex(key)
    ensures NatToString(DigitsValue(key)) == key
    decreases |key|
  {
    var n := DigitsValue(key);
    var init, last := key[..|key| - 1], key[|key| - 1];
    assert Digit(DigitValue(last)) == last;
    if |key| == 1 {
      assert init == [];
    } else {
      assert IsCanonicalIndex(init) by {
        assert init[0] == key[0];
        if |init| > 1 {
          assert forall i :: 0 <= i < |init| ==> init[i] == key[i];
        }
      }
      NatToStringOfDigits(init);
      var m := DigitsValue(init);
      assert m != 0;
      assert n / 10 == m && n % 10 == DigitValue(last);
      assert key == init + [last];
    }
  }

  /** The decimal text of a number is a canonical index, and it reads back as that
      number. */
  lemma {:induction false} ParseNatToString(n: nat)
    ensures IsCanonicalIndex(NatToString(n))
    ensures ParseIndex(NatToString(n)) == Some(n)
  {
    var s := NatToString(n);
    if n >= 10 {
      ParseNatToString(n / 10);
      var init := NatToString(n / 10);
      assert s[..|s| - 1] == init;
      assert s[0] == init[0];
      assert forall i :: 0 <= i < |s| ==> IsDigit(s[i]) by {
        forall i | 0 <= i < |s| ensures IsDigit(s[i]) {
          if i < |init| {
            assert s[i] == init[i];
          }
        }
      }
      assert DigitValue(Digit(n % 10)) == n % 10;
    } else {
      assert DigitValue(Digit(n)) == n;
      assert s[..0] == [];
    }
  }

  lemma NatToStringInjective(m: nat, n: nat)
    requires NatToString(m) == NatToString(n)
    ensures m == n
  {
    ParseNatToString(m);
    ParseNatToString(n);
  }

  /** `v[key]` on an array or an object; `None` stands for `undefined`. An array has
      its elements at canonical indices and its `length`. */
  function Member(v: Json, key: string): (r: Option<Json>)
    requires IsObject(v)
    ensures v.JObj? ==> (r.Some? <==> key in v.fields) && (r.Some? ==> r.value == v.fields[key])
    ensures v.JArr? && r.Some? ==> key == "length" || exists n: nat :: n < |v.items| && key == NatToString(n)
  {
    match v
    case JObj(m) => if key in m then Some(m[key]) else None
    case JArr(a) =>
      match ParseIndex(key)
      case Some(n) => if n < |a| then assert key == NatToString(n); Some(a[n]) else None
      case None => if key == "length" then Some(JNum(|a| as real)) else None
  }

  /** An array's elements can be read at their indices. */
  lemma MemberAtIndex(items: seq<Json>, n: nat)
    requires n < |items|
    ensures Member(JArr(items), NatToString(n)) == Some(items[n])
  {
    ParseNatToString(n);
  }

  /** The entries `{"0": items[0], …}` of the first `n` elements. */
  function IndexEntries(items: seq<Json>, n: nat): map<string, Json>
    requires n <= |items|
  {
    if n == 0 then map[] else IndexEntries(items, n - 1)[NatToString(n - 1) := items[n - 1]]
  }

  /** The entries are keyed by exactly the indices, each holding its element. */
  lemma {:induction false} IndexEntriesAt(items: seq<Json>, n: nat)
    requires n <= |items|
    ensures IndexEntries(items, n).Keys == set i | 0 <= i < n :: NatToString(i)
    ensures forall i :: 0 <= i < n ==> IndexEntries(items, n)[NatToString(i)] == items[i]
  {
    if n > 0 {
      IndexEntriesAt(items, n - 1);
      var m, prev := IndexEntries(items, n), IndexEntries(items, n - 1);
      IndexKeysStep(n);
      KeysUpdate(m, prev, NatToString(n - 1), items[n - 1]);
      IndexKeyFresh(n);
      IndexEntriesUpdate(m, prev, items, n);
    }
  }

  /** Updating a map adds the key to its keys. */
  lemma KeysUpdate<K, V>(m: map<K, V>, prev: map<K, V>, k: K, v: V)
    requires m == prev[k := v]
    ensures m.Keys == prev.Keys + {k}
  {
  }

  /** The newest index differs from every earlier one. */
  lemma IndexKeyFresh(n: nat)
    requires n > 0
    ensures forall i :: 0 <= i < n - 1 ==> NatToString(i) != NatToString(n - 1)
  {
    forall i | 0 <= i < n - 1 ensures NatToString(i) != NatToString(n - 1) {
      if NatToString(i) == NatToString(n - 1) {
        NatToStringInjective(i, n - 1);
      }
    }
  }

  /** Adding the newest index keeps every earlier entry. */
  lemma IndexEntriesUpdate(m: map<string, Json>, prev: map<string, Json>, items: seq<Json>, n: nat)
    requires 0 < n <= |items| && m == prev[NatToString(n - 1) := items[n - 1]]
    requires forall i :: 0 <= i < n - 1 ==> NatToString(i) in prev && prev[NatToString(i)] == items[i]
    requires forall i :: 0 <= i < n - 1 ==> NatToString(i) != NatToString(n - 1)
    ensures forall i :: 0 <= i < n ==> m[NatToString(i)] == items[i]
  {
  }

  /** The decimal indices below `n` are those below `n - 1` and `n - 1`'s own. */
  lemma IndexKeysStep(n: nat)
    requires n > 0
    ensures (set i | 0 <= i < n :: NatToString(i)) == (set i | 0 <= i < n - 1 :: NatToString(i)) + {NatToString(n - 1)}
  {
    var prev := set i | 0 <= i < n - 1 :: NatToString(i);
    var cur := set i | 0 <= i < n :: NatToString(i);
    forall x | x in cur ensures x in prev || x == NatToString(n - 1) {
      var i :| 0 <= i < n && x == NatToString(i);
      if i < n - 1 {
        assert x in prev;
      }
    }
    forall x | x in prev ensures x in cur {
      var i :| 0 <= i < n - 1 && x == NatToString(i);
      assert NatToString(i) in cur;
    }
    assert NatToString(n - 1) in cur;
  }

  function Chars(s: string): seq<Json> {
    if s == [] then [] else [JStr([s[0]])] + Chars(s[1..])
  }

  /** `{...v}`: an object's own fields, an array's or a string's elements under their
      indices, and nothing for `null`, booleans and numbers. */
  function Spread(v: Json): map<string, Json> {
    match v
    case JObj(m) => m
    case JArr(a) => IndexEntries(a, |a|)
    case JStr(s) => IndexEntries(Chars(s), |Chars(s)|)
    case _ => map[]
  }
}
