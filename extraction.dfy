/**
  The field-text extractor (`extractTexts`, `getTextAtPath`): for each put with a
  value that is neither `null` nor excluded from indexing, read the text at every
  configured path and file it under that text, with the put's namespace, key and
  a `<path>.<i>` tag; texts are grouped by their exact string.
 */
module Extraction {
  import opened Wrappers
  import opened Text
  import opened Json
  import opened Config

  /** A put's `index` field: absent, `false`, or a list of paths (which is ignored). */
  datatype IndexOverride = DefaultIndex | NoIndex | Fields(paths: seq<string>)

  /** What the extractor reads of a put; `JNull` is the `null` value of a delete. */
  datatype PutRequest = PutRequest(namespace: seq<string>, key: string, value: Json, index: IndexOverride)

  /** `[op.namespace, op.key, "<path>.<i>"]` */
  datatype Provenance = Provenance(namespace: seq<string>, key: string, tag: string)

  /** One text to embed and what it came from. */
  datatype Emission = Emission(text: string, origin: Provenance)

  /** The `toEmbed` dictionary: its keys in the order they were added, and each
      key's list of origins. */
  datatype TextTable = TextTable(texts: seq<string>, provenance: map<string, seq<Provenance>>)

  // ---------------------------------------------------------------------------
  // getTextAtPath

  /** The value reached by reading `path` one key at a time, each read made only on
      an array or an object; `None` for `undefined` or a read off anything else. */
  function Resolve(v: Json, path: seq<string>): Option<Json>
    decreases |path|
  {
    if path == [] then Some(v)
    else if !IsObject(v) then None
    else
      match Member(v, path[0])
      case None => None
      case Some(w) => Resolve(w, path[1..])
  }

  /** The value of `getTextAtPath(obj, path)`. */
  function TextsAt(ser: Serializers, obj: Json, path: seq<string>): (r: seq<string>)
    ensures |r| <= 1
  {
    if path != [] && path[0] == "$" then [ser.stringify(obj)]
    else
      match Resolve(obj, path)
      case None => []
      case Some(w) => [ToText(ser, w)]
  }

  /** `getTextAtPath`: the walk down the path. */
  method GetTextAtPath(ser: Serializers, obj: Json, path: seq<string>) returns (texts: seq<string>)
    ensures texts == TextsAt(ser, obj, path)
  {
    if path != [] && path[0] == "$" {
      return [ser.stringify(obj)];
    }
    var current: Option<Json> := Some(obj);
    for i := 0 to |path|
      invariant Resolve(obj, path) == (if current.Some? then Resolve(current.value, path[i..]) else None)
    {
      if current.Some? && IsObject(current.value) {
        assert path[i..][1..] == path[i + 1..];
        current := Member(current.value, path[i]);
      } else {
        return [];
      }
    }
    if current.Some? {
      texts := [ToText(ser, current.value)];
    } else {
      texts := [];
    }
  }

  /** Reading `p + q` is reading `p`, then `q` from where `p` led. */
  lemma {:induction false} ResolveAppend(v: Json, p: seq<string>, q: seq<string>)
    ensures Resolve(v, p + q) == match Resolve(v, p) case None => None case Some(w) => Resolve(w, q)
    decreases |p|
  {
    if p == [] {
      assert p + q == q;
    } else {
      assert (p + q)[0] == p[0] && (p + q)[1..] == p[1..] + q;
      if IsObject(v) && Member(v, p[0]).Some? {
        ResolveAppend(Member(v, p[0]).value, p[1..], q);
      }
    }
  }

  /** A path other than `$` yields no text when some proper prefix of it leads to a
      value that is not an array or an object, or to `undefined`. */
  lemma BlockedPath(ser: Serializers, obj: Json, path: seq<string>, k: nat)
    requires path != [] && path[0] != "$"
    requires k < |path|
    requires Resolve(obj, path[..k]).None? || !IsObject(Resolve(obj, path[..k]).value)
    ensures TextsAt(ser, obj, path) == []
  {
    ResolveAppend(obj, path[..k], path[k..]);
    assert path[..k] + path[k..] == path;
  }

  /** A path other than `$` yields the text of the value it leads to, if any. */
  lemma ReachedPath(ser: Serializers, obj: Json, path: seq<string>)
    requires path == [] || path[0] != "$"
    ensures Resolve(obj, path).None? ==> TextsAt(ser, obj, path) == []
    ensures Resolve(obj, path).Some? ==> TextsAt(ser, obj, path) == [ToText(ser, Resolve(obj, path).value)]
  {
  }

  /** `{"a": {"b": s}}` read at `a.b` gives `s`. */
  lemma NestedPathExample(ser: Serializers, a: string, b: string, s: string)
    requires a != "$"
    ensures TextsAt(ser, JObj(map[a := JObj(map[b := JStr(s)])]), [a, b]) == [s]
  {
    var inner := JObj(map[b := JStr(s)]);
    assert [a, b][1..] == [b] && [b][1..] == [];
    assert Resolve(JStr(s), []) == Some(JStr(s));
    assert Resolve(inner, [b]) == Some(JStr(s));
  }

  // ---------------------------------------------------------------------------
  // The dictionary of texts

  const Empty := TextTable([], map[])

  /** `if (!toEmbed[text]) toEmbed[text] = []; toEmbed[text].push(origin)` */
  function Insert(t: TextTable, text: string, origin: Provenance): TextTable {
    if text in t.provenance then TextTable(t.texts, t.provenance[text := t.provenance[text] + [origin]])
    else TextTable(t.texts + [text], t.provenance[text := [origin]])
  }

  /** The dictionary after filing each emission in turn. */
  function InsertAll(em: seq<Emission>): TextTable {
    if em == [] then Empty
    else
      var e := em[|em| - 1];
      Insert(InsertAll(em[..|em| - 1]), e.text, e.origin)
  }

  function TextsOf(em: seq<Emission>): (r: seq<string>)
    ensures |r| == |em| && forall i :: 0 <= i < |em| ==> r[i] == em[i].text
  {
    seq(|em|, i requires 0 <= i < |em| => em[i].text)
  }

  /** The distinct elements of `s` in the order of their first occurrence. */
  function Distinct(s: seq<string>): seq<string> {
    if s == [] then []
    else
      var d := Distinct(s[..|s| - 1]);
      if s[|s| - 1] in d then d else d + [s[|s| - 1]]
  }

  /** The origins filed under `text`, in the order they were filed. */
  function OriginsOf(em: seq<Emission>, text: string): seq<Provenance> {
    if em == [] then []
    else OriginsOf(em[..|em| - 1], text) + (if em[|em| - 1].text == text then [em[|em| - 1].origin] else [])
  }

  predicate NoDuplicates(s: seq<string>) {
    forall i, j :: 0 <= i < j < |s| ==> s[i] != s[j]
  }

  lemma TextsOfSnoc(em: seq<Emission>)
    requires em != []
    ensures TextsOf(em)[..|em| - 1] == TextsOf(em[..|em| - 1])
    ensures TextsOf(em)[|em| - 1] == em[|em| - 1].text
  {
  }

  /** `Distinct` keeps each element once. */
  lemma {:induction false} DistinctSpec(s: seq<string>)
    ensures NoDuplicates(Distinct(s))
    ensures forall x :: x in Distinct(s) <==> x in s
  {
    if s != [] {
      var init, last := s[..|s| - 1], s[|s| - 1];
      DistinctSpec(init);
      assert s == init + [last];
      var d := Distinct(init);
      if last !in d {
        var r := d + [last];
        forall i, j | 0 <= i < j < |r| ensures r[i] != r[j] {
          if j < |d| {
            assert r[i] == d[i] && r[j] == d[j];
          } else {
            assert r[i] == d[i] && d[i] in d;
          }
        }
      }
    }
  }

  /** The dictionary's keys, in order, are the distinct texts in order of first occurrence. */
  lemma {:induction false} InsertAllKeys(em: seq<Emission>)
    ensures InsertAll(em).texts == Distinct(TextsOf(em))
    ensures forall x :: x in InsertAll(em).provenance <==> x in InsertAll(em).texts
  {
    if em != [] {
      var init := em[..|em| - 1];
      InsertAllKeys(init);
      TextsOfSnoc(em);
    }
  }

  /** Each key holds the origins of the emissions of its text, in order. */
  lemma {:induction false} InsertAllOrigins(em: seq<Emission>, x: string)
    ensures x in InsertAll(em).provenance ==> InsertAll(em).provenance[x] == OriginsOf(em, x)
    ensures x !in InsertAll(em).provenance ==> OriginsOf(em, x) == []
  {
    if em != [] {
      var init := em[..|em| - 1];
      InsertAllOrigins(init, x);
    }
  }

  /**
    Grouping by exact text: the dictionary's keys are the distinct emitted texts in
    the order each first appears, and each key holds the origins of exactly the
    emissions of that text, in order; no key has an empty list.
   */
  lemma InsertAllGroups(em: seq<Emission>)
    ensures var t := InsertAll(em);
      && t.texts == Distinct(TextsOf(em))
      && NoDuplicates(t.texts)
      && (forall x :: x in t.provenance <==> x in t.texts)
      && (forall x :: x in t.provenance <==> x in TextsOf(em))
      && (forall x :: x in t.provenance ==> t.provenance[x] == OriginsOf(em, x) && t.provenance[x] != [])
  {
    var t := InsertAll(em);
    InsertAllKeys(em);
    DistinctSpec(TextsOf(em));
    forall x | x in t.provenance ensures t.provenance[x] == OriginsOf(em, x) && t.provenance[x] != [] {
      InsertAllOrigins(em, x);
      OriginsOfPresent(em, x);
    }
  }

  lemma {:induction false} OriginsOfPresent(em: seq<Emission>, x: string)
    requires x in TextsOf(em)
    ensures OriginsOf(em, x) != []
  {
    var init := em[..|em| - 1];
    TextsOfSnoc(em);
    assert TextsOf(em) == TextsOf(init) + [em[|em| - 1].text];
    if em[|em| - 1].text != x {
      OriginsOfPresent(init, x);
    }
  }

  // ---------------------------------------------------------------------------
  // extractTexts

  /** The texts at one path, tagged `<path>.<i>`. */
  function TagTexts(op: PutRequest, name: string, texts: seq<string>): (r: seq<Emission>)
    ensures |r| == |texts|
  {
    if texts == [] then []
    else
      var n := |texts| - 1;
      TagTexts(op, name, texts[..n]) + [Emission(texts[n], Provenance(op.namespace, op.key, name + "." + NatToString(n)))]
  }

  /** The emissions of one put over the paths, path after path. */
  function PathEmissions(ser: Serializers, op: PutRequest, paths: seq<FieldPath>): seq<Emission> {
    if paths == [] then []
    else
      var p := paths[|paths| - 1];
      PathEmissions(ser, op, paths[..|paths| - 1]) + TagTexts(op, p.path, TextsAt(ser, op.value, p.segments))
  }

  /** Nothing for a delete or for a put excluded from indexing. */
  function OpEmissions(ser: Serializers, paths: seq<FieldPath>, op: PutRequest): seq<Emission> {
    if op.value == JNull || op.index == NoIndex then [] else PathEmissions(ser, op, paths)
  }

  /** The emissions of the puts, put after put. */
  function Emissions(ser: Serializers, paths: seq<FieldPath>, ops: seq<PutRequest>): seq<Emission> {
    if ops == [] then []
    else Emissions(ser, paths, ops[..|ops| - 1]) + OpEmissions(ser, paths, ops[|ops| - 1])
  }

  lemma InsertAllSnoc(em: seq<Emission>, e: Emission)
    ensures InsertAll(em + [e]) == Insert(InsertAll(em), e.text, e.origin)
  {
    assert (em + [e])[..|em|] == em;
  }

  lemma InsertAllAppendTag(em: seq<Emission>, op: PutRequest, name: string, texts: seq<string>, c: nat)
    requires c < |texts|
    ensures InsertAll(em + TagTexts(op, name, texts[..c + 1])) ==
      Insert(InsertAll(em + TagTexts(op, name, texts[..c])), texts[c], Provenance(op.namespace, op.key, name + "." + NatToString(c)))
  {
    assert texts[..c + 1][..c] == texts[..c];
    var e := Emission(texts[c], Provenance(op.namespace, op.key, name + "." + NatToString(c)));
    assert TagTexts(op, name, texts[..c + 1]) == TagTexts(op, name, texts[..c]) + [e];
    assert em + TagTexts(op, name, texts[..c + 1]) == (em + TagTexts(op, name, texts[..c])) + [e];
    InsertAllSnoc(em + TagTexts(op, name, texts[..c]), e);
  }

  /** `texts.forEach((text, i) => …)`: file each text of one path. */
  method FileTexts(table: TextTable, ghost before: seq<Emission>, op: PutRequest, name: string, texts: seq<string>)
    returns (t: TextTable)
    requires table == InsertAll(before)
    ensures t == InsertAll(before + TagTexts(op, name, texts))
  {
    t := table;
    assert texts[..0] == [];
    assert before + TagTexts(op, name, texts[..0]) == before;
    for c := 0 to |texts|
      invariant t == InsertAll(before + TagTexts(op, name, texts[..c]))
    {
      InsertAllAppendTag(before, op, name, texts, c);
      t := Insert(t, texts[c], Provenance(op.namespace, op.key, name + "." + NatToString(c)));
    }
    assert texts[..|texts|] == texts;
  }

  /** The emissions of the paths up to the `b`-th, then those of the `b`-th. */
  lemma PathEmissionsSnoc(before: seq<Emission>, ser: Serializers, op: PutRequest, paths: seq<FieldPath>, b: nat)
    requires b < |paths|
    ensures before + PathEmissions(ser, op, paths[..b + 1])
         == (before + PathEmissions(ser, op, paths[..b])) + TagTexts(op, paths[b].path, TextsAt(ser, op.value, paths[b].segments))
  {
    assert paths[..b + 1][..b] == paths[..b];
  }

  /** `for (const [path, field] of paths)`: file the texts at each path of one put. */
  method FilePaths(ser: Serializers, table: TextTable, ghost before: seq<Emission>, op: PutRequest, paths: seq<FieldPath>)
    returns (t: TextTable)
    requires table == InsertAll(before)
    ensures t == InsertAll(before + PathEmissions(ser, op, paths))
  {
    t := table;
    assert before + PathEmissions(ser, op, paths[..0]) == before;
    for b := 0 to |paths|
      invariant t == InsertAll(before + PathEmissions(ser, op, paths[..b]))
    {
      var texts := GetTextAtPath(ser, op.value, paths[b].segments);
      ghost var so := before + PathEmissions(ser, op, paths[..b]);
      t := FileTexts(t, so, op, paths[b].path, texts);
      PathEmissionsSnoc(before, ser, op, paths, b);
    }
    assert paths[..|paths|] == paths;
  }

  /** `extractTexts(ops)`: the dictionary of every emission of every put. */
  method ExtractTexts(ser: Serializers, paths: seq<FieldPath>, ops: seq<PutRequest>) returns (table: TextTable)
    ensures table == InsertAll(Emissions(ser, paths, ops))
  {
    table := Empty;
    for a := 0 to |ops|
      invariant table == InsertAll(Emissions(ser, paths, ops[..a]))
    {
      var op := ops[a];
      assert ops[..a + 1][..a] == ops[..a];
      ghost var done := Emissions(ser, paths, ops[..a]);
      if op.value != JNull && op.index != NoIndex {
        table := FilePaths(ser, table, done, op, paths);
      } else {
        assert done + [] == done;
      }
    }
    assert ops[..|ops|] == ops;
  }

  // ---------------------------------------------------------------------------
  // What a single put contributes

  /** A delete or a put with `index: false` contributes nothing. */
  lemma NothingToIndex(ser: Serializers, paths: seq<FieldPath>, op: PutRequest)
    requires op.value == JNull || op.index == NoIndex
    ensures InsertAll(Emissions(ser, paths, [op])) == Empty
  {
    assert [op][..0] == [];
  }

  /** A list of paths given as the put's `index` is read as the default: only
      `false` changes anything. */
  lemma FieldsOverrideIgnored(ser: Serializers, paths: seq<FieldPath>, op: PutRequest, fields: seq<string>)
    requires op.index == DefaultIndex
    ensures OpEmissions(ser, paths, op.(index := Fields(fields))) == OpEmissions(ser, paths, op)
  {
    var op' := op.(index := Fields(fields));
    FieldsOverridePaths(ser, paths, op, op');
  }

  lemma {:induction false} FieldsOverridePaths(ser: Serializers, paths: seq<FieldPath>, op: PutRequest, op': PutRequest)
    requires op'.namespace == op.namespace && op'.key == op.key && op'.value == op.value
    ensures PathEmissions(ser, op', paths) == PathEmissions(ser, op, paths)
    decreases |paths|
  {
    if paths != [] {
      FieldsOverridePaths(ser, paths[..|paths| - 1], op, op');
      var p := paths[|paths| - 1];
      TagTextsSameOrigin(op, op', p.path, TextsAt(ser, op.value, p.segments));
    }
  }

  lemma {:induction false} TagTextsSameOrigin(op: PutRequest, op': PutRequest, name: string, texts: seq<string>)
    requires op'.namespace == op.namespace && op'.key == op.key
    ensures TagTexts(op', name, texts) == TagTexts(op, name, texts)
    decreases |texts|
  {
    if texts != [] {
      TagTextsSameOrigin(op, op', name, texts[..|texts| - 1]);
    }
  }

  /** Without configured fields a put's one text is its serialised value, tagged `$.0`. */
  lemma WholeValue(ser: Serializers, op: PutRequest)
    requires op.value != JNull && op.index != NoIndex
    ensures var t := InsertAll(Emissions(ser, [FieldPath("$", ["$"])], [op]));
      var text := ser.stringify(op.value);
      && t.texts == [text]
      && t.provenance == map[text := [Provenance(op.namespace, op.key, "$.0")]]
  {
    var paths := [FieldPath("$", ["$"])];
    var text := ser.stringify(op.value);
    assert [op][..0] == [] && paths[..0] == [];
    assert TextsAt(ser, op.value, ["$"]) == [text];
    assert [text][..0] == [];
    assert NatToString(0) == "0";
    assert "$" + "." + "0" == "$.0";
    var e := Emission(text, Provenance(op.namespace, op.key, "$.0"));
    assert TagTexts(op, "$", [text]) == [e];
    assert PathEmissions(ser, op, paths) == [] + [e];
    assert OpEmissions(ser, paths, op) == [e];
    assert Emissions(ser, paths, [op]) == [] + [e];
    assert [e][..0] == [];
  }

  /**
    Every emission of a put carries the put's namespace and key, and a tag
    `<path>.0` naming a configured path whose one text it is: a path yields at most
    one text, so the occurrence index is always 0.
   */
  lemma {:induction false} EmissionOrigins(ser: Serializers, op: PutRequest, paths: seq<FieldPath>, e: Emission)
    requires e in PathEmissions(ser, op, paths)
    ensures e.origin.namespace == op.namespace && e.origin.key == op.key
    ensures exists j :: (0 <= j < |paths| && e.origin.tag == paths[j].path + ".0" &&
      TextsAt(ser, op.value, paths[j].segments) == [e.text])
    decreases |paths|
  {
    var n := |paths| - 1;
    var p := paths[n];
    var texts := TextsAt(ser, op.value, p.segments);
    if e in PathEmissions(ser, op, paths[..n]) {
      EmissionOrigins(ser, op, paths[..n], e);
      var j :| 0 <= j < n && e.origin.tag == paths[..n][j].path + ".0" && TextsAt(ser, op.value, paths[..n][j].segments) == [e.text];
      assert paths[..n][j] == paths[j];
    } else {
      assert e in TagTexts(op, p.path, texts);
      assert texts != [] && |texts| == 1;
      assert texts[..0] == [];
      assert NatToString(0) == "0";
      assert e == Emission(texts[0], Provenance(op.namespace, op.key, p.path + "." + "0"));
    }
  }
}
