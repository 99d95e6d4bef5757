/**
  The operations a batch carries, how the batch tells them apart by their fields,
  and the rules of the storage adapter stated on values: the documents a put
  writes, the state change a put makes, the decoding of search hits and of
  scanned namespaces, and what an answer to each kind of operation must be.
 */
module Operations {
  import opened Wrappers
  import opened Text
  import opened Json
  import opened Matcher
  import opened Keys
  import opened Config
  import opened Extraction
  import opened Chunker
  import opened Backend

  /** An operation as a bag of optional fields: `None` is a field that is not
      there. `matchConditions` can be there and hold `undefined`, as the
      `listNamespaces` wrapper writes it. An absent `index` is `DefaultIndex`. */
  datatype Operation = Operation(
    namespace: Option<seq<string>>,
    key: Option<string>,
    value: Option<Json>,
    index: IndexOverride,
    namespacePrefix: Option<seq<string>>,
    query: Option<string>,
    filter: Option<map<string, Json>>,
    limit: Option<int>,
    offset: Option<int>,
    matchConditions: Option<Option<seq<MatchCondition>>>,
    maxDepth: Option<int>)

  const NoFields := Operation(None, None, None, DefaultIndex, None, None, None, None, None, None, None)

  datatype Kind = PutKind | GetKind | SearchKind | ListKind | Unrecognised

  /** The batch's test of an operation's shape, in the order the batch applies it. */
  function Classify(op: Operation): (k: Kind)
    ensures k == PutKind <==> op.key.Some? && op.namespace.Some? && op.value.Some?
    ensures k == GetKind <==> op.key.Some? && op.namespace.Some? && op.value.None?
    ensures k == SearchKind <==> !(op.key.Some? && op.namespace.Some?) && op.namespacePrefix.Some?
    ensures k == ListKind <==> !(op.key.Some? && op.namespace.Some?) && op.namespacePrefix.None? && op.matchConditions.Some?
  {
    if op.key.Some? && op.namespace.Some? then (if op.value.Some? then PutKind else GetKind)
    else if op.namespacePrefix.Some? then SearchKind
    else if op.matchConditions.Some? then ListKind
    else Unrecognised
  }

  function AsPut(op: Operation): PutRequest
    requires Classify(op) == PutKind
  {
    PutRequest(op.namespace.value, op.key.value, op.value.value, op.index)
  }

  /** `op.query ?? ""` */
  function QueryOf(op: Operation): string {
    if op.query.Some? then op.query.value else ""
  }

  /** `op.limit ?? 10`, the number of hits a search asks for. */
  function SearchLimit(op: Operation): int {
    if op.limit.Some? then op.limit.value else 10
  }

  /** `op.limit || 10`: zero, like a missing limit, becomes 10. */
  function ScanLimit(op: Operation): int {
    if op.limit.Some? && op.limit.value != 0 then op.limit.value else 10
  }

  /** `op.offset || 0` */
  function ScanOffset(op: Operation): int {
    if op.offset.Some? then op.offset.value else 0
  }

  /** The conditions the filter tests: none when the field is absent or `undefined`. */
  function ConditionsOf(op: Operation): Option<seq<MatchCondition>> {
    if op.matchConditions.Some? then op.matchConditions.value else None
  }

  // ---------------------------------------------------------------------------
  // What a put writes

  /** The metadata of one chunk: the value's own fields, then the reserved fields,
      which win over same-named fields of the value. */
  function ChunkMetadata(req: PutRequest, field: string, index: nat, total: nat): map<string, Json> {
    Spread(req.value)
      ["key" := JStr(Composite(req.namespace, req.key))]
      ["namespace" := JStr(EncodeNamespace(req.namespace))]
      ["field" := JStr(field)]
      ["chunkIndex" := JNum(index as real)]
      ["totalChunks" := JNum(total as real)]
  }

  predicate Reserved(k: string) {
    k == "key" || k == "namespace" || k == "field" || k == "chunkIndex" || k == "totalChunks"
  }

  /** The reserved fields hold the chunk's bookkeeping whatever the value holds;
      every other field is the value's. */
  lemma ChunkMetadataFields(req: PutRequest, field: string, index: nat, total: nat)
    ensures var md := ChunkMetadata(req, field, index, total);
      && "key" in md && "namespace" in md && "field" in md && "chunkIndex" in md && "totalChunks" in md
      && md["key"] == JStr(Composite(req.namespace, req.key))
      && md["namespace"] == JStr(EncodeNamespace(req.namespace))
      && md["field"] == JStr(field)
      && md["chunkIndex"] == JNum(index as real)
      && md["totalChunks"] == JNum(total as real)
      && (forall k :: !Reserved(k) ==> (k in md <==> k in Spread(req.value)))
      && (forall k :: !Reserved(k) && k in md ==> md[k] == Spread(req.value)[k])
  {
  }

  /** One document per chunk, numbered from 0, each knowing the number of chunks. */
  function ChunkDocs(req: PutRequest, field: string, chunks: seq<string>): (r: seq<Doc>)
    ensures |r| == |chunks|
  {
    seq(|chunks|, i requires 0 <= i < |chunks| => Doc(chunks[i], ChunkMetadata(req, field, i, |chunks|)))
  }

  /** The `i`-th document knows its place among the chunks, the field tag, the
      composite key and the encoded namespace. */
  lemma ChunkDocsFields(req: PutRequest, field: string, chunks: seq<string>, i: nat)
    requires i < |chunks|
    ensures ChunkDocs(req, field, chunks)[i].pageContent == chunks[i]
    ensures var md := ChunkDocs(req, field, chunks)[i].metadata;
      && "key" in md && "namespace" in md && "field" in md && "chunkIndex" in md && "totalChunks" in md
      && md["chunkIndex"] == JNum(i as real)
      && md["totalChunks"] == JNum(|chunks| as real)
      && md["field"] == JStr(field)
      && md["key"] == JStr(Composite(req.namespace, req.key))
      && md["namespace"] == JStr(EncodeNamespace(req.namespace))
  {
    ChunkMetadataFields(req, field, i, |chunks|);
  }

  /** Every text of the dictionary has a non-empty list of origins. */
  predicate Filed(t: TextTable) {
    forall x :: x in t.texts ==> x in t.provenance && t.provenance[x] != []
  }

  /** The field tag of a text: the tag of its first origin. Every text of a filed
      table has one; the empty tag stands in for a text the table does not hold. */
  function FirstTag(t: TextTable, x: string): string {
    if x in t.provenance && t.provenance[x] != [] then t.provenance[x][0].tag else ""
  }

  /** The chunks of each of the given texts, in order. */
  function Plan(texts: seq<string>, max: int): seq<seq<string>> {
    seq(|texts|, k requires 0 <= k < |texts| => Chunk(texts[k], max))
  }

  /** The documents of the given texts, text after text, when each text is cut
      into the chunks `plan` holds for it; each chunk is tagged with the first
      origin's field tag of its text. */
  function DocsFrom(req: PutRequest, t: TextTable, texts: seq<string>, plan: seq<seq<string>>): seq<Doc>
    requires |plan| == |texts|
  {
    if texts == [] then []
    else
      var n := |texts| - 1;
      DocsFrom(req, t, texts[..n], plan[..n]) + ChunkDocs(req, FirstTag(t, texts[n]), plan[n])
  }

  /** The documents of the given texts, each text chunked by `chunkText`. */
  function DocsOf(max: int, req: PutRequest, t: TextTable, texts: seq<string>): seq<Doc> {
    DocsFrom(req, t, texts, Plan(texts, max))
  }

  /** Chunking one more text extends the plan by its chunks. */
  lemma PlanSnoc(texts: seq<string>, i: nat, max: int, plan: seq<seq<string>>, chunks: seq<string>)
    requires i < |texts| && plan == Plan(texts[..i], max) && chunks == Chunk(texts[i], max)
    ensures plan + [chunks] == Plan(texts[..i + 1], max)
  {
    var next := Plan(texts[..i + 1], max);
    forall k | 0 <= k < i + 1 ensures (plan + [chunks])[k] == next[k] {
      if k < i {
        assert texts[..i][k] == texts[..i + 1][k];
      }
    }
  }

  /** The documents of the texts up to the `i`-th, then those of the `i`-th. */
  lemma DocsFromSnoc(req: PutRequest, t: TextTable, i: nat, plan: seq<seq<string>>, chunks: seq<string>)
    requires i < |t.texts| && |plan| == i
    ensures DocsFrom(req, t, t.texts[..i + 1], plan + [chunks])
         == DocsFrom(req, t, t.texts[..i], plan) + ChunkDocs(req, FirstTag(t, t.texts[i]), chunks)
  {
    assert t.texts[..i + 1][..i] == t.texts[..i];
    assert (plan + [chunks])[..i] == plan;
  }

  /** The dictionary a put's value yields. */
  function TableOf(s: Settings, ser: Serializers, req: PutRequest): (t: TextTable)
    ensures Filed(t)
  {
    var em := Emissions(ser, Paths(s), [req]);
    InsertAllGroups(em);
    InsertAll(em)
  }

  /** The documents a put with a value other than `null` writes, in order. */
  function PutDocs(s: Settings, ser: Serializers, req: PutRequest): seq<Doc> {
    var t := TableOf(s, ser, req);
    DocsOf(s.maxChunkSize, req, t, t.texts)
  }

  /** The backend's state: its points and the number of points written so far. */
  datatype State = State(records: seq<Record>, issued: nat)

  /** A put: a `null` value deletes the points whose identifier is the composite
      key; any other value appends its documents and deletes nothing. */
  function PutEffect(s: Settings, ser: Serializers, newId: nat -> string, req: PutRequest, st: State): State {
    if req.value == JNull then State(RemoveId(st.records, Composite(req.namespace, req.key)), st.issued)
    else
      var docs := PutDocs(s, ser, req);
      State(st.records + Stamp(docs, newId, st.issued), st.issued + |docs|)
  }

  /** Only puts change the backend. */
  function Step(s: Settings, ser: Serializers, newId: nat -> string, op: Operation, st: State): State {
    if Classify(op) == PutKind then PutEffect(s, ser, newId, AsPut(op), st) else st
  }

  /** The state after the operations, one after the other. */
  function EffectAll(s: Settings, ser: Serializers, newId: nat -> string, st: State, ops: seq<Operation>): State {
    if ops == [] then st
    else Step(s, ser, newId, ops[|ops| - 1], EffectAll(s, ser, newId, st, ops[..|ops| - 1]))
  }

  // ---------------------------------------------------------------------------
  // Reading the backend back

  /** One item of a search's answer; the two timestamps are left out. */
  datatype SearchItem = SearchItem(
    key: string,
    namespace: seq<string>,
    value: map<string, Json>,
    score: real,
    metadata: map<string, Json>)

  /** The mapping of one hit: the key after the last colon, the namespace split at
      colons, and the metadata as both value and metadata. */
  function DecodeHit(h: Hit): Result<SearchItem, StoreError> {
    var md := h.record.doc.metadata;
    match KeyOfMetadata(md)
    case Failure(e) => Failure(e)
    case Success(key) =>
      match NamespaceOfMetadata(md)
      case Failure(e) => Failure(e)
      case Success(ns) => Success(SearchItem(key, ns, md, h.score, md))
  }

  /** `results.map(...)`: the first hit that cannot be decoded throws. */
  function DecodeHits(hits: seq<Hit>): (r: Result<seq<SearchItem>, StoreError>)
    ensures r.Success? <==> forall i :: 0 <= i < |hits| ==> DecodeHit(hits[i]).Success?
    ensures r.Success? ==> |r.value| == |hits| && forall i :: 0 <= i < |hits| ==> r.value[i] == DecodeHit(hits[i]).value
  {
    if hits == [] then Success([])
    else
      match DecodeHit(hits[0])
      case Failure(e) => Failure(e)
      case Success(item) =>
        match DecodeHits(hits[1..])
        case Failure(e) =>
          ghost var i :| 0 <= i < |hits[1..]| && !DecodeHit(hits[1..][i]).Success?;
          assert hits[1..][i] == hits[i + 1];
          Failure(e)
        case Success(items) =>
          assert forall i :: 0 < i < |hits| ==> hits[i] == hits[1..][i - 1];
          Success([item] + items)
  }

  /** The namespaces of the scanned points, in scan order: the first point whose
      namespace field cannot be split throws. */
  function DecodeNamespaces(rs: seq<Record>): (r: Result<seq<seq<string>>, StoreError>)
    ensures r.Success? <==> forall i :: 0 <= i < |rs| ==> NamespaceOfMetadata(rs[i].doc.metadata).Success?
    ensures r.Success? ==> |r.value| == |rs| && forall i :: 0 <= i < |rs| ==> r.value[i] == NamespaceOfMetadata(rs[i].doc.metadata).value
  {
    if rs == [] then Success([])
    else
      match NamespaceOfMetadata(rs[0].doc.metadata)
      case Failure(e) => Failure(e)
      case Success(ns) =>
        match DecodeNamespaces(rs[1..])
        case Failure(e) =>
          ghost var i :| 0 <= i < |rs[1..]| && !NamespaceOfMetadata(rs[1..][i].doc.metadata).Success?;
          assert rs[1..][i] == rs[i + 1];
          Failure(e)
        case Success(nss) =>
          assert forall i :: 0 < i < |rs| ==> rs[i] == rs[1..][i - 1];
          Success([ns] + nss)
  }

  /** `listNamespacesOperation` after the scan: decode every point, then filter. */
  function ListOutcome(conditions: Option<seq<MatchCondition>>, rs: seq<Record>): Result<seq<seq<string>>, StoreError> {
    match DecodeNamespaces(rs)
    case Failure(e) => Failure(e)
    case Success(nss) => FilterNamespaces(conditions, nss)
  }

  /** Points the collection holds, at most `limit` of them when the limit is not negative. */
  predicate Drawn(rs: seq<Record>, records: seq<Record>, limit: int) {
    (forall x :: x in rs ==> x in records) && (limit >= 0 ==> |rs| <= limit)
  }

  /** Hits on points the collection holds, each scored for the query. */
  predicate Scored(hits: seq<Hit>, records: seq<Record>, score: (string, string) -> real, query: string, limit: int) {
    && (forall h :: h in hits ==> h.record in records && h.score == score(query, h.record.doc.pageContent))
    && (limit >= 0 ==> |hits| <= limit)
  }

  /** What `getOperation` may return: nothing exactly when no point carries the
      composite key, and otherwise the payload of one that does. */
  predicate GetAnswer(composite: string, item: Option<Json>, records: seq<Record>) {
    && (item.None? <==> forall x :: x in records ==> !HasKey(x, composite))
    && (item.Some? ==> exists x :: x in records && HasKey(x, composite) && item.value == Payload(x))
  }

  datatype OpResult =
    | PutDone
    | GetDone(item: Option<Json>)
    | SearchDone(items: seq<SearchItem>)
    | ListDone(namespaces: seq<seq<string>>)

  /** What the batch may push for an operation met in state `st`. */
  ghost predicate Answers(op: Operation, res: OpResult, st: State, score: (string, string) -> real) {
    match Classify(op)
    case PutKind => res == PutDone
    case GetKind => res.GetDone? && GetAnswer(Composite(op.namespace.value, op.key.value), res.item, st.records)
    case SearchKind => res.SearchDone? && exists hits ::
        Scored(hits, st.records, score, QueryOf(op), SearchLimit(op)) && DecodeHits(hits) == Success(res.items)
    case ListKind => res.ListDone? && exists rs ::
        Drawn(rs, st.records, ScanLimit(op)) && ListOutcome(ConditionsOf(op), rs) == Success(res.namespaces)
    case Unrecognised => false
  }

  /** How the batch may throw at an operation met in state `st`: a search whose hits
      cannot be decoded, or a listing whose namespaces cannot be decoded or filtered. */
  ghost predicate Throws(op: Operation, e: StoreError, st: State, score: (string, string) -> real) {
    match Classify(op)
    case SearchKind => exists hits ::
        Scored(hits, st.records, score, QueryOf(op), SearchLimit(op)) && DecodeHits(hits) == Failure(e)
    case ListKind => exists rs ::
        Drawn(rs, st.records, ScanLimit(op)) && ListOutcome(ConditionsOf(op), rs) == Failure(e)
    case _ => false
  }

  /** The positions of the operations that push a result, in order. */
  function Positions(ops: seq<Operation>): (r: seq<nat>)
    ensures forall j :: 0 <= j < |r| ==> r[j] < |ops|
  {
    if ops == [] then []
    else Positions(ops[..|ops| - 1]) + (if Classify(ops[|ops| - 1]) != Unrecognised then [|ops| - 1] else [])
  }

  // ---------------------------------------------------------------------------
  // Properties

  /** A batch of one operation: its effect is that operation's, and it pushes one
      result unless the operation is of no recognised shape. */
  lemma BatchOfOne(s: Settings, ser: Serializers, newId: nat -> string, st: State, op: Operation)
    ensures [op][..0] == []
    ensures EffectAll(s, ser, newId, st, [op]) == Step(s, ser, newId, op, st)
    ensures Positions([op]) == (if Classify(op) != Unrecognised then [0] else [])
  {
    assert [op][..0] == [];
  }


  /** The positions are those of exactly the recognised operations, in increasing order. */
  lemma {:induction false} PositionsSpec(ops: seq<Operation>)
    ensures forall j, k :: 0 <= j < k < |Positions(ops)| ==> Positions(ops)[j] < Positions(ops)[k]
    ensures forall i :: 0 <= i < |ops| ==> (i in Positions(ops) <==> Classify(ops[i]) != Unrecognised)
  {
    if ops != [] {
      var n := |ops| - 1;
      var init := ops[..n];
      PositionsSpec(init);
      forall i | 0 <= i < n ensures ops[i] == init[i] { }
    }
  }

  /** Every document written for the texts, however they are cut, carries the
      put's composite key and encoded namespace. */
  lemma {:induction false} DocsFromKeys(req: PutRequest, t: TextTable, texts: seq<string>, plan: seq<seq<string>>)
    requires |plan| == |texts|
    ensures forall d :: d in DocsFrom(req, t, texts, plan) ==>
      && "key" in d.metadata && d.metadata["key"] == JStr(Composite(req.namespace, req.key))
      && "namespace" in d.metadata && d.metadata["namespace"] == JStr(EncodeNamespace(req.namespace))
  {
    if texts != [] {
      var n := |texts| - 1;
      DocsFromKeys(req, t, texts[..n], plan[..n]);
      var cd := ChunkDocs(req, FirstTag(t, texts[n]), plan[n]);
      forall d | d in cd ensures d.metadata["key"] == JStr(Composite(req.namespace, req.key)) {
        var i :| 0 <= i < |cd| && cd[i] == d;
        ChunkDocsFields(req, FirstTag(t, texts[n]), plan[n], i);
      }
    }
  }

  lemma PutDocsKeys(s: Settings, ser: Serializers, req: PutRequest)
    ensures forall d :: d in PutDocs(s, ser, req) ==>
      && "key" in d.metadata && d.metadata["key"] == JStr(Composite(req.namespace, req.key))
      && "namespace" in d.metadata && d.metadata["namespace"] == JStr(EncodeNamespace(req.namespace))
  {
    var t := TableOf(s, ser, req);
    DocsFromKeys(req, t, t.texts, Plan(t.texts, s.maxChunkSize));
  }

  /** A search hit on a point a put wrote decodes to the put's key and namespace,
      when the namespace is non-empty and no segment nor the key holds a colon. */
  lemma SearchRoundTrip(s: Settings, ser: Serializers, req: PutRequest, id: string, d: Doc, score: real)
    requires d in PutDocs(s, ser, req)
    requires req.namespace != [] && ColonFree(req.namespace) && ':' !in req.key
    ensures DecodeHit(Hit(Record(id, d), score)) == Success(SearchItem(req.key, req.namespace, d.metadata, score, d.metadata))
  {
    PutDocsKeys(s, ser, req);
    KeyRoundTrip(req.namespace, req.key);
    NamespaceRoundTrip(req.namespace);
  }

  /** A listing that scans a point a put wrote sees the put's namespace, under the
      same conditions on colons. */
  lemma ListRoundTrip(s: Settings, ser: Serializers, req: PutRequest, d: Doc)
    requires d in PutDocs(s, ser, req)
    requires req.namespace != [] && ColonFree(req.namespace)
    ensures NamespaceOfMetadata(d.metadata) == Success(req.namespace)
  {
    PutDocsKeys(s, ser, req);
    NamespaceRoundTrip(req.namespace);
  }

  /** After a put that writes at least one document, a get of the same namespace
      and key finds a point: any answer `getOperation` may give is the payload of a
      point carrying the composite key. */
  lemma GetAfterPut(s: Settings, ser: Serializers, newId: nat -> string, req: PutRequest, st: State, item: Option<Json>)
    requires req.value != JNull && PutDocs(s, ser, req) != []
    requires GetAnswer(Composite(req.namespace, req.key), item, PutEffect(s, ser, newId, req, st).records)
    ensures item.Some?
    ensures exists x :: (x in PutEffect(s, ser, newId, req, st).records &&
      HasKey(x, Composite(req.namespace, req.key)) && item.value == Payload(x))
  {
    var docs := PutDocs(s, ser, req);
    var written := Stamp(docs, newId, st.issued);
    PutDocsKeys(s, ser, req);
    assert docs[0] in docs;
    var x := written[0];
    StampAt(docs, newId, st.issued, 0);
    assert x in PutEffect(s, ser, newId, req, st).records;
    assert HasKey(x, Composite(req.namespace, req.key));
  }

  /** A put with a value only appends: the earlier points stay, in place, and the
      new ones are the put's documents under fresh identifiers. */
  lemma PutAppendsOnly(s: Settings, ser: Serializers, newId: nat -> string, req: PutRequest, st: State)
    requires req.value != JNull
    ensures var st' := PutEffect(s, ser, newId, req, st);
      && |st'.records| == |st.records| + |PutDocs(s, ser, req)|
      && st'.records[..|st.records|] == st.records
      && forall i :: 0 <= i < |PutDocs(s, ser, req)| ==>
           st'.records[|st.records| + i] == Record(newId(st.issued + i), PutDocs(s, ser, req)[i])
  {
    StampedAfter(st.records, PutDocs(s, ser, req), newId, st.issued, PutEffect(s, ser, newId, req, st).records);
  }

  /** Deleting is idempotent, and deleting a key no point carries as its identifier
      changes nothing. */
  lemma DeleteIdempotent(s: Settings, ser: Serializers, newId: nat -> string, req: PutRequest, st: State)
    requires req.value == JNull
    ensures PutEffect(s, ser, newId, req, PutEffect(s, ser, newId, req, st)) == PutEffect(s, ser, newId, req, st)
    ensures (forall x :: x in st.records ==> x.id != Composite(req.namespace, req.key)) ==>
      PutEffect(s, ser, newId, req, st) == st
  {
    RemoveIdIdempotent(st.records, Composite(req.namespace, req.key));
    if forall x :: x in st.records ==> x.id != Composite(req.namespace, req.key) {
      RemoveAbsentId(st.records, Composite(req.namespace, req.key));
    }
  }

  /** A put excluded from indexing writes nothing. */
  lemma NoIndexWritesNothing(s: Settings, ser: Serializers, req: PutRequest)
    requires req.index == NoIndex
    ensures PutDocs(s, ser, req) == []
  {
    NothingToIndex(ser, Paths(s), req);
  }

  /** Without configured fields, a value whose serialisation fits the chunk limit
      is written as one document holding that serialisation, tagged `$.0`, chunk 0
      of 1. */
  lemma WholeValueOneDoc(s: Settings, ser: Serializers, req: PutRequest)
    requires Paths(s) == [FieldPath("$", ["$"])]
    requires req.value != JNull && req.index != NoIndex
    requires |ser.stringify(req.value)| <= s.maxChunkSize
    ensures PutDocs(s, ser, req) == [Doc(ser.stringify(req.value), ChunkMetadata(req, "$.0", 0, 1))]
  {
    var text := ser.stringify(req.value);
    WholeValue(ser, req);
    var t := TableOf(s, ser, req);
    assert t.texts == [text] && t.provenance[text] == [Provenance(req.namespace, req.key, "$.0")];
    ChunkShortText(text, s.maxChunkSize);
    var plan := Plan(t.texts, s.maxChunkSize);
    assert plan == [[text]];
    assert t.texts[..0] == [] && plan[..0] == [];
    assert FirstTag(t, text) == "$.0";
    assert DocsFrom(req, t, t.texts, plan) == DocsFrom(req, t, [], []) + ChunkDocs(req, "$.0", [text]);
    assert DocsOf(s.maxChunkSize, req, t, t.texts) == [] + ChunkDocs(req, "$.0", [text]);
  }

  /** Only puts change the backend: a batch without puts leaves it as it was. */
  lemma {:induction false} ReadsChangeNothing(s: Settings, ser: Serializers, newId: nat -> string, st: State, ops: seq<Operation>)
    requires forall i :: 0 <= i < |ops| ==> Classify(ops[i]) != PutKind
    ensures EffectAll(s, ser, newId, st, ops) == st
  {
    if ops != [] {
      var init := ops[..|ops| - 1];
      forall i | 0 <= i < |init| ensures Classify(init[i]) != PutKind {
        assert init[i] == ops[i];
      }
      ReadsChangeNothing(s, ser, newId, st, init);
    }
  }

  // ---------------------------------------------------------------------------
  // The operations the convenience methods build

  function GetOp(ns: seq<string>, key: string): Operation {
    NoFields.(namespace := Some(ns), key := Some(key))
  }

  function PutOp(ns: seq<string>, key: string, value: Json, index: IndexOverride): Operation {
    NoFields.(namespace := Some(ns), key := Some(key), value := Some(value), index := index)
  }

  /** `delete` is a put of `null`. */
  function DeleteOp(ns: seq<string>, key: string): Operation {
    PutOp(ns, key, JNull, DefaultIndex)
  }

  /** The options of `search`. */
  datatype SearchOptions = SearchOptions(
    filter: Option<map<string, Json>>, limit: Option<int>, offset: Option<int>, query: Option<string>)

  /** `{ namespacePrefix, ...options }` */
  function SearchOp(prefix: seq<string>, options: Option<SearchOptions>): Operation {
    match options
    case None => NoFields.(namespacePrefix := Some(prefix))
    case Some(o) =>
      NoFields.(namespacePrefix := Some(prefix), filter := o.filter, limit := o.limit, offset := o.offset, query := o.query)
  }

  /** The options of `listNamespaces`. */
  datatype ListOptions = ListOptions(
    prefix: Option<seq<string>>, suffix: Option<seq<string>>, maxDepth: Option<int>,
    limit: Option<int>, offset: Option<int>)

  /** The listing operation: a prefix condition when a prefix is given, else a
      suffix condition when a suffix is, else `undefined`; limit 10 and offset 0
      unless given. */
  function ListOp(options: Option<ListOptions>): (op: Operation)
    ensures op.matchConditions.Some?
  {
    var o := if options.Some? then options.value else ListOptions(None, None, None, None, None);
    var conditions :=
      if o.prefix.Some? then Some([MatchCondition("prefix", o.prefix.value)])
      else if o.suffix.Some? then Some([MatchCondition("suffix", o.suffix.value)])
      else None;
    NoFields.(
      matchConditions := Some(conditions),
      limit := Some(if o.limit.Some? then o.limit.value else 10),
      offset := Some(if o.offset.Some? then o.offset.value else 0),
      maxDepth := o.maxDepth)
  }

  /** Each convenience method builds an operation the batch classifies as meant;
      `listNamespaces` relies on writing `matchConditions` even when it holds
      `undefined`. */
  lemma WrapperShapes(ns: seq<string>, key: string, value: Json, index: IndexOverride,
                      prefix: seq<string>, so: Option<SearchOptions>, lo: Option<ListOptions>)
    ensures Classify(GetOp(ns, key)) == GetKind
    ensures Classify(PutOp(ns, key, value, index)) == PutKind
    ensures Classify(DeleteOp(ns, key)) == PutKind && AsPut(DeleteOp(ns, key)).value == JNull
    ensures Classify(SearchOp(prefix, so)) == SearchKind
    ensures Classify(ListOp(lo)) == ListKind
  {
  }

  /** A prefix wins over a suffix; a limit of 0 or none scans 10 points, and no
      offset starts at 0; a maximum depth is carried and never used. */
  lemma ListOpOptions(o: ListOptions)
    ensures o.prefix.Some? ==> ConditionsOf(ListOp(Some(o))) == Some([MatchCondition("prefix", o.prefix.value)])
    ensures o.prefix.None? && o.suffix.Some? ==> ConditionsOf(ListOp(Some(o))) == Some([MatchCondition("suffix", o.suffix.value)])
    ensures o.prefix.None? && o.suffix.None? ==> ConditionsOf(ListOp(Some(o))) == None
    ensures ScanLimit(ListOp(Some(o))) == (if o.limit.None? || o.limit == Some(0) then 10 else o.limit.value)
    ensures ScanOffset(ListOp(Some(o))) == (if o.offset.Some? then o.offset.value else 0)
    ensures ListOp(Some(o)).maxDepth == o.maxDepth
    ensures ListOp(None) == ListOp(Some(ListOptions(None, None, None, None, None)))
  {
  }
}
