/**
  The store itself: a `BaseStore` over the vector backend. `batch` runs the
  operations in order; the convenience methods each run a batch of one.
 */
module Store {
  import opened Wrappers
  import opened Json
  import opened Keys
  import opened Config
  import opened Extraction
  import opened Chunker
  import opened Backend
  import opened Operations

  /** Writing one more document after `a` stamps what writing `a + [d]` would. */
  lemma StampSnoc(recs: seq<Record>, mid: seq<Record>, post: seq<Record>, a: seq<Doc>, d: Doc, newId: nat -> string, first: nat)
    requires mid == recs + Stamp(a, newId, first)
    requires post == mid + [Record(newId(first + |a|), d)]
    ensures post == recs + Stamp(a + [d], newId, first)
  {
    var x, y := Stamp(a, newId, first), Stamp([d], newId, first + |a|);
    StampAt([d], newId, first + |a|, 0);
    assert y == [Record(newId(first + |a|), d)];
    StampAppend(a, [d], newId, first);
    AppendAssoc(recs, x, y);
  }

  /** Writing `a` then `b` stamps what writing `a + b` at once would. */
  lemma StampAfter(recs: seq<Record>, mid: seq<Record>, post: seq<Record>, a: seq<Doc>, b: seq<Doc>, newId: nat -> string, first: nat)
    requires mid == recs + Stamp(a, newId, first)
    requires post == mid + Stamp(b, newId, first + |a|)
    ensures post == recs + Stamp(a + b, newId, first)
  {
    var x, y := Stamp(a, newId, first), Stamp(b, newId, first + |a|);
    StampAppend(a, b, newId, first);
    AppendAssoc(recs, x, y);
  }

  /** The state after writing, from `start`, the documents of `texts` cut as `plan` says. */
  function Written(start: State, req: PutRequest, t: TextTable, texts: seq<string>, plan: seq<seq<string>>,
                   newId: nat -> string): State
    requires |plan| == |texts|
  {
    var docs := DocsFrom(req, t, texts, plan);
    State(start.records + Stamp(docs, newId, start.issued), start.issued + |docs|)
  }

  /** One turn of the loop over the texts: writing the chunks of the `i`-th text
      after the documents of the first `i` texts. */
  lemma WriteStep(start: State, mid: State, post: State, req: PutRequest, t: TextTable, i: nat,
                  plan: seq<seq<string>>, tag: string, chunks: seq<string>, newId: nat -> string)
    requires i < |t.texts| && |plan| == i && tag == FirstTag(t, t.texts[i])
    requires mid == Written(start, req, t, t.texts[..i], plan, newId)
    requires post == State(mid.records + Stamp(ChunkDocs(req, tag, chunks), newId, mid.issued), mid.issued + |chunks|)
    ensures post == Written(start, req, t, t.texts[..i + 1], plan + [chunks], newId)
  {
    var done, cd := DocsFrom(req, t, t.texts[..i], plan), ChunkDocs(req, tag, chunks);
    StampAfter(start.records, mid.records, post.records, done, cd, newId, start.issued);
    DocsFromSnoc(req, t, i, plan, chunks);
  }

  /** What the results pushed for the operations `done` answer: one per recognised
      operation, each read in the state the operations before it left. */
  ghost predicate Pushed(s: Settings, ser: Serializers, newId: nat -> string, start: State,
                         done: seq<Operation>, results: seq<OpResult>, score: (string, string) -> real) {
    && |results| == |Positions(done)|
    && forall j :: 0 <= j < |results| ==>
      Answers(done[Positions(done)[j]], results[j], EffectAll(s, ser, newId, start, done[..Positions(done)[j]]), score)
  }

  /** One turn of the loop of `batch`: the operation takes its step, and pushes its
      answer when it is of a recognised shape. */
  lemma BatchStep(s: Settings, ser: Serializers, newId: nat -> string, start: State, ops: seq<Operation>, i: nat,
                  results: seq<OpResult>, res: Option<OpResult>, score: (string, string) -> real)
    requires i < |ops|
    requires Pushed(s, ser, newId, start, ops[..i], results, score)
    requires res.Some? <==> Classify(ops[i]) != Unrecognised
    requires res.Some? ==> Answers(ops[i], res.value, EffectAll(s, ser, newId, start, ops[..i]), score)
    ensures Pushed(s, ser, newId, start, ops[..i + 1], results + (if res.Some? then [res.value] else []), score)
    ensures EffectAll(s, ser, newId, start, ops[..i + 1]) == Step(s, ser, newId, ops[i], EffectAll(s, ser, newId, start, ops[..i]))
  {
    var done, next := ops[..i], ops[..i + 1];
    assert next[..i] == done && next[i] == ops[i];
    var ps := Positions(done);
    forall j | 0 <= j < |ps| ensures next[ps[j]] == done[ps[j]] && next[..ps[j]] == done[..ps[j]] { }
  }

  class QdrantMemoryStore {
    const backend: VectorBackend
    const settings: Settings
    const ser: Serializers

    /** The constructor, given the backend client; the embeddings are part of the
        backend's `score`. */
    constructor (backend: VectorBackend, options: Option<StoreOptions>, ser: Serializers)
      ensures this.backend == backend && settings == Configure(options) && this.ser == ser
    {
      this.backend := backend;
      settings := Configure(options);
      this.ser := ser;
    }

    function Now(): State
      reads backend
    {
      State(backend.records, backend.issued)
    }

    /** The inner loop of `putOperation`: one document per chunk, in order. */
    method AddChunks(req: PutRequest, field: string, chunks: seq<string>)
      modifies backend
      ensures Now() == State(old(backend.records) + Stamp(ChunkDocs(req, field, chunks), backend.newId, old(backend.issued)),
                             old(backend.issued) + |chunks|)
    {
      ghost var start := Now();
      ghost var cd := ChunkDocs(req, field, chunks);
      for chunkIndex := 0 to |chunks|
        invariant Now() == State(start.records + Stamp(cd[..chunkIndex], backend.newId, start.issued),
                                 start.issued + chunkIndex)
      {
        var doc := Doc(chunks[chunkIndex], ChunkMetadata(req, field, chunkIndex, |chunks|));
        assert cd[..chunkIndex + 1] == cd[..chunkIndex] + [doc];
        ghost var mid := backend.records;
        backend.AddDocument(doc);
        StampSnoc(start.records, mid, backend.records, cd[..chunkIndex], doc, backend.newId, start.issued);
      }
      assert cd[..|chunks|] == cd;
    }

    /** The loop of `putOperation` over the dictionary: each text chunked, its chunks
        written in order, tagged with the text's first origin. */
    method WriteTexts(req: PutRequest, texts: TextTable)
      requires Filed(texts)
      modifies backend
      ensures Now() == State(old(backend.records) + Stamp(DocsOf(settings.maxChunkSize, req, texts, texts.texts), backend.newId, old(backend.issued)),
                             old(backend.issued) + |DocsOf(settings.maxChunkSize, req, texts, texts.texts)|)
    {
      ghost var start := Now();
      var max := settings.maxChunkSize;
      ghost var plan: seq<seq<string>> := [];
      assert texts.texts[..0] == [];
      assert start.records + Stamp([], backend.newId, start.issued) == start.records;
      for i := 0 to |texts.texts|
        invariant plan == Plan(texts.texts[..i], max)
        invariant Now() == Written(start, req, texts, texts.texts[..i], plan, backend.newId)
      {
        var text := texts.texts[i];
        assert text in texts.texts;
        var metadataList := texts.provenance[text];
        var chunks := ChunkText(text, max);
        ghost var mid := Now();
        AddChunks(req, metadataList[0].tag, chunks);
        WriteStep(start, mid, Now(), req, texts, i, plan, metadataList[0].tag, chunks, backend.newId);
        PlanSnoc(texts.texts, i, max, plan, chunks);
        plan := plan + [chunks];
      }
      assert texts.texts[..|texts.texts|] == texts.texts;
    }

    /** `putOperation`: `null` deletes the point under the composite key; any other
        value is written as one document per chunk of each text it yields. */
    method PutOperation(req: PutRequest)
      modifies backend
      ensures Now() == PutEffect(settings, ser, backend.newId, req, old(Now()))
    {
      var key := Composite(req.namespace, req.key);
      if req.value == JNull {
        backend.DeletePoints(key);
        return;
      }
      var texts := ExtractTexts(ser, Paths(settings), [req]);
      assert texts == TableOf(settings, ser, req);
      WriteTexts(req, texts);
    }

    /** `getOperation` */
    method GetOperation(ns: seq<string>, key: string) returns (item: Option<Json>)
      ensures GetAnswer(Composite(ns, key), item, backend.records)
    {
      var found := backend.FindByKey(Composite(ns, key));
      item := if found.Some? then Some(Payload(found.value)) else None;
    }

    /** `searchOperation`: a similarity search for the query, its hits decoded. */
    method SearchOperation(op: Operation) returns (r: Result<seq<SearchItem>, StoreError>)
      ensures exists hits :: Scored(hits, backend.records, backend.score, QueryOf(op), SearchLimit(op)) && DecodeHits(hits) == r
    {
      var hits := backend.SimilaritySearch(QueryOf(op), SearchLimit(op));
      r := DecodeHits(hits);
    }

    /** `listNamespacesOperation`: a scan of the collection, decoded and filtered. */
    method ListNamespacesOperation(op: Operation) returns (r: Result<seq<seq<string>>, StoreError>)
      ensures exists rs :: Drawn(rs, backend.records, ScanLimit(op)) && ListOutcome(ConditionsOf(op), rs) == r
    {
      var rs := backend.Scan(ScanLimit(op), ScanOffset(op));
      r := ListOutcome(ConditionsOf(op), rs);
    }

    /**
      `batch`: the operations in order, each classified by its fields. A put pushes
      `null`, a get its item, a search its items, a listing its namespaces, and an
      operation of any other shape nothing. When an operation throws, the batch
      throws, and the operations before it have taken effect.
     */
    method Batch(ops: seq<Operation>) returns (r: Result<seq<OpResult>, StoreError>)
      modifies backend
      ensures r.Success? ==> Now() == EffectAll(settings, ser, backend.newId, old(Now()), ops)
      ensures r.Success? ==> |r.value| == |Positions(ops)|
      ensures r.Success? ==> forall j :: 0 <= j < |r.value| ==>
        Answers(ops[Positions(ops)[j]], r.value[j],
                EffectAll(settings, ser, backend.newId, old(Now()), ops[..Positions(ops)[j]]), backend.score)
      ensures r.Failure? ==> exists k :: (0 <= k < |ops| &&
        Now() == EffectAll(settings, ser, backend.newId, old(Now()), ops[..k]) &&
        Throws(ops[k], r.error, Now(), backend.score))
    {
      ghost var start := Now();
      var results: seq<OpResult> := [];
      for i := 0 to |ops|
        invariant Now() == EffectAll(settings, ser, backend.newId, start, ops[..i])
        invariant Pushed(settings, ser, backend.newId, start, ops[..i], results, backend.score)
      {
        var op := ops[i];
        var res: Option<OpResult> := None;
        match Classify(op) {
          case PutKind =>
            PutOperation(AsPut(op));
            res := Some(PutDone);
          case GetKind =>
            var item := GetOperation(op.namespace.value, op.key.value);
            res := Some(GetDone(item));
          case SearchKind =>
            var found := SearchOperation(op);
            if found.Failure? {
              assert Throws(ops[i], found.error, Now(), backend.score);
              return Failure(found.error);
            }
            res := Some(SearchDone(found.value));
          case ListKind =>
            var found := ListNamespacesOperation(op);
            if found.Failure? {
              assert Throws(ops[i], found.error, Now(), backend.score);
              return Failure(found.error);
            }
            res := Some(ListDone(found.value));
          case Unrecognised =>
        }
        BatchStep(settings, ser, backend.newId, start, ops, i, results, res, backend.score);
        if res.Some? {
          results := results + [res.value];
        }
      }
      assert ops[..|ops|] == ops;
      return Success(results);
    }

    /** `get`: a batch of one get; the backend is left as it was. */
    method Get(ns: seq<string>, key: string) returns (item: Option<Json>)
      modifies backend
      ensures Now() == old(Now())
      ensures GetAnswer(Composite(ns, key), item, backend.records)
    {
      var op := GetOp(ns, key);
      WrapperShapes(ns, key, JNull, DefaultIndex, [], None, None);
      BatchOfOne(settings, ser, backend.newId, Now(), op);
      var r := Batch([op]);
      assert r.Success?;
      item := r.value[0].item;
    }

    /** `search`: a batch of one search, whose error is the batch's. */
    method Search(prefix: seq<string>, options: Option<SearchOptions>) returns (r: Result<seq<SearchItem>, StoreError>)
      modifies backend
      ensures Now() == old(Now())
      ensures var op := SearchOp(prefix, options);
        exists hits :: Scored(hits, backend.records, backend.score, QueryOf(op), SearchLimit(op)) && DecodeHits(hits) == r
    {
      var op := SearchOp(prefix, options);
      WrapperShapes([], "", JNull, DefaultIndex, prefix, options, None);
      BatchOfOne(settings, ser, backend.newId, Now(), op);
      var b := Batch([op]);
      if b.Failure? {
        r := Failure(b.error);
      } else {
        r := Success(b.value[0].items);
      }
    }

    /** `put`: a batch of one put of a value, with the index override. */
    method Put(ns: seq<string>, key: string, value: Json, index: IndexOverride)
      modifies backend
      ensures Now() == PutEffect(settings, ser, backend.newId, PutRequest(ns, key, value, index), old(Now()))
    {
      var op := PutOp(ns, key, value, index);
      WrapperShapes(ns, key, value, index, [], None, None);
      BatchOfOne(settings, ser, backend.newId, Now(), op);
      var r := Batch([op]);
      assert r.Success?;
    }

    /** `delete`: a put of `null`, which removes the point under the composite key. */
    method Delete(ns: seq<string>, key: string)
      modifies backend
      ensures Now() == State(RemoveId(old(backend.records), Composite(ns, key)), old(backend.issued))
    {
      var op := DeleteOp(ns, key);
      WrapperShapes(ns, key, JNull, DefaultIndex, [], None, None);
      BatchOfOne(settings, ser, backend.newId, Now(), op);
      var r := Batch([op]);
      assert r.Success?;
    }

    /** `listNamespaces`: a batch of one listing built from the options. */
    method ListNamespaces(options: Option<ListOptions>) returns (r: Result<seq<seq<string>>, StoreError>)
      modifies backend
      ensures Now() == old(Now())
      ensures var op := ListOp(options);
        exists rs :: Drawn(rs, backend.records, ScanLimit(op)) && ListOutcome(ConditionsOf(op), rs) == r
    {
      var op := ListOp(options);
      WrapperShapes([], "", JNull, DefaultIndex, [], None, options);
      BatchOfOne(settings, ser, backend.newId, Now(), op);
      var b := Batch([op]);
      if b.Failure? {
        r := Failure(b.error);
      } else {
        r := Success(b.value[0].namespaces);
      }
    }
  }
}
