# QdrantMemoryStore, modelled in Dafny

`QdrantMemoryStore` is the long-term memory store of the yaaii chat assistant. It stores
values and runs searches over a Qdrant vector collection. It implements LangGraph's
`BaseStore`:

- `batch` runs a list of operations in order.
- `get`, `search`, `put`, `delete` and `listNamespaces` each wrap a batch of one operation.
- A put of a value does four things: it pulls texts out of the value along the configured
  field paths, chunks each text at word boundaries, embeds each chunk, and finally writes
  one point per chunk. Each point carries the value's fields plus bookkeeping metadata:
  the composite key `ns1:ns2:…:key`, the colon-joined namespace, the field tag, and the
  chunk's position among the chunks.
- A put of `null` deletes the point whose identifier is the composite key.
- `get` looks up a point by its metadata key.
- `search` runs a similarity search for a query, then decodes each hit's key and namespace
  back out of its metadata.
- `listNamespaces` scans the collection, decodes the namespaces, and filters them by
  prefix or suffix conditions. A `*` in a condition matches any segment.

The project has these modules:

- `Wrappers`: Option, Result and the two exceptions the store raises.
- `Text`: the JavaScript string operations the code uses. These are `split(/\s+/)`,
  `trim`, `split(sep)`, `join(sep)` and `String(n)` for natural numbers.
- `Chunker`: `chunkText`. The method keeps the loop, and it is proved equal to a recursive
  specification function.
- `Matcher`: `doesMatch`, the `every` over the conditions, and the `filter` of
  `listNamespacesOperation`.
- `Json`: JSON values, property access `current[key]`, and the object spread `...value`.
- `Keys`: the composite key, and the decoding of keys and namespaces from metadata.
- `Config`: the constructor's defaults.
- `Extraction`: `getTextAtPath` as a loop method, and `extractTexts` as two nested loops.
  `extractTexts` fills an insertion-ordered dictionary from each text to its origins.
- `Backend`: the Qdrant collection seen as a class. It holds a sequence of points and the
  count of points written so far.
- `Operations`: operation shapes, the classification that `batch` applies, the documents a
  put writes, the result mappings, and the effect of a sequence of operations.
- `Store`: the `QdrantMemoryStore` class. Its `batch`, `*Operation` and wrapper methods are
  each proved against the functions of `Operations`.

What the code does, in the cases where it is easy to misread:

- `fields: []` gives no paths at all, so nothing is embedded. The `$` default applies only
  when `fields` is absent.
- An operation of no recognised shape is skipped by `batch`. It is not rejected.
- A `string[]` index override on a put is ignored. Only `false` changes anything.
- `maxDepth` is accepted and ignored.
- The search `filter` and `offset` are ignored.
- A search restricts its hits to the namespace prefix through a filter whose only clause is `should` on `metadata.namespace`.
- The `field` of a chunk is the tag of the text's first origin.
- `listNamespaces` defaults its limit to 10 with `??`, so an explicit 0 stays 0. The
  operation then applies `|| 10`, which turns that 0 into 10 again.

Two consequences of the chunking code as written are stated, not corrected:

- A text longer than the ceiling whose first word is at least as long as the ceiling
  begins with an empty chunk (`Chunker.ChunkLeadingEmpty`).
- A single word longer than the ceiling becomes one chunk longer than the ceiling.
  `Chunker.ChunkBound` allows this only for a chunk made of one word.

## Model

| member | source | states |
|---|---|---|
| Chunker.ChunkText | electron/AIGraph/QdrantMemoryStore.ts:184-212 | the loop computes exactly the recursive reading of `chunkText`, including the early return for short text |
| Chunker.ChunkWords | electron/AIGraph/QdrantMemoryStore.ts:194-208 | chunking loses no word and adds none: the words of the chunks, in order, are the words of the text |
| Chunker.ChunkBound | electron/AIGraph/QdrantMemoryStore.ts:196-209 | every chunk fits the ceiling, or is a single word that alone exceeds it |
| Chunker.ChunkShortText | electron/AIGraph/QdrantMemoryStore.ts:188-190 | a text no longer than the ceiling is its own single chunk, untrimmed |
| Chunker.ChunkLeadingEmpty | electron/AIGraph/QdrantMemoryStore.ts:196-209 | for a long text, only the first chunk can be empty, exactly when the first word is at least the ceiling long; a text without words gives no chunks |
| Chunker.ChunkExample | electron/AIGraph/QdrantMemoryStore.ts:184-212 | "the quick brown fox" at ceiling 10 chunks into "the quick" and "brown fox" |
| Text.SplitWhitespaceSpaceFree | electron/AIGraph/QdrantMemoryStore.ts:194 | no element of `split(/\s+/)` holds whitespace |
| Text.SplitWhitespaceInner | electron/AIGraph/QdrantMemoryStore.ts:194 | only the first and the last element of `split(/\s+/)` can be empty |
| Text.SplitWhitespaceOfJoin | electron/AIGraph/QdrantMemoryStore.ts:194 | words joined by single spaces split on whitespace back into those words |
| Text.TrimJoined | electron/AIGraph/QdrantMemoryStore.ts:199 | `trim` of words joined by single spaces, with or without one trailing space, is the joined words |
| Text.SplitOnJoinWith | electron/AIGraph/QdrantMemoryStore.ts:290 | `join(':')` then `split(':')` gives the parts back when there is a part and none holds the separator |
| Text.JoinWithSplitOn | electron/AIGraph/QdrantMemoryStore.ts:290 | `split(sep)` then `join(sep)` gives the string back |
| Matcher.SegmentsMatch | electron/AIGraph/QdrantMemoryStore.ts:328-335 | true iff every path segment is `*` or equals the key segment at the offset |
| Matcher.DoesMatch | electron/AIGraph/QdrantMemoryStore.ts:323-340 | prefix: true iff the path is no longer than the key and matches its first segments; suffix: the same for the last segments; any other type throws `Unsupported match type` |
| Matcher.DoesMatchHolds | electron/AIGraph/QdrantMemoryStore.ts:323-337 | for a supported type, the result is the reference reading: the key begins (ends) with a sequence the path fills, `*` standing for any segment |
| Matcher.PrefixOfExtension | electron/AIGraph/QdrantMemoryStore.ts:326-330 | a path is a prefix of any extension of itself |
| Matcher.SuffixOfExtension | electron/AIGraph/QdrantMemoryStore.ts:331-336 | a path is a suffix of anything ending in it |
| Matcher.PrefixMonotone | electron/AIGraph/QdrantMemoryStore.ts:326-330 | a prefix match survives lengthening the key |
| Matcher.MatchExamples | electron/AIGraph/QdrantMemoryStore.ts:323-337 | wildcard prefix match and mismatch, suffix match, and a suffix longer than the key failing |
| Matcher.AllMatch | electron/AIGraph/QdrantMemoryStore.ts:315-317 | `every`: true iff every condition matches; throws iff a condition throws before any condition fails |
| Matcher.FilterNamespaces | electron/AIGraph/QdrantMemoryStore.ts:313-318 | throws iff some namespace's test throws; every kept namespace passes; nothing is added |
| Matcher.FilterSelect | electron/AIGraph/QdrantMemoryStore.ts:313-318 | with supported conditions the filter keeps, in order, exactly the namespaces all conditions hold for |
| Matcher.FilterSelectMembers | electron/AIGraph/QdrantMemoryStore.ts:313-318 | a namespace is kept iff it was listed and every condition holds for it |
| Matcher.FilterWithoutConditions | electron/AIGraph/QdrantMemoryStore.ts:314-318 | no conditions, or an empty list of them, keeps every namespace |
| Matcher.UnsupportedThrows | electron/AIGraph/QdrantMemoryStore.ts:313-340 | a first condition of an unsupported type makes the listing throw with that type |
| Matcher.FilterExampleShortPrefix | electron/AIGraph/QdrantMemoryStore.ts:313-318 | prefix `[a]` keeps both `[a, b]` and `[a, c]` |
| Matcher.FilterExampleLongPrefix | electron/AIGraph/QdrantMemoryStore.ts:313-318 | prefix `[a, b]` keeps only `[a, b]` |
| Keys.KeyRoundTrip | electron/AIGraph/QdrantMemoryStore.ts:289 | the last colon-separated part of the composite key is the key, whatever the namespace, if the key has no colon |
| Keys.NamespaceRoundTrip | electron/AIGraph/QdrantMemoryStore.ts:290 | splitting the joined namespace on colons gives it back when it is non-empty and colon-free |
| Keys.EmptyNamespaceEncoding | electron/AIGraph/QdrantMemoryStore.ts:243 | the empty namespace and `[""]` encode alike, and decode as `[""]` |
| Keys.CompositeSplit | electron/AIGraph/QdrantMemoryStore.ts:215 | the composite key splits into the namespace followed by the key |
| Keys.CompositeInjective | electron/AIGraph/QdrantMemoryStore.ts:215 | distinct colon-free namespace/key pairs never share a composite key |
| Keys.KeyOfMetadata | electron/AIGraph/QdrantMemoryStore.ts:289 | missing or null key gives `''`; a string gives its last colon part; anything else throws from `split`; a decoded key never holds a colon |
| Keys.NamespaceOfMetadata | electron/AIGraph/QdrantMemoryStore.ts:290 | missing or null namespace gives `[]`, and only then; a string is split on colons; anything else throws |
| Json.ParseIndex | electron/AIGraph/QdrantMemoryStore.ts:369 | a property name read as an array index is the canonical decimal form of that index |
| Json.ParseNatToString | electron/AIGraph/QdrantMemoryStore.ts:369 | every index's decimal form is canonical and reads back as the index |
| Json.NatToStringInjective | electron/AIGraph/QdrantMemoryStore.ts:369 | distinct indices have distinct property names |
| Json.Member | electron/AIGraph/QdrantMemoryStore.ts:368-369 | an object's property is its field when present; an array answers only to an index or `length` |
| Json.MemberAtIndex | electron/AIGraph/QdrantMemoryStore.ts:369 | an array's `n`-th property is its `n`-th element |
| Json.IndexEntriesAt | electron/AIGraph/QdrantMemoryStore.ts:241 | spreading an array gives the properties `"0"`…`"n-1"` holding its elements, and no others |
| Config.Tokenize | electron/AIGraph/QdrantMemoryStore.ts:70 | one field path per configured field, named by it, whose segments join back on dots to the field |
| Config.DefaultSettings | electron/AIGraph/QdrantMemoryStore.ts:57-77 | without options: no index, collection `memory`, ceiling 1000, vector width 1536, whole-value path |
| Config.ConfigureFields | electron/AIGraph/QdrantMemoryStore.ts:57-77 | collection name given or `memory`; index present iff given; dims given or 1536; ceiling given or 1000; vector width the index dims or 1536 |
| Config.PathsOfFields | electron/AIGraph/QdrantMemoryStore.ts:347 | without fields the only path is `$`; with fields, one path each whose segments join back to the field |
| Config.EmptyFieldsNoPaths | electron/AIGraph/QdrantMemoryStore.ts:347 | `fields: []` leaves no path to read |
| Config.ChatPipelineSettings | electron/AIGraph/sendMessage.ts:45-52 | the chat pipeline's `{ dims: 1536 }` gives collection `memory`, ceiling 1000, width 1536 and whole-value extraction |
| Extraction.TextsAt | electron/AIGraph/QdrantMemoryStore.ts:363-376 | a path yields at most one text |
| Extraction.GetTextAtPath | electron/AIGraph/QdrantMemoryStore.ts:363-376 | the loop yields the reference text of the path: serialised value for `$`, else the stringified value reached, or nothing |
| Extraction.ResolveAppend | electron/AIGraph/QdrantMemoryStore.ts:366-373 | walking `p + q` is walking `p` then `q` from where `p` ends |
| Extraction.BlockedPath | electron/AIGraph/QdrantMemoryStore.ts:367-372 | meeting a non-object before the path ends yields nothing |
| Extraction.ReachedPath | electron/AIGraph/QdrantMemoryStore.ts:375 | a value reached yields its `String` form; no value yields nothing |
| Extraction.NestedPathExample | electron/AIGraph/QdrantMemoryStore.ts:366-375 | `{a: {b: s}}` along `a.b` yields `s` |
| Extraction.InsertAllKeys | electron/AIGraph/QdrantMemoryStore.ts:352-355 | the dictionary's keys are the distinct texts, in first-seen order |
| Extraction.InsertAllOrigins | electron/AIGraph/QdrantMemoryStore.ts:352-355 | each text's list is all its origins, in order |
| Extraction.InsertAllGroups | electron/AIGraph/QdrantMemoryStore.ts:352-355 | keys distinct, exactly the texts seen, each with its non-empty list of origins in order |
| Extraction.FileTexts | electron/AIGraph/QdrantMemoryStore.ts:352-355 | the `forEach` adds the texts of one path, tagged `<path>.<i>`, to the dictionary |
| Extraction.FilePaths | electron/AIGraph/QdrantMemoryStore.ts:349-356 | the loop over paths adds each path's texts in turn |
| Extraction.ExtractTexts | electron/AIGraph/QdrantMemoryStore.ts:342-361 | the dictionary is the grouping of every put's emissions, put by put and path by path |
| Extraction.NothingToIndex | electron/AIGraph/QdrantMemoryStore.ts:346 | a `null` value or `index: false` contributes nothing |
| Extraction.FieldsOverrideIgnored | electron/AIGraph/QdrantMemoryStore.ts:346-347 | a list of fields as index override extracts what no override does |
| Extraction.WholeValue | electron/AIGraph/QdrantMemoryStore.ts:347-354 | without fields a put's only text is its serialised value, with origin tag `$.0` |
| Extraction.EmissionOrigins | electron/AIGraph/QdrantMemoryStore.ts:349-355 | every origin names the put and `<path>.0` for a configured path yielding that text |
| Backend.RemoveId | electron/AIGraph/QdrantMemoryStore.ts:219-221 | deleting a point keeps exactly the points with other identifiers |
| Backend.RemoveIdIdempotent | electron/AIGraph/QdrantMemoryStore.ts:217-222 | deleting twice is deleting once |
| Backend.RemoveAbsentId | electron/AIGraph/QdrantMemoryStore.ts:217-222 | deleting an identifier no point has changes nothing |
| Backend.StampedAfter | electron/AIGraph/QdrantMemoryStore.ts:237-249 | writing documents keeps the earlier points in place, and the `i`-th written document follows them under the `first + i`-th fresh identifier |
| Backend.VectorBackend.constructor | electron/AIGraph/QdrantMemoryStore.ts:79-82 | an empty collection with the given identifier source and scoring |
| Backend.VectorBackend.AddDocument | electron/AIGraph/QdrantMemoryStore.ts:237-249 | `addDocuments` appends one point under the next fresh identifier |
| Backend.VectorBackend.DeletePoints | electron/AIGraph/QdrantMemoryStore.ts:219-221 | `client.delete` removes the points with that identifier and nothing else |
| Backend.VectorBackend.FindByKey | electron/AIGraph/QdrantMemoryStore.ts:260-267 | the key-filtered search of limit 1 finds nothing iff no point carries the key, else a point that does |
| Backend.VectorBackend.SimilaritySearch | electron/AIGraph/QdrantMemoryStore.ts:277-286 | hits are points of the collection scored for the query, at most the limit of them |
| Backend.VectorBackend.Scan | electron/AIGraph/QdrantMemoryStore.ts:302-306 | the scan returns points of the collection, at most the limit of them |
| Operations.Classify | electron/AIGraph/QdrantMemoryStore.ts:91-111 | put iff key, namespace and value are present; get iff key and namespace without value; else search iff a prefix is present; else listing iff conditions are present |
| Operations.ChunkMetadataFields | electron/AIGraph/QdrantMemoryStore.ts:240-247 | the reserved fields hold the bookkeeping, overriding the value's; every other field is the value's |
| Operations.ChunkDocsFields | electron/AIGraph/QdrantMemoryStore.ts:233-247 | the `i`-th document's page content is the `i`-th chunk, and it has chunk index `i`, the chunk count, the field tag, the composite key and the joined namespace |
| Operations.TableOf | electron/AIGraph/QdrantMemoryStore.ts:227 | every text of a put's dictionary has at least one origin, so `metadataList[0]` exists |
| Operations.PlanSnoc | electron/AIGraph/QdrantMemoryStore.ts:229-231 | chunking one more text extends the plan of chunks by exactly that text's chunks |
| Operations.DocsFromSnoc | electron/AIGraph/QdrantMemoryStore.ts:229-251 | the documents of the first `i + 1` texts are those of the first `i` followed by the chunk documents of the `i`-th, tagged with its first origin |
| Operations.DecodeHits | electron/AIGraph/QdrantMemoryStore.ts:288-296 | succeeds iff every hit decodes, then hit by hit; otherwise throws |
| Operations.DecodeNamespaces | electron/AIGraph/QdrantMemoryStore.ts:308-312 | succeeds iff every point's namespace decodes, then point by point |
| Operations.BatchOfOne | electron/AIGraph/QdrantMemoryStore.ts:119 | a batch of one has that operation's effect and one result unless unrecognised |
| Operations.PositionsSpec | electron/AIGraph/QdrantMemoryStore.ts:90-112 | results come from exactly the recognised operations, in order |
| Operations.DocsFromKeys | electron/AIGraph/QdrantMemoryStore.ts:242-243 | every document of the texts, however they are chunked, carries the composite key and the joined namespace |
| Operations.PutDocsKeys | electron/AIGraph/QdrantMemoryStore.ts:240-247 | every document a put writes carries its composite key and joined namespace |
| Operations.SearchRoundTrip | electron/AIGraph/QdrantMemoryStore.ts:288-293 | a hit on a put's document decodes to the put's key and namespace, the metadata as value |
| Operations.ListRoundTrip | electron/AIGraph/QdrantMemoryStore.ts:309-312 | listing decodes a put's document to the put's namespace |
| Operations.GetAfterPut | electron/AIGraph/QdrantMemoryStore.ts:255-271 | after a put that writes something, any answer of a get of that key is the payload of a point carrying it |
| Operations.PutAppendsOnly | electron/AIGraph/QdrantMemoryStore.ts:227-251 | a put of a value keeps earlier points in place and appends its documents under fresh identifiers |
| Operations.DeleteIdempotent | electron/AIGraph/QdrantMemoryStore.ts:217-222 | deleting twice is deleting once; deleting an absent identifier changes nothing |
| Operations.NoIndexWritesNothing | electron/AIGraph/QdrantMemoryStore.ts:346 | a put with `index: false` writes no document |
| Operations.WholeValueOneDoc | electron/AIGraph/QdrantMemoryStore.ts:227-250 | without fields, a short value is written as one document: its serialisation, field `$.0`, chunk 0 of 1 |
| Operations.ReadsChangeNothing | electron/AIGraph/QdrantMemoryStore.ts:85-115 | a batch without puts leaves the collection as it was |
| Operations.ListOp | electron/AIGraph/QdrantMemoryStore.ts:162-171 | the listing operation always carries the `matchConditions` property, so it is classified as a listing |
| Operations.WrapperShapes | electron/AIGraph/QdrantMemoryStore.ts:118-174 | each wrapper's operation is classified as its own kind; delete is a put of `null` |
| Operations.ListOpOptions | electron/AIGraph/QdrantMemoryStore.ts:162-171 | prefix wins over suffix, neither gives no conditions; limit 10 unless given and non-zero; offset 0 unless given; max depth carried |
| Store.QdrantMemoryStore.constructor | electron/AIGraph/QdrantMemoryStore.ts:46-83 | the store's settings are the configured defaults of its options |
| Store.QdrantMemoryStore.WriteTexts | electron/AIGraph/QdrantMemoryStore.ts:229-251 | the loop over the dictionary leaves the earlier points followed by the documents of every text in order, each chunked by `chunkText` and tagged with its first origin, under consecutive fresh identifiers |
| Store.BatchStep | electron/AIGraph/QdrantMemoryStore.ts:90-112 | one turn of `batch`: the operation takes its step in the state the earlier ones left, and an answer is pushed iff its shape is recognised |
| Store.QdrantMemoryStore.AddChunks | electron/AIGraph/QdrantMemoryStore.ts:233-250 | the inner loop appends one point per chunk under consecutive fresh identifiers |
| Store.QdrantMemoryStore.PutOperation | electron/AIGraph/QdrantMemoryStore.ts:214-253 | the collection after the put is exactly the put's effect: a delete for `null`, else the chunk documents appended |
| Store.QdrantMemoryStore.GetOperation | electron/AIGraph/QdrantMemoryStore.ts:255-272 | null iff no point carries the composite key, else the payload of one that does |
| Store.QdrantMemoryStore.SearchOperation | electron/AIGraph/QdrantMemoryStore.ts:274-297 | the decoding of some admissible list of scored hits, within the limit (default 10) |
| Store.QdrantMemoryStore.ListNamespacesOperation | electron/AIGraph/QdrantMemoryStore.ts:299-321 | the decoded, filtered namespaces of some admissible scan within the limit |
| Store.QdrantMemoryStore.Batch | electron/AIGraph/QdrantMemoryStore.ts:85-115 | on success: the effect of all operations in order, one admissible answer per recognised operation against the state it met; on a throw: the operations before it took effect and it threw in that state |
| Store.QdrantMemoryStore.Get | electron/AIGraph/QdrantMemoryStore.ts:118-121 | changes nothing; the answer of `getOperation` |
| Store.QdrantMemoryStore.Search | electron/AIGraph/QdrantMemoryStore.ts:123-138 | changes nothing; the answer (or the exception) of `searchOperation` for the options |
| Store.QdrantMemoryStore.Put | electron/AIGraph/QdrantMemoryStore.ts:140-148 | the effect of one put |
| Store.QdrantMemoryStore.Delete | electron/AIGraph/QdrantMemoryStore.ts:150-153 | removes the point whose identifier is the composite key, and nothing else |
| Store.QdrantMemoryStore.ListNamespaces | electron/AIGraph/QdrantMemoryStore.ts:155-174 | changes nothing; the answer (or the exception) of `listNamespacesOperation` for the options |

## Left out

- Network I/O, `async`, Qdrant itself and the embedding model are outside the model. The
  collection is a sequence of points. A search's similarity is a fixed function `score`
  of the query and the page content, so embeddings are assumed deterministic.
- Point identifiers come from a fixed source `newId`, applied to the number of points
  written so far. Qdrant may reject the composite key as a point identifier, since it is
  not a UUID. The model keeps the delete-by-identifier as written, and does not claim
  that a delete removes the chunk points a put wrote.
- Backend.VectorBackend.SimilaritySearch: the ordering by decreasing score and the zero
  default vector are not modelled. The namespace restriction (`should` on
  `metadata.namespace`) is not modelled either, so hits may come from any namespace.
  Only membership, score and limit are stated.
- Backend.VectorBackend.Scan: which points a scan returns, their order and the effect of
  the offset are not modelled. Only membership and limit are stated. The model assumes
  the raw `client.search` of `listNamespacesOperation` returns payloads, although the
  call does not ask for them. Without payloads, every listed namespace would decode as
  `[]`.
- Backend.VectorBackend.FindByKey: when several points carry the key, which one is
  returned is not stated. The model assumes the raw `client.search` of `getOperation`
  returns each point's payload. The call does not ask for it (no `with_payload`), and
  Qdrant returns no payload by default. Read that way, `get` of a stored key answers a
  null value. `Operations.GetAfterPut` holds only under the assumption.
- The payload layout `{ content, metadata }` of a point written by `addDocuments` is the
  vector-store library's. It is assumed, not derived.
- `createdAt` and `updatedAt` of a search item come from the clock. They are left out.
- `JSON.stringify` and `String` of a non-string value are taken as given functions
  (`Serializers`). `String` of a string is the string itself.
- JavaScript's `length` counts UTF-16 code units. The model counts characters.
- `Object.entries` lists integer-like keys first. The model keeps insertion order.
- Property names inherited from `Object.prototype` (`constructor`, `__proto__`, …) are
  not modelled: a missing property is simply missing.
- A property present but `undefined` is modelled as absent.
- The `vectorStore.embeddings` test is taken as always true, because the store is always
  built with embeddings.
- `start` and `stop` do nothing. The `indexConfig` getter returns the stored
  configuration, which is `Settings.indexConfig`.
- The zero vector built from `dims` (`vectorWidth`) is computed but not used as a point's
  vector.
