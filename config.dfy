/**
  The store's configuration as its constructor settles it: the collection name, the
  index configuration with its defaulted width and the field paths split at dots,
  the chunk-size ceiling, and the paths the extractor reads.
 */
module Config {
  import opened Wrappers
  import opened Text

  /** The `index` option: embedding width, dotted field paths, chunk-size ceiling. */
  datatype IndexOptions = IndexOptions(dims: Option<int>, fields: Option<seq<string>>, maxChunkSize: Option<int>)

  /** The constructor's `options`; the port is accepted and never used. */
  datatype StoreOptions = StoreOptions(port: Option<int>, index: Option<IndexOptions>, collectionName: Option<string>)

  /** A configured field path and its segments. */
  datatype FieldPath = FieldPath(path: string, segments: seq<string>)

  /** `{...index, dims, __tokenizedFields}` */
  datatype IndexConfig = IndexConfig(
    dims: int,
    fields: Option<seq<string>>,
    tokenizedFields: Option<seq<FieldPath>>,
    maxChunkSize: Option<int>)

  /** What the constructor keeps. `vectorWidth` is the length of the all-zero query
      vector. */
  datatype Settings = Settings(
    indexConfig: Option<IndexConfig>,
    collectionName: string,
    maxChunkSize: int,
    vectorWidth: int)

  const DefaultDims := 1536
  const DefaultMaxChunkSize := 1000
  const DefaultCollectionName := "memory"

  /** `fields.map(field => [field, field.split(".")])` */
  function Tokenize(fields: seq<string>): (r: seq<FieldPath>)
    ensures |r| == |fields|
    ensures forall i :: 0 <= i < |r| ==> r[i].path == fields[i] && r[i].segments == SplitOn(fields[i], '.')
    ensures forall i :: 0 <= i < |r| ==> JoinWith(r[i].segments, '.') == fields[i]
  {
    SplitsJoinBack(fields);
    seq(|fields|, i requires 0 <= i < |fields| => FieldPath(fields[i], SplitOn(fields[i], '.')))
  }

  /** Each field split on dots joins back to the field. */
  lemma SplitsJoinBack(fields: seq<string>)
    ensures forall i :: 0 <= i < |fields| ==> JoinWith(SplitOn(fields[i], '.'), '.') == fields[i]
  {
    forall i | 0 <= i < |fields| ensures JoinWith(SplitOn(fields[i], '.'), '.') == fields[i] {
      JoinWithSplitOn(fields[i], '.');
    }
  }

  function MakeIndexConfig(index: IndexOptions): IndexConfig {
    IndexConfig(
      if index.dims.Some? then index.dims.value else DefaultDims,
      index.fields,
      if index.fields.Some? then Some(Tokenize(index.fields.value)) else None,
      index.maxChunkSize)
  }

  /** The constructor's settings. */
  function Configure(options: Option<StoreOptions>): Settings {
    var index := if options.Some? then options.value.index else None;
    var name := if options.Some? && options.value.collectionName.Some? then options.value.collectionName.value
                else DefaultCollectionName;
    var config := if index.Some? then Some(MakeIndexConfig(index.value)) else None;
    Settings(
      config,
      name,
      if config.Some? && config.value.maxChunkSize.Some? then config.value.maxChunkSize.value else DefaultMaxChunkSize,
      if config.Some? then config.value.dims else DefaultDims)
  }

  /** The paths the extractor reads: the tokenized fields when the index configures
      any list of fields, even an empty one, and otherwise the whole value `$`. */
  function Paths(s: Settings): seq<FieldPath> {
    if s.indexConfig.Some? && s.indexConfig.value.tokenizedFields.Some? then s.indexConfig.value.tokenizedFields.value
    else [FieldPath("$", ["$"])]
  }

  /** Without options the store uses the collection `memory`, chunks of at most 1000
      characters, 1536-wide vectors and the whole value as the only field. */
  lemma DefaultSettings()
    ensures Configure(None) == Settings(None, "memory", 1000, 1536)
    ensures Paths(Configure(None)) == [FieldPath("$", ["$"])]
  {
  }

  /** Each option that is given wins over its default, and each that is not falls back
      to it: name `memory`, width 1536, ceiling 1000. */
  lemma ConfigureFields(options: Option<StoreOptions>)
    ensures var s := Configure(options);
      && (options.Some? && options.value.collectionName.Some? ==> s.collectionName == options.value.collectionName.value)
      && (options.None? || options.value.collectionName.None? ==> s.collectionName == DefaultCollectionName)
      && (s.indexConfig.Some? <==> options.Some? && options.value.index.Some?)
      && (s.indexConfig.Some? ==> s.vectorWidth == s.indexConfig.value.dims)
      && (s.indexConfig.None? ==> s.vectorWidth == DefaultDims && s.maxChunkSize == DefaultMaxChunkSize)
      && (options.Some? && options.value.index.Some? ==>
            var ix := options.value.index.value;
            && s.indexConfig.value.dims == (if ix.dims.Some? then ix.dims.value else DefaultDims)
            && s.maxChunkSize == (if ix.maxChunkSize.Some? then ix.maxChunkSize.value else DefaultMaxChunkSize))
  {
  }

  /** Without configured fields the only path is `$`; with them, each path is read
      segment by segment, and joining the segments with dots gives the field back. */
  lemma {:induction false} PathsOfFields(options: Option<StoreOptions>)
    ensures var ps := Paths(Configure(options));
      var fields := if options.Some? && options.value.index.Some? then options.value.index.value.fields else None;
      && (fields.None? ==> ps == [FieldPath("$", ["$"])])
      && (fields.Some? ==> |ps| == |fields.value| && forall i :: 0 <= i < |ps| ==>
            ps[i].path == fields.value[i] && JoinWith(ps[i].segments, '.') == ps[i].path)
  {
    var ps := Paths(Configure(options));
    if options.Some? && options.value.index.Some? && options.value.index.value.fields.Some? {
      forall i | 0 <= i < |ps| ensures JoinWith(ps[i].segments, '.') == ps[i].path {
        JoinWithSplitOn(ps[i].path, '.');
      }
    }
  }

  /** An empty list of fields leaves nothing to read: the whole-value default applies
      only when no list is given. */
  lemma EmptyFieldsNoPaths(dims: Option<int>, maxChunkSize: Option<int>, name: Option<string>)
    ensures Paths(Configure(Some(StoreOptions(None, Some(IndexOptions(dims, Some([]), maxChunkSize)), name)))) == []
  {
  }

  /** The index the chat pipeline configures, `{ dims: 1536 }`: whole-value
      extraction and the default ceiling. */
  lemma ChatPipelineSettings()
    ensures var s := Configure(Some(StoreOptions(None, Some(IndexOptions(Some(1536), None, None)), None)));
      && s.collectionName == "memory" && s.maxChunkSize == 1000 && s.vectorWidth == 1536
      && Paths(s) == [FieldPath("$", ["$"])]
  {
  }
}
