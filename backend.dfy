/**
  The vector backend as the store sees it: a collection of points, each with an
  identifier and a document (page content and metadata). Writing appends a point
  under an identifier the client library picks; deleting removes the points with
  a given identifier; the three searches return points of the collection.
 */
module Backend {
  import opened Wrappers
  import opened Json

  /** What `addDocuments` is given for one chunk. */
  datatype Doc = Doc(pageContent: string, metadata: map<string, Json>)

  /** A stored point. */
  datatype Record = Record(id: string, doc: Doc)

  /** A similarity-search hit: the point's document and its score. */
  datatype Hit = Hit(record: Record, score: real)

  /** The payload the vector-store library stores with a point: the page content
      under `content` and the metadata under `metadata`. */
  function Payload(r: Record): Json {
    JObj(map["content" := JStr(r.doc.pageContent), "metadata" := JObj(r.doc.metadata)])
  }

  /** The point passes the filter `metadata.key == key`. */
  predicate HasKey(r: Record, key: string) {
    "key" in r.doc.metadata && r.doc.metadata["key"] == JStr(key)
  }

  /** The collection without the points whose identifier is `id`, in order. */
  function RemoveId(rs: seq<Record>, id: string): (r: seq<Record>)
    ensures forall x :: x in r <==> x in rs && x.id != id
    ensures |r| <= |rs|
  {
    if rs == [] then []
    else (if rs[0].id == id then [] else [rs[0]]) + RemoveId(rs[1..], id)
  }

  /** Deleting twice is deleting once. */
  lemma {:induction false} RemoveIdIdempotent(rs: seq<Record>, id: string)
    ensures RemoveId(RemoveId(rs, id), id) == RemoveId(rs, id)
  {
    if rs != [] {
      RemoveIdIdempotent(rs[1..], id);
      var h := if rs[0].id == id then [] else [rs[0]];
      RemoveIdAppend(h, RemoveId(rs[1..], id), id);
      if rs[0].id != id {
        assert RemoveId(h, id) == h by {
          assert h[1..] == [];
        }
      }
    }
  }

  lemma {:induction false} RemoveIdAppend(a: seq<Record>, b: seq<Record>, id: string)
    ensures RemoveId(a + b, id) == RemoveId(a, id) + RemoveId(b, id)
  {
    if a == [] {
      assert a + b == b;
    } else {
      assert (a + b)[0] == a[0] && (a + b)[1..] == a[1..] + b;
      RemoveIdAppend(a[1..], b, id);
    }
  }

  /** Deleting an identifier no point has changes nothing. */
  lemma {:induction false} RemoveAbsentId(rs: seq<Record>, id: string)
    requires forall x :: x in rs ==> x.id != id
    ensures RemoveId(rs, id) == rs
  {
    if rs != [] {
      assert rs[0] in rs;
      assert forall x :: x in rs[1..] ==> x in rs;
      RemoveAbsentId(rs[1..], id);
      assert [rs[0]] + rs[1..] == rs;
    }
  }

  /** The points `docs` become when written one after the other from the
      `first`-th identifier on. */
  function Stamp(docs: seq<Doc>, newId: nat -> string, first: nat): (r: seq<Record>)
    ensures |r| == |docs|
  {
    seq(|docs|, i requires 0 <= i < |docs| => Record(newId(first + i), docs[i]))
  }

  /** The `i`-th document gets the `first + i`-th identifier. */
  lemma StampAt(docs: seq<Doc>, newId: nat -> string, first: nat, i: nat)
    requires i < |docs|
    ensures Stamp(docs, newId, first)[i] == Record(newId(first + i), docs[i])
  {
  }

  /** Writing documents after `recs` keeps `recs` in place and puts the `i`-th
      document, under the `first + i`-th identifier, right after them. */
  lemma StampedAfter(recs: seq<Record>, docs: seq<Doc>, newId: nat -> string, first: nat, out: seq<Record>)
    requires out == recs + Stamp(docs, newId, first)
    ensures |out| == |recs| + |docs| && out[..|recs|] == recs
    ensures forall i :: 0 <= i < |docs| ==> out[|recs| + i] == Record(newId(first + i), docs[i])
  {
    forall i | 0 <= i < |docs| ensures out[|recs| + i] == Record(newId(first + i), docs[i]) {
      StampAt(docs, newId, first, i);
    }
  }

  lemma StampAppend(a: seq<Doc>, b: seq<Doc>, newId: nat -> string, first: nat)
    ensures Stamp(a + b, newId, first) == Stamp(a, newId, first) + Stamp(b, newId, first + |a|)
  {
    var l, r := Stamp(a + b, newId, first), Stamp(a, newId, first) + Stamp(b, newId, first + |a|);
    forall i | 0 <= i < |l| ensures l[i] == r[i] {
      StampAt(a + b, newId, first, i);
      if i < |a| {
        StampAt(a, newId, first, i);
        assert (a + b)[i] == a[i];
      } else {
        StampAt(b, newId, first + |a|, i - |a|);
        assert (a + b)[i] == b[i - |a|];
      }
    }
  }

  /**
    The backend's state. The identifiers of written points come from `newId`, applied
    to the number of points written so far; the similarity of a query to a page is
    `score`. Which points a search returns beyond what each contract states is the
    backend's business: the bodies below make one admissible choice.
   */
  class VectorBackend {
    var records: seq<Record>
    var issued: nat
    const newId: nat -> string
    const score: (string, string) -> real

    constructor (newId: nat -> string, score: (string, string) -> real)
      ensures records == [] && issued == 0
      ensures this.newId == newId && this.score == score
    {
      records := [];
      issued := 0;
      this.newId := newId;
      this.score := score;
    }

    /** `addDocuments([doc])` */
    method AddDocument(doc: Doc)
      modifies this
      ensures records == old(records) + [Record(newId(old(issued)), doc)]
      ensures issued == old(issued) + 1
    {
      records := records + [Record(newId(issued), doc)];
      issued := issued + 1;
    }

    /** `client.delete(collection, { points: [id] })` */
    method DeletePoints(id: string)
      modifies this
      ensures records == RemoveId(old(records), id)
      ensures issued == old(issued)
    {
      records := RemoveId(records, id);
    }

    /** `client.search` with the zero vector, limit 1 and the filter
        `metadata.key == key`: a point that passes the filter, if any does. */
    method FindByKey(key: string) returns (r: Option<Record>)
      ensures r.None? <==> forall x :: x in records ==> !HasKey(x, key)
      ensures r.Some? ==> r.value in records && HasKey(r.value, key)
    {
      r := None;
      for i := 0 to |records|
        invariant r.None? ==> forall j :: 0 <= j < i ==> !HasKey(records[j], key)
        invariant r.Some? ==> r.value in records && HasKey(r.value, key)
      {
        if r.None? && HasKey(records[i], key) {
          r := Some(records[i]);
        }
      }
    }

    /** `similaritySearchVectorWithScore(embed(query), k, …)`: at most `k` points of
        the collection, each with its score for the query. */
    method SimilaritySearch(query: string, k: int) returns (hits: seq<Hit>)
      ensures forall h :: h in hits ==> h.record in records && h.score == score(query, h.record.doc.pageContent)
      ensures k >= 0 ==> |hits| <= k
    {
      var rs := records;
      var n := if k < 0 then 0 else if k < |rs| then k else |rs|;
      hits := seq(n, i requires 0 <= i < n => Hit(rs[i], score(query, rs[i].doc.pageContent)));
      forall h | h in hits ensures h.record in records {
        var i :| 0 <= i < n && hits[i] == h;
      }
    }

    /** `client.search` with the zero vector, `limit` and `offset` and no filter: at
        most `limit` points of the collection. */
    method Scan(limit: int, offset: int) returns (rs: seq<Record>)
      ensures forall x :: x in rs ==> x in records
      ensures limit >= 0 ==> |rs| <= limit
    {
      var from := if offset < 0 then 0 else if offset < |records| then offset else |records|;
      var rest := records[from..];
      rs := if limit < 0 then [] else if limit < |rest| then rest[..limit] else rest;
      assert forall x :: x in rest ==> x in records;
    }
  }
}
