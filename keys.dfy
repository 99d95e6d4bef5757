/**
  The composite key under which the store files an item, `namespace.join(":") + ":" + key`,
  and the decoding the search and namespace listing apply to a record's metadata.
 */
module Keys {
  import opened Wrappers
  import opened Text
  import opened Json

  /** `namespace.join(":")`, the namespace as it is stored in the metadata. */
  function EncodeNamespace(ns: seq<string>): string {
    JoinWith(ns, ':')
  }

  /** `${namespace.join(":")}:${key}` */
  function Composite(ns: seq<string>, key: string): string {
    EncodeNamespace(ns) + ":" + key
  }

  /** `s.split(":").pop()` */
  function DecodeKey(s: string): string {
    Last(SplitOn(s, ':'))
  }

  /** `s.split(":")` */
  function DecodeNamespace(s: string): seq<string> {
    SplitOn(s, ':')
  }

  predicate ColonFree(ns: seq<string>) {
    forall i :: 0 <= i < |ns| ==> ':' !in ns[i]
  }

  /** The last field of a text that ends with a separator and a separator-free part
      is that part. */
  lemma {:induction false} LastOfSplitOn(prefix: string, last: string, sep: char)
    requires sep !in last
    ensures Last(SplitOn(prefix + [sep] + last, sep)) == last
    decreases |prefix|
  {
    var s := prefix + [sep] + last;
    var f := Field(s, sep);
    if sep !in prefix {
      SplitOnCons(prefix, last, sep);
      SplitOnSeparatorFree(last, sep);
    } else {
      assert |f| < |prefix| by {
        var k :| 0 <= k < |prefix| && prefix[k] == sep;
        assert s[k] == sep;
      }
      assert s[|f| + 1..] == prefix[|f| + 1..] + [sep] + last;
      LastOfSplitOn(prefix[|f| + 1..], last, sep);
    }
  }

  /** The last field of a split never holds the separator. */
  lemma {:induction false} LastFieldSeparatorFree(s: string, sep: char)
    ensures sep !in Last(SplitOn(s, sep))
    decreases |s|
  {
    var f := Field(s, sep);
    if |f| < |s| {
      var rest := s[|f| + 1..];
      LastFieldSeparatorFree(rest, sep);
      assert SplitOn(s, sep) == [f] + SplitOn(rest, sep);
    }
  }

  /** The key is recovered from the composite key whatever the namespace, provided
      the key holds no colon. */
  lemma KeyRoundTrip(ns: seq<string>, key: string)
    requires ':' !in key
    ensures DecodeKey(Composite(ns, key)) == key
  {
    LastOfSplitOn(EncodeNamespace(ns), key, ':');
  }

  /** A non-empty namespace of colon-free segments is recovered from its encoding. */
  lemma NamespaceRoundTrip(ns: seq<string>)
    requires ns != [] && ColonFree(ns)
    ensures DecodeNamespace(EncodeNamespace(ns)) == ns
  {
    SplitOnJoinWith(ns, ':');
  }

  /** The empty namespace and the namespace of one empty segment share an encoding,
      which decodes to the latter. */
  lemma EmptyNamespaceEncoding()
    ensures EncodeNamespace([]) == EncodeNamespace([""]) == ""
    ensures DecodeNamespace(EncodeNamespace([])) == [""]
  {
  }

  /** Splitting a composite key gives the namespace segments followed by the key. */
  lemma CompositeSplit(ns: seq<string>, key: string)
    requires ns != [] && ColonFree(ns) && ':' !in key
    ensures DecodeNamespace(Composite(ns, key)) == ns + [key]
  {
    JoinSnoc(ns, key, ':');
    assert ColonFree(ns + [key]) by {
      forall i | 0 <= i < |ns + [key]| ensures ':' !in (ns + [key])[i] {
        if i < |ns| {
          assert (ns + [key])[i] == ns[i];
        }
      }
    }
    SplitOnJoinWith(ns + [key], ':');
  }

  /** Distinct items get distinct composite keys, for non-empty namespaces of
      colon-free segments and colon-free keys. */
  lemma CompositeInjective(ns1: seq<string>, key1: string, ns2: seq<string>, key2: string)
    requires ns1 != [] && ColonFree(ns1) && ':' !in key1
    requires ns2 != [] && ColonFree(ns2) && ':' !in key2
    requires Composite(ns1, key1) == Composite(ns2, key2)
    ensures ns1 == ns2 && key1 == key2
  {
    CompositeSplit(ns1, key1);
    CompositeSplit(ns2, key2);
    assert ns1 + [key1] == ns2 + [key2];
    assert ns1 == (ns1 + [key1])[..|ns1|];
    assert ns2 == (ns2 + [key2])[..|ns2|];
  }

  // ---------------------------------------------------------------------------
  // Decoding a record's metadata, with JavaScript's optional chaining: a missing or
  // `null` field gives the fallback, a string is split, and anything else has no
  // `split` method to call.

  /** `metadata.key?.split(":").pop() || ''` */
  function KeyOfMetadata(md: map<string, Json>): (r: Result<string, StoreError>)
    ensures ("key" !in md || md["key"] == JNull) ==> r == Success("")
    ensures "key" in md && md["key"].JStr? ==> r == Success(DecodeKey(md["key"].s))
    ensures "key" in md && md["key"] != JNull && !md["key"].JStr? ==> r == Failure(SplitOfNonString("key"))
    ensures r.Success? ==> ':' !in r.value
  {
    if "key" !in md then Success("")
    else
      match md["key"]
      case JNull => Success("")
      case JStr(s) =>
        LastFieldSeparatorFree(s, ':');
        Success(DecodeKey(s))
      case _ => Failure(SplitOfNonString("key"))
  }

  /** `metadata.namespace?.split(":") || []`; a split is never empty, so the
      fallback applies only to a missing or `null` field. */
  function NamespaceOfMetadata(md: map<string, Json>): (r: Result<seq<string>, StoreError>)
    ensures ("namespace" !in md || md["namespace"] == JNull) ==> r == Success([])
    ensures "namespace" in md && md["namespace"].JStr? ==> r == Success(DecodeNamespace(md["namespace"].s))
    ensures r.Success? && r.value == [] ==> "namespace" !in md || md["namespace"] == JNull
    ensures "namespace" in md && md["namespace"] != JNull && !md["namespace"].JStr? ==>
      r == Failure(SplitOfNonString("namespace"))
  {
    if "namespace" !in md then Success([])
    else
      match md["namespace"]
      case JNull => Success([])
      case JStr(s) => Success(DecodeNamespace(s))
      case _ => Failure(SplitOfNonString("namespace"))
  }
}
