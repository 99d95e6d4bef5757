/**
  Namespace matching (`doesMatch`) and the filter `listNamespaces` applies to the
  namespaces it decodes: a condition is a `prefix` or a `suffix` path whose
  segments are either literal or the wildcard `*`.
 */
module Matcher {
  import opened Wrappers

  /** `{ matchType, path }`; the match type is free text in the source. */
  datatype MatchCondition = MatchCondition(matchType: string, path: seq<string>)

  /** One path segment against one namespace segment. */
  predicate SegmentMatches(p: string, k: string) {
    p == "*" || k == p
  }

  /** `path` laid over `key` from position `offset`, one segment after the other,
      as `path.every(...)` does. */
  function SegmentsMatch(path: seq<string>, key: seq<string>, offset: nat): (b: bool)
    requires offset + |path| <= |key|
    ensures b <==> forall i :: 0 <= i < |path| ==> SegmentMatches(path[i], key[offset + i])
  {
    if path == [] then true
    else SegmentMatches(path[0], key[offset]) && SegmentsMatch(path[1..], key, offset + 1)
  }

  /**
    `doesMatch(condition, key)`. A prefix condition holds when the path is no longer
    than the key and every path segment is `*` or the key's segment at the same
    position; a suffix condition does the same with the path aligned to the end of
    the key; any other match type throws.
   */
  function DoesMatch(c: MatchCondition, key: seq<string>): (r: Result<bool, StoreError>)
    ensures c.matchType == "prefix" ==> r.Success? && (r.value <==>
      |c.path| <= |key| && forall i :: 0 <= i < |c.path| ==> c.path[i] == "*" || key[i] == c.path[i])
    ensures c.matchType == "suffix" ==> r.Success? && (r.value <==>
      |c.path| <= |key| && forall i :: 0 <= i < |c.path| ==>
        c.path[i] == "*" || key[|key| - |c.path| + i] == c.path[i])
    ensures c.matchType != "prefix" && c.matchType != "suffix" ==>
      r == Failure(UnsupportedMatchType(c.matchType))
  {
    if c.matchType == "prefix" then
      if |c.path| > |key| then Success(false) else Success(SegmentsMatch(c.path, key, 0))
    else if c.matchType == "suffix" then
      if |c.path| > |key| then Success(false) else Success(SegmentsMatch(c.path, key, |key| - |c.path|))
    else
      Failure(UnsupportedMatchType(c.matchType))
  }

  predicate Supported(c: MatchCondition) {
    c.matchType == "prefix" || c.matchType == "suffix"
  }

  predicate IsPrefix(p: seq<string>, s: seq<string>) {
    |p| <= |s| && s[..|p|] == p
  }

  predicate IsSuffix(p: seq<string>, s: seq<string>) {
    |p| <= |s| && s[|s| - |p|..] == p
  }

  /** `fill` is the condition's path with each wildcard replaced by some segment. */
  predicate Fills(path: seq<string>, fill: seq<string>) {
    |fill| == |path| && forall i :: 0 <= i < |fill| ==> path[i] == "*" || fill[i] == path[i]
  }

  /** A reference reading of a supported condition, independent of `DoesMatch`: the
      key begins (prefix) or ends (suffix) with the path, its wildcards filled in. */
  ghost predicate Holds(c: MatchCondition, key: seq<string>) {
    if c.matchType == "prefix" then exists fill :: Fills(c.path, fill) && IsPrefix(fill, key)
    else exists fill :: Fills(c.path, fill) && IsSuffix(fill, key)
  }

  /** `doesMatch` agrees with the reference reading on both match types. */
  lemma DoesMatchHolds(c: MatchCondition, key: seq<string>)
    requires Supported(c)
    ensures DoesMatch(c, key) == Success(Holds(c, key))
  {
    var n := |c.path|;
    if c.matchType == "prefix" {
      if DoesMatch(c, key).value {
        assert Fills(c.path, key[..n]) && IsPrefix(key[..n], key);
      }
      if Holds(c, key) {
        var fill :| Fills(c.path, fill) && IsPrefix(fill, key);
        forall i | 0 <= i < n ensures c.path[i] == "*" || key[i] == c.path[i] {
          assert key[i] == key[..n][i];
        }
      }
    } else {
      if DoesMatch(c, key).value {
        assert Fills(c.path, key[|key| - n..]) && IsSuffix(key[|key| - n..], key);
      }
      if Holds(c, key) {
        var fill :| Fills(c.path, fill) && IsSuffix(fill, key);
        forall i | 0 <= i < n ensures c.path[i] == "*" || key[|key| - n + i] == c.path[i] {
          assert key[|key| - n + i] == key[|key| - n..][i];
        }
      }
    }
  }

  /** A path matches as a prefix of any key that starts with it. */
  lemma PrefixOfExtension(path: seq<string>, rest: seq<string>)
    ensures DoesMatch(MatchCondition("prefix", path), path + rest) == Success(true)
  {
    var key := path + rest;
    forall i | 0 <= i < |path| ensures key[i] == path[i] { }
  }

  /** A path matches as a suffix of any key that ends with it. */
  lemma SuffixOfExtension(rest: seq<string>, path: seq<string>)
    ensures DoesMatch(MatchCondition("suffix", path), rest + path) == Success(true)
  {
    var key := rest + path;
    forall i | 0 <= i < |path| ensures key[|key| - |path| + i] == path[i] { }
  }

  /** A prefix match survives appending segments to the key. */
  lemma PrefixMonotone(c: MatchCondition, key: seq<string>, more: seq<string>)
    requires c.matchType == "prefix"
    requires DoesMatch(c, key) == Success(true)
    ensures DoesMatch(c, key + more) == Success(true)
  {
    forall i | 0 <= i < |c.path| ensures c.path[i] == "*" || (key + more)[i] == c.path[i] {
      assert (key + more)[i] == key[i];
    }
  }

  /** `conditions.every(c => doesMatch(c, key))`: stops at the first condition that
      fails, so a later unsupported condition is never reached. */
  function AllMatch(cs: seq<MatchCondition>, key: seq<string>): (r: Result<bool, StoreError>)
    ensures r == Success(true) <==> forall i :: 0 <= i < |cs| ==> DoesMatch(cs[i], key) == Success(true)
    ensures r.Failure? <==> exists i :: 0 <= i < |cs| && FirstFailure(cs, key, i)
  {
    if cs == [] then Success(true)
    else
      match DoesMatch(cs[0], key)
      case Failure(e) =>
        assert FirstFailure(cs, key, 0);
        Failure(e)
      case Success(b) =>
        if !b then
          NoFailureAfterFalse(cs, key);
          Success(false)
        else
          var r := AllMatch(cs[1..], key);
          FailureShift(cs, key);
          r
  }

  /** Condition `i` is the first one that does not hold, and it throws. */
  predicate FirstFailure(cs: seq<MatchCondition>, key: seq<string>, i: nat)
    requires i < |cs|
  {
    DoesMatch(cs[i], key).Failure? && forall j :: 0 <= j < i ==> DoesMatch(cs[j], key) == Success(true)
  }

  lemma NoFailureAfterFalse(cs: seq<MatchCondition>, key: seq<string>)
    requires cs != [] && DoesMatch(cs[0], key) == Success(false)
    ensures !exists i :: 0 <= i < |cs| && FirstFailure(cs, key, i)
  {
    forall i | 0 <= i < |cs| ensures !FirstFailure(cs, key, i) {
      if i > 0 {
        assert DoesMatch(cs[0], key) != Success(true);
      }
    }
  }

  lemma FailureShift(cs: seq<MatchCondition>, key: seq<string>)
    requires cs != [] && DoesMatch(cs[0], key) == Success(true)
    ensures (exists i :: 0 <= i < |cs| && FirstFailure(cs, key, i)) <==>
      (exists i :: 0 <= i < |cs[1..]| && FirstFailure(cs[1..], key, i))
  {
    var tail := cs[1..];
    if exists i :: 0 <= i < |cs| && FirstFailure(cs, key, i) {
      var i :| 0 <= i < |cs| && FirstFailure(cs, key, i);
      assert i > 0;
      forall j | 0 <= j < i - 1 ensures DoesMatch(tail[j], key) == Success(true) {
        assert tail[j] == cs[j + 1];
      }
      assert FirstFailure(tail, key, i - 1);
    }
    if exists i :: 0 <= i < |tail| && FirstFailure(tail, key, i) {
      var i :| 0 <= i < |tail| && FirstFailure(tail, key, i);
      forall j | 0 <= j < i + 1 ensures DoesMatch(cs[j], key) == Success(true) {
        if j > 0 {
          assert cs[j] == tail[j - 1];
        }
      }
      assert FirstFailure(cs, key, i + 1);
    }
  }

  /** The filter of `listNamespacesOperation` for one namespace: every namespace is
      kept when the operation has no conditions (`!op.matchConditions`); otherwise the
      conditions are tested with `every`. */
  function Keep(conditions: Option<seq<MatchCondition>>, ns: seq<string>): Result<bool, StoreError> {
    match conditions
    case None => Success(true)
    case Some(cs) => AllMatch(cs, ns)
  }

  /** `namespaces.filter(...)`: the namespaces kept, in their order; the first
      namespace whose test throws makes the whole filter throw. */
  function FilterNamespaces(conditions: Option<seq<MatchCondition>>, nss: seq<seq<string>>)
    : (r: Result<seq<seq<string>>, StoreError>)
    ensures r.Failure? <==> exists i :: 0 <= i < |nss| && Keep(conditions, nss[i]).Failure?
    ensures r.Success? ==> forall i :: 0 <= i < |r.value| ==> Keep(conditions, r.value[i]) == Success(true)
    ensures r.Success? ==> |r.value| <= |nss|
  {
    if nss == [] then Success([])
    else
      match Keep(conditions, nss[0])
      case Failure(e) => Failure(e)
      case Success(b) =>
        match FilterNamespaces(conditions, nss[1..])
        case Failure(e) =>
          ghost var i :| 0 <= i < |nss[1..]| && Keep(conditions, nss[1..][i]).Failure?;
          assert Keep(conditions, nss[i + 1]).Failure?;
          Failure(e)
        case Success(rest) =>
          assert forall i :: 0 < i < |nss| ==> nss[i] == nss[1..][i - 1];
          Success(if b then [nss[0]] + rest else rest)
  }

  /** The namespaces of `nss` that satisfy every condition in the reference reading,
      in their order. */
  ghost function Select(cs: seq<MatchCondition>, nss: seq<seq<string>>): seq<seq<string>> {
    if nss == [] then []
    else (if forall c :: c in cs ==> Holds(c, nss[0]) then [nss[0]] else []) + Select(cs, nss[1..])
  }

  /** With supported conditions only, the filter never throws and keeps exactly the
      namespaces that satisfy every condition, in order. */
  lemma {:induction false} FilterSelect(cs: seq<MatchCondition>, nss: seq<seq<string>>)
    requires forall c :: c in cs ==> Supported(c)
    ensures FilterNamespaces(Some(cs), nss) == Success(Select(cs, nss))
  {
    if nss != [] {
      forall c | c in cs ensures DoesMatch(c, nss[0]) == Success(Holds(c, nss[0])) {
        DoesMatchHolds(c, nss[0]);
      }
      AllMatchSupported(cs, nss[0]);
      FilterSelect(cs, nss[1..]);
      var b := forall c :: c in cs ==> Holds(c, nss[0]);
      assert Keep(Some(cs), nss[0]) == Success(b);
      assert Select(cs, nss) == (if b then [nss[0]] else []) + Select(cs, nss[1..]);
      assert [] + Select(cs, nss[1..]) == Select(cs, nss[1..]);
    }
  }

  lemma {:induction false} AllMatchSupported(cs: seq<MatchCondition>, key: seq<string>)
    requires forall c :: c in cs ==> DoesMatch(c, key) == Success(Holds(c, key))
    ensures AllMatch(cs, key) == Success(forall c :: c in cs ==> Holds(c, key))
  {
    if cs != [] {
      assert cs[0] in cs;
      if Holds(cs[0], key) {
        forall c | c in cs[1..] ensures DoesMatch(c, key) == Success(Holds(c, key)) {
          assert c in cs;
        }
        AllMatchSupported(cs[1..], key);
        assert AllMatch(cs, key) == AllMatch(cs[1..], key);
        AllHoldCons(cs, key);
      }
    }
  }

  /** Every condition holds when the first does and every later one does. */
  lemma AllHoldCons(cs: seq<MatchCondition>, key: seq<string>)
    requires cs != [] && Holds(cs[0], key)
    ensures (forall c :: c in cs ==> Holds(c, key)) == (forall c :: c in cs[1..] ==> Holds(c, key))
  {
    assert cs == [cs[0]] + cs[1..];
  }

  lemma {:induction false} FilterSelectMembers(cs: seq<MatchCondition>, nss: seq<seq<string>>, ns: seq<string>)
    ensures ns in Select(cs, nss) <==> ns in nss && forall c :: c in cs ==> Holds(c, ns)
  {
    if nss != [] {
      FilterSelectMembers(cs, nss[1..], ns);
      assert nss == [nss[0]] + nss[1..];
    }
  }

  /** Without conditions, or with an empty list of them, every namespace is kept. */
  lemma {:induction false} FilterWithoutConditions(conditions: Option<seq<MatchCondition>>, nss: seq<seq<string>>)
    requires conditions == None || conditions == Some([])
    ensures FilterNamespaces(conditions, nss) == Success(nss)
  {
    if nss != [] {
      FilterWithoutConditions(conditions, nss[1..]);
      assert [nss[0]] + nss[1..] == nss;
    }
  }

  /** A first condition of an unsupported type throws as soon as there is a
      namespace to test. */
  lemma UnsupportedThrows(cs: seq<MatchCondition>, nss: seq<seq<string>>)
    requires cs != [] && !Supported(cs[0]) && nss != []
    ensures FilterNamespaces(Some(cs), nss) == Failure(UnsupportedMatchType(cs[0].matchType))
  {
  }

  // ---------------------------------------------------------------------------
  // Worked cases of the matching rules.

  lemma MatchExamples(a: string, b: string, c: string, d: string, x: string)
    requires a == "a" && b == "b" && c == "c" && d == "d" && x == "x"
    ensures DoesMatch(MatchCondition("prefix", [a, "*", c]), [a, b, c, d]) == Success(true)
    ensures DoesMatch(MatchCondition("prefix", [a, "*", c]), [a, b, x]) == Success(false)
    ensures DoesMatch(MatchCondition("suffix", [b, c]), [a, b, c]) == Success(true)
    ensures DoesMatch(MatchCondition("suffix", [a, b, c]), [b, c]) == Success(false)
  {
    assert [a, b, c, d][2] == c;
    assert [a, b, x][2] == x != c;
    assert [a, b, c][|[a, b, c]| - 2 + 0] == b;
  }

  lemma FilterCons(conditions: Option<seq<MatchCondition>>, ns: seq<string>, rest: seq<seq<string>>)
    requires Keep(conditions, ns).Success? && FilterNamespaces(conditions, rest).Success?
    ensures FilterNamespaces(conditions, [ns] + rest) ==
      Success((if Keep(conditions, ns).value then [ns] else []) + FilterNamespaces(conditions, rest).value)
  {
    assert ([ns] + rest)[0] == ns && ([ns] + rest)[1..] == rest;
    if !Keep(conditions, ns).value {
      assert [] + FilterNamespaces(conditions, rest).value == FilterNamespaces(conditions, rest).value;
    }
  }

  /** Namespaces `a/b` and `a/c` (`["a","b"]` and `["a","c"]`, say): the prefix `a`
      keeps both. */
  lemma FilterExampleShortPrefix(a: string, b: string, c: string)
    ensures FilterNamespaces(Some([MatchCondition("prefix", [a])]), [[a, b], [a, c]]) == Success([[a, b], [a, c]])
  {
    var one := MatchCondition("prefix", [a]);
    assert Keep(Some([one]), [a, b]) == Success(true) by {
      assert [one][1..] == [];
      PrefixOfExtension([a], [b]);
      assert [a] + [b] == [a, b];
    }
    assert Keep(Some([one]), [a, c]) == Success(true) by {
      assert [one][1..] == [];
      PrefixOfExtension([a], [c]);
      assert [a] + [c] == [a, c];
    }
    FilterCons(Some([one]), [a, c], []);
    assert [[a, c]] + [] == [[a, c]];
    FilterCons(Some([one]), [a, b], [[a, c]]);
    assert [[a, b]] + [[a, c]] == [[a, b], [a, c]];
  }

  /** The same namespaces under the prefix `a/b`, for distinct `b` and `c` and `b`
      not the wildcard: only the first is kept. */
  lemma FilterExampleLongPrefix(a: string, b: string, c: string)
    requires b != c && b != "*"
    ensures FilterNamespaces(Some([MatchCondition("prefix", [a, b])]), [[a, b], [a, c]]) == Success([[a, b]])
  {
    var two := MatchCondition("prefix", [a, b]);
    assert Keep(Some([two]), [a, b]) == Success(true) by {
      assert [two][1..] == [];
      PrefixOfExtension([a, b], []);
      assert [a, b] + [] == [a, b];
    }
    assert Keep(Some([two]), [a, c]) == Success(false) by {
      assert [a, c][1] != [a, b][1];
    }
    FilterCons(Some([two]), [a, c], []);
    FilterCons(Some([two]), [a, b], [[a, c]]);
    var none: seq<seq<string>> := [];
    assert none + none == none;
    assert [[a, b]] + [] == [[a, b]];
  }
}
