/**
  String primitives with JavaScript's semantics, as the store uses them: the `\s`
  whitespace class, `trim()`, `split(/\s+/)`, `split(sep)` for a one-character
  separator, `join(sep)`, and the decimal rendering of a number in a template string.
 */
module Text {

  /** JavaScript's `\s` class: the WhiteSpace and LineTerminator code points.
      `trim()` removes exactly the same characters. */
  predicate IsSpace(c: char) {
    || c == '\t' || c == '\n' || c == '\U{B}' || c == '\U{C}' || c == '\r' || c == ' '
    || c == '\U{A0}' || c == '\U{1680}' || ('\U{2000}' <= c <= '\U{200A}')
    || c == '\U{2028}' || c == '\U{2029}' || c == '\U{202F}' || c == '\U{205F}'
    || c == '\U{3000}' || c == '\U{FEFF}'
  }

  predicate SpaceFree(s: string) {
    forall i :: 0 <= i < |s| ==> !IsSpace(s[i])
  }

  /** A word: a non-empty run of non-whitespace characters. */
  predicate IsWord(s: string) {
    s != [] && SpaceFree(s)
  }

  /** `s` without its leading whitespace. */
  function TrimStart(s: string): (r: string)
    ensures |r| <= |s| && r == s[|s| - |r|..]
    ensures r == [] || !IsSpace(r[0])
    ensures s != [] && IsSpace(s[0]) ==> |r| < |s|
    ensures s != [] && !IsSpace(s[0]) ==> r == s
  {
    if s != [] && IsSpace(s[0]) then TrimStart(s[1..]) else s
  }

  /** `s` without its trailing whitespace. */
  function TrimEnd(s: string): (r: string)
    ensures |r| <= |s| && r == s[..|r|]
    ensures r == [] || !IsSpace(r[|r| - 1])
    ensures s != [] && !IsSpace(s[|s| - 1]) ==> r == s
  {
    if s != [] && IsSpace(s[|s| - 1]) then TrimEnd(s[..|s| - 1]) else s
  }

  /** `s.trim()` */
  function Trim(s: string): (r: string)
    ensures |r| <= |s|
    ensures r == [] || (!IsSpace(r[0]) && !IsSpace(r[|r| - 1]))
  {
    TrimEnd(TrimStart(s))
  }

  /** The longest prefix of `s` that holds no whitespace. */
  function TakeWord(s: string): (w: string)
    ensures |w| <= |s|
    ensures |w| < |s| ==> IsSpace(s[|w|])
  {
    if s == [] || IsSpace(s[0]) then [] else [s[0]] + TakeWord(s[1..])
  }

  /** The first word of `s` holds no whitespace. */
  lemma {:induction false} TakeWordSpaceFree(s: string)
    ensures SpaceFree(TakeWord(s))
  {
    if s != [] && !IsSpace(s[0]) {
      TakeWordSpaceFree(s[1..]);
      var w := TakeWord(s[1..]);
      assert TakeWord(s) == [s[0]] + w;
      forall i | 0 <= i < |[s[0]] + w| ensures !IsSpace(([s[0]] + w)[i]) {
        if i > 0 {
          assert ([s[0]] + w)[i] == w[i - 1];
        }
      }
    }
  }

  /**
    `s.split(/\s+/)`: the text between maximal whitespace runs, so only the first
    element (when `s` starts with whitespace) and the last (when it ends with
    whitespace) can be empty, and the empty string splits into `[""]`.
   */
  function SplitWhitespace(s: string): (r: seq<string>)
    ensures |r| >= 1
    ensures s != [] && !IsSpace(s[0]) ==> r[0] != []
    decreases |s|
  {
    var w := TakeWord(s);
    if |w| == |s| then [w]
    else [w] + SplitWhitespace(TrimStart(s[|w|..]))
  }

  /** No element of `s.split(/\s+/)` holds whitespace. */
  lemma {:induction false} SplitWhitespaceSpaceFree(s: string)
    ensures forall i :: 0 <= i < |SplitWhitespace(s)| ==> SpaceFree(SplitWhitespace(s)[i])
    decreases |s|
  {
    var w := TakeWord(s);
    TakeWordSpaceFree(s);
    if |w| < |s| {
      var t := TrimStart(s[|w|..]);
      SplitWhitespaceSpaceFree(t);
      assert SplitWhitespace(s) == [w] + SplitWhitespace(t);
      SpaceFreeCons(SplitWhitespace(s), w, SplitWhitespace(t));
    } else {
      assert SplitWhitespace(s) == [w];
    }
  }

  /** A space-free head before space-free strings gives space-free strings. */
  lemma SpaceFreeCons(r: seq<string>, w: string, rest: seq<string>)
    requires r == [w] + rest && SpaceFree(w)
    requires forall i :: 0 <= i < |rest| ==> SpaceFree(rest[i])
    ensures forall i :: 0 <= i < |r| ==> SpaceFree(r[i])
  {
    forall i | 0 < i < |r| ensures SpaceFree(r[i]) {
      assert r[i] == rest[i - 1];
    }
  }

  /** Only the first and the last element of `s.split(/\s+/)` can be empty. */
  lemma {:induction false} SplitWhitespaceInner(s: string)
    ensures forall i :: 0 < i < |SplitWhitespace(s)| - 1 ==> SplitWhitespace(s)[i] != []
    decreases |s|
  {
    var w := TakeWord(s);
    if |w| < |s| {
      var t := TrimStart(s[|w|..]);
      SplitWhitespaceInner(t);
      var r, rest := SplitWhitespace(s), SplitWhitespace(t);
      assert t != [] ==> rest[0] != [];
      forall i | 0 < i < |r| - 1 ensures r[i] != [] {
        assert r[i] == rest[i - 1];
      }
    }
  }

  /** `ws` without its empty strings, in order. */
  function NonEmpty(ws: seq<string>): (r: seq<string>)
    ensures |r| <= |ws|
  {
    if ws == [] then []
    else (if ws[0] == [] then [] else [ws[0]]) + NonEmpty(ws[1..])
  }

  /** The words of `s`, in order: `s.split(/\s+/)` without its empty elements. */
  function Words(s: string): seq<string> {
    NonEmpty(SplitWhitespace(s))
  }

  /** `parts.join(sep)` */
  function JoinWith(parts: seq<string>, sep: char): string {
    if parts == [] then []
    else if |parts| == 1 then parts[0]
    else parts[0] + [sep] + JoinWith(parts[1..], sep)
  }

  /** The longest prefix of `s` that does not contain `sep`. */
  function Field(s: string, sep: char): (f: string)
    ensures |f| <= |s| && f == s[..|f|] && sep !in f
    ensures |f| < |s| ==> s[|f|] == sep
  {
    if s == [] || s[0] == sep then [] else [s[0]] + Field(s[1..], sep)
  }

  /** `s.split(sep)` for a one-character separator; never empty. */
  function SplitOn(s: string, sep: char): (r: seq<string>)
    ensures |r| >= 1
    decreases |s|
  {
    var f := Field(s, sep);
    if |f| == |s| then [s] else [f] + SplitOn(s[|f| + 1..], sep)
  }

  function Last<T>(s: seq<T>): T
    requires s != []
  {
    s[|s| - 1]
  }

  function Digit(d: nat): char
    requires d < 10
  {
    "0123456789"[d]
  }

  /** The decimal text of a natural number, as template strings print it. */
  function NatToString(n: nat): (r: string)
    ensures r != []
  {
    if n < 10 then [Digit(n)] else NatToString(n / 10) + [Digit(n % 10)]
  }

  // ---------------------------------------------------------------------------
  // split(sep) and join(sep)

  lemma {:induction false} FieldOfJoin(a: string, b: string, sep: char)
    requires sep !in a
    ensures Field(a + [sep] + b, sep) == a
  {
    if a != [] {
      assert (a + [sep] + b)[1..] == a[1..] + [sep] + b;
      FieldOfJoin(a[1..], b, sep);
    }
  }

  /** Joining one more part adds the separator and the part. */
  lemma {:induction false} JoinSnoc(g: seq<string>, w: string, sep: char)
    requires g != []
    ensures JoinWith(g + [w], sep) == JoinWith(g, sep) + [sep] + w
  {
    if |g| > 1 {
      assert (g + [w])[1..] == g[1..] + [w];
      JoinSnoc(g[1..], w, sep);
    }
  }

  /** Splitting at a separator that follows a separator-free part. */
  lemma {:induction false} SplitOnCons(a: string, b: string, sep: char)
    requires sep !in a
    ensures SplitOn(a + [sep] + b, sep) == [a] + SplitOn(b, sep)
  {
    FieldOfJoin(a, b, sep);
    assert (a + [sep] + b)[|a| + 1..] == b;
  }

  lemma {:induction false} SplitOnSeparatorFree(s: string, sep: char)
    requires sep !in s
    ensures SplitOn(s, sep) == [s]
  {
  }

  /** `parts.join(sep).split(sep)` gives `parts` back when no part contains `sep`
      and there is at least one part. */
  lemma {:induction false} SplitOnJoinWith(parts: seq<string>, sep: char)
    requires |parts| >= 1
    requires forall i :: 0 <= i < |parts| ==> sep !in parts[i]
    ensures SplitOn(JoinWith(parts, sep), sep) == parts
  {
    if |parts| == 1 {
      SplitOnSeparatorFree(parts[0], sep);
    } else {
      SplitOnCons(parts[0], JoinWith(parts[1..], sep), sep);
      SplitOnJoinWith(parts[1..], sep);
    }
  }

  /** `s.split(sep).join(sep)` is `s`. */
  lemma {:induction false} JoinWithSplitOn(s: string, sep: char)
    ensures JoinWith(SplitOn(s, sep), sep) == s
    decreases |s|
  {
    var f := Field(s, sep);
    if |f| < |s| {
      var rest := s[|f| + 1..];
      JoinWithSplitOn(rest, sep);
      var tail := SplitOn(rest, sep);
      assert SplitOn(s, sep) == [f] + tail;
      assert ([f] + tail)[1..] == tail;
      assert s == f + [sep] + rest;
    }
  }

  // ---------------------------------------------------------------------------
  // split(/\s+/) and join(' ')

  lemma {:induction false} TakeWordOfJoin(w: string, rest: string)
    requires SpaceFree(w)
    ensures TakeWord(w + " " + rest) == w
  {
    if w != [] {
      assert (w + " " + rest)[1..] == w[1..] + " " + rest;
      TakeWordOfJoin(w[1..], rest);
    }
  }

  /** Joining non-empty words with single spaces gives a text that neither starts
      nor ends with whitespace. */
  lemma {:induction false} JoinedWordsEdges(ws: seq<string>)
    requires |ws| >= 1
    requires forall i :: 0 <= i < |ws| ==> IsWord(ws[i])
    ensures var j := JoinWith(ws, ' ');
      j != [] && !IsSpace(j[0]) && !IsSpace(j[|j| - 1])
  {
    assert IsWord(ws[0]);
    if |ws| > 1 {
      JoinedWordsEdges(ws[1..]);
    }
  }

  lemma {:induction false} TakeWordOfWord(w: string)
    requires SpaceFree(w)
    ensures TakeWord(w) == w
  {
    if w != [] {
      assert !IsSpace(w[0]);
      forall i | 0 <= i < |w[1..]| ensures !IsSpace(w[1..][i]) {
        assert w[1..][i] == w[i + 1];
      }
      TakeWordOfWord(w[1..]);
      assert w == [w[0]] + w[1..];
    }
  }

  /** Splitting at the space after a first word. */
  lemma {:induction false} SplitWhitespaceCons(w: string, rest: string)
    requires IsWord(w)
    requires rest != [] && !IsSpace(rest[0])
    ensures SplitWhitespace(w + " " + rest) == [w] + SplitWhitespace(rest)
  {
    var s := w + " " + rest;
    TakeWordOfJoin(w, rest);
    assert s[|w|..] == " " + rest;
    assert (" " + rest)[1..] == rest;
    assert TrimStart(" " + rest) == rest;
  }

  lemma HeadTail<T>(s: seq<T>)
    requires |s| >= 1
    ensures s == [s[0]] + s[1..]
  {
  }

  /** Splitting words joined by single spaces gives the words back: no word is
      split and none is dropped. */
  lemma {:induction false} SplitWhitespaceOfJoin(ws: seq<string>)
    requires |ws| >= 1
    requires forall i :: 0 <= i < |ws| ==> IsWord(ws[i])
    ensures SplitWhitespace(JoinWith(ws, ' ')) == ws
  {
    assert IsWord(ws[0]);
    if |ws| > 1 {
      var tail := ws[1..];
      assert forall i :: 0 <= i < |tail| ==> IsWord(tail[i]) by {
        forall i | 0 <= i < |tail| ensures IsWord(tail[i]) {
          assert tail[i] == ws[i + 1];
        }
      }
      var rest := JoinWith(tail, ' ');
      assert JoinWith(ws, ' ') == ws[0] + " " + rest;
      JoinedWordsEdges(tail);
      SplitWhitespaceCons(ws[0], rest);
      SplitWhitespaceOfJoin(tail);
      HeadTail(ws);
    } else {
      var w := ws[0];
      assert JoinWith(ws, ' ') == w;
      TakeWordOfWord(w);
      assert SplitWhitespace(w) == [w];
      assert ws == [w];
    }
  }

  lemma {:induction false} NonEmptyOfNonEmpty(ws: seq<string>)
    requires forall i :: 0 <= i < |ws| ==> ws[i] != []
    ensures NonEmpty(ws) == ws
  {
    if ws != [] {
      NonEmptyOfNonEmpty(ws[1..]);
    }
  }

  lemma {:induction false} NonEmptyAppend(a: seq<string>, b: seq<string>)
    ensures NonEmpty(a + b) == NonEmpty(a) + NonEmpty(b)
  {
    if a == [] {
      assert a + b == b;
    } else {
      var h := if a[0] == [] then [] else [a[0]];
      assert (a + b)[0] == a[0];
      assert (a + b)[1..] == a[1..] + b;
      assert NonEmpty(a + b) == h + NonEmpty(a[1..] + b);
      NonEmptyAppend(a[1..], b);
    }
  }

  /** The words of words joined by single spaces are those words. */
  lemma {:induction false} WordsOfJoin(ws: seq<string>)
    requires forall i :: 0 <= i < |ws| ==> IsWord(ws[i])
    ensures Words(JoinWith(ws, ' ')) == ws
  {
    if ws != [] {
      SplitWhitespaceOfJoin(ws);
      NonEmptyOfNonEmpty(ws);
    }
  }

  /** Trimming a text with no whitespace at either edge, possibly followed by
      one space, gives that text. */
  lemma {:induction false} TrimEdgeless(j: string, trailing: bool)
    requires j == [] || (!IsSpace(j[0]) && !IsSpace(j[|j| - 1]))
    requires trailing ==> j != []
    ensures Trim(j + (if trailing then " " else "")) == j
  {
    if trailing {
      var t := j + " ";
      assert t[0] == j[0];
      assert TrimStart(t) == t;
      assert t[..|t| - 1] == j;
      assert TrimEnd(t) == TrimEnd(j);
    } else {
      assert j + "" == j;
    }
  }

  /** Trimming words joined by single spaces, possibly followed by one space,
      leaves the joined words. */
  lemma {:induction false} TrimJoined(ws: seq<string>, trailing: bool)
    requires forall i :: 0 <= i < |ws| ==> IsWord(ws[i])
    requires trailing ==> ws != []
    ensures Trim(JoinWith(ws, ' ') + (if trailing then " " else "")) == JoinWith(ws, ' ')
  {
    if ws != [] {
      JoinedWordsEdges(ws);
    }
    TrimEdgeless(JoinWith(ws, ' '), trailing);
  }
}
