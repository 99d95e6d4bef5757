/**
  The text chunker of the store (`chunkText`): a text no longer than the limit is
  returned as it is; a longer one is split greedily at word boundaries.
 */
module Chunker {
  import opened Text

  /**
    The chunks the loop of `chunkText` still emits when `words` remain to be read
    and the running chunk is `current`: a word that would take `current + " " + word`
    past the limit flushes the trimmed running chunk and starts a new one; any other
    word is appended, after a space unless the running chunk is empty; at the end a
    running chunk that is not blank once trimmed is flushed as well.
   */
  function Emit(words: seq<string>, max: int, current: string): seq<string>
    decreases |words|
  {
    if words == [] then
      (if Trim(current) != [] then [Trim(current)] else [])
    else
      var w := words[0];
      if |current + " " + w| > max then [Trim(current)] + Emit(words[1..], max, w)
      else Emit(words[1..], max, current + (if current != [] then " " else "") + w)
  }

  /** After the last word: the running chunk trimmed, when not blank. */
  lemma EmitDone(done: seq<string>, words: seq<string>, max: int, cur: string)
    ensures done + Emit(words[|words|..], max, cur) == done + (if Trim(cur) != [] then [Trim(cur)] else [])
  {
    assert words[|words|..] == [];
  }

  /** The value of `chunkText(text, max)`. */
  function Chunk(text: string, max: int): seq<string> {
    if |text| <= max then [text] else Emit(SplitWhitespace(text), max, "")
  }

  /** One turn of the loop of `chunkText`, read off `Emit`. */
  lemma EmitStep(done: seq<string>, words: seq<string>, i: nat, max: int, cur: string)
    requires i < |words|
    ensures |cur + " " + words[i]| > max ==>
      done + Emit(words[i..], max, cur) == (done + [Trim(cur)]) + Emit(words[i + 1..], max, words[i])
    ensures |cur + " " + words[i]| <= max ==>
      done + Emit(words[i..], max, cur) == done + Emit(words[i + 1..], max, cur + (if cur != [] then " " else "") + words[i])
  {
    assert words[i..][0] == words[i] && words[i..][1..] == words[i + 1..];
    if |cur + " " + words[i]| > max {
      EmitOverflows(words[i..], max, cur);
      var rest := Emit(words[i + 1..], max, words[i]);
      assert done + ([Trim(cur)] + rest) == (done + [Trim(cur)]) + rest;
    } else {
      EmitFits(words[i..], max, cur);
    }
  }

  /** `chunkText`: the loop over the words of the text. */
  method ChunkText(text: string, maxChunkSize: int) returns (chunks: seq<string>)
    ensures chunks == Chunk(text, maxChunkSize)
  {
    if |text| <= maxChunkSize {
      return [text];
    }
    chunks := [];
    var currentChunk := "";
    var words := SplitWhitespace(text);
    assert Chunk(text, maxChunkSize) == Emit(words, maxChunkSize, "");
    assert words[0..] == words;
    for i := 0 to |words|
      invariant chunks + Emit(words[i..], maxChunkSize, currentChunk) == Emit(words, maxChunkSize, "")
    {
      var word := words[i];
      EmitStep(chunks, words, i, maxChunkSize, currentChunk);
      if |currentChunk + " " + word| > maxChunkSize {
        chunks := chunks + [Trim(currentChunk)];
        currentChunk := word;
      } else {
        currentChunk := currentChunk + (if currentChunk != [] then " " else "") + word;
      }
    }
    EmitDone(chunks, words, maxChunkSize, currentChunk);
    if Trim(currentChunk) != [] {
      chunks := chunks + [Trim(currentChunk)];
    } else {
      assert chunks + [] == chunks;
    }
  }

  /** The words of each chunk, one chunk after the other. */
  function WordsOfChunks(chunks: seq<string>): seq<string> {
    if chunks == [] then [] else Words(chunks[0]) + WordsOfChunks(chunks[1..])
  }

  /** A chunk is within the limit, or it is one word that the chunker never splits. */
  predicate WithinLimit(c: string, max: int) {
    |c| <= max || IsWord(c)
  }

  /** Every chunk is blank or within the limit. */
  predicate AllWithin(r: seq<string>, max: int) {
    forall i :: 0 <= i < |r| ==> r[i] == [] || WithinLimit(r[i], max)
  }

  predicate NoneEmpty(r: seq<string>) {
    forall i :: 0 <= i < |r| ==> r[i] != []
  }

  // ---------------------------------------------------------------------------
  // Proofs. The running chunk is always `JoinWith(group, ' ')`, possibly followed by
  // one space once the trailing empty word of the split has been appended.

  function Running(group: seq<string>, trailing: bool): string {
    JoinWith(group, ' ') + (if trailing then " " else "")
  }

  predicate AllWords(ws: seq<string>) {
    forall i :: 0 <= i < |ws| ==> IsWord(ws[i])
  }

  /** What holds of the words still to be read and of the running group. */
  predicate Pending(words: seq<string>, group: seq<string>, trailing: bool) {
    && (forall i :: 0 <= i < |words| ==> SpaceFree(words[i]))
    && (forall i :: 0 < i < |words| - 1 ==> words[i] != [])
    && (|words| > 1 && words[0] == [] ==> group == [])
    && (trailing ==> words == [] && group != [])
    && AllWords(group)
  }

  /** What the rest of the loop produces from a running group. */
  predicate Outcome(words: seq<string>, max: int, group: seq<string>, trailing: bool) {
    var r := Emit(words, max, Running(group, trailing));
    && AllWithin(r, max)
    && WordsOfChunks(r) == group + NonEmpty(words)
    && (group != [] ==> NoneEmpty(r))
  }

  /** The group a word starts: none for the empty word. */
  function Start(w: string): seq<string> {
    if w == [] then [] else [w]
  }

  lemma WordsOfChunksCons(c: string, r: seq<string>)
    ensures WordsOfChunks([c] + r) == Words(c) + WordsOfChunks(r)
  {
    assert ([c] + r)[1..] == r;
  }

  lemma AllWithinCons(c: string, r: seq<string>, max: int)
    requires c == [] || WithinLimit(c, max)
    requires AllWithin(r, max)
    ensures AllWithin([c] + r, max)
  {
    forall i | 0 < i < |[c] + r| ensures ([c] + r)[i] == r[i - 1] { }
  }

  lemma NoneEmptyCons(c: string, r: seq<string>)
    requires c != [] && NoneEmpty(r)
    ensures NoneEmpty([c] + r)
  {
    forall i | 0 < i < |[c] + r| ensures ([c] + r)[i] == r[i - 1] { }
  }

  /** The first word, unless empty, is the first non-empty one. */
  lemma NonEmptyHead(words: seq<string>)
    requires words != []
    ensures NonEmpty(words) == Start(words[0]) + NonEmpty(words[1..])
  {
  }

  /** Reading the first word keeps the invariant of the remaining words. */
  lemma PendingTail(words: seq<string>, group: seq<string>, g': seq<string>)
    requires Pending(words, group, false) && words != []
    requires AllWords(g')
    requires words[0] == [] && |words| > 1 ==> g' == []
    ensures Pending(words[1..], g', false)
  {
    var tail := words[1..];
    forall i | 0 <= i < |tail| ensures SpaceFree(tail[i]) {
      assert tail[i] == words[i + 1];
    }
    forall i | 0 < i < |tail| - 1 ensures tail[i] != [] {
      assert tail[i] == words[i + 1];
    }
  }

  lemma TrimRunning(group: seq<string>, trailing: bool)
    requires AllWords(group) && (trailing ==> group != [])
    ensures Trim(Running(group, trailing)) == JoinWith(group, ' ')
    ensures group != [] ==> JoinWith(group, ' ') != [] && Words(JoinWith(group, ' ')) == group
    ensures group == [] ==> JoinWith(group, ' ') == []
  {
    TrimJoined(group, trailing);
    if group != [] {
      JoinedWordsEdges(group);
      WordsOfJoin(group);
    }
  }

  /** The flushed chunk: the running group joined, within the limit when it was
      built by appending and otherwise a lone word (or nothing). */
  lemma FlushedChunk(group: seq<string>, max: int)
    requires AllWords(group)
    requires |group| >= 2 ==> |JoinWith(group, ' ')| <= max
    ensures JoinWith(group, ' ') == [] || WithinLimit(JoinWith(group, ' '), max)
  {
    TrimRunning(group, false);
    if |group| == 1 {
      assert JoinWith(group, ' ') == group[0];
    }
  }

  /** The three facts of an outcome, about a result already named. */
  lemma OutcomeOf(words: seq<string>, max: int, group: seq<string>, trailing: bool, r: seq<string>)
    requires Emit(words, max, Running(group, trailing)) == r
    requires AllWithin(r, max)
    requires WordsOfChunks(r) == group + NonEmpty(words)
    requires group != [] ==> NoneEmpty(r)
    ensures Outcome(words, max, group, trailing)
  {
  }

  /** End of the words: the trimmed running chunk, when not blank. */
  lemma OutcomeAtEnd(max: int, group: seq<string>, trailing: bool)
    requires Pending([], group, trailing)
    requires |group| >= 2 ==> |JoinWith(group, ' ')| <= max
    ensures Outcome([], max, group, trailing)
  {
    TrimRunning(group, trailing);
    FlushedChunk(group, max);
    var j := JoinWith(group, ' ');
    var r := Emit([], max, Running(group, trailing));
    assert NonEmpty([]) == [];
    if group != [] {
      assert r == [j];
      WordsOfChunksCons(j, []);
      AllWithinCons(j, [], max);
      NoneEmptyCons(j, []);
      assert [j] + [] == [j];
    } else {
      assert r == [];
    }
    OutcomeOf([], max, group, trailing, r);
  }

  /** A word that does not fit: flush, and start a group with it. */
  lemma OutcomeFlush(words: seq<string>, max: int, group: seq<string>)
    requires Pending(words, group, false) && words != []
    requires |group| >= 2 ==> |JoinWith(group, ' ')| <= max
    requires |Running(group, false) + " " + words[0]| > max
    requires Outcome(words[1..], max, Start(words[0]), false)
    ensures Outcome(words, max, group, false)
  {
    var w := words[0];
    var j := JoinWith(group, ' ');
    var r' := Emit(words[1..], max, w);
    FlushStep(words, max, group);
    assert Running(Start(w), false) == w;
    assert group != [] ==> NoneEmpty(r') by {
      if group != [] && w == [] {
        assert words[1..] == [];
      }
    }
    assert group + NonEmpty(words) == Words(j) + WordsOfChunks(r') by {
      NonEmptyHead(words);
    }
    OutcomeCons(words, max, group, j, r');
  }

  /** The chunk a flush emits: the running group joined, within the limit. */
  lemma FlushStep(words: seq<string>, max: int, group: seq<string>)
    requires AllWords(group) && words != []
    requires |group| >= 2 ==> |JoinWith(group, ' ')| <= max
    requires |Running(group, false) + " " + words[0]| > max
    ensures var j := JoinWith(group, ' ');
      && Emit(words, max, Running(group, false)) == [j] + Emit(words[1..], max, words[0])
      && (j == [] || WithinLimit(j, max))
      && Words(j) == group
      && (group != [] ==> j != [])
  {
    var j := JoinWith(group, ' ');
    TrimRunning(group, false);
    EmitOverflows(words, max, Running(group, false));
    FlushedChunk(group, max);
    if group == [] {
      assert Words(j) == NonEmpty([""]);
    }
  }

  /** A flush: the running group's chunk, then what the rest of the words give. */
  lemma OutcomeCons(words: seq<string>, max: int, group: seq<string>, j: string, r': seq<string>)
    requires Emit(words, max, Running(group, false)) == [j] + r'
    requires j == [] || WithinLimit(j, max)
    requires AllWithin(r', max)
    requires group + NonEmpty(words) == Words(j) + WordsOfChunks(r')
    requires group != [] ==> j != [] && NoneEmpty(r')
    ensures Outcome(words, max, group, false)
  {
    WordsOfChunksCons(j, r');
    AllWithinCons(j, r', max);
    if group != [] {
      NoneEmptyCons(j, r');
    }
  }

  lemma AppendAssoc<T>(a: seq<T>, b: seq<T>, c: seq<T>)
    ensures a + (b + c) == (a + b) + c
  {
  }

  /** A word that fits in an empty running chunk starts a group. */
  lemma OutcomeStart(words: seq<string>, max: int)
    requires Pending(words, [], false) && words != []
    requires |Running([], false) + " " + words[0]| <= max
    requires Outcome(words[1..], max, Start(words[0]), false)
    ensures Outcome(words, max, [], false)
  {
    var w := words[0];
    var r := Emit(words[1..], max, Running(Start(w), false));
    assert Emit(words, max, Running([], false)) == r by {
      assert Running([], false) == "";
      EmitFits(words, max, "");
      assert "" + "" + w == Running(Start(w), false);
    }
    NonEmptyHead(words);
    assert [] + NonEmpty(words) == Start(w) + NonEmpty(words[1..]);
    OutcomeOf(words, max, [], false, r);
  }

  /** A word that fits is appended to the running group after a space. */
  lemma OutcomeAppend(words: seq<string>, max: int, group: seq<string>)
    requires Pending(words, group, false) && words != [] && group != [] && words[0] != []
    requires |Running(group, false) + " " + words[0]| <= max
    requires Outcome(words[1..], max, group + [words[0]], false)
    ensures Outcome(words, max, group, false)
  {
    var w := words[0];
    var cur := Running(group, false);
    var r := Emit(words[1..], max, Running(group + [w], false));
    assert Emit(words, max, cur) == r by {
      JoinSnoc(group, w, ' ');
      TrimRunning(group, false);
      assert cur == JoinWith(group, ' ') && cur != [];
      EmitFits(words, max, cur);
      assert cur + " " + w == Running(group + [w], false);
    }
    assert group + NonEmpty(words) == group + [w] + NonEmpty(words[1..]) by {
      NonEmptyHead(words);
      AppendAssoc(group, [w], NonEmpty(words[1..]));
    }
    OutcomeOf(words, max, group, false, r);
  }

  /** The trailing empty word of the split leaves one space after the group. */
  lemma OutcomeTrailing(words: seq<string>, max: int, group: seq<string>)
    requires Pending(words, group, false) && words != [] && group != [] && words[0] == []
    requires |Running(group, false) + " " + words[0]| <= max
    requires Outcome(words[1..], max, group, true)
    ensures Outcome(words, max, group, false)
  {
    TrimRunning(group, false);
    assert words == [[]] by {
      assert words[1..] == [];
      HeadTail(words);
    }
    TrailingEnd(max, group);
  }

  /** The empty word as the last word fits after a non-empty group, leaving one
      space that the final trim removes. */
  lemma TrailingEnd(max: int, group: seq<string>)
    requires JoinWith(group, ' ') != [] && |Running(group, false) + " "| <= max
    requires Outcome([], max, group, true)
    ensures Outcome([[]], max, group, false)
  {
    var cur := Running(group, false);
    assert cur == JoinWith(group, ' ');
    assert cur + " " + [] == Running(group, true);
    assert Emit([[]], max, cur) == Emit([], max, Running(group, true));
    assert NonEmpty([[]]) == [];
  }

  lemma AllWordsSnoc(group: seq<string>, w: string)
    requires AllWords(group) && IsWord(w)
    ensures AllWords(group + [w])
  {
    forall i | 0 <= i < |group + [w]| ensures IsWord((group + [w])[i]) {
      if i < |group| {
        assert (group + [w])[i] == group[i];
      }
    }
  }

  /** The lemma form of the invariant: from any running group to the end of the words. */
  lemma {:induction false} EmitFrom(words: seq<string>, max: int, group: seq<string>, trailing: bool)
    requires Pending(words, group, trailing)
    requires |group| >= 2 ==> |JoinWith(group, ' ')| <= max
    ensures Outcome(words, max, group, trailing)
    decreases |words|
  {
    if words == [] {
      OutcomeAtEnd(max, group, trailing);
    } else {
      var w := words[0];
      var tail := words[1..];
      assert !trailing;
      if |Running(group, false) + " " + w| > max {
        PendingTail(words, group, Start(w));
        EmitFrom(tail, max, Start(w), false);
        OutcomeFlush(words, max, group);
      } else if group == [] {
        PendingTail(words, group, Start(w));
        EmitFrom(tail, max, Start(w), false);
        OutcomeStart(words, max);
      } else if w != [] {
        JoinSnoc(group, w, ' ');
        TrimRunning(group, false);
        assert IsWord(w);
        AllWordsSnoc(group, w);
        PendingTail(words, group, group + [w]);
        EmitFrom(tail, max, group + [w], false);
        OutcomeAppend(words, max, group);
      } else {
        PendingTail(words, group, group);
        assert tail == [];
        EmitFrom(tail, max, group, true);
        OutcomeTrailing(words, max, group);
      }
    }
  }

  lemma SplitPending(text: string)
    ensures Pending(SplitWhitespace(text), [], false)
    ensures Running([], false) == ""
  {
    SplitWhitespaceSpaceFree(text);
    SplitWhitespaceInner(text);
  }

  /** The words of the input survive chunking in order: splitting the chunks back
      into words gives the input's words, none split and none dropped. */
  lemma ChunkWords(text: string, max: int)
    ensures WordsOfChunks(Chunk(text, max)) == Words(text)
  {
    if |text| <= max {
      WordsOfChunksCons(text, []);
    } else {
      SplitPending(text);
      EmitFrom(SplitWhitespace(text), max, [], false);
    }
  }

  /** Every chunk is within the limit or is a single word longer than the limit. */
  lemma ChunkBound(text: string, max: int)
    requires max >= 0
    ensures forall i :: 0 <= i < |Chunk(text, max)| ==> WithinLimit(Chunk(text, max)[i], max)
  {
    if |text| > max {
      SplitPending(text);
      EmitFrom(SplitWhitespace(text), max, [], false);
    }
  }

  /** A text within the limit is returned whole and untrimmed. */
  lemma ChunkShortText(text: string, max: int)
    requires |text| <= max
    ensures Chunk(text, max) == [text]
  {
  }

  /** The loop started on an empty running chunk, with a limit of at least one: only
      the first chunk can be empty, and it is exactly when the first word alone
      reaches the limit; without any word there is no chunk. */
  predicate LeadingOutcome(words: seq<string>, max: int) {
    var r := Emit(words, max, "");
    var ws := NonEmpty(words);
    && (forall i :: 0 < i < |r| ==> r[i] != [])
    && ((|r| > 0 && r[0] == []) <==> (ws != [] && |ws[0]| >= max))
    && (ws == [] ==> r == [])
  }

  lemma {:induction false} EmitFromEmpty(words: seq<string>, max: int)
    requires max >= 1
    requires Pending(words, [], false)
    ensures LeadingOutcome(words, max)
    decreases |words|
  {
    if words != [] {
      var w := words[0];
      var tail := words[1..];
      PendingTail(words, [], Start(w));
      NonEmptyHead(words);
      if w == [] {
        assert Emit(words, max, "") == Emit(tail, max, "") by {
          EmitFits(words, max, "");
          assert "" + "" + w == "";
        }
        EmitFromEmpty(tail, max);
        LeadingSkip(words, max);
      } else {
        assert Running([w], false) == w;
        EmitFrom(tail, max, [w], false);
        var r' := Emit(tail, max, w);
        if |"" + " " + w| > max {
          assert Emit(words, max, "") == [""] + r' by {
            EmitOverflows(words, max, "");
          }
          LeadingFlush(words, max, r');
        } else {
          assert Emit(words, max, "") == r' by {
            EmitFits(words, max, "");
            assert "" + "" + w == w;
          }
          assert r' != [] by {
            assert WordsOfChunks(r') != [];
          }
          LeadingFit(words, max, r');
        }
      }
    }
  }

  /** An empty first word is skipped: the running chunk stays empty. */
  lemma LeadingSkip(words: seq<string>, max: int)
    requires words != [] && words[0] == []
    requires Emit(words, max, "") == Emit(words[1..], max, "")
    requires NonEmpty(words) == NonEmpty(words[1..])
    requires LeadingOutcome(words[1..], max)
    ensures LeadingOutcome(words, max)
  {
  }

  /** A first word at least as long as the limit flushes the empty running chunk. */
  lemma LeadingFlush(words: seq<string>, max: int, r': seq<string>)
    requires words != [] && words[0] != [] && |words[0]| >= max
    requires Emit(words, max, "") == [""] + r'
    requires NonEmpty(words) == [words[0]] + NonEmpty(words[1..])
    requires NoneEmpty(r')
    ensures LeadingOutcome(words, max)
  {
    var r := [""] + r';
    forall i | 0 < i < |r| ensures r[i] != [] {
      assert r[i] == r'[i - 1];
    }
  }

  /** A shorter first word starts the running chunk; no chunk is empty. */
  lemma LeadingFit(words: seq<string>, max: int, r: seq<string>)
    requires words != [] && words[0] != [] && |words[0]| < max
    requires Emit(words, max, "") == r && r != []
    requires NonEmpty(words) == [words[0]] + NonEmpty(words[1..])
    requires NoneEmpty(r)
    ensures LeadingOutcome(words, max)
  {
  }

  /**
    When the text is longer than a limit of at least one, an empty chunk can only
    come first, and it does exactly when the first word is at least as long as the
    limit: the test `"" + " " + word` already exceeds the limit and flushes the empty
    running chunk. A text without words (all whitespace) gives no chunk at all.
   */
  lemma ChunkLeadingEmpty(text: string, max: int)
    requires max >= 1 && |text| > max
    ensures var r := Chunk(text, max);
      var ws := Words(text);
      && (forall i :: 0 < i < |r| ==> r[i] != [])
      && ((|r| > 0 && r[0] == []) <==> (ws != [] && |ws[0]| >= max))
      && (ws == [] ==> r == [])
  {
    SplitPending(text);
    EmitFromEmpty(SplitWhitespace(text), max);
  }

  lemma TrimPair(a: string, b: string)
    requires IsWord(a) && IsWord(b)
    ensures Trim(a + " " + b) == a + " " + b
  {
    assert JoinWith([a, b], ' ') == a + " " + b;
    TrimJoined([a, b], false);
  }

  lemma EmitFits(words: seq<string>, max: int, cur: string)
    requires words != [] && |cur + " " + words[0]| <= max
    ensures Emit(words, max, cur) == Emit(words[1..], max, cur + (if cur != [] then " " else "") + words[0])
  {
  }

  lemma EmitOverflows(words: seq<string>, max: int, cur: string)
    requires words != [] && |cur + " " + words[0]| > max
    ensures Emit(words, max, cur) == [Trim(cur)] + Emit(words[1..], max, words[0])
  {
  }

  lemma EmitPairLast(c: string, d: string)
    requires IsWord(c) && IsWord(d) && |c| + |d| < 10
    ensures Emit([d], 10, c) == [c + " " + d]
  {
    EmitFits([d], 10, c);
    assert [d][1..] == [];
    TrimPair(c, d);
  }

  /** Four words of lengths 3, 5, 5 and 3 under a limit of ten pair up. */
  lemma EmitFour(a: string, b: string, c: string, d: string)
    requires IsWord(a) && IsWord(b) && IsWord(c) && IsWord(d)
    requires |a| == 3 && |b| == 5 && |c| == 5 && |d| == 3
    ensures Emit([a, b, c, d], 10, "") == [a + " " + b, c + " " + d]
  {
    var ab, cd := a + " " + b, c + " " + d;
    var e0, e1, e2, e3 := Emit([a, b, c, d], 10, ""), Emit([b, c, d], 10, a), Emit([c, d], 10, ab), Emit([d], 10, c);
    assert e0 == e1 by {
      EmitFits([a, b, c, d], 10, "");
      assert [a, b, c, d][1..] == [b, c, d];
      assert "" + "" + a == a;
    }
    assert e1 == e2 by {
      EmitFits([b, c, d], 10, a);
      assert [b, c, d][1..] == [c, d];
    }
    assert e2 == [ab] + e3 by {
      EmitOverflows([c, d], 10, ab);
      assert [c, d][1..] == [d];
      TrimPair(a, b);
    }
    EmitPairLast(c, d);
    assert [ab] + [cd] == [ab, cd];
  }

  lemma JoinCons(x: string, r: seq<string>)
    requires r != []
    ensures JoinWith([x] + r, ' ') == x + " " + JoinWith(r, ' ')
  {
    assert ([x] + r)[1..] == r;
  }

  lemma JoinFour(a: string, b: string, c: string, d: string)
    ensures JoinWith([a, b, c, d], ' ') == a + " " + b + " " + c + " " + d
  {
    JoinCons(c, [d]);
    assert [c] + [d] == [c, d];
    JoinCons(b, [c, d]);
    assert [b] + [c, d] == [b, c, d];
    JoinCons(a, [b, c, d]);
    assert [a] + [b, c, d] == [a, b, c, d];
    assert a + " " + (b + " " + (c + " " + d)) == a + " " + b + " " + c + " " + d;
  }

  lemma SplitFour(a: string, b: string, c: string, d: string)
    requires IsWord(a) && IsWord(b) && IsWord(c) && IsWord(d)
    ensures SplitWhitespace(a + " " + b + " " + c + " " + d) == [a, b, c, d]
  {
    var ws := [a, b, c, d];
    forall i | 0 <= i < |ws| ensures IsWord(ws[i]) {
      assert ws[i] == a || ws[i] == b || ws[i] == c || ws[i] == d;
    }
    SplitWhitespaceOfJoin(ws);
    JoinFour(a, b, c, d);
  }

  /** The greedy split at a limit of ten: "brown" no longer fits after "the quick". */
  lemma ChunkExample(text: string)
    requires text == "the quick brown fox"
    ensures Chunk(text, 10) == ["the quick", "brown fox"]
  {
    var a, b, c, d := "the", "quick", "brown", "fox";
    ExampleWords(text);
    ExampleAreWords();
    SplitFour(a, b, c, d);
    EmitFour(a, b, c, d);
    assert Chunk(text, 10) == Emit([a, b, c, d], 10, "");
  }

  /** How the words of the example make it up. */
  lemma ExampleWords(text: string)
    requires text == "the quick brown fox"
    ensures text == "the" + " " + "quick" + " " + "brown" + " " + "fox" && |text| == 19
    ensures "the" + " " + "quick" == "the quick" && "brown" + " " + "fox" == "brown fox"
  {
  }

  /** The words of the example hold no whitespace. */
  lemma ExampleAreWords()
    ensures IsWord("the") && IsWord("quick") && IsWord("brown") && IsWord("fox")
  {
  }
}
