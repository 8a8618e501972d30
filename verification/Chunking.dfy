/**
 The policy chunker, `chunk_policy` in services/api/app/domain/chunking.py.

 A policy document is cut at its headings into sections, each section at
 sentence ends into sentences, and the sentences are packed greedily into
 chunks under a token budget. The results: no word is lost or moved, no
 packing under the same rule uses fewer chunks, chunk ids never repeat, and the
 heading path of a chunk is its place in the outline under an exact condition.
 */
module Chunking {
  import opened Common
  import opened Text

  // ------------------------------------------------------------------- words

  /** Python's ASCII white space. */
  predicate IsSpace(c: char) {
    c == ' ' || '\t' <= c <= '\r' || '\U{1C}' <= c <= '\U{1F}'
  }

  /** Which ASCII characters these are: tab to carriage return, the four separators and the blank. */
  lemma WhiteSpaceIs(c: char)
    ensures IsSpace(c) <==> c as int in {9, 10, 11, 12, 13, 28, 29, 30, 31, 32}
  {
  }

  /** The length of the longest start without white space. */
  function WordLength(s: string): (n: nat)
    ensures n <= |s|
  {
    if s == [] || IsSpace(s[0]) then 0 else 1 + WordLength(s[1..])
  }

  /** The white-space separated words, as `str.split()` gives them. */
  function Words(s: string): seq<string> {
    if s == [] then []
    else if IsSpace(s[0]) then Words(s[1..])
    else [s[..WordLength(s)]] + Words(s[WordLength(s)..])
  }

  lemma {:induction false} WordLengthAppend(a: string, b: string)
    requires WordLength(a) < |a| || b == "" || IsSpace(b[0])
    ensures WordLength(a + b) == WordLength(a)
  {
    if a == "" {
      assert a + b == b;
    } else if !IsSpace(a[0]) {
      assert (a + b)[1..] == a[1..] + b;
      WordLengthAppend(a[1..], b);
    }
  }

  lemma {:induction false} WordLengthStops(a: string)
    ensures WordLength(a) < |a| ==> IsSpace(a[WordLength(a)])
    ensures forall i :: 0 <= i < WordLength(a) ==> !IsSpace(a[i])
  {
    if a != "" && !IsSpace(a[0]) {
      WordLengthStops(a[1..]);
    }
  }

  /** Two texts meet at white space, or one is empty. */
  predicate Apart(a: string, b: string) {
    a == "" || b == "" || IsSpace(a[|a| - 1]) || IsSpace(b[0])
  }

  /** The first word of `a + b`, and what follows it, when it ends within `a`. */
  lemma FirstWordOfAppend(a: string, b: string)
    requires a != "" && !IsSpace(a[0]) && Apart(a, b)
    ensures var n := WordLength(a);
            0 < n <= |a| && Words(a + b) == [a[..n]] + Words(a[n..] + b) && Apart(a[n..], b)
  {
    var n := WordLength(a);
    WordLengthStops(a);
    WordLengthAppend(a, b);
    assert (a + b)[..n] == a[..n] && (a + b)[n..] == a[n..] + b;
  }

  /** Cutting a text next to white space cuts no word. */
  lemma {:induction false} WordsAppend(a: string, b: string)
    requires Apart(a, b)
    ensures Words(a + b) == Words(a) + Words(b)
    decreases |a|
  {
    if a == "" {
      assert a + b == b;
    } else if IsSpace(a[0]) {
      assert (a + b)[1..] == a[1..] + b;
      WordsAppend(a[1..], b);
    } else {
      var n := WordLength(a);
      FirstWordOfAppend(a, b);
      WordsAppend(a[n..], b);
      var w, rest := [a[..n]], Words(a[n..]);
      assert w + (rest + Words(b)) == (w + rest) + Words(b);
    }
  }

  predicate Blank(s: string) {
    forall i :: 0 <= i < |s| ==> IsSpace(s[i])
  }

  lemma {:induction false} BlankHasNoWords(s: string)
    ensures Words(s) == [] <==> Blank(s)
  {
    if s != "" && IsSpace(s[0]) {
      BlankHasNoWords(s[1..]);
      assert Blank(s) <==> Blank(s[1..]) by {
        if Blank(s[1..]) {
          forall i | 0 <= i < |s| ensures IsSpace(s[i]) {
            if i > 0 {
              assert s[i] == s[1..][i - 1];
            }
          }
        }
      }
    }
  }

  /** `str.strip()` */
  function Strip(s: string): string {
    if s == "" then ""
    else if IsSpace(s[0]) then Strip(s[1..])
    else if IsSpace(s[|s| - 1]) then Strip(s[..|s| - 1])
    else s
  }

  lemma {:induction false} StripKeepsWords(s: string)
    ensures Words(Strip(s)) == Words(s)
    decreases |s|
  {
    if s != "" {
      if IsSpace(s[0]) {
        StripKeepsWords(s[1..]);
      } else if IsSpace(s[|s| - 1]) {
        var t, c := s[..|s| - 1], s[|s| - 1..];
        StripKeepsWords(t);
        assert s == t + c;
        WordsAppend(t, c);
        BlankHasNoWords(c);
      }
    }
  }

  lemma {:induction false} StripIsBare(s: string)
    ensures Strip(s) == "" || (!IsSpace(Strip(s)[0]) && !IsSpace(Strip(s)[|Strip(s)| - 1]))
    ensures Strip(s) == "" <==> Words(s) == []
    decreases |s|
  {
    if s != "" {
      if IsSpace(s[0]) {
        StripIsBare(s[1..]);
      } else if IsSpace(s[|s| - 1]) {
        StripIsBare(s[..|s| - 1]);
        StripKeepsWords(s[..|s| - 1]);
        StripKeepsWords(s);
      }
    }
  }

  /** `" ".join(parts)` */
  function JoinSpaced(parts: seq<string>): string {
    if parts == [] then ""
    else if |parts| == 1 then parts[0]
    else parts[0] + (" " + JoinSpaced(parts[1..]))
  }

  /** The words of texts read one after the other. */
  function WordsOf(parts: seq<string>): seq<string> {
    if parts == [] then [] else Words(parts[0]) + WordsOf(parts[1..])
  }

  lemma {:induction false} JoinKeepsWords(parts: seq<string>)
    ensures Words(JoinSpaced(parts)) == WordsOf(parts)
  {
    if |parts| == 1 {
      assert WordsOf(parts[1..]) == [];
    } else if |parts| > 1 {
      var rest := JoinSpaced(parts[1..]);
      JoinKeepsWords(parts[1..]);
      WordsAppend(parts[0], " " + rest);
      assert (" " + rest)[1..] == rest;
    }
  }

  lemma {:induction false} WordsOfAppend(a: seq<string>, b: seq<string>)
    ensures WordsOf(a + b) == WordsOf(a) + WordsOf(b)
  {
    if a == [] {
      assert a + b == b;
    } else {
      assert (a + b)[1..] == a[1..] + b;
      WordsOfAppend(a[1..], b);
    }
  }

  // --------------------------------------------------------------- sentences

  function SpaceRun(s: string): (n: nat)
    ensures n <= |s| && forall i :: 0 <= i < n ==> IsSpace(s[i])
  {
    if s != "" && IsSpace(s[0]) then 1 + SpaceRun(s[1..]) else 0
  }

  function NewlineRun(s: string): (n: nat)
    ensures n <= |s| && forall i :: 0 <= i < n ==> IsSpace(s[i])
  {
    if s != "" && s[0] == '\n' then 1 + NewlineRun(s[1..]) else 0
  }

  predicate IsStop(c: char) {
    c in {'.', '!', '?'}
  }

  /**
   The length of a sentence break at `i`: white space after a full stop,
   exclamation or question mark, or else two newlines or more; 0 for none.
   */
  function BreakAt(s: string, i: nat): (n: nat)
    requires i <= |s|
    ensures i + n <= |s| && forall j :: i <= j < i + n ==> IsSpace(s[j])
  {
    var run := SpaceRun(s[i..]);
    var lines := NewlineRun(s[i..]);
    assert forall j :: i <= j < i + run ==> s[j] == s[i..][j - i];
    assert forall j :: i <= j < i + lines ==> s[j] == s[i..][j - i];
    if i > 0 && IsStop(s[i - 1]) && run > 0 then run
    else if lines >= 2 then lines
    else 0
  }

  lemma {:induction false} SpaceRunStops(s: string)
    ensures SpaceRun(s) > 0 <==> s != "" && IsSpace(s[0])
    ensures SpaceRun(s) < |s| ==> !IsSpace(s[SpaceRun(s)])
  {
    if s != "" && IsSpace(s[0]) {
      SpaceRunStops(s[1..]);
    }
  }

  lemma {:induction false} NewlineRunStops(s: string)
    ensures NewlineRun(s) > 0 <==> s != "" && s[0] == '\n'
    ensures NewlineRun(s) > 1 <==> |s| > 1 && s[0] == s[1] == '\n'
    ensures NewlineRun(s) < |s| ==> s[NewlineRun(s)] != '\n'
  {
    if s != "" && s[0] == '\n' {
      NewlineRunStops(s[1..]);
    }
  }

  predicate AfterStop(s: string, i: nat) {
    0 < i < |s| && IsStop(s[i - 1]) && IsSpace(s[i])
  }

  /**
   A sentence breaks exactly at white space after a stop mark and at two
   newlines, and the break takes all the white space, or all the newlines.
   */
  lemma BreakAtIff(s: string, i: nat)
    requires i <= |s|
    ensures BreakAt(s, i) > 0 <==> AfterStop(s, i) || (i + 1 < |s| && s[i] == s[i + 1] == '\n')
    ensures var next := i + BreakAt(s, i);
            BreakAt(s, i) > 0 && next < |s| ==> if AfterStop(s, i) then !IsSpace(s[next]) else s[next] != '\n'
  {
    var rest := s[i..];
    assert forall j :: 0 <= j < |rest| ==> rest[j] == s[i + j];
    SpaceRunStops(rest);
    NewlineRunStops(rest);
  }

  /** The pieces between breaks, leftmost first, of the text from `start`, scanning from `i`. */
  function SplitFrom(s: string, start: nat, i: nat): seq<string>
    requires start <= i <= |s|
    decreases |s| - i
  {
    if i == |s| then [s[start..]]
    else if BreakAt(s, i) > 0 then [s[start..i]] + SplitFrom(s, i + BreakAt(s, i), i + BreakAt(s, i))
    else SplitFrom(s, start, i + 1)
  }

  function SplitSentences(s: string): seq<string> {
    SplitFrom(s, 0, 0)
  }

  /** Dropping white space between two texts drops no word. */
  lemma GapHasNoWords(a: string, gap: string, b: string)
    requires gap != "" && Blank(gap)
    ensures Words(a + (gap + b)) == Words(a) + Words(b)
  {
    assert (gap + b)[0] == gap[0];
    WordsAppend(a, gap + b);
    WordsAppend(gap, b);
    BlankHasNoWords(gap);
  }

  lemma {:induction false} SplitKeepsWords(s: string, start: nat, i: nat)
    requires start <= i <= |s|
    ensures WordsOf(SplitFrom(s, start, i)) == Words(s[start..])
    decreases |s| - i
  {
    hide Words, BreakAt;
    if i == |s| {
      assert [s[start..]][1..] == [];
    } else if BreakAt(s, i) > 0 {
      var n := BreakAt(s, i);
      SplitKeepsWords(s, i + n, i + n);
      var gap := s[i..i + n];
      forall j | 0 <= j < n ensures IsSpace(gap[j]) {
        assert gap[j] == s[i + j];
      }
      assert s[start..] == s[start..i] + (s[i..i + n] + s[i + n..]);
      GapHasNoWords(s[start..i], gap, s[i + n..]);
    } else {
      SplitKeepsWords(s, start, i + 1);
    }
  }

  /** The sentences stripped, without the empty ones. */
  function Trimmed(sentences: seq<string>): seq<string> {
    if sentences == [] then []
    else if Strip(sentences[0]) == "" then Trimmed(sentences[1..])
    else [Strip(sentences[0])] + Trimmed(sentences[1..])
  }

  lemma {:induction false} TrimmedKeepsWords(sentences: seq<string>)
    ensures WordsOf(Trimmed(sentences)) == WordsOf(sentences)
    ensures forall i :: 0 <= i < |Trimmed(sentences)| ==> Words(Trimmed(sentences)[i]) != []
  {
    if sentences != [] {
      TrimmedKeepsWords(sentences[1..]);
      StripKeepsWords(sentences[0]);
      StripIsBare(sentences[0]);
    }
  }

  // Sentences that are joined again are split again into themselves.

  /** A sentence as the splitter makes them: it ends in a stop mark and no break lies within it. */
  predicate Plain(s: string) {
    && s != "" && !IsSpace(s[0]) && IsStop(s[|s| - 1])
    && forall k :: 0 < k < |s| ==> !BreaksBetween(s[k - 1], s[k])
  }

  predicate BreaksBetween(c: char, d: char) {
    (IsStop(c) && IsSpace(d)) || (c == d == '\n')
  }

  lemma {:induction false} NoBreakUntil(s: string, start: nat, i: nat, e: nat)
    requires start <= i <= e <= |s| && forall k :: i <= k < e ==> BreakAt(s, k) == 0
    ensures SplitFrom(s, start, i) == SplitFrom(s, start, e)
    decreases e - i
  {
    if i < e {
      NoBreakUntil(s, start, i + 1, e);
    }
  }

  lemma NoBreakWithin(s: string, start: nat, part: string, k: nat)
    requires Plain(part) && start <= k < start + |part| <= |s| && s[start..start + |part|] == part
    ensures BreakAt(s, k) == 0
  {
    BreakAtIff(s, k);
    var j := k - start;
    assert part[j] == s[k];
    if j > 0 {
      assert part[j - 1] == s[k - 1] && !BreaksBetween(part[j - 1], part[j]);
    }
    if j + 1 < |part| {
      assert part[j + 1] == s[k + 1] && !BreaksBetween(part[j], part[j + 1]);
    }
  }

  lemma BreakIsOne(s: string, i: nat)
    requires 0 < i && i + 1 < |s| && IsStop(s[i - 1]) && s[i] == ' ' && !IsSpace(s[i + 1])
    ensures BreakAt(s, i) == 1
  {
    BreakAtIff(s, i);
  }

  lemma FirstIsWhole(s: string, start: nat, first: string)
    requires Plain(first) && start + |first| <= |s| && s[start..start + |first|] == first
    ensures SplitFrom(s, start, start) == SplitFrom(s, start, start + |first|)
  {
    hide BreakAt, Plain, SplitFrom;
    var e := start + |first|;
    forall k | start <= k < e ensures BreakAt(s, k) == 0 {
      NoBreakWithin(s, start, first, k);
    }
    NoBreakUntil(s, start, start, e);
  }

  lemma {:induction false} SplitJoined(s: string, start: nat, parts: seq<string>)
    requires parts != [] && forall i :: 0 <= i < |parts| ==> Plain(parts[i])
    requires start <= |s| && s[start..] == JoinSpaced(parts)
    ensures SplitFrom(s, start, start) == parts
    decreases |parts|
  {
    hide BreakAt, Plain, SplitFrom, IsSpace, IsStop;
    var first := parts[0];
    var e := start + |first|;
    assert s[start..][..|first|] == first;
    assert s[start..e] == first;
    FirstIsWhole(s, start, first);
    if |parts| == 1 {
      SplitAtEnd(s, start);
      assert s[start..] == first;
    } else {
      var rest := JoinSpaced(parts[1..]);
      assert s[e..] == s[start..][|first|..] == " " + rest;
      assert s[e] == s[e..][0] && s[e + 1..] == s[e..][1..] == rest;
      JoinStarts(parts[1..]);
      assert s[e + 1] == s[e + 1..][0];
      assert IsStop(s[e - 1]) by {
        PlainEnds(first);
        assert s[e - 1] == first[|first| - 1];
      }
      BreakIsOne(s, e);
      SplitAtBreak(s, start, e);
      SplitJoined(s, e + 1, parts[1..]);
    }
  }

  lemma PlainEnds(s: string)
    requires Plain(s)
    ensures s != "" && !IsSpace(s[0]) && IsStop(s[|s| - 1]) && Strip(s) == s
  {
  }

  lemma SplitAtEnd(s: string, start: nat)
    requires start <= |s|
    ensures SplitFrom(s, start, |s|) == [s[start..]]
  {
  }

  lemma SplitAtBreak(s: string, start: nat, i: nat)
    requires start <= i < |s| && BreakAt(s, i) == 1
    ensures SplitFrom(s, start, i) == [s[start..i]] + SplitFrom(s, i + 1, i + 1)
  {
    hide BreakAt;
  }

  lemma JoinStarts(parts: seq<string>)
    requires parts != [] && forall i :: 0 <= i < |parts| ==> Plain(parts[i])
    ensures var text := JoinSpaced(parts); text != "" && !IsSpace(text[0])
  {
    PlainEnds(parts[0]);
  }

  /** Sentences with a blank between them are found again by the splitter, and nothing is stripped from them. */
  lemma SentencesRoundTrip(parts: seq<string>)
    requires parts != [] && forall i :: 0 <= i < |parts| ==> Plain(parts[i])
    ensures Trimmed(SplitSentences(JoinSpaced(parts))) == SplitSentences(JoinSpaced(parts)) == parts
  {
    var text := JoinSpaced(parts);
    assert text[0..] == text;
    SplitJoined(text, 0, parts);
    NothingToTrim(parts);
  }

  lemma {:induction false} NothingToTrim(parts: seq<string>)
    requires forall i :: 0 <= i < |parts| ==> Plain(parts[i])
    ensures Trimmed(parts) == parts
  {
    if parts != [] {
      PlainEnds(parts[0]);
      NothingToTrim(parts[1..]);
    }
  }

  lemma {:induction false} JoinIsBare(parts: seq<string>)
    requires parts != [] && forall i :: 0 <= i < |parts| ==> Plain(parts[i])
    ensures Strip(JoinSpaced(parts)) == JoinSpaced(parts) != ""
  {
    JoinStarts(parts);
    JoinEnds(parts);
  }

  lemma {:induction false} JoinEnds(parts: seq<string>)
    requires parts != [] && forall i :: 0 <= i < |parts| ==> Plain(parts[i])
    ensures var text := JoinSpaced(parts); text != "" && IsStop(text[|text| - 1])
  {
    if |parts| == 1 {
      PlainEnds(parts[0]);
    } else {
      JoinEnds(parts[1..]);
    }
  }

  // ------------------------------------------------------------------ tokens

  /** Python's `round` of `num / den`: to the nearest integer, ties to the even one. */
  function RoundHalfEven(num: int, den: nat): int
    requires den > 0
  {
    var q, r := num / den, num % den;
    if 2 * r < den || (2 * r == den && q % 2 == 0) then q else q + 1
  }

  /** The approximate token count of a text of `n` words: 1.3 tokens a word, at least one. */
  function TokensForWords(n: nat): nat {
    var rounded := RoundHalfEven(13 * n, 10);
    if rounded < 1 then 1 else rounded
  }

  function ApproximateTokens(text: string): nat {
    TokensForWords(|Words(text)|)
  }

  /** The count is the integer nearest to 1.3 tokens a word, the even one of two, and never below one. */
  lemma TokensNearest(n: nat)
    ensures n > 0 ==> -5 <= 10 * TokensForWords(n) - 13 * n <= 5
    ensures n > 0 && (10 * TokensForWords(n) - 13 * n == 5 || 10 * TokensForWords(n) - 13 * n == -5) ==>
              TokensForWords(n) % 2 == 0
    ensures TokensForWords(0) == 1
  {
  }

  lemma TokensMonotone(m: nat, n: nat)
    requires m <= n
    ensures TokensForWords(m) <= TokensForWords(n)
  {
  }

  lemma TokensAtLeastWords(n: nat)
    ensures TokensForWords(n) >= n && TokensForWords(n) >= 1
  {
  }

  function TokenSum(sentences: seq<string>): nat {
    if sentences == [] then 0 else ApproximateTokens(sentences[0]) + TokenSum(sentences[1..])
  }

  lemma {:induction false} TokenSumAppend(a: seq<string>, b: seq<string>)
    ensures TokenSum(a + b) == TokenSum(a) + TokenSum(b)
  {
    if a == [] {
      assert a + b == b;
    } else {
      assert (a + b)[1..] == a[1..] + b;
      TokenSumAppend(a[1..], b);
    }
  }

  lemma TokenSumOne(sentence: string)
    ensures TokenSum([sentence]) == ApproximateTokens(sentence)
  {
    assert [sentence][1..] == [];
  }

  // ----------------------------------------------------------------- packing

  /** Adding the next sentence to the open chunk would go over the budget. */
  predicate Overflows(current: seq<string>, next: string, childTarget: int) {
    current != [] && TokenSum(current) + ApproximateTokens(next) > childTarget
  }

  /** The sentences of each chunk, when `current` is open and `rest` is still to come. */
  function Pack(current: seq<string>, rest: seq<string>, childTarget: int): seq<seq<string>>
    decreases |rest|
  {
    if rest == [] then (if current == [] then [] else [current])
    else if Overflows(current, rest[0], childTarget)
    then [current] + Pack([rest[0]], rest[1..], childTarget)
    else Pack(current + [rest[0]], rest[1..], childTarget)
  }

  /** A chunk is a single sentence, or stays within the budget. */
  predicate Fits(part: seq<string>, childTarget: int) {
    |part| == 1 || (|part| > 1 && TokenSum(part) <= childTarget)
  }

  /** `parts` cuts `sentences` into consecutive parts that all fit. */
  predicate ValidSplit(parts: seq<seq<string>>, sentences: seq<string>, childTarget: int) {
    Flatten(parts) == sentences && forall i :: 0 <= i < |parts| ==> Fits(parts[i], childTarget)
  }

  lemma EmptySplit(childTarget: int)
    ensures ValidSplit([], [], childTarget)
  {
  }

  lemma ValidCons(part: seq<string>, parts: seq<seq<string>>, sentences: seq<string>, childTarget: int)
    requires Fits(part, childTarget) && ValidSplit(parts, sentences, childTarget)
    ensures ValidSplit([part] + parts, part + sentences, childTarget)
  {
    assert ([part] + parts)[1..] == parts;
  }

  lemma {:induction false} PackIsValid(current: seq<string>, rest: seq<string>, childTarget: int)
    requires current == [] || Fits(current, childTarget)
    ensures ValidSplit(Pack(current, rest, childTarget), current + rest, childTarget)
    decreases |rest|
  {
    hide Flatten, TokenSum, ApproximateTokens;
    if rest == [] {
      assert current + rest == current;
      EmptySplit(childTarget);
      if current != [] {
        ValidCons(current, [], [], childTarget);
        assert [current] + [] == [current] && current + [] == current;
      }
    } else if Overflows(current, rest[0], childTarget) {
      PackIsValid([rest[0]], rest[1..], childTarget);
      assert rest == [rest[0]] + rest[1..];
      ValidCons(current, Pack([rest[0]], rest[1..], childTarget), rest, childTarget);
    } else {
      TokenSumAppend(current, [rest[0]]);
      TokenSumOne(rest[0]);
      PackIsValid(current + [rest[0]], rest[1..], childTarget);
      assert current + rest == current + [rest[0]] + rest[1..];
    }
  }

  /** A chunk is closed only when the next sentence would go over the budget. */
  lemma {:induction false} PackIsGreedy(current: seq<string>, rest: seq<string>, childTarget: int)
    requires current + rest != []
    ensures var groups := Pack(current, rest, childTarget);
            && groups != [] && groups[0] != [] && groups[0][0] == (current + rest)[0]
            && forall j {:trigger ClosedForNext(groups, j, childTarget)} ::
                 0 < j < |groups| ==> ClosedForNext(groups, j, childTarget)
    decreases |rest|
  {
    hide TokenSum, ApproximateTokens;
    if rest != [] {
      if Overflows(current, rest[0], childTarget) {
        var more := Pack([rest[0]], rest[1..], childTarget);
        PackIsGreedy([rest[0]], rest[1..], childTarget);
        var groups := [current] + more;
        forall j | 0 < j < |groups| ensures ClosedForNext(groups, j, childTarget) {
          if j > 1 {
            assert groups[j] == more[j - 1] && groups[j - 1] == more[j - 2];
            assert ClosedForNext(more, j - 1, childTarget);
          }
        }
      } else {
        PackIsGreedy(current + [rest[0]], rest[1..], childTarget);
        assert (current + [rest[0]] + rest[1..])[0] == (current + rest)[0];
      }
    }
  }

  predicate ClosedForNext(groups: seq<seq<string>>, j: nat, childTarget: int)
    requires 0 < j < |groups|
  {
    groups[j] != [] && TokenSum(groups[j - 1]) + ApproximateTokens(groups[j][0]) > childTarget
  }

  lemma TokenSumSplit(s: seq<string>, j: nat)
    requires j <= |s|
    ensures TokenSum(s) == TokenSum(s[..j]) + TokenSum(s[j..])
  {
    TokenSumAppend(s[..j], s[j..]);
    assert s[..j] + s[j..] == s;
  }

  /** Part of a run of sentences has no more tokens than the run. */
  lemma TokenSumPart(s: seq<string>, i: nat, j: nat)
    requires i <= j <= |s|
    ensures TokenSum(s[i..j]) <= TokenSum(s)
  {
    TokenSumSplit(s, j);
    TokenSumSplit(s[..j], i);
    assert s[..j][i..] == s[i..j];
  }

  lemma SliceOfSlice<T>(s: seq<T>, a: nat, e: nat, b: nat, c: nat)
    requires a <= b <= c <= e <= |s|
    ensures s[a..e][b - a..c - a] == s[b..c]
  {
    var x, y := s[a..e][b - a..c - a], s[b..c];
    assert |x| == |y| && forall i :: 0 <= i < |x| ==> x[i] == y[i];
  }

  /** If the greedy packer closes a chunk before sentence `i`, no fitting part covers it and `i`. */
  lemma OverflowEndsPart(s: seq<string>, a: nat, b: nat, i: nat, e: nat, childTarget: int)
    requires a <= b < i < |s| && a < e <= |s| && Fits(s[a..e], childTarget)
    requires Overflows(s[b..i], s[i], childTarget)
    ensures e <= i
  {
    TokenSumAppend(s[b..i], [s[i]]);
    TokenSumOne(s[i]);
    assert s[b..i + 1] == s[b..i] + [s[i]];
    if e > i {
      SliceOfSlice(s, a, e, b, i + 1);
      TokenSumPart(s[a..e], b - a, i + 1 - a);
      assert false;
    }
  }

  /**
   The greedy packer, with chunk `s[b..i]` open, needs no more chunks than any
   valid split `parts` of the sentences from `a`, for any `a` up to `b`.
   */
  lemma {:induction false} GreedyStaysAhead(s: seq<string>, a: nat, b: nat, i: nat, parts: seq<seq<string>>,
                                            childTarget: int)
    requires a <= b <= i <= |s| && ValidSplit(parts, s[a..], childTarget)
    ensures |Pack(s[b..i], s[i..], childTarget)| <= |parts|
    decreases |s| - i, |parts|
  {
    hide TokenSum, ApproximateTokens;
    if parts == [] {
      assert s[a..] == [];
    } else {
      var e := a + |parts[0]|;
      assert parts[0] == s[a..e] && s[e..] == s[a..][|parts[0]|..];
      assert ValidSplit(parts[1..], s[e..], childTarget);
      if e <= b {
        GreedyStaysAhead(s, e, b, i, parts[1..], childTarget);
      } else if i < |s| {
        assert s[i..][1..] == s[i + 1..];
        if Overflows(s[b..i], s[i], childTarget) {
          OverflowEndsPart(s, a, b, i, e, childTarget);
          assert s[i..i + 1] == [s[i]];
          GreedyStaysAhead(s, e, i, i + 1, parts[1..], childTarget);
        } else {
          assert s[b..i] + [s[i]] == s[b..i + 1];
          GreedyStaysAhead(s, a, b, i + 1, parts, childTarget);
        }
      }
    }
  }

  /** No way to cut the sentences into fitting chunks uses fewer of them. */
  lemma PackIsFewest(sentences: seq<string>, parts: seq<seq<string>>, childTarget: int)
    requires ValidSplit(parts, sentences, childTarget)
    ensures |Pack([], sentences, childTarget)| <= |parts|
  {
    assert sentences[0..] == sentences && sentences[0..0] == [];
    GreedyStaysAhead(sentences, 0, 0, 0, parts, childTarget);
  }

  // ---------------------------------------------------------------- sections

  /** A heading that the pattern found: where it starts and ends, its level and its title. */
  datatype Heading = Heading(start: nat, end: nat, level: nat, title: string)

  /** Successive matches in `content`: in order, not overlapping, one to six marks, a space and a title each. */
  predicate HeadingsIn(content: string, matches: seq<Heading>) {
    && (forall i :: 0 <= i < |matches| ==>
          matches[i].start + matches[i].level + 2 <= matches[i].end <= |content| && 1 <= matches[i].level <= 6)
    && (forall i {:trigger InOrder(matches, i)} :: 0 <= i < |matches| - 1 ==> InOrder(matches, i))
  }

  predicate InOrder(matches: seq<Heading>, i: nat)
    requires i + 1 < |matches|
  {
    matches[i].end <= matches[i + 1].start
  }

  /** Python's `s[:n]`. */
  function SliceTo<T>(s: seq<T>, n: int): seq<T> {
    if n >= |s| then s else if n >= 0 then s[..n] else if |s| + n > 0 then s[..|s| + n] else []
  }

  /** The headings above and including the last match, kept as the source's slice keeps them. */
  function Trail(matches: seq<Heading>): seq<Heading> {
    if matches == [] then []
    else
      var last := matches[|matches| - 1];
      SliceTo(Trail(matches[..|matches| - 1]), last.level - 1) + [last]
  }

  function Titles(trail: seq<Heading>): seq<string> {
    seq(|trail|, i requires 0 <= i < |trail| => trail[i].title)
  }

  datatype Section = Section(path: seq<string>, text: string)

  /** The text of section `i`: from its heading to the next one. */
  function Body(content: string, matches: seq<Heading>, i: nat): string
    requires HeadingsIn(content, matches) && i < |matches|
  {
    assert i + 1 < |matches| ==> InOrder(matches, i);
    content[matches[i].end..if i + 1 < |matches| then matches[i + 1].start else |content|]
  }

  function Sections(content: string, matches: seq<Heading>): seq<Section>
    requires HeadingsIn(content, matches)
  {
    if matches == [] then [Section([], Strip(content))]
    else seq(|matches|, i requires 0 <= i < |matches| => SectionAt(content, matches, i))
  }

  function SectionAt(content: string, matches: seq<Heading>, i: nat): Section
    requires HeadingsIn(content, matches) && i < |matches|
  {
    Section(Titles(Trail(matches[..i + 1])), Strip(Body(content, matches, i)))
  }

  lemma TrailGrows(matches: seq<Heading>, i: nat)
    requires i < |matches|
    ensures Titles(Trail(matches[..i + 1]))
            == SliceTo(Titles(Trail(matches[..i])), matches[i].level - 1) + [matches[i].title]
  {
    assert matches[..i + 1][..i] == matches[..i];
  }

  // ------------------------------------------------------------------ chunks

  datatype ClauseId = ClauseId(section: nat, child: nat) {
    function Render(): string {
      Decimal(section) + ("." + Decimal(child))
    }
  }

  datatype Chunk = Chunk(clause: ClauseId, headingPath: seq<string>, parentContent: string, content: string,
                         tokenCount: nat)

  /** The section's opening words, up to about `parentTarget` tokens. */
  function Parent(section: Section, parentTarget: int): string {
    JoinSpaced(SliceTo(Words(section.text), RoundHalfEven(10 * parentTarget, 13)))
  }

  function ChunkOf(section: Section, number: nat, child: nat, parent: string, sentences: seq<string>): Chunk {
    var text := JoinSpaced(sentences);
    Chunk(ClauseId(number, child), section.path, parent, text, ApproximateTokens(text))
  }

  /** One chunk a group, numbered from `child`. */
  function ChunksOf(section: Section, number: nat, child: nat, parent: string, groups: seq<seq<string>>): seq<Chunk>
    decreases |groups|
  {
    if groups == [] then []
    else [ChunkOf(section, number, child, parent, groups[0])]
         + ChunksOf(section, number, child + 1, parent, groups[1..])
  }

  function SectionChunks(section: Section, number: nat, childTarget: int, parentTarget: int): seq<Chunk> {
    ChunksOf(section, number, 1, Parent(section, parentTarget),
             Pack([], Trimmed(SplitSentences(section.text)), childTarget))
  }

  /** All chunks of the sections, which are numbered from `number`. */
  function PolicyChunks(sections: seq<Section>, number: nat, childTarget: int, parentTarget: int): seq<Chunk>
    decreases |sections|
  {
    if sections == [] then []
    else SectionChunks(sections[0], number, childTarget, parentTarget)
         + PolicyChunks(sections[1..], number + 1, childTarget, parentTarget)
  }

  lemma EmptySectionHasNoChunks(section: Section, number: nat, childTarget: int, parentTarget: int)
    requires section.text == ""
    ensures SectionChunks(section, number, childTarget, parentTarget) == []
  {
    assert SplitSentences("") == [""];
    assert Trimmed([""][1..]) == [];
    assert Trimmed([""]) == [];
  }

  /** The heading loop. */
  method CutSections(content: string, matches: seq<Heading>) returns (sections: seq<Section>)
    requires HeadingsIn(content, matches)
    ensures sections == Sections(content, matches)
  {
    if matches == [] {
      return [Section([], Strip(content))];
    }
    sections := [];
    var headings: seq<string> := [];
    ghost var all := Sections(content, matches);
    NoTitlesYet(matches);
    assert |all| == |matches|;
    hide *;
    for index := 0 to |matches|
      invariant headings == Titles(Trail(matches[..index]))
      invariant index <= |all| && sections == all[..index]
    {
      SectionStep(content, matches, index);
      OneMoreSection(all, index);
      headings := SliceTo(headings, matches[index].level - 1) + [matches[index].title];
      sections := sections + [Section(headings, Strip(Body(content, matches, index)))];
    }
    assert all[..|matches|] == all;
  }

  lemma OneMoreSection(all: seq<Section>, i: nat)
    requires i < |all|
    ensures all[..i + 1] == all[..i] + [all[i]]
  {
  }

  lemma NoTitlesYet(matches: seq<Heading>)
    ensures Titles(Trail(matches[..0])) == []
  {
  }

  lemma SectionStep(content: string, matches: seq<Heading>, i: nat)
    requires HeadingsIn(content, matches) && i < |matches|
    ensures var headings := SliceTo(Titles(Trail(matches[..i])), matches[i].level - 1) + [matches[i].title];
            && headings == Titles(Trail(matches[..i + 1]))
            && |Sections(content, matches)| == |matches|
            && Sections(content, matches)[i] == Section(headings, Strip(Body(content, matches, i)))
  {
    TrailGrows(matches, i);
  }

  /** The sentence loop: pack one section. */
  method PackSection(section: Section, number: nat, childTarget: int, parentTarget: int) returns (chunks: seq<Chunk>)
    ensures chunks == SectionChunks(section, number, childTarget, parentTarget)
  {
    chunks := [];
    var sentences := SplitSentences(section.text);
    var current: seq<string> := [];
    var currentTokens := 0;
    var childIndex := 1;
    var parent := Parent(section, parentTarget);
    ghost var all := ChunksOf(section, number, 1, parent, Pack([], Trimmed(sentences), childTarget));
    assert TokenSum(current) == 0 && sentences[0..] == sentences;
    assert all == SectionChunks(section, number, childTarget, parentTarget);
    hide *;
    for i := 0 to |sentences|
      invariant currentTokens == TokenSum(current)
      invariant chunks + ChunksOf(section, number, childIndex, parent,
                                  Pack(current, Trimmed(sentences[i..]), childTarget)) == all
    {
      var sentence := Strip(sentences[i]);
      ghost var rest := Trimmed(sentences[i + 1..]);
      TrimmedStep(sentences, i);
      if sentence != "" {
        PackStep(chunks, section, number, childIndex, parent, current, sentence, rest, childTarget);
        var sentenceTokens := ApproximateTokens(sentence);
        if current != [] && currentTokens + sentenceTokens > childTarget {
          chunks := chunks + [ChunkOf(section, number, childIndex, parent, current)];
          childIndex := childIndex + 1;
          current := [];
          currentTokens := 0;
        }
        NextTokens(current, sentence);
        current := current + [sentence];
        currentTokens := currentTokens + sentenceTokens;
      }
    }
    PackEnd(section, number, childIndex, parent, current, sentences, childTarget);
    if current != [] {
      chunks := chunks + [ChunkOf(section, number, childIndex, parent, current)];
    }
  }

  lemma TrimmedStep(sentences: seq<string>, i: nat)
    requires i < |sentences|
    ensures var rest := Trimmed(sentences[i + 1..]);
            Trimmed(sentences[i..]) == if Strip(sentences[i]) == "" then rest else [Strip(sentences[i])] + rest
  {
    assert sentences[i..][1..] == sentences[i + 1..];
  }

  /** What one more sentence does: it closes the open chunk or joins it. */
  lemma PackStep(chunks: seq<Chunk>, section: Section, number: nat, child: nat, parent: string, current: seq<string>,
                 sentence: string, rest: seq<string>, childTarget: int)
    ensures chunks + ChunksOf(section, number, child, parent, Pack(current, [sentence] + rest, childTarget))
            == if current != [] && TokenSum(current) + ApproximateTokens(sentence) > childTarget
               then (chunks + [ChunkOf(section, number, child, parent, current)])
                    + ChunksOf(section, number, child + 1, parent, Pack([] + [sentence], rest, childTarget))
               else chunks + ChunksOf(section, number, child, parent, Pack(current + [sentence], rest, childTarget))
  {
    hide TokenSum, ApproximateTokens, ChunkOf;
    assert ([sentence] + rest)[1..] == rest && [] + [sentence] == [sentence];
    if Overflows(current, sentence, childTarget) {
      var more := Pack([sentence], rest, childTarget);
      assert ([current] + more)[1..] == more;
      var chunk, later := ChunkOf(section, number, child, parent, current),
                          ChunksOf(section, number, child + 1, parent, more);
      assert chunks + ([chunk] + later) == (chunks + [chunk]) + later;
    }
  }

  lemma NextTokens(current: seq<string>, sentence: string)
    ensures TokenSum(current + [sentence]) == TokenSum(current) + ApproximateTokens(sentence)
    ensures TokenSum([]) == 0
  {
    TokenSumAppend(current, [sentence]);
    TokenSumOne(sentence);
  }

  lemma PackEnd(section: Section, number: nat, child: nat, parent: string, current: seq<string>,
                sentences: seq<string>, childTarget: int)
    ensures ChunksOf(section, number, child, parent, Pack(current, Trimmed(sentences[|sentences|..]), childTarget))
            == if current == [] then [] else [ChunkOf(section, number, child, parent, current)]
  {
    assert [current][1..] == [];
  }

  /** The whole chunker. */
  method ChunkPolicy(content: string, matches: seq<Heading>, childTarget: int, parentTarget: int)
    returns (chunks: seq<Chunk>)
    requires HeadingsIn(content, matches)
    ensures chunks == PolicyChunks(Sections(content, matches), 1, childTarget, parentTarget)
  {
    var sections := CutSections(content, matches);
    chunks := PackSections(sections, childTarget, parentTarget);
  }

  /** The section loop. */
  method PackSections(sections: seq<Section>, childTarget: int, parentTarget: int) returns (chunks: seq<Chunk>)
    ensures chunks == PolicyChunks(sections, 1, childTarget, parentTarget)
  {
    hide SectionChunks;
    chunks := [];
    ghost var pending := PolicyChunks(sections, 1, childTarget, parentTarget);
    assert sections[0..] == sections;
    for k := 0 to |sections|
      invariant pending == PolicyChunks(sections[k..], k + 1, childTarget, parentTarget)
      invariant chunks + pending == PolicyChunks(sections, 1, childTarget, parentTarget)
    {
      PolicyChunksStep(sections, k, childTarget, parentTarget);
      pending := PolicyChunks(sections[k + 1..], k + 2, childTarget, parentTarget);
      if sections[k].text != "" {
        var packed := PackSection(sections[k], k + 1, childTarget, parentTarget);
        assert chunks + (packed + pending) == (chunks + packed) + pending;
        chunks := chunks + packed;
      }
    }
  }

  lemma PolicyChunksStep(sections: seq<Section>, k: nat, childTarget: int, parentTarget: int)
    requires k < |sections|
    ensures PolicyChunks(sections[k..], k + 1, childTarget, parentTarget)
            == SectionChunks(sections[k], k + 1, childTarget, parentTarget)
               + PolicyChunks(sections[k + 1..], k + 2, childTarget, parentTarget)
    ensures sections[k].text == "" ==>
              PolicyChunks(sections[k..], k + 1, childTarget, parentTarget)
              == PolicyChunks(sections[k + 1..], k + 2, childTarget, parentTarget)
  {
    assert sections[k..][1..] == sections[k + 1..];
    if sections[k].text == "" {
      EmptySectionHasNoChunks(sections[k], k + 1, childTarget, parentTarget);
    }
  }

  // ------------------------------------------------------------ conservation

  /** The words of the chunks' contents, chunk after chunk. */
  function ContentWords(chunks: seq<Chunk>): seq<string> {
    if chunks == [] then [] else Words(chunks[0].content) + ContentWords(chunks[1..])
  }

  lemma {:induction false} ContentWordsAppend(a: seq<Chunk>, b: seq<Chunk>)
    ensures ContentWords(a + b) == ContentWords(a) + ContentWords(b)
  {
    if a == [] {
      assert a + b == b;
    } else {
      assert (a + b)[1..] == a[1..] + b;
      ContentWordsAppend(a[1..], b);
      assert Words(a[0].content) + (ContentWords(a[1..]) + ContentWords(b))
          == (Words(a[0].content) + ContentWords(a[1..])) + ContentWords(b);
    }
  }

  lemma {:induction false} GroupsKeepWords(section: Section, number: nat, child: nat, parent: string,
                                           groups: seq<seq<string>>)
    ensures ContentWords(ChunksOf(section, number, child, parent, groups)) == WordsOf(Flatten(groups))
    decreases |groups|
  {
    if groups != [] {
      var rest := ChunksOf(section, number, child + 1, parent, groups[1..]);
      GroupsKeepWords(section, number, child + 1, parent, groups[1..]);
      JoinKeepsWords(groups[0]);
      WordsOfAppend(groups[0], Flatten(groups[1..]));
      assert ChunksOf(section, number, child, parent, groups)[1..] == rest;
    }
  }

  /** The chunks of a section hold the section's words, in order, none lost and none twice. */
  lemma SectionKeepsWords(section: Section, number: nat, childTarget: int, parentTarget: int)
    ensures ContentWords(SectionChunks(section, number, childTarget, parentTarget)) == Words(section.text)
  {
    var sentences := SplitSentences(section.text);
    var groups := Pack([], Trimmed(sentences), childTarget);
    GroupsKeepWords(section, number, 1, Parent(section, parentTarget), groups);
    PackIsValid([], Trimmed(sentences), childTarget);
    assert [] + Trimmed(sentences) == Trimmed(sentences);
    TrimmedKeepsWords(sentences);
    SplitKeepsWords(section.text, 0, 0);
    assert section.text[0..] == section.text;
  }

  /** The words of the sections, section after section. */
  function SectionWords(sections: seq<Section>): seq<string> {
    if sections == [] then [] else Words(sections[0].text) + SectionWords(sections[1..])
  }

  /** The chunks of a document hold the words of its sections in document order. */
  lemma {:induction false} PolicyKeepsWords(sections: seq<Section>, number: nat, childTarget: int, parentTarget: int)
    ensures ContentWords(PolicyChunks(sections, number, childTarget, parentTarget)) == SectionWords(sections)
    decreases |sections|
  {
    if sections != [] {
      SectionKeepsWords(sections[0], number, childTarget, parentTarget);
      PolicyKeepsWords(sections[1..], number + 1, childTarget, parentTarget);
      ContentWordsAppend(SectionChunks(sections[0], number, childTarget, parentTarget),
                         PolicyChunks(sections[1..], number + 1, childTarget, parentTarget));
    }
  }

  // The sections against the document itself.

  lemma {:induction false} HeadingsApart(content: string, matches: seq<Heading>, i: nat, j: nat)
    requires HeadingsIn(content, matches) && i < j < |matches|
    ensures matches[i].end <= matches[j].start
    decreases j
  {
    assert InOrder(matches, j - 1);
    if i < j - 1 {
      HeadingsApart(content, matches, i, j - 1);
    }
  }

  /** Headings and texts in turn: each heading as it stands in the document, followed by its text. */
  function Weave(content: string, matches: seq<Heading>, texts: seq<string>): string
    requires HeadingsIn(content, matches) && |texts| == |matches|
  {
    if matches == [] then ""
    else
      assert HeadingsIn(content, matches[1..]) by { HeadingsFrom(content, matches, 1); }
      content[matches[0].start..matches[0].end] + (texts[0] + Weave(content, matches[1..], texts[1..]))
  }

  lemma HeadingsFrom(content: string, matches: seq<Heading>, k: nat)
    requires HeadingsIn(content, matches) && k <= |matches|
    ensures HeadingsIn(content, matches[k..])
  {
    forall i | 0 <= i < |matches[k..]| - 1 ensures InOrder(matches[k..], i) {
      assert InOrder(matches, k + i);
    }
  }

  /**
   The sections take the document apart: what stands before the first heading,
   and then each heading followed by a text that, stripped, is its section's.
   */
  lemma SectionsCoverDocument(content: string, matches: seq<Heading>) returns (texts: seq<string>)
    requires HeadingsIn(content, matches) && matches != []
    ensures |texts| == |Sections(content, matches)| == |matches|
    ensures forall i :: 0 <= i < |matches| ==> Sections(content, matches)[i].text == Strip(texts[i])
    ensures content == content[..matches[0].start] + Weave(content, matches, texts)
  {
    texts := seq(|matches|, i requires 0 <= i < |matches| => Body(content, matches, i));
    HeadingsFrom(content, matches, 0);
    assert matches[0..] == matches && texts[0..] == texts;
    WeaveFrom(content, matches, texts, 0);
  }

  lemma {:induction false} WeaveFrom(content: string, matches: seq<Heading>, texts: seq<string>, k: nat)
    requires HeadingsIn(content, matches) && |texts| == |matches| && k < |matches|
    requires forall i :: 0 <= i < |matches| ==> texts[i] == Body(content, matches, i)
    ensures HeadingsIn(content, matches[k..])
    ensures content[matches[k].start..] == Weave(content, matches[k..], texts[k..])
    decreases |matches| - k
  {
    HeadingsFrom(content, matches, k);
    var m := matches[k];
    assert matches[k..][1..] == matches[k + 1..] && texts[k..][1..] == texts[k + 1..];
    if k + 1 < |matches| {
      assert InOrder(matches, k);
      var next := matches[k + 1].start;
      WeaveFrom(content, matches, texts, k + 1);
      assert content[m.start..] == content[m.start..m.end] + (content[m.end..next] + content[next..]);
    } else {
      assert Weave(content, matches[k + 1..], texts[k + 1..]) == "";
      assert content[m.start..] == content[m.start..m.end] + (content[m.end..] + "");
    }
  }

  /** Position `p` belongs to a heading. */
  predicate InHeading(matches: seq<Heading>, p: int) {
    exists i :: 0 <= i < |matches| && matches[i].start <= p < matches[i].end
  }

  /** The document with its headings, and all before the first of them, blanked out. */
  function Masked(content: string, matches: seq<Heading>): string {
    seq(|content|, p requires 0 <= p < |content| =>
      if InHeading(matches, p) || (matches != [] && p < matches[0].start) then ' ' else content[p])
  }

  lemma BodyIsUnmasked(content: string, matches: seq<Heading>, k: nat)
    requires HeadingsIn(content, matches) && k < |matches|
    ensures var e := if k + 1 < |matches| then matches[k + 1].start else |content|;
            && matches[k].end <= e <= |content|
            && Masked(content, matches)[matches[k].end..e] == Body(content, matches, k)
  {
    assert k + 1 < |matches| ==> InOrder(matches, k);
    var e := if k + 1 < |matches| then matches[k + 1].start else |content|;
    forall p | matches[k].end <= p < e ensures !InHeading(matches, p) && p >= matches[0].start {
      forall i | 0 <= i < |matches| ensures !(matches[i].start <= p < matches[i].end) {
        if i < k {
          HeadingsApart(content, matches, i, k);
        } else if k + 1 < i {
          HeadingsApart(content, matches, k + 1, i);
        }
      }
      if k > 0 {
        HeadingsApart(content, matches, 0, k);
      }
    }
    var masked, body := Masked(content, matches)[matches[k].end..e], Body(content, matches, k);
    assert |masked| == |body|;
    forall q | 0 <= q < |body| ensures masked[q] == body[q] {
      assert !InHeading(matches, matches[k].end + q);
    }
  }

  lemma HeadingIsMasked(content: string, matches: seq<Heading>, k: nat)
    requires HeadingsIn(content, matches) && k < |matches|
    ensures Blank(Masked(content, matches)[matches[k].start..matches[k].end])
    ensures k == 0 ==> Blank(Masked(content, matches)[..matches[k].end])
  {
    assert forall p :: matches[k].start <= p < matches[k].end ==> InHeading(matches, p);
  }

  lemma {:induction false} MaskedWords(content: string, matches: seq<Heading>, k: nat)
    requires HeadingsIn(content, matches) && k < |matches|
    ensures Words(Masked(content, matches)[matches[k].end..]) == SectionWords(Sections(content, matches)[k..])
    decreases |matches| - k
  {
    hide Words, Strip, HeadingsIn, Masked, Blank, Body, Sections;
    SectionTextIs(content, matches, k);
    var masked, sections := Masked(content, matches), Sections(content, matches);
    BodyIsUnmasked(content, matches, k);
    StripKeepsWords(Body(content, matches, k));
    assert sections[k..][1..] == sections[k + 1..];
    if k + 1 < |matches| {
      MaskedWords(content, matches, k + 1);
      HeadingIsMasked(content, matches, k + 1);
      var a, b, c := matches[k].end, matches[k + 1].start, matches[k + 1].end;
      NotEmpty(content, matches, k + 1);
      assert masked[a..] == masked[a..b] + (masked[b..c] + masked[c..]);
      GapHasNoWords(masked[a..b], masked[b..c], masked[c..]);
    } else {
      assert |masked| == |content| by { MaskedLength(content, matches); }
      assert masked[matches[k].end..] == masked[matches[k].end..|content|];
      assert SectionWords(sections[k + 1..]) == [];
    }
  }

  lemma SectionTextIs(content: string, matches: seq<Heading>, k: nat)
    requires HeadingsIn(content, matches) && k < |matches|
    ensures |Sections(content, matches)| == |matches|
    ensures Sections(content, matches)[k].text == Strip(Body(content, matches, k))
  {
  }

  lemma NotEmpty(content: string, matches: seq<Heading>, k: nat)
    requires HeadingsIn(content, matches) && k < |matches|
    ensures matches[k].start < matches[k].end <= |content| == |Masked(content, matches)|
  {
  }

  lemma MaskedLength(content: string, matches: seq<Heading>)
    ensures |Masked(content, matches)| == |content|
  {
  }

  /**
   The chunks of a document hold the words of the document, each once and in
   order, but for its headings and what stands before the first of them.
   */
  lemma DocumentKeepsWords(content: string, matches: seq<Heading>, childTarget: int, parentTarget: int)
    requires HeadingsIn(content, matches)
    ensures ContentWords(PolicyChunks(Sections(content, matches), 1, childTarget, parentTarget))
            == Words(Masked(content, matches))
  {
    hide PolicyChunks, Words, Strip, Blank, ContentWords;
    var masked, sections := Masked(content, matches), Sections(content, matches);
    PolicyKeepsWords(sections, 1, childTarget, parentTarget);
    if matches == [] {
      assert masked == content;
      StripKeepsWords(content);
      assert SectionWords(sections[1..]) == [];
    } else {
      var e := matches[0].end;
      NotEmpty(content, matches, 0);
      HeadingIsMasked(content, matches, 0);
      hide Masked, HeadingsIn, SectionWords;
      BlankStart(masked, e);
      MaskedWords(content, matches, 0);
      assert sections[0..] == sections;
    }
  }

  lemma BlankStart(s: string, e: nat)
    requires 0 < e <= |s| && Blank(s[..e])
    ensures Words(s) == Words(s[e..])
  {
    assert s == s[..e] + s[e..];
    assert IsSpace(s[..e][e - 1]);
    WordsAppend(s[..e], s[e..]);
    BlankHasNoWords(s[..e]);
  }

  /** Stripping takes white space off the ends and nothing else. */
  lemma {:induction false} StripTrims(s: string) returns (before: string, after: string)
    ensures s == before + Strip(s) + after && Blank(before) && Blank(after)
  {
    before, after := "", "";
    if s != "" {
      if IsSpace(s[0]) {
        var rest, end := StripTrims(s[1..]);
        before, after := [s[0]] + rest, end;
        BlankJoins([s[0]], rest);
        hide Blank, Strip, IsSpace;
        assert s == [s[0]] + s[1..];
        assert [s[0]] + (rest + Strip(s[1..]) + end) == ([s[0]] + rest) + Strip(s[1..]) + end;
      } else if IsSpace(s[|s| - 1]) {
        var n := |s| - 1;
        var start, rest := StripTrims(s[..n]);
        before, after := start, rest + [s[n]];
        BlankJoins(rest, [s[n]]);
        hide Blank, Strip, IsSpace;
        assert s == s[..n] + [s[n]];
        assert (start + Strip(s[..n]) + rest) + [s[n]] == start + Strip(s[..n]) + (rest + [s[n]]);
      }
    }
  }

  lemma BlankJoins(a: string, b: string)
    requires Blank(a) && Blank(b)
    ensures Blank(a + b)
  {
  }

  /** How many of `n` words the first `limit` are; a negative limit leaves out as many at the end. */
  function Opening(n: nat, limit: int): (kept: nat)
    ensures kept <= n
  {
    if limit > n then n else if limit >= 0 then limit else if n + limit > 0 then n + limit else 0
  }

  /** The parent context is the opening of the section, word for word. */
  lemma ParentIsOpening(section: Section, parentTarget: int)
    ensures var words := Words(section.text);
            Words(Parent(section, parentTarget)) == words[..Opening(|words|, RoundHalfEven(10 * parentTarget, 13))]
  {
    var words := Words(section.text);
    var n := RoundHalfEven(10 * parentTarget, 13);
    var kept := Opening(|words|, n);
    assert SliceTo(words, n) == words[..kept];
    WordsAreWords(section.text);
    WordsOfWords(words[..kept]);
    JoinKeepsWords(words[..kept]);
  }

  /** Rounding gives the nearest whole number, and of two the even one. */
  lemma RoundsToNearest(num: int, den: nat)
    requires den > 0
    ensures var r := RoundHalfEven(num, den);
            && 2 * num - den <= 2 * (den * r) <= 2 * num + den
            && (2 * (den * r) == 2 * num + den || 2 * (den * r) == 2 * num - den ==> r % 2 == 0)
  {
    var q, rest := num / den, num % den;
    assert num == den * q + rest && 0 <= rest < den;
    assert den * (q + 1) == den * q + den;
  }

  lemma SectionTells(section: Section, number: nat, childTarget: int, parentTarget: int, j: nat)
    requires j < |SectionChunks(section, number, childTarget, parentTarget)|
    ensures var chunk := SectionChunks(section, number, childTarget, parentTarget)[j];
            var words := Words(section.text);
            && chunk.clause.section == number && chunk.headingPath == section.path
            && chunk.tokenCount == TokensForWords(|Words(chunk.content)|)
            && Words(chunk.parentContent) == words[..Opening(|words|, RoundHalfEven(10 * parentTarget, 13))]
  {
    ParentIsOpening(section, parentTarget);
    ChildrenCountUp(section, number, 1, Parent(section, parentTarget),
                    Pack([], Trimmed(SplitSentences(section.text)), childTarget));
  }

  /** Every chunk tells its section's path, its own token count and its section's opening words. */
  lemma {:induction false} ChunksTell(sections: seq<Section>, number: nat, childTarget: int, parentTarget: int, j: nat)
    requires j < |PolicyChunks(sections, number, childTarget, parentTarget)|
    ensures var chunk := PolicyChunks(sections, number, childTarget, parentTarget)[j];
            && number <= chunk.clause.section < number + |sections|
            && var section := sections[chunk.clause.section - number]; var words := Words(section.text);
               && chunk.headingPath == section.path
               && chunk.tokenCount == TokensForWords(|Words(chunk.content)|)
               && Words(chunk.parentContent) == words[..Opening(|words|, RoundHalfEven(10 * parentTarget, 13))]
    decreases |sections|
  {
    hide SectionChunks, Parent, Words, Opening, RoundHalfEven, TokensForWords;
    var here := SectionChunks(sections[0], number, childTarget, parentTarget);
    if j < |here| {
      SectionTells(sections[0], number, childTarget, parentTarget, j);
    } else {
      ChunksTell(sections[1..], number + 1, childTarget, parentTarget, j - |here|);
    }
  }

  lemma {:induction false} WordsAreWords(s: string)
    ensures forall i :: 0 <= i < |Words(s)| ==> Words(s)[i] != "" && WordLength(Words(s)[i]) == |Words(s)[i]|
  {
    if s != "" {
      if IsSpace(s[0]) {
        WordsAreWords(s[1..]);
      } else {
        WordsAreWords(s[WordLength(s)..]);
        WordLengthOfWord(s);
      }
    }
  }

  lemma {:induction false} WordLengthOfWord(s: string)
    ensures WordLength(s[..WordLength(s)]) == WordLength(s)
  {
    if s != "" && !IsSpace(s[0]) {
      WordLengthOfWord(s[1..]);
      assert s[..WordLength(s)][1..] == s[1..][..WordLength(s[1..])];
    }
  }

  lemma {:induction false} WordsOfWords(words: seq<string>)
    requires forall i :: 0 <= i < |words| ==> words[i] != "" && WordLength(words[i]) == |words[i]|
    ensures WordsOf(words) == words
  {
    if words != [] {
      var w := words[0];
      assert w[..|w|] == w && w[|w|..] == "";
      assert Words("") == [];
      WordsOfWords(words[1..]);
    }
  }

  // -------------------------------------------------------------- clause ids

  predicate Precedes(a: ClauseId, b: ClauseId) {
    a.section < b.section || (a.section == b.section && a.child < b.child)
  }

  lemma {:induction false} ChildrenCountUp(section: Section, number: nat, child: nat, parent: string,
                                           groups: seq<seq<string>>)
    ensures var chunks := ChunksOf(section, number, child, parent, groups);
            |chunks| == |groups| && forall j :: 0 <= j < |groups| ==>
              chunks[j] == ChunkOf(section, number, child + j, parent, groups[j])
    decreases |groups|
  {
    if groups != [] {
      ChildrenCountUp(section, number, child + 1, parent, groups[1..]);
    }
  }

  lemma SectionClauses(section: Section, number: nat, childTarget: int, parentTarget: int)
    ensures var chunks := SectionChunks(section, number, childTarget, parentTarget);
            forall j :: 0 <= j < |chunks| ==> chunks[j].clause == ClauseId(number, j + 1)
  {
    ChildrenCountUp(section, number, 1, Parent(section, parentTarget),
                    Pack([], Trimmed(SplitSentences(section.text)), childTarget));
  }

  /** A section gets no more chunks than any way to cut its sentences into fitting parts has. */
  lemma SectionUsesFewestChunks(section: Section, number: nat, childTarget: int, parentTarget: int,
                                parts: seq<seq<string>>)
    requires ValidSplit(parts, Trimmed(SplitSentences(section.text)), childTarget)
    ensures |SectionChunks(section, number, childTarget, parentTarget)| <= |parts|
  {
    var sentences := Trimmed(SplitSentences(section.text));
    ChildrenCountUp(section, number, 1, Parent(section, parentTarget), Pack([], sentences, childTarget));
    PackIsFewest(sentences, parts, childTarget);
  }

  /** Clause ids of sections from `low` up to `high`, in increasing order. */
  predicate Increasing(chunks: seq<Chunk>, low: nat, high: nat) {
    && (forall i :: 0 <= i < |chunks| ==> low <= chunks[i].clause.section < high)
    && (forall i, j :: 0 <= i < j < |chunks| ==> Precedes(chunks[i].clause, chunks[j].clause))
  }

  lemma IncreasingAppend(a: seq<Chunk>, b: seq<Chunk>, low: nat, mid: nat, high: nat)
    requires Increasing(a, low, mid) && Increasing(b, mid, high) && low <= mid <= high
    ensures Increasing(a + b, low, high)
  {
  }

  /** Clause ids increase through the document, so no two chunks share one. */
  lemma {:induction false} ClauseIdsIncrease(sections: seq<Section>, number: nat, childTarget: int, parentTarget: int)
    ensures Increasing(PolicyChunks(sections, number, childTarget, parentTarget), number, number + |sections|)
    decreases |sections|
  {
    if sections != [] {
      SectionClauses(sections[0], number, childTarget, parentTarget);
      ClauseIdsIncrease(sections[1..], number + 1, childTarget, parentTarget);
      IncreasingAppend(SectionChunks(sections[0], number, childTarget, parentTarget),
                       PolicyChunks(sections[1..], number + 1, childTarget, parentTarget),
                       number, number + 1, number + |sections|);
    }
  }

  lemma DigitsEndAtDot(s: string, dot: nat, digits: nat)
    requires dot < |s| && s[dot] == '.' && digits <= |s|
    requires forall i :: 0 <= i < digits ==> IsDigit(s[..digits][i])
    ensures digits <= dot
  {
    forall i | 0 <= i < digits ensures IsDigit(s[i]) {
      assert IsDigit(s[..digits][i]);
    }
  }

  /** Different ids are printed differently. */
  lemma RenderInjective(a: ClauseId, b: ClauseId)
    requires a.Render() == b.Render()
    ensures a == b
  {
    var s := a.Render();
    var m, n := |Decimal(a.section)|, |Decimal(b.section)|;
    assert s[m] == '.' && s[n] == '.';
    assert s[..m] == Decimal(a.section) && s[..n] == Decimal(b.section);
    assert s[m + 1..] == Decimal(a.child) && s[n + 1..] == Decimal(b.child);
    DigitsEndAtDot(s, m, n);
    DigitsEndAtDot(s, n, m);
    DecimalInjective(a.section, b.section);
    DecimalInjective(a.child, b.child);
  }

  // ----------------------------------------------------------- heading paths

  /** Heading `i` still encloses the end of the document: everything after it is deeper. */
  predicate StillOpen(matches: seq<Heading>, i: nat) {
    i < |matches| && forall j :: i < j < |matches| ==> matches[j].level > matches[i].level
  }

  /** The headings that enclose the last one, outermost first, and itself. */
  function OutlineFrom(matches: seq<Heading>, i: nat): seq<Heading>
    requires i <= |matches|
    decreases |matches| - i
  {
    if i == |matches| then []
    else (if StillOpen(matches, i) then [matches[i]] else []) + OutlineFrom(matches, i + 1)
  }

  function Outline(matches: seq<Heading>): seq<Heading> {
    OutlineFrom(matches, 0)
  }

  /** The headings of a list that are higher up than `level`. */
  function Above(trail: seq<Heading>, level: nat): seq<Heading> {
    if trail == [] then []
    else (if trail[0].level < level then [trail[0]] else []) + Above(trail[1..], level)
  }

  lemma AboveCons(x: Heading, included: bool, rest: seq<Heading>, level: nat)
    ensures Above((if included then [x] else []) + rest, level)
            == (if included && x.level < level then [x] else []) + Above(rest, level)
  {
    if included {
      assert ([x] + rest)[1..] == rest;
    } else {
      assert [] + rest == rest;
    }
  }

  lemma StillOpenGrows(matches: seq<Heading>, h: Heading, i: nat)
    requires i < |matches|
    ensures StillOpen(matches + [h], i) <==> StillOpen(matches, i) && matches[i].level < h.level
  {
    var more := matches + [h];
    assert more[|matches|] == h;
    assert forall j :: 0 <= j < |matches| ==> more[j] == matches[j];
  }

  lemma {:induction false} OutlineGrows(matches: seq<Heading>, h: Heading, i: nat)
    requires i <= |matches|
    ensures OutlineFrom(matches + [h], i) == Above(OutlineFrom(matches, i), h.level) + [h]
    decreases |matches| - i
  {
    var more := matches + [h];
    if i == |matches| {
      assert OutlineFrom(more, i + 1) == [];
      assert StillOpen(more, i);
    } else {
      OutlineGrows(matches, h, i + 1);
      StillOpenGrows(matches, h, i);
      AboveCons(matches[i], StillOpen(matches, i), OutlineFrom(matches, i + 1), h.level);
    }
  }

  /** Levels increase along the outline. */
  predicate Deepening(trail: seq<Heading>, least: nat) {
    trail != [] ==> trail[0].level >= least && Deepening(trail[1..], trail[0].level + 1)
  }

  lemma {:induction false} AboveIsPrefix(trail: seq<Heading>, least: nat, level: nat)
    requires Deepening(trail, least) && least <= level
    ensures |Above(trail, level)| <= |trail| && Above(trail, level) == trail[..|Above(trail, level)|]
    ensures |Above(trail, level)| <= level - least
  {
    if trail != [] {
      if trail[0].level < level {
        AboveIsPrefix(trail[1..], trail[0].level + 1, level);
        var n := |Above(trail[1..], level)|;
        assert trail[..n + 1] == [trail[0]] + trail[1..][..n];
      } else {
        NoneAbove(trail, trail[0].level, level);
      }
    }
  }

  lemma {:induction false} NoneAbove(trail: seq<Heading>, least: nat, level: nat)
    requires Deepening(trail, least) && level <= least
    ensures Above(trail, level) == []
  {
    if trail != [] {
      NoneAbove(trail[1..], trail[0].level + 1, level);
    }
  }

  lemma {:induction false} DeepeningAppend(trail: seq<Heading>, least: nat, h: Heading)
    requires Deepening(trail, least) && least <= h.level
    ensures Deepening(Above(trail, h.level) + [h], least)
  {
    if trail == [] {
      assert Above(trail, h.level) + [h] == [h];
    } else if trail[0].level < h.level {
      DeepeningAppend(trail[1..], trail[0].level + 1, h);
      assert (Above(trail, h.level) + [h])[1..] == Above(trail[1..], h.level) + [h];
    } else {
      NoneAbove(trail, trail[0].level, h.level);
      assert Above(trail, h.level) + [h] == [h];
    }
  }

  lemma {:induction false} OutlineDeepens(matches: seq<Heading>)
    requires forall i :: 0 <= i < |matches| ==> matches[i].level >= 1
    ensures Deepening(Outline(matches), 1)
  {
    if matches != [] {
      var front, last := matches[..|matches| - 1], matches[|matches| - 1];
      OutlineDeepens(front);
      assert matches == front + [last];
      OutlineGrows(front, last, 0);
      DeepeningAppend(Outline(front), 1, last);
    }
  }

  /** The path the source records at the end of `matches` is the outline's. */
  predicate PathIsOutline(matches: seq<Heading>) {
    Titles(Trail(matches)) == Titles(Outline(matches))
  }

  /**
   Heading `i` either closes none of the headings open before it, or has an
   enclosing heading for each level above its own.
   */
  predicate ClosesNothingOrFullyNested(matches: seq<Heading>, i: nat)
    requires i < |matches|
  {
    var open := Outline(matches[..i]);
    var kept := |Above(open, matches[i].level)|;
    kept == |open| || kept == matches[i].level - 1
  }

  /** One heading further, in both readings. */
  lemma TrailAndOutline(matches: seq<Heading>, i: nat)
    requires forall k :: 0 <= k < |matches| ==> matches[k].level >= 1
    requires i < |matches|
    ensures var open := Outline(matches[..i]); var kept := |Above(open, matches[i].level)|;
            && kept <= |open| && kept <= matches[i].level - 1
            && Outline(matches[..i + 1]) == open[..kept] + [matches[i]]
    ensures Trail(matches[..i + 1]) == SliceTo(Trail(matches[..i]), matches[i].level - 1) + [matches[i]]
  {
    assert matches[..i + 1] == matches[..i] + [matches[i]];
    OutlineGrows(matches[..i], matches[i], 0);
    OutlineDeepens(matches[..i]);
    AboveIsPrefix(Outline(matches[..i]), 1, matches[i].level);
  }

  lemma SameAfterHeading(matches: seq<Heading>, i: nat)
    requires forall k :: 0 <= k < |matches| ==> matches[k].level >= 1
    requires i < |matches| && ClosesNothingOrFullyNested(matches, i) && Trail(matches[..i]) == Outline(matches[..i])
    ensures Trail(matches[..i + 1]) == Outline(matches[..i + 1])
  {
    hide Trail, Outline, Above;
    TrailAndOutline(matches, i);
  }

  lemma {:induction false} TrailFollowsOutline(matches: seq<Heading>, n: nat)
    requires forall k :: 0 <= k < |matches| ==> matches[k].level >= 1
    requires n <= |matches| && forall i :: 0 <= i < n ==> ClosesNothingOrFullyNested(matches, i)
    ensures Trail(matches[..n]) == Outline(matches[..n])
  {
    if n > 0 {
      hide *;
      TrailFollowsOutline(matches, n - 1);
      SameAfterHeading(matches, n - 1);
    }
  }

  /** The recorded paths are the outline's at every heading exactly when every heading is as above. */
  lemma PathsAreOutlineIff(matches: seq<Heading>)
    requires forall k :: 0 <= k < |matches| ==> matches[k].level >= 1
    ensures (forall n :: 0 <= n <= |matches| ==> PathIsOutline(matches[..n]))
            <==> (forall i :: 0 <= i < |matches| ==> ClosesNothingOrFullyNested(matches, i))
  {
    if forall i :: 0 <= i < |matches| ==> ClosesNothingOrFullyNested(matches, i) {
      forall n | 0 <= n <= |matches| ensures PathIsOutline(matches[..n]) {
        TrailFollowsOutline(matches, n);
      }
    }
    if forall n :: 0 <= n <= |matches| ==> PathIsOutline(matches[..n]) {
      forall i | 0 <= i < |matches| ensures ClosesNothingOrFullyNested(matches, i) {
        SamePathsSkipNothing(matches, i);
      }
    }
  }

  lemma SamePathsSkipNothing(matches: seq<Heading>, i: nat)
    requires forall k :: 0 <= k < |matches| ==> matches[k].level >= 1
    requires i < |matches| && PathIsOutline(matches[..i]) && PathIsOutline(matches[..i + 1])
    ensures ClosesNothingOrFullyNested(matches, i)
  {
    TrailAndOutline(matches, i);
    assert |Titles(Trail(matches[..i]))| == |Titles(Outline(matches[..i]))|;
    assert |Titles(Trail(matches[..i + 1]))| == |Titles(Outline(matches[..i + 1]))|;
  }

  /** A path lists the titles of these headings. */
  predicate PathOf(path: seq<string>, headings: seq<Heading>) {
    |path| == |headings| && forall j :: 0 <= j < |path| ==> path[j] == headings[j].title
  }

  /** All sections are recorded under their place in the outline exactly when every heading is as above. */
  lemma SectionPathsIff(content: string, matches: seq<Heading>)
    requires HeadingsIn(content, matches) && matches != []
    ensures (forall i :: 0 <= i < |matches| ==>
              PathOf(Sections(content, matches)[i].path, Outline(matches[..i + 1])))
            <==> (forall i :: 0 <= i < |matches| ==> ClosesNothingOrFullyNested(matches, i))
  {
    hide Trail, Outline, ClosesNothingOrFullyNested, HeadingsIn;
    LevelsPositive(content, matches);
    PathsAreOutlineIff(matches);
    EmptyPathIsOutline(matches);
    forall n | 1 <= n <= |matches|
      ensures PathOf(Sections(content, matches)[n - 1].path, Outline(matches[..n])) <==> PathIsOutline(matches[..n])
    {
      TitlesAre(Outline(matches[..n]), Sections(content, matches)[n - 1].path);
    }
    if forall i :: 0 <= i < |matches| ==> PathOf(Sections(content, matches)[i].path, Outline(matches[..i + 1])) {
      forall n | 0 <= n <= |matches| ensures PathIsOutline(matches[..n]) {
        assert n > 0 ==> PathOf(Sections(content, matches)[n - 1].path, Outline(matches[..(n - 1) + 1]));
      }
    }
  }

  lemma LevelsPositive(content: string, matches: seq<Heading>)
    requires HeadingsIn(content, matches)
    ensures forall k :: 0 <= k < |matches| ==> matches[k].level >= 1
  {
  }

  lemma EmptyPathIsOutline(matches: seq<Heading>)
    ensures PathIsOutline(matches[..0])
  {
  }

  lemma TitlesAre(headings: seq<Heading>, path: seq<string>)
    ensures path == Titles(headings) <==> PathOf(path, headings)
  {
  }

  /** The outline of a document that descends one level at a time holds levels 1, 2, 3, ... */
  predicate Dense(trail: seq<Heading>, least: nat) {
    forall j :: 0 <= j < |trail| ==> trail[j].level == least + j
  }

  lemma {:induction false} AboveDense(trail: seq<Heading>, least: nat, level: nat)
    requires Dense(trail, least) && least <= level <= least + |trail|
    ensures |Above(trail, level)| == level - least
  {
    if trail != [] {
      assert trail[0].level == least + 0;
      assert Dense(trail[1..], least + 1);
      if least < level {
        AboveDense(trail[1..], least + 1, level);
      } else {
        DenseDeepens(trail, least);
        NoneAbove(trail, least, level);
      }
    }
  }

  lemma {:induction false} DenseDeepens(trail: seq<Heading>, least: nat)
    requires Dense(trail, least)
    ensures Deepening(trail, least)
  {
    if trail != [] {
      assert trail[0].level == least + 0;
      DenseDeepens(trail[1..], least + 1);
    }
  }

  lemma {:induction false} OutlineIsDense(matches: seq<Heading>, n: nat)
    requires 0 < n <= |matches| && NeverSkips(matches)
    ensures Dense(Outline(matches[..n]), 1) && |Outline(matches[..n])| == matches[n - 1].level
    ensures ClosesNothingOrFullyNested(matches, n - 1)
  {
    var i := n - 1;
    if i > 0 {
      assert AtMostOneDeeper(matches, i);
      OutlineIsDense(matches, i);
    } else {
      assert Outline(matches[..0]) == [];
    }
    AboveDense(Outline(matches[..i]), 1, matches[i].level);
    TrailAndOutline(matches, i);
  }

  /** The first heading has level 1, and each later one is at most one level deeper than the one before. */
  predicate NeverSkips(matches: seq<Heading>) {
    && (forall i :: 0 <= i < |matches| ==> matches[i].level >= 1)
    && (matches != [] ==> matches[0].level == 1)
    && (forall i {:trigger AtMostOneDeeper(matches, i)} :: 0 < i < |matches| ==> AtMostOneDeeper(matches, i))
  }

  predicate AtMostOneDeeper(matches: seq<Heading>, i: nat)
    requires 0 < i < |matches|
  {
    matches[i].level <= matches[i - 1].level + 1
  }

  /** In a document that never skips a level, every recorded path is the outline's. */
  lemma NeverSkipsIsEnough(matches: seq<Heading>, n: nat)
    requires NeverSkips(matches) && n <= |matches|
    ensures PathIsOutline(matches[..n])
  {
    forall i | 0 <= i < |matches| ensures ClosesNothingOrFullyNested(matches, i) {
      OutlineIsDense(matches, i + 1);
    }
    TrailFollowsOutline(matches, n);
  }

  /** Levels 1, 3, 3: the second heading of level 3 is recorded under the first. */
  lemma SkippedLevelMisplaces(x: Heading, y: Heading, z: Heading)
    requires x.level == 1 && y.level == z.level == 3
    ensures Trail([x, y, z]) == [x, y, z] && Outline([x, y, z]) == [x, z]
  {
    assert [x, y, z][..2] == [x, y] && [x, y][..1] == [x] && [x][..0] == [];
    assert Trail([x]) == [x] && Trail([x, y]) == [x, y];
    assert StillOpen([x, y, z], 0) && !StillOpen([x, y, z], 1) && StillOpen([x, y, z], 2) by {
      assert [x, y, z][2] == z && [x, y, z][1] == y;
    }
    assert OutlineFrom([x, y, z], 3) == [];
    assert OutlineFrom([x, y, z], 2) == [z];
    assert OutlineFrom([x, y, z], 1) == [z];
  }
}
