/**
 The token budget of the policy chunker (services/api/app/domain/chunking.py):
 when the token count that a chunk reports stays within `child_target`.

 The packer adds up the counts of the sentences, each rounded on its own; the
 chunk reports the count of the joined text, rounded once. The results: what
 the budget does bound, and for which sentence lengths and targets the
 reported count keeps to it, in both directions and on real documents.
 */
module TokenBudget {
  import opened Common
  import opened Chunking

  lemma {:induction false} WordsWithinTokens(sentences: seq<string>)
    ensures |WordsOf(sentences)| <= TokenSum(sentences)
  {
    if sentences != [] {
      TokensAtLeastWords(|Words(sentences[0])|);
      WordsWithinTokens(sentences[1..]);
    }
  }

  /**
   A chunk of two sentences or more has at most `childTarget` words, so its
   reported count is at most that of a text of `childTarget` words.
   */
  lemma TokenBound(section: Section, number: nat, childTarget: int, parentTarget: int, j: nat)
    requires var groups := Pack([], Trimmed(SplitSentences(section.text)), childTarget);
             j < |groups| && |groups[j]| >= 2
    ensures var chunks := SectionChunks(section, number, childTarget, parentTarget);
            && 0 <= childTarget && j < |chunks|
            && |Words(chunks[j].content)| <= childTarget
            && chunks[j].tokenCount <= TokensForWords(childTarget)
  {
    var sentences := Trimmed(SplitSentences(section.text));
    var groups := Pack([], sentences, childTarget);
    ChildrenCountUp(section, number, 1, Parent(section, parentTarget), groups);
    PackIsValid([], sentences, childTarget);
    assert Fits(groups[j], childTarget);
    JoinKeepsWords(groups[j]);
    WordsWithinTokens(groups[j]);
    TokensMonotone(|WordsOf(groups[j])|, childTarget);
  }

  lemma {:induction false} PackTakesAll(current: seq<string>, rest: seq<string>, childTarget: int)
    requires TokenSum(current + rest) <= childTarget && current + rest != []
    ensures Pack(current, rest, childTarget) == [current + rest]
    decreases |rest|
  {
    if rest == [] {
      assert current + rest == current;
    } else {
      var next := current + [rest[0]];
      assert current + rest == next + rest[1..];
      TokenSumAppend(next, rest[1..]);
      TokenSumAppend(current, [rest[0]]);
      TokenSumOne(rest[0]);
      PackTakesAll(next, rest[1..], childTarget);
    }
  }

  // ------------------------------------------------- which counts fit, exactly

  /** A text of `words` words reports at most `target` tokens. */
  predicate CountFits(words: nat, target: int) {
    1 <= target && (13 * words < 10 * target + 5 || (13 * words == 10 * target + 5 && target % 2 == 0))
  }

  lemma CountFitsIff(words: nat, target: int)
    ensures TokensForWords(words) <= target <==> CountFits(words, target)
  {
    TokensNearest(words);
  }

  /** The lengths of sentences that are counted too low on their own. */
  predicate RoundsDown(words: nat) {
    words % 10 in {1, 4, 7, 8} || words % 20 == 5
  }

  lemma {:induction false} RoundsDownIff(words: nat)
    ensures 10 * TokensForWords(words) < 13 * words <==> RoundsDown(words)
  {
    if words <= 20 {
      RoundsDownSmall(words);
    } else {
      hide TokensForWords, RoundsDown;
      RoundsDownIff(words - 20);
      TwentyMore(words - 20);
      SameRest(words - 20);
    }
  }

  /** Twenty more words are 26 more tokens. */
  lemma TwentyMore(words: nat)
    requires words > 0
    ensures TokensForWords(words + 20) == TokensForWords(words) + 26
  {
    hide TokensForWords;
    TokensNearest(words);
    TokensNearest(words + 20);
  }

  lemma SameRest(words: nat)
    ensures RoundsDown(words + 20) <==> RoundsDown(words)
  {
    assert (words + 20) % 20 == words % 20 && (words + 20) % 10 == words % 10;
  }

  lemma RoundsDownSmall(words: nat)
    requires words <= 20
    ensures 10 * TokensForWords(words) < 13 * words <==> RoundsDown(words)
  {
    TokensNearest(words);
    hide TokensForWords;
  }

  /** The words of a packed group. */
  function GroupWords(section: Section, childTarget: int, j: nat): nat
    requires j < |Groups(section, childTarget)|
  {
    |WordsOf(Groups(section, childTarget)[j])|
  }

  function Groups(section: Section, childTarget: int): seq<seq<string>> {
    Pack([], Trimmed(SplitSentences(section.text)), childTarget)
  }

  /** Every chunk reports at most the target. */
  predicate WithinTarget(chunks: seq<Chunk>, childTarget: int) {
    forall j :: 0 <= j < |chunks| ==> chunks[j].tokenCount <= childTarget
  }

  lemma ChunkCount(section: Section, number: nat, childTarget: int, parentTarget: int)
    ensures var chunks := SectionChunks(section, number, childTarget, parentTarget);
            |chunks| == |Groups(section, childTarget)| && forall j :: 0 <= j < |chunks| ==>
              chunks[j].tokenCount == TokensForWords(GroupWords(section, childTarget, j))
  {
    var groups := Groups(section, childTarget);
    ChildrenCountUp(section, number, 1, Parent(section, parentTarget), groups);
    forall j | 0 <= j < |groups|
      ensures ApproximateTokens(JoinSpaced(groups[j])) == TokensForWords(GroupWords(section, childTarget, j))
    {
      JoinKeepsWords(groups[j]);
    }
  }

  /** For any section and target: the reported counts keep to the target exactly when each group's words fit it. */
  lemma SectionWithinIff(section: Section, number: nat, childTarget: int, parentTarget: int)
    ensures WithinTarget(SectionChunks(section, number, childTarget, parentTarget), childTarget)
            <==> forall j :: 0 <= j < |Groups(section, childTarget)| ==>
              CountFits(GroupWords(section, childTarget, j), childTarget)
  {
    hide SectionChunks, Groups, GroupWords, CountFits;
    var chunks := SectionChunks(section, number, childTarget, parentTarget);
    ChunkCount(section, number, childTarget, parentTarget);
    forall j | 0 <= j < |chunks|
      ensures chunks[j].tokenCount <= childTarget <==> CountFits(GroupWords(section, childTarget, j), childTarget)
    {
      CountFitsIff(GroupWords(section, childTarget, j), childTarget);
    }
  }

  // --------------------------------------------- which sentence lengths are safe

  /** A sentence of this length neither is counted too low nor is too long for a chunk of its own. */
  predicate SafeLength(words: nat, least: int) {
    !RoundsDown(words) && CountFits(words, least)
  }

  predicate SentencesFrom(sentences: seq<string>, lengths: iset<nat>) {
    forall i :: 0 <= i < |sentences| ==> |Words(sentences[i])| in lengths
  }

  /** All sentences of the sections have one of these lengths. */
  predicate Drawn(sections: seq<Section>, lengths: iset<nat>) {
    forall i :: 0 <= i < |sections| ==> SentencesFrom(Trimmed(SplitSentences(sections[i].text)), lengths)
  }

  /** The chunker's result for a document keeps to the target. */
  ghost predicate DocumentWithin(content: string, matches: seq<Heading>, childTarget: int, parentTarget: int)
    requires HeadingsIn(content, matches)
  {
    WithinTarget(PolicyChunks(Sections(content, matches), 1, childTarget, parentTarget), childTarget)
  }

  /** Every document with sentences of these lengths keeps to every target from `least` on. */
  ghost predicate AlwaysWithin(lengths: iset<nat>, least: int) {
    forall content, matches, childTarget, parentTarget
      {:trigger DocumentWithin(content, matches, childTarget, parentTarget)} ::
      HeadingsIn(content, matches) && least <= childTarget && Drawn(Sections(content, matches), lengths) ==>
        DocumentWithin(content, matches, childTarget, parentTarget)
  }

  ghost predicate AllSafe(lengths: iset<nat>, least: int) {
    forall words :: words in lengths && words > 0 ==> SafeLength(words, least)
  }

  lemma {:induction false} SafeSum(sentences: seq<string>, lengths: iset<nat>, least: int)
    requires AllSafe(lengths, least) && SentencesFrom(sentences, lengths)
    ensures 13 * |WordsOf(sentences)| <= 10 * TokenSum(sentences)
  {
    if sentences != [] {
      hide TokensForWords, RoundsDown, CountFits;
      RoundsDownIff(|Words(sentences[0])|);
      TokensAtLeastWords(|Words(sentences[0])|);
      SafeSum(sentences[1..], lengths, least);
    }
  }

  lemma SafeGroup(group: seq<string>, lengths: iset<nat>, least: int, childTarget: int)
    requires AllSafe(lengths, least) && SentencesFrom(group, lengths) && least <= childTarget
    requires Fits(group, childTarget) && forall i :: 0 <= i < |group| ==> Words(group[i]) != []
    ensures CountFits(|WordsOf(group)|, childTarget)
  {
    if |group| == 1 {
      assert group[1..] == [] && WordsOf(group) == Words(group[0]) + WordsOf(group[1..]);
      CountFitsIff(|Words(group[0])|, least);
      CountFitsIff(|Words(group[0])|, childTarget);
    } else {
      SafeSum(group, lengths, least);
      TokensAtLeastWords(|Words(group[0])|);
    }
  }

  lemma {:induction false} InFlattened<T>(parts: seq<seq<T>>, j: nat, i: nat)
    requires j < |parts| && i < |parts[j]|
    ensures parts[j][i] in Flatten(parts)
  {
    if j > 0 {
      InFlattened(parts[1..], j - 1, i);
    }
  }

  lemma SafeSection(section: Section, number: nat, childTarget: int, parentTarget: int, lengths: iset<nat>, least: int)
    requires AllSafe(lengths, least) && least <= childTarget
    requires SentencesFrom(Trimmed(SplitSentences(section.text)), lengths)
    ensures WithinTarget(SectionChunks(section, number, childTarget, parentTarget), childTarget)
  {
    var sentences := Trimmed(SplitSentences(section.text));
    var groups := Groups(section, childTarget);
    TrimmedKeepsWords(SplitSentences(section.text));
    PackIsValid([], sentences, childTarget);
    assert [] + sentences == sentences;
    forall j | 0 <= j < |groups| ensures CountFits(GroupWords(section, childTarget, j), childTarget) {
      forall i | 0 <= i < |groups[j]|
        ensures Words(groups[j][i]) != [] && |Words(groups[j][i])| in lengths
      {
        InFlattened(groups, j, i);
        var k :| 0 <= k < |sentences| && sentences[k] == groups[j][i];
      }
      SafeGroup(groups[j], lengths, least, childTarget);
    }
    SectionWithinIff(section, number, childTarget, parentTarget);
  }

  lemma {:induction false} SafeDocument(sections: seq<Section>, number: nat, childTarget: int, parentTarget: int,
                                        lengths: iset<nat>, least: int)
    requires AllSafe(lengths, least) && least <= childTarget && Drawn(sections, lengths)
    ensures WithinTarget(PolicyChunks(sections, number, childTarget, parentTarget), childTarget)
    decreases |sections|
  {
    if sections != [] {
      SafeSection(sections[0], number, childTarget, parentTarget, lengths, least);
      SafeDocument(sections[1..], number + 1, childTarget, parentTarget, lengths, least);
    }
  }

  // ------------------------------------------------- documents that overshoot

  /** A sentence of `words` words. */
  function Sentence(words: nat): string {
    if words <= 1 then "a." else "a " + Sentence(words - 1)
  }

  function Copies(n: nat, words: nat): seq<string> {
    if n == 0 then [] else [Sentence(words)] + Copies(n - 1, words)
  }

  lemma {:induction false} SentenceIsPlain(words: nat)
    requires words > 0
    ensures Plain(Sentence(words)) && |Words(Sentence(words))| == words
  {
    ShortWords();
    hide Words;
    if words > 1 {
      var rest := Sentence(words - 1);
      SentenceIsPlain(words - 1);
      WordsAppend("a ", rest);
      PlainCons(rest);
      hide Plain;
    }
  }

  lemma PlainCons(rest: string)
    requires Plain(rest)
    ensures Plain("a " + rest)
  {
    var s := "a " + rest;
    assert s[0] == 'a' && s[1] == ' ';
    assert s[|s| - 1] == rest[|rest| - 1];
    forall k | 0 < k < |s| ensures !BreaksBetween(s[k - 1], s[k]) {
      if k > 2 {
        assert s[k - 1] == rest[k - 3] && s[k] == rest[k - 2];
      }
    }
  }

  lemma ShortWords()
    ensures Words("a.") == ["a."] && Words("a ") == ["a"]
  {
    assert "a."[1..] == "." && "."[1..] == "" && "a "[1..] == " " && " "[1..] == "";
    assert WordLength(".") == 1 && WordLength("a.") == 2 && WordLength(" ") == 0 && WordLength("a ") == 1;
    assert "a."[..2] == "a." && "a."[2..] == "" && "a "[..1] == "a";
    assert Words(" ") == Words("") == [];
  }

  lemma {:induction false} CopiesCount(n: nat, words: nat)
    requires words > 0
    ensures |Copies(n, words)| == n && forall i :: 0 <= i < n ==> Copies(n, words)[i] == Sentence(words)
    ensures |WordsOf(Copies(n, words))| == n * words && TokenSum(Copies(n, words)) == n * TokensForWords(words)
  {
    if n > 0 {
      SentenceIsPlain(words);
      CopiesCount(n - 1, words);
      assert Copies(n, words)[1..] == Copies(n - 1, words);
      Distribute(n, words);
      Distribute(n, TokensForWords(words));
    }
  }

  lemma Distribute(n: nat, x: nat)
    requires n > 0
    ensures n * x == x + (n - 1) * x
  {
  }

  /** The document of `n` sentences of `words` words each, and what the chunker makes of it. */
  lemma CopiesChunk(n: nat, words: nat, childTarget: int, parentTarget: int)
    requires n > 0 && words > 0 && (n == 1 || n * TokensForWords(words) <= childTarget)
    ensures var content := JoinSpaced(Copies(n, words));
            var sections := Sections(content, []);
            && HeadingsIn(content, []) && Drawn(sections, iset{words})
            && var chunks := PolicyChunks(sections, 1, childTarget, parentTarget);
               |chunks| == 1 && chunks[0].tokenCount == TokensForWords(n * words)
  {
    hide Plain, Strip, Words, TokensForWords, SplitSentences, Trimmed;
    var sentences := Copies(n, words);
    var content := JoinSpaced(sentences);
    SentenceIsPlain(words);
    CopiesCount(n, words);
    SentencesRoundTrip(sentences);
    JoinIsBare(sentences);
    var section := Section([], content);
    assert Sections(content, []) == [section];
    OneGroup(sentences, childTarget);
    ChunkCount(section, 1, childTarget, parentTarget);
    var chunks := SectionChunks(section, 1, childTarget, parentTarget);
    assert PolicyChunks([section][1..], 2, childTarget, parentTarget) == [];
    assert PolicyChunks([section], 1, childTarget, parentTarget) == chunks;
  }

  lemma OneGroup(sentences: seq<string>, childTarget: int)
    requires sentences != [] && (|sentences| == 1 || TokenSum(sentences) <= childTarget)
    ensures Pack([], sentences, childTarget) == [sentences]
  {
    assert [] + sentences == sentences;
    if |sentences| == 1 {
      assert [] + [sentences[0]] == sentences && sentences[1..] == [];
      assert Pack(sentences, [], childTarget) == [sentences];
    } else {
      PackTakesAll([], sentences, childTarget);
    }
  }

  /**
   For every target from 2 on there is a document whose only chunk reports
   more than the target, and as much as the bound for such chunks allows.
   */
  lemma BudgetExceeded(childTarget: nat, parentTarget: int)
    requires childTarget >= 2
    ensures var chunks := PolicyChunks(Sections(JoinSpaced(Copies(childTarget, 1)), []), 1, childTarget, parentTarget);
            |chunks| == 1 && chunks[0].tokenCount == TokensForWords(childTarget) > childTarget
  {
    assert TokensForWords(1) == 1;
    CopiesChunk(childTarget, 1, childTarget, parentTarget);
  }

  /** Six sentences of a length that is counted too low, or more, are counted too low by a token. */
  lemma LossAddsUp(n: nat, words: nat)
    requires n >= 6 && RoundsDown(words)
    ensures TokensForWords(n * words) > n * TokensForWords(words)
  {
    RoundsDownIff(words);
    var loss := 13 * words - 10 * TokensForWords(words);
    assert n * loss >= n by {
      Distribute(n, loss);
      AtLeast(n, loss);
    }
    assert 13 * (n * words) - 10 * (n * TokensForWords(words)) == n * loss;
    TokensNearest(n * words);
  }

  lemma AtLeast(n: nat, x: nat)
    requires x >= 1
    ensures n * x >= n
  {
  }

  lemma UnsafeLengthFails(words: nat, least: int, lengths: iset<nat>)
    requires words in lengths && words > 0 && !SafeLength(words, least)
    ensures !AlwaysWithin(lengths, least)
  {
    var n, target := 1, least;
    if CountFits(words, least) {
      n := 6 + least;
      target := n * TokensForWords(words);
      AtLeast(n, TokensForWords(words));
      LossAddsUp(n, words);
    } else {
      CountFitsIff(words, least);
    }
    hide TokensForWords, CountFits;
    CopiesChunk(n, words, target, 0);
    var content := JoinSpaced(Copies(n, words));
    var chunks := PolicyChunks(Sections(content, []), 1, target, 0);
    assert Drawn(Sections(content, []), lengths);
    assert chunks[0].tokenCount > target;
    assert !DocumentWithin(content, [], target, 0);
  }

  /**
   When the reported counts keep to the target: for any set of sentence
   lengths, every document built from such sentences keeps to every target
   from `least` on if and only if no length is counted too low on its own and
   each fits `least` alone.
   */
  lemma AlwaysWithinIff(lengths: iset<nat>, least: int)
    ensures AlwaysWithin(lengths, least) <==> AllSafe(lengths, least)
  {
    if AllSafe(lengths, least) {
      forall content, matches, childTarget, parentTarget
        | HeadingsIn(content, matches) && least <= childTarget && Drawn(Sections(content, matches), lengths)
        ensures DocumentWithin(content, matches, childTarget, parentTarget)
      {
        SafeDocument(Sections(content, matches), 1, childTarget, parentTarget, lengths, least);
      }
    }
    if words :| words in lengths && words > 0 && !SafeLength(words, least) {
      UnsafeLengthFails(words, least, lengths);
    }
  }
}
