/** The resolver itself: noun phrases are collected from each parsed
    sentence and numbered into mentions, then every mention is paired with the
    earlier mentions in its search window and the four matchers are tried on
    each pair. */
module Coref {
  import opened Py
  import opened Trees
  import opened Schemas
  import opened Matchers

  /** How many sentences back a candidate may lie. */
  const SearchRange: int := 2

  /** The matchers in the order they are tried. */
  const MatcherOrder: seq<Resolver> := [Reflexive, Pronoun, RefDeterminer, One]

  /** A (mention, antecedent) pair. */
  type Pair = (Mention, Mention)

  /* ---------------------------------------------------------------- */
  /* Noun phrases of a sentence                                        */
  /* ---------------------------------------------------------------- */

  predicate IsNpNode(t: ParseNode)
  {
    t.tag == "NP" || t.tag == "PRP$"
  }

  /** The NP and PRP$ nodes of `t`, in pre-order. */
  function NpSubtrees(t: ParseNode): seq<ParseNode>
  {
    Filter(Subtrees(t), IsNpNode)
  }

  /** Some noun phrase's words are a prefix of the words of the noun phrase
      just before it, as "the man" after "the man from France". */
  predicate AdjacentPrefix(nps: seq<ParseNode>)
  {
    exists k :: 1 <= k < |nps| && Leaves(nps[k]) <= Leaves(nps[k - 1])
  }

  function Max(a: int, b: int): int
  {
    if a < b then b else a
  }

  /** `_filter_sent_nps`. The first loop keeps the first phrase. The second
      compares each phrase with the one just before it only: if the earlier
      one's words start with the later one's, the next test compares an int
      with a list, which raises TypeError; otherwise the later phrase is kept.
      So the filter either raises or returns its input unchanged. */
  method FilterSentNps(sentNps: seq<ParseNode>) returns (r: Result<seq<ParseNode>>)
    ensures r.Failure? <==> AdjacentPrefix(sentNps)
    ensures r.Failure? ==> r.error == TypeError
    ensures r.Success? ==> r.value == sentNps
  {
    var filteredNps: seq<ParseNode> := [];
    for i := 0 to |sentNps|
      invariant filteredNps == if i == 0 then [] else sentNps[..1]
    {
      var np1 := sentNps[i];
      if i == 0 {
        filteredNps := filteredNps + [np1];
      }
    }
    for i := 0 to |sentNps|
      invariant |sentNps| == 0 ==> filteredNps == []
      invariant |sentNps| > 0 ==> filteredNps == sentNps[..Max(i, 1)]
      invariant forall k :: 1 <= k < i ==> !(Leaves(sentNps[k]) <= Leaves(sentNps[k - 1]))
    {
      var np1 := sentNps[i];
      for j := 0 to |sentNps|
        invariant filteredNps == sentNps[..if j < i then Max(i, 1) else i + 1]
        invariant i >= 1 && j >= i ==> !(Leaves(sentNps[i]) <= Leaves(sentNps[i - 1]))
      {
        var np2 := sentNps[j];
        if j == i - 1 {
          var leaves1, leaves2 := Leaves(np1), Leaves(np2);
          SliceToEqualsIffPrefix(leaves1, leaves2);
          if SliceTo(leaves2, |leaves1|) == leaves1 {
            // `len(NP2.leaves()) > NP1.leaves()`: ordering an int against a list
            return Failure(TypeError);
          }
          if SliceTo(leaves2, |leaves1|) != leaves1 {
            filteredNps := filteredNps + [np1];
          }
        }
      }
    }
    if |sentNps| > 0 {
      assert sentNps[..|sentNps|] == sentNps;
    }
    return Success(filteredNps);
  }

  /** What `get_sent_nps` returns or raises: the NP and PRP$ subtrees, unless
      the filter raises; the filter's own result is dropped. */
  function SentNps(tree: ParseNode): (r: Result<seq<ParseNode>>)
    ensures r.Success? <==> !AdjacentPrefix(NpSubtrees(tree))
    ensures r.Failure? ==> r.error == TypeError
  {
    var nps := NpSubtrees(tree);
    if AdjacentPrefix(nps) then Failure(TypeError) else Success(nps)
  }

  /** The phrases returned are exactly the NP and PRP$ nodes of the tree. */
  lemma SentNpsMembers(tree: ParseNode)
    ensures SentNps(tree).Success? ==> forall t :: t in SentNps(tree).value <==> t in Subtrees(tree) && IsNpNode(t)
  {
    FilterMembers(Subtrees(tree), IsNpNode);
  }

  /** `get_sent_nps`. */
  method GetSentNps(tree: ParseNode) returns (r: Result<seq<ParseNode>>)
    ensures r == SentNps(tree)
  {
    var listOfSubTrees := Subtrees(tree);
    var sentNps: seq<ParseNode> := [];
    for i := 0 to |listOfSubTrees|
      invariant sentNps == Filter(listOfSubTrees[..i], IsNpNode)
    {
      var subtree1 := listOfSubTrees[i];
      assert listOfSubTrees[..i + 1] == listOfSubTrees[..i] + [subtree1];
      FilterAppend(listOfSubTrees[..i], [subtree1], IsNpNode);
      if subtree1.tag in ["NP", "PRP$"] {
        sentNps := sentNps + [subtree1];
      }
    }
    assert listOfSubTrees[..|listOfSubTrees|] == listOfSubTrees;
    var filtered := FilterSentNps(sentNps);
    if filtered.Failure? {
      return Failure(filtered.error);
    }
    return Success(sentNps);
  }

  /** A noun phrase whose first child is itself an NP or PRP$ node, as
      "[the man] from France" or "[his] dog", is followed in pre-order by
      that child, whose words start its own: collecting the noun phrases of
      any sentence containing one raises TypeError. */
  lemma EmbeddedNpRaises(tree: ParseNode, outer: ParseNode)
    requires outer in Subtrees(tree) && IsNpNode(outer)
    requires |outer.children| > 0 && outer.children[0].Node? && IsNpNode(outer.children[0])
    ensures SentNps(tree) == Failure(TypeError)
  {
    var inner: ParseNode := outer.children[0];
    var subs := Subtrees(tree);
    var k := SubtreesBlock(tree, outer);
    assert Subtrees(outer) == [outer] + Subtrees(inner) + SubtreesOfChildren(outer.children[1..]);
    assert Subtrees(outer)[1] == inner;
    assert subs[k + 0] == outer && subs[k + 1] == inner;
    var j := FilterKeepsNeighbours(subs, k, IsNpNode);
    var nps := NpSubtrees(tree);
    assert Leaves(outer) == Leaves(inner) + LeavesOfChildren(outer.children[1..]);
    assert Leaves(nps[j + 1]) <= Leaves(nps[j]);
  }

  /* ---------------------------------------------------------------- */
  /* Mentions                                                         */
  /* ---------------------------------------------------------------- */

  /** Pairs each element with its 1-based position. */
  function Numbered<T>(s: seq<T>): seq<(int, T)>
  {
    seq(|s|, k requires 0 <= k < |s| => (k + 1, s[k]))
  }

  /** One iteration of the inner loop of `create_doc_mentions`: the mention
      built from a numbered noun phrase, as a one-element list. */
  function MentionAt(treeI: int, np: (int, ParseNode)): Result<seq<Mention>>
  {
    var m :- MentionOf(None, Some(np.1), np.0, treeI);
    Success([m])
  }

  function MentionStep(treeI: int): ((int, ParseNode)) -> Result<seq<Mention>>
  {
    (np: (int, ParseNode)) => MentionAt(treeI, np)
  }

  /** The mentions of sentence number `treeI`. */
  function SentenceMentions(treeI: int, tree: ParseNode): Result<seq<Mention>>
  {
    var nps :- SentNps(tree);
    ConcatMap(Numbered(nps), MentionStep(treeI))
  }

  function SentenceStep(sentence: (int, ParseNode)): Result<seq<Mention>>
  {
    SentenceMentions(sentence.0, sentence.1)
  }

  /** What `create_doc_mentions` returns or raises. */
  function DocMentions(parsedTrees: seq<ParseNode>): Result<seq<Mention>>
  {
    ConcatMap(Numbered(parsedTrees), SentenceStep)
  }

  /** The inner loop of `create_doc_mentions`: a mention for each noun
      phrase of sentence `tI`, with the mention counter `mI` from 1. */
  method SentenceMentionLoop(tI: int, treeNps: seq<ParseNode>) returns (r: Result<seq<Mention>>)
    ensures r == ConcatMap(Numbered(treeNps), MentionStep(tI))
  {
    var mentions: seq<Mention> := [];
    var mI := 1;
    for k := 0 to |treeNps|
      invariant mI == k + 1
      invariant ConcatMap(Numbered(treeNps)[..k], MentionStep(tI)) == Success(mentions)
    {
      var np := treeNps[k];
      ConcatMapStep(Numbered(treeNps), k, MentionStep(tI));
      assert Numbered(treeNps)[k] == (mI, np);
      var mention := NewMention(None, Some(np), mI, tI);
      if mention.Failure? {
        ConcatMapFailureSticks(Numbered(treeNps), k + 1, MentionStep(tI));
        return Failure(mention.error);
      }
      mentions := mentions + [mention.value];
      mI := mI + 1;
    }
    assert Numbered(treeNps)[..|treeNps|] == Numbered(treeNps);
    return Success(mentions);
  }

  /** `create_doc_mentions`: sentence counter `tI` from 1. */
  method CreateDocMentions(parsedTrees: seq<ParseNode>) returns (r: Result<seq<Mention>>)
    ensures r == DocMentions(parsedTrees)
  {
    var docMentions: seq<Mention> := [];
    var tI := 1;
    for idx := 0 to |parsedTrees|
      invariant tI == idx + 1
      invariant ConcatMap(Numbered(parsedTrees)[..idx], SentenceStep) == Success(docMentions)
    {
      var tree := parsedTrees[idx];
      ConcatMapStep(Numbered(parsedTrees), idx, SentenceStep);
      assert Numbered(parsedTrees)[idx] == (tI, tree);
      var found := GetSentNps(tree);
      if found.Failure? {
        ConcatMapFailureSticks(Numbered(parsedTrees), idx + 1, SentenceStep);
        return Failure(found.error);
      }
      var mentions := SentenceMentionLoop(tI, found.value);
      if mentions.Failure? {
        ConcatMapFailureSticks(Numbered(parsedTrees), idx + 1, SentenceStep);
        return Failure(mentions.error);
      }
      docMentions := docMentions + mentions.value;
      tI := tI + 1;
    }
    assert Numbered(parsedTrees)[..|parsedTrees|] == Numbered(parsedTrees);
    return Success(docMentions);
  }

  /** A sentence's mentions are its noun phrases in order, numbered from 1,
      each carrying the sentence number and the nouns of its phrase. */
  lemma SentenceMentionsNumbered(treeI: int, tree: ParseNode)
    requires SentenceMentions(treeI, tree).Success?
    ensures var ms, nps := SentenceMentions(treeI, tree).value, NpSubtrees(tree);
      |ms| == |nps| &&
      forall j :: 0 <= j < |ms| ==>
        ms[j].raw == None && ms[j].tree == nps[j] && ms[j].i == j + 1 && ms[j].treeI == treeI &&
        NounsOf(ms[j].tree) == Success(ms[j].nouns)
  {
    var nps := NpSubtrees(tree);
    var numbered := Numbered(nps);
    ConcatMapSucceeds(numbered, MentionStep(treeI));
    ConcatMapSingletons(numbered, MentionStep(treeI));
  }

  /** Sentence by sentence, the document's mention count grows by the
      sentence's noun-phrase count. */
  function NpCount(parsedTrees: seq<ParseNode>): nat
  {
    if parsedTrees == [] then 0
    else NpCount(parsedTrees[..|parsedTrees| - 1]) + |NpSubtrees(parsedTrees[|parsedTrees| - 1])|
  }

  lemma NumberedPrefix<T>(s: seq<T>, n: nat)
    requires n <= |s|
    ensures Numbered(s)[..n] == Numbered(s[..n])
  {
  }

  /** The mentions of a document are those of all sentences but the last,
      then those of the last. */
  lemma DocMentionsSplit(parsedTrees: seq<ParseNode>)
    requires parsedTrees != [] && DocMentions(parsedTrees).Success?
    ensures var n := |parsedTrees|;
      DocMentions(parsedTrees[..n - 1]).Success? && SentenceMentions(n, parsedTrees[n - 1]).Success? &&
      DocMentions(parsedTrees).value ==
        DocMentions(parsedTrees[..n - 1]).value + SentenceMentions(n, parsedTrees[n - 1]).value
  {
    var n := |parsedTrees|;
    NumberedPrefix(parsedTrees, n - 1);
    NumberedAt(parsedTrees, n - 1);
  }

  /** Mentions are created once per noun phrase: their number is the sum of
      the sentences' noun-phrase counts. */
  lemma {:induction false} DocMentionsCount(parsedTrees: seq<ParseNode>)
    requires DocMentions(parsedTrees).Success?
    ensures |DocMentions(parsedTrees).value| == NpCount(parsedTrees)
    decreases |parsedTrees|
  {
    if parsedTrees != [] {
      var n := |parsedTrees|;
      DocMentionsSplit(parsedTrees);
      DocMentionsCount(parsedTrees[..n - 1]);
      SentenceMentionsNumbered(n, parsedTrees[n - 1]);
    }
  }

  lemma NumberedAt<T>(s: seq<T>, k: nat)
    requires k < |s|
    ensures Numbered(s)[k] == (k + 1, s[k])
  {
  }

  /** An element yielded by a loop over a numbered list was yielded by the
      iteration for some position `k`, numbered `k + 1`. */
  lemma NumberedElements<T, A>(s: seq<T>, f: ((int, T)) -> Result<seq<A>>, x: A) returns (k: nat)
    requires ConcatMap(Numbered(s), f).Success? && x in ConcatMap(Numbered(s), f).value
    ensures k < |s| && f((k + 1, s[k])).Success? && x in f((k + 1, s[k])).value
  {
    var numbered := Numbered(s);
    ConcatMapElements(numbered, f, x);
    var j :| 0 <= j < |numbered| && f(numbered[j]).Success? && x in f(numbered[j]).value;
    NumberedAt(s, j);
    k := j;
  }

  /** Mention `m` was built from phrase `m.i` (from 1) of sentence `tree`,
      numbered `treeI`, with the nouns of that phrase. */
  predicate BuiltFrom(m: Mention, treeI: int, tree: ParseNode)
  {
    m.treeI == treeI && 1 <= m.i <= |NpSubtrees(tree)| && m.tree == NpSubtrees(tree)[m.i - 1] &&
    m.raw == None && NounsOf(m.tree) == Success(m.nouns)
  }

  /** A mention of a numbered sentence stands for the phrase its ordinal
      points at. */
  lemma SentenceMentionPlaced(sentence: (int, ParseNode), m: Mention)
    requires SentenceStep(sentence).Success? && m in SentenceStep(sentence).value
    ensures BuiltFrom(m, sentence.0, sentence.1)
  {
    SentenceMentionsNumbered(sentence.0, sentence.1);
    var ms := SentenceMentions(sentence.0, sentence.1).value;
    var j :| 0 <= j < |ms| && ms[j] == m;
  }

  /** Every mention stands for the noun phrase its numbers point at: sentence
      `treeI` (from 1) and phrase `i` (from 1) of that sentence. */
  lemma DocMentionsPlaced(parsedTrees: seq<ParseNode>, m: Mention)
    requires DocMentions(parsedTrees).Success? && m in DocMentions(parsedTrees).value
    ensures 1 <= m.treeI <= |parsedTrees| && BuiltFrom(m, m.treeI, parsedTrees[m.treeI - 1])
  {
    var k := NumberedElements(parsedTrees, SentenceStep, m);
    PlacedAt(parsedTrees, k, m);
  }

  /** A mention yielded for sentence `k` (from 0) is placed by its numbers. */
  lemma PlacedAt(parsedTrees: seq<ParseNode>, k: nat, m: Mention)
    requires k < |parsedTrees| && SentenceStep((k + 1, parsedTrees[k])).Success?
    requires m in SentenceStep((k + 1, parsedTrees[k])).value
    ensures 1 <= m.treeI <= |parsedTrees| && BuiltFrom(m, m.treeI, parsedTrees[m.treeI - 1])
  {
    var tree := parsedTrees[k];
    SentenceMentionPlaced((k + 1, tree), m);
    assert parsedTrees[m.treeI - 1] == tree;
  }


  /** Mention `a` comes before mention `b` in document order. */
  predicate Precedes(a: Mention, b: Mention)
  {
    a.treeI < b.treeI || (a.treeI == b.treeI && a.i < b.i)
  }

  predicate InDocOrder(ms: seq<Mention>)
  {
    forall k, l :: 0 <= k < l < |ms| ==> Precedes(ms[k], ms[l])
  }

  /** Mentions of earlier sentences followed by the numbered mentions of
      sentence `n` stay in document order. */
  lemma OrderedConcat(prev: seq<Mention>, last: seq<Mention>, n: int)
    requires InDocOrder(prev) && forall k :: 0 <= k < |prev| ==> prev[k].treeI < n
    requires forall j :: 0 <= j < |last| ==> last[j].treeI == n && last[j].i == j + 1
    ensures InDocOrder(prev + last)
  {
    var ms := prev + last;
    forall k, l | 0 <= k < l < |ms|
      ensures Precedes(ms[k], ms[l])
    {
      if l < |prev| {
        assert ms[k] == prev[k] && ms[l] == prev[l];
      } else if k < |prev| {
        assert ms[k] == prev[k] && ms[l] == last[l - |prev|];
      } else {
        assert ms[k] == last[k - |prev|] && ms[l] == last[l - |prev|];
      }
    }
  }

  /** The mention list is in document order: sentence numbers never
      decrease and ordinals increase within a sentence; in particular no two
      mentions are equal. */
  lemma {:induction false} DocMentionsOrdered(parsedTrees: seq<ParseNode>)
    requires DocMentions(parsedTrees).Success?
    ensures InDocOrder(DocMentions(parsedTrees).value)
    decreases |parsedTrees|
  {
    if parsedTrees != [] {
      var n := |parsedTrees|;
      var init := parsedTrees[..n - 1];
      DocMentionsSplit(parsedTrees);
      DocMentionsOrdered(init);
      SentenceMentionsNumbered(n, parsedTrees[n - 1]);
      var prev := DocMentions(init).value;
      forall k | 0 <= k < |prev|
        ensures prev[k].treeI < n
      {
        DocMentionsPlaced(init, prev[k]);
      }
      OrderedConcat(prev, SentenceMentions(n, parsedTrees[n - 1]).value, n);
    }
  }

  /** The reflexive matcher never fires for a candidate from the document:
      it needs `candidate.i == 0`, and ordinals start at 1. */
  lemma ReflexiveNeverFires(parsedTrees: seq<ParseNode>, m: Mention, c: Mention, local: bool)
    requires DocMentions(parsedTrees).Success? && c in DocMentions(parsedTrees).value
    ensures ReflexiveMatch(m, c, parsedTrees, local) != Success(true)
  {
    DocMentionsPlaced(parsedTrees, c);
  }

  /* ---------------------------------------------------------------- */
  /* Matching one pair                                                */
  /* ---------------------------------------------------------------- */

  /** The pair, once, if the matcher fired. */
  function Hit(fired: bool, m: Mention, c: Mention): seq<Pair>
  {
    if fired then [(m, c)] else []
  }

  /** What a matcher's answer contributes: the pair if it fired, and the
      exception if it raised one. */
  function PairsOf(answer: Result<bool>, m: Mention, c: Mention): Result<seq<Pair>>
  {
    var hit :- answer;
    Success(Hit(hit, m, c))
  }

  /** One matcher's contribution. */
  function MatcherPairs(r: Resolver, m: Mention, c: Mention, parsedSents: seq<ParseNode>, local: bool, o: Oracles): Result<seq<Pair>>
  {
    PairsOf(FindAntecedent(r, m, c, parsedSents, local, o), m, c)
  }

  function MatcherStep(m: Mention, c: Mention, parsedSents: seq<ParseNode>, local: bool, o: Oracles): Resolver -> Result<seq<Pair>>
  {
    (r: Resolver) => MatcherPairs(r, m, c, parsedSents, local, o)
  }

  /** What `_match_antecedent` returns or raises; `local` is whether both
      mentions lie in the same sentence. */
  function MatchSpec(m: Mention, c: Mention, parsedSents: seq<ParseNode>, o: Oracles): Result<seq<Pair>>
  {
    ConcatMap(MatcherOrder, MatcherStep(m, c, parsedSents, m.treeI == c.treeI, o))
  }

  /** `_match_antecedent`. */
  method MatchAntecedent(m: Mention, c: Mention, parsedSents: seq<ParseNode>, o: Oracles) returns (r: Result<seq<Pair>>)
    ensures r == MatchSpec(m, c, parsedSents, o)
  {
    var corefPairs: seq<Pair> := [];
    var local := false;
    if m.treeI == c.treeI {
      local := true;
    }
    for k := 0 to |MatcherOrder|
      invariant ConcatMap(MatcherOrder[..k], MatcherStep(m, c, parsedSents, local, o)) == Success(corefPairs)
    {
      ConcatMapStep(MatcherOrder, k, MatcherStep(m, c, parsedSents, local, o));
      var matched := FindAntecedent(MatcherOrder[k], m, c, parsedSents, local, o);
      if matched.Failure? {
        ConcatMapFailureSticks(MatcherOrder, k + 1, MatcherStep(m, c, parsedSents, local, o));
        return Failure(matched.error);
      }
      if matched.value {
        corefPairs := corefPairs + [(m, c)];
      } else {
        assert corefPairs + [] == corefPairs;
      }
    }
    assert MatcherOrder[..|MatcherOrder|] == MatcherOrder;
    return Success(corefPairs);
  }

  /** All four matchers run, in the order reflexive, pronoun, referential
      determiner, one, with no early exit: a later matcher's exception
      escapes even after an earlier one fired. The result holds one copy of
      the pair per matcher that fired. */
  lemma MatchSpecUnrolled(m: Mention, c: Mention, parsedSents: seq<ParseNode>, o: Oracles)
    ensures var local := m.treeI == c.treeI;
      MatchSpec(m, c, parsedSents, o) ==
        (var a :- MatcherPairs(Reflexive, m, c, parsedSents, local, o);
         var b :- MatcherPairs(Pronoun, m, c, parsedSents, local, o);
         var d :- MatcherPairs(RefDeterminer, m, c, parsedSents, local, o);
         var e :- MatcherPairs(One, m, c, parsedSents, local, o);
         Success(a + b + d + e))
  {
    ConcatMapFour(MatcherOrder, MatcherStep(m, c, parsedSents, m.treeI == c.treeI, o));
  }

  /** `_match_antecedent` returns at most four pairs, each the pair it was
      given. */
  lemma MatchSpecPairs(m: Mention, c: Mention, parsedSents: seq<ParseNode>, o: Oracles)
    ensures MatchSpec(m, c, parsedSents, o).Success? ==>
      |MatchSpec(m, c, parsedSents, o).value| <= 4 &&
      forall p :: p in MatchSpec(m, c, parsedSents, o).value ==> p == (m, c)
  {
    MatchSpecUnrolled(m, c, parsedSents, o);
    var local := m.treeI == c.treeI;
    PairsOfShape(FindAntecedent(Reflexive, m, c, parsedSents, local, o), m, c);
    PairsOfShape(FindAntecedent(Pronoun, m, c, parsedSents, local, o), m, c);
    PairsOfShape(FindAntecedent(RefDeterminer, m, c, parsedSents, local, o), m, c);
    PairsOfShape(FindAntecedent(One, m, c, parsedSents, local, o), m, c);
  }

  lemma PairsOfShape(answer: Result<bool>, m: Mention, c: Mention)
    ensures PairsOf(answer, m, c).Success? ==>
      |PairsOf(answer, m, c).value| <= 1 && forall p :: p in PairsOf(answer, m, c).value ==> p == (m, c)
  {
  }

  /* ---------------------------------------------------------------- */
  /* The document driver                                              */
  /* ---------------------------------------------------------------- */

  /** `x in range(lo, hi)`: the upper bound is excluded. */
  predicate InRange(x: int, lo: int, hi: int)
  {
    lo <= x < hi
  }

  /** Pairs each element with its 0-based position, which is its identity:
      mentions are distinct objects, so `list.index` finds a mention at its
      own position and `!=` between mentions compares positions. */
  function Positioned<T>(s: seq<T>): seq<(nat, T)>
  {
    seq(|s|, k requires 0 <= k < |s| => (k as nat, s[k]))
  }

  /** The candidate filter's condition. It tests the mention's own sentence
      number against a window ending just before it, so it ignores the
      candidate entirely. */
  function WindowKeep(treeI: int): ((nat, Mention)) -> bool
  {
    (c: (nat, Mention)) => InRange(treeI, treeI - SearchRange, treeI)
  }

  /** The candidates of the mention at position `p`. */
  function CandidatesOf(mentions: seq<Mention>, p: nat, m: Mention): seq<(nat, Mention)>
  {
    Filter(Positioned(SliceTo(mentions, p)), WindowKeep(m.treeI))
  }

  /** One candidate: the pairs `_match_antecedent` returns, appended as one
      list when there are any; a candidate identical to the mention is
      skipped. */
  function CandidatePairs(p: nat, m: Mention, candidate: (nat, Mention), parsedSents: seq<ParseNode>, o: Oracles): Result<seq<seq<Pair>>>
  {
    if candidate.0 != p then
      var pairs :- MatchSpec(m, candidate.1, parsedSents, o);
      Success(if pairs != [] then [pairs] else [])
    else Success([])
  }

  function CandidateStep(p: nat, m: Mention, parsedSents: seq<ParseNode>, o: Oracles): ((nat, Mention)) -> Result<seq<seq<Pair>>>
  {
    (candidate: (nat, Mention)) => CandidatePairs(p, m, candidate, parsedSents, o)
  }

  function MentionPairs(mentions: seq<Mention>, parsedSents: seq<ParseNode>, o: Oracles): ((nat, Mention)) -> Result<seq<seq<Pair>>>
  {
    (pm: (nat, Mention)) => ConcatMap(CandidatesOf(mentions, pm.0, pm.1), CandidateStep(pm.0, pm.1, parsedSents, o))
  }

  /** What the resolution loops return or raise for a list of mentions. */
  function DocPairs(mentions: seq<Mention>, parsedSents: seq<ParseNode>, o: Oracles): Result<seq<seq<Pair>>>
  {
    ConcatMap(Positioned(mentions), MentionPairs(mentions, parsedSents, o))
  }

  /** What `resolve_coreferences` returns or raises for the parsed sentences
      of a document (the pairs; the document object is not modelled). */
  function ResolveSpec(parsedSents: seq<ParseNode>, o: Oracles): Result<seq<seq<Pair>>>
  {
    var mentions :- DocMentions(parsedSents);
    DocPairs(mentions, parsedSents, o)
  }

  /** The inner loop of `resolve_coreferences`: the pairs found for the
      mention at position `p` against each of its candidates in turn. */
  method CandidateLoop(p: nat, mention: Mention, candidates: seq<(nat, Mention)>, parsedSents: seq<ParseNode>, o: Oracles)
    returns (r: Result<seq<seq<Pair>>>)
    ensures r == ConcatMap(candidates, CandidateStep(p, mention, parsedSents, o))
  {
    var step := CandidateStep(p, mention, parsedSents, o);
    var corefPairs: seq<seq<Pair>> := [];
    for k := 0 to |candidates|
      invariant ConcatMap(candidates[..k], step) == Success(corefPairs)
    {
      var candidate := candidates[k];
      ConcatMapStep(candidates, k, step);
      if candidate.0 != p {
        var pairs := MatchAntecedent(mention, candidate.1, parsedSents, o);
        if pairs.Failure? {
          ConcatMapFailureSticks(candidates, k + 1, step);
          return Failure(pairs.error);
        }
        if pairs.value != [] {
          corefPairs := corefPairs + [pairs.value];
        } else {
          assert corefPairs + [] == corefPairs;
        }
      } else {
        assert corefPairs + [] == corefPairs;
      }
    }
    assert candidates[..|candidates|] == candidates;
    return Success(corefPairs);
  }

  /** `resolve_coreferences`, from the parsed sentences on. */
  method ResolveCoreferences(parsedSents: seq<ParseNode>, o: Oracles) returns (r: Result<seq<seq<Pair>>>)
    ensures r == ResolveSpec(parsedSents, o)
  {
    var mentions :- CreateDocMentions(parsedSents);
    var corefPairs: seq<seq<Pair>> := [];
    for p := 0 to |mentions|
      invariant ConcatMap(Positioned(mentions)[..p], MentionPairs(mentions, parsedSents, o)) == Success(corefPairs)
    {
      var mention := mentions[p];
      ConcatMapStep(Positioned(mentions), p, MentionPairs(mentions, parsedSents, o));
      assert Positioned(mentions)[p] == (p, mention);
      var mI := p;
      var candidates := Positioned(SliceTo(mentions, mI));
      candidates := Filter(candidates, WindowKeep(mention.treeI));
      var found := CandidateLoop(p, mention, candidates, parsedSents, o);
      if found.Failure? {
        ConcatMapFailureSticks(Positioned(mentions), p + 1, MentionPairs(mentions, parsedSents, o));
        return Failure(found.error);
      }
      corefPairs := corefPairs + found.value;
    }
    assert Positioned(mentions)[..|mentions|] == Positioned(mentions);
    return Success(corefPairs);
  }

  /** The window `range(tree_i - 2, tree_i)` never contains `tree_i` itself. */
  lemma WindowNeverHolds(treeI: int)
    ensures !InRange(treeI, treeI - SearchRange, treeI)
  {
  }

  /** Whatever condition filters them, the candidates of the mention at
      position `p` are earlier mentions, each at its own position, so never
      the mention itself. */
  lemma CandidatesAreEarlier(mentions: seq<Mention>, p: nat, keep: ((nat, Mention)) -> bool)
    ensures forall c: (nat, Mention) :: c in Filter(Positioned(SliceTo(mentions, p)), keep) ==>
      c.0 < p && c.0 < |mentions| && mentions[c.0] == c.1
  {
    var earlier: seq<(nat, Mention)> := Positioned(SliceTo(mentions, p));
    FilterMembers(earlier, keep);
    forall c: (nat, Mention) | c in Filter(earlier, keep)
      ensures c.0 < p && c.0 < |mentions| && mentions[c.0] == c.1
    {
      var k :| 0 <= k < |earlier| && earlier[k] == c;
    }
  }

  /** Because of the window test, no mention has any candidate. */
  lemma NoCandidates(mentions: seq<Mention>, p: nat, m: Mention)
    ensures CandidatesOf(mentions, p, m) == []
  {
    FilterNone(Positioned(SliceTo(mentions, p)), WindowKeep(m.treeI));
  }

  /** No document yields a coreference pair: resolution raises exactly when
      building the mentions raises, and otherwise returns no pairs, whatever
      the matchers and their resources would say. */
  lemma NoCorefPairs(parsedSents: seq<ParseNode>, o: Oracles)
    ensures ResolveSpec(parsedSents, o).Failure? <==> DocMentions(parsedSents).Failure?
    ensures ResolveSpec(parsedSents, o).Success? ==> ResolveSpec(parsedSents, o).value == []
  {
    if DocMentions(parsedSents).Success? {
      var mentions := DocMentions(parsedSents).value;
      var positioned := Positioned(mentions);
      forall k | 0 <= k < |positioned|
        ensures MentionPairs(mentions, parsedSents, o)(positioned[k]) == Success([])
      {
        NoCandidates(mentions, positioned[k].0, positioned[k].1);
      }
      ConcatMapAllEmpty(positioned, MentionPairs(mentions, parsedSents, o));
    }
  }
}
