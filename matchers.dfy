/** The four antecedent matchers. Each decides, for a mention and an earlier
    candidate mention, whether the candidate is an antecedent; an exception
    escaping the matcher is a `Failure`. The nltk part-of-speech tagger, the
    named-entity chunker, WordNet and the names corpus are parameters. */
module Matchers {
  import opened Py
  import opened Trees
  import opened Words
  import opened Schemas

  /** The external resources the matchers consult.
      `posTag` is `nltk.pos_tag` on a list of tokens; `posTagAcceptsString`
      says whether `pos_tag` accepts a bare string (newer nltk raises
      TypeError for one). `firstChunk` maps the candidate's tokens to the
      printed form (`str`) of the first chunk `ne_chunk` finds after
      tokenising and tagging them, `None` when it finds none. That chunk is a
      named-entity subtree, printed like `(PERSON John/NNP)`, or a plain
      (token, tag) pair, printed like `('dog', 'NN')` by Python 3 and like
      `(u'dog', u'NN')` by Python 2. `firstSenseHypernyms` maps a
      noun to the names of all synsets on the hypernym paths of its first
      WordNet sense, `None` when WordNet has no sense for it. */
  datatype Oracles = Oracles(
    posTag: seq<string> -> seq<(string, string)>,
    posTagAcceptsString: bool,
    firstChunk: seq<string> -> Option<string>,
    firstSenseHypernyms: string -> Option<seq<string>>,
    names: NameLists)

  datatype Resolver = Reflexive | Pronoun | RefDeterminer | One

  /** Words the one-anaphora matcher strips from the candidate (case-sensitive). */
  predicate NotStripped(leaf: string)
  {
    leaf !in ["the", "one", "ones"]
  }

  /** `OneResolver`: the candidate reads "the ... one(s)" and every candidate
      word that is not stripped occurs in the mention. It never raises, and it
      reads neither `local` nor the parsed sentences. With the stripping
      unfolded: every candidate word other than "the", "one" and "ones" must
      occur among the mention's words. */
  function OneMatch(m: Mention, c: Mention): (r: bool)
    ensures r <==>
      var cl := Leaves(c.tree);
      |cl| >= 3 && Lower(cl[0]) == "the" &&
      (exists k :: 0 <= k < |cl| && cl[k] in ["one", "ones"]) &&
      (forall k :: 0 <= k < |cl| && NotStripped(cl[k]) ==> cl[k] in Leaves(m.tree))
  {
    var cl := Leaves(c.tree);
    if |cl| >= 3 && Lower(cl[0]) == "the" && (exists k :: 0 <= k < |cl| && cl[k] in ["one", "ones"]) then
      var reduced := Filter(cl, NotStripped);
      FilterAllIff(cl, NotStripped, (w: string) => w in Leaves(m.tree));
      forall k :: 0 <= k < |reduced| ==> reduced[k] in Leaves(m.tree)
    else false
  }

  /** Stripping is case-sensitive: a candidate opening with a capitalised
      "The" matches only a mention that contains "The" itself. */
  lemma OneCapitalTheMustAppear(m: Mention, c: Mention)
    requires |Leaves(c.tree)| > 0 && Leaves(c.tree)[0] == "The"
    requires OneMatch(m, c)
    ensures "The" in Leaves(m.tree)
  {
    assert NotStripped(Leaves(c.tree)[0]);
  }

  /** `RefDeterminerResolver`: the mention has a noun, every mention word after
      the first occurs in the candidate, and the first nouns agree. When the
      candidate has no noun at that point, `candidate_nouns[0]` raises. */
  function RefDetMatch(m: Mention, c: Mention): (r: Result<bool>)
    ensures NounsOf(m.tree).Success? && NounsOf(c.tree).Success? ==>
      var mn, cn, ml, cl := NounsOf(m.tree).value, NounsOf(c.tree).value, Leaves(m.tree), Leaves(c.tree);
      (r == Success(true) <==>
        |mn| > 0 && (forall k :: 1 <= k < |ml| ==> ml[k] in cl) && |cn| > 0 && mn[0] == cn[0]) &&
      (r.Failure? <==>
        |mn| > 0 && (forall k :: 1 <= k < |ml| ==> ml[k] in cl) && cn == [])
    ensures r.Failure? ==> r.error == IndexError
  {
    NounsOfFailsWithIndexError(m.tree);
    NounsOfFailsWithIndexError(c.tree);
    var mentionNouns :- NounsOf(m.tree);
    var candidateNouns :- NounsOf(c.tree);
    var ml, cl := Leaves(m.tree), Leaves(c.tree);
    if |mentionNouns| > 0 && (forall k :: 1 <= k < |ml| ==> ml[k] in cl) then
      if candidateNouns == [] then Failure(IndexError)
      else Success(mentionNouns[0] == candidateNouns[0])
    else Success(false)
  }

  /** nltk's `Tree.__eq__` first requires both sides to be trees, so a tree
      never equals a string. */
  predicate TreeEqualsString(t: Tree, s: string)
  {
    false
  }

  /** The clause test of the clausemate veto: an "S" node none of whose
      subtrees equals the string "S". */
  predicate IsVetoClause(node: ParseNode)
  {
    node.tag == "S" && !(exists k :: 0 <= k < |Subtrees(node)| && TreeEqualsString(Subtrees(node)[k], "S"))
  }

  /** Because no tree equals a string, the "no nested S" test excludes nothing. */
  lemma VetoClauseIsAnyS(node: ParseNode)
    ensures IsVetoClause(node) <==> node.tag == "S"
  {
  }

  /** Some node of `containing` passing `clause` has both `a` and `b` among
      its subtrees (structural equality). */
  predicate SharedClause(containing: ParseNode, a: ParseNode, b: ParseNode, clause: ParseNode -> bool)
  {
    exists node :: node in Subtrees(containing) && clause(node) && a in Subtrees(node) && b in Subtrees(node)
  }

  predicate IsS(node: ParseNode)
  {
    node.tag == "S"
  }

  /** `RelexiveResolver`. The containing sentence is looked up with the
      mention's 1-based sentence number as a 0-based index. */
  function ReflexiveMatch(m: Mention, c: Mention, parsedSents: seq<ParseNode>, local: bool): (r: Result<bool>)
    ensures Leaves(m.tree) == [] ==> r == Failure(IndexError)
    ensures Leaves(m.tree) != [] && (Leaves(m.tree)[0] !in Reflexives || !local) ==> r == Success(false)
    ensures r == Success(true) ==>
      local && Leaves(m.tree)[0] in Reflexives && c.i == 0 && m.treeI == c.treeI
    ensures Leaves(m.tree) != [] && Leaves(m.tree)[0] in Reflexives && local && 0 <= m.treeI < |parsedSents| ==>
      r == Success(SharedClause(parsedSents[m.treeI], m.tree, c.tree, IsS) && c.i == 0 && m.treeI == c.treeI)
    ensures Leaves(m.tree) != [] && Leaves(m.tree)[0] in Reflexives && local && m.treeI >= |parsedSents| ==>
      r == Failure(IndexError)
    ensures r.Failure? ==> r.error == IndexError
  {
    var ml := Leaves(m.tree);
    if ml == [] then Failure(IndexError)
    else if ml[0] in Reflexives && local then
      var containing :- Index(parsedSents, m.treeI);
      Success(SharedClause(containing, m.tree, c.tree, IsS) && c.i == 0 && m.treeI == c.treeI)
    else Success(false)
  }

  /** The clausemate veto of `PronounResolver`: only for a local candidate,
      and it looks the containing sentence up like the reflexive matcher. */
  function ClausemateVeto(m: Mention, c: Mention, parsedSents: seq<ParseNode>, local: bool): (r: Result<bool>)
    ensures !local ==> r == Success(false)
    ensures local && 0 <= m.treeI < |parsedSents| ==>
      r == Success(SharedClause(parsedSents[m.treeI], m.tree, c.tree, IsS))
    ensures local && m.treeI >= |parsedSents| ==> r == Failure(IndexError)
    ensures r.Failure? ==> r.error == IndexError
  {
    if local then
      var containing :- Index(parsedSents, m.treeI);
      Success(SharedClause(containing, m.tree, c.tree, IsVetoClause))
    else Success(false)
  }

  /** `all(pair[1] == "NNP" ...)` over the tagger's output. */
  predicate AllProperNouns(tagged: seq<(string, string)>)
  {
    forall k :: 0 <= k < |tagged| ==> tagged[k].1 == "NNP"
  }

  predicate IsNN(node: ParseNode)
  {
    node.tag == "NN"
  }

  /** The gazetteer loop of the male and female checks: walks the nodes in
      order and returns true at the first "NN" node whose first token is in
      `gazetteer`; an "NN" node without tokens before that raises. */
  function GazetteerNoun(nodes: seq<ParseNode>, gazetteer: seq<string>): (r: Result<bool>)
    ensures (forall k :: 0 <= k < |nodes| && IsNN(nodes[k]) ==> Leaves(nodes[k]) != []) ==>
      r == Success(exists k :: 0 <= k < |nodes| && IsNN(nodes[k]) && Leaves(nodes[k])[0] in gazetteer)
    ensures r == Success(true) ==>
      exists k :: 0 <= k < |nodes| && IsNN(nodes[k]) && Leaves(nodes[k]) != [] && Leaves(nodes[k])[0] in gazetteer
    ensures r.Failure? ==>
      r.error == IndexError && exists k :: 0 <= k < |nodes| && IsNN(nodes[k]) && Leaves(nodes[k]) == []
    decreases |nodes|
  {
    if nodes == [] then Success(false)
    else if IsNN(nodes[0]) then
      var leaves := Leaves(nodes[0]);
      if leaves == [] then Failure(IndexError)
      else if leaves[0] in gazetteer then Success(true)
      else GazetteerNoun(nodes[1..], gazetteer)
    else GazetteerNoun(nodes[1..], gazetteer)
  }

  /** The shared shape of `resolve_male_pronouns` and
      `resolve_female_pronouns`: it inspects the candidate only. A pronoun of
      the gender matches; a candidate tagged entirely NNP matches exactly when
      its first word is a name of the gender, and the noun gazetteer is then
      not consulted; otherwise a candidate with nouns is searched for an "NN"
      node from the gazetteer. */
  function GenderMatch(c: Mention, pronouns: seq<string>, names: set<string>, gazetteer: seq<string>, o: Oracles): (r: Result<bool>)
    ensures Leaves(c.tree) == [] ==> r == Failure(IndexError)
    ensures Leaves(c.tree) != [] && Lower(Leaves(c.tree)[0]) in pronouns ==> r == Success(true)
    ensures Leaves(c.tree) != [] && Lower(Leaves(c.tree)[0]) !in pronouns && AllProperNouns(o.posTag(Leaves(c.tree))) ==>
      r == Success(Leaves(c.tree)[0] in names)
    ensures Leaves(c.tree) != [] && Lower(Leaves(c.tree)[0]) !in pronouns && !AllProperNouns(o.posTag(Leaves(c.tree))) ==>
      r == if |c.nouns| > 0 then GazetteerNoun(Subtrees(c.tree), gazetteer) else Success(false)
  {
    var cl := Leaves(c.tree);
    if cl == [] then Failure(IndexError)
    else if Lower(cl[0]) in pronouns then Success(true)
    else if AllProperNouns(o.posTag(cl)) then Success(cl[0] in names)
    else if |c.nouns| > 0 then GazetteerNoun(Subtrees(c.tree), gazetteer)
    else Success(false)
  }

  /** `resolve_male_pronouns`. */
  function MaleMatch(c: Mention, o: Oracles): (r: Result<bool>)
    ensures Leaves(c.tree) == [] ==> r == Failure(IndexError)
    ensures Leaves(c.tree) != [] && Lower(Leaves(c.tree)[0]) in MalePronouns ==> r == Success(true)
    ensures Leaves(c.tree) != [] && Lower(Leaves(c.tree)[0]) !in MalePronouns && AllProperNouns(o.posTag(Leaves(c.tree))) ==>
      r == Success(Leaves(c.tree)[0] in o.names.maleNames)
    ensures Leaves(c.tree) != [] && Lower(Leaves(c.tree)[0]) !in MalePronouns && !AllProperNouns(o.posTag(Leaves(c.tree))) ==>
      r == if |c.nouns| > 0 then GazetteerNoun(Subtrees(c.tree), TotalMaleNouns) else Success(false)
    ensures r.Failure? ==> r.error == IndexError
  {
    GenderMatch(c, MalePronouns, o.names.maleNames, TotalMaleNouns, o)
  }

  /** `resolve_female_pronouns`. */
  function FemaleMatch(c: Mention, o: Oracles): (r: Result<bool>)
    ensures Leaves(c.tree) == [] ==> r == Failure(IndexError)
    ensures Leaves(c.tree) != [] && Lower(Leaves(c.tree)[0]) in FemalePronouns ==> r == Success(true)
    ensures Leaves(c.tree) != [] && Lower(Leaves(c.tree)[0]) !in FemalePronouns && AllProperNouns(o.posTag(Leaves(c.tree))) ==>
      r == Success(Leaves(c.tree)[0] in o.names.femaleNames)
    ensures Leaves(c.tree) != [] && Lower(Leaves(c.tree)[0]) !in FemalePronouns && !AllProperNouns(o.posTag(Leaves(c.tree))) ==>
      r == if |c.nouns| > 0 then GazetteerNoun(Subtrees(c.tree), TotalFemaleNouns) else Success(false)
    ensures r.Failure? ==> r.error == IndexError
  {
    GenderMatch(c, FemalePronouns, o.names.femaleNames, TotalFemaleNouns, o)
  }

  /** `resolve_plural_pronoun`. The test on the head noun's tags is a
      generator object, which is always true; building it tags the head noun
      as a bare string, which raises TypeError where the tagger refuses one. */
  function PluralMatch(m: Mention, c: Mention, o: Oracles): (r: Result<bool>)
    ensures Leaves(m.tree) == [] ==> r == Failure(IndexError)
    ensures Leaves(m.tree) != [] && Leaves(m.tree)[0] !in PluralPronouns ==> r == Success(false)
    ensures Leaves(m.tree) != [] && Leaves(m.tree)[0] in PluralPronouns && Leaves(c.tree) == [] ==>
      r == Failure(IndexError)
    ensures (Leaves(m.tree) != [] && Leaves(m.tree)[0] in PluralPronouns && Leaves(c.tree) != [] &&
      Leaves(c.tree)[0] in PluralPronouns) ==> r == Success(true)
    ensures (Leaves(m.tree) != [] && Leaves(m.tree)[0] in PluralPronouns && Leaves(c.tree) != [] &&
      Leaves(c.tree)[0] !in PluralPronouns && c.nouns == []) ==> r == Success(false)
    ensures (Leaves(m.tree) != [] && Leaves(m.tree)[0] in PluralPronouns && Leaves(c.tree) != [] &&
      |c.nouns| > 0 && o.posTagAcceptsString) ==> r == Success(true)
    ensures r == Success(true) ==> Leaves(m.tree)[0] in PluralPronouns
    ensures r == Failure(TypeError) <==>
      Leaves(m.tree) != [] && Leaves(m.tree)[0] in PluralPronouns && Leaves(c.tree) != [] &&
      Leaves(c.tree)[0] !in PluralPronouns && |c.nouns| > 0 && !o.posTagAcceptsString
  {
    var ml := Leaves(m.tree);
    if ml == [] then Failure(IndexError)
    else if ml[0] in PluralPronouns then
      var cl := Leaves(c.tree);
      if cl == [] then Failure(IndexError)
      else if cl[0] in PluralPronouns then Success(true)
      else if |c.nouns| > 0 then
        if o.posTagAcceptsString then Success(true) else Failure(TypeError)
      else Success(false)
    else Success(false)
  }

  /** Python's `s[lo:hi]` on the printed chunk compared with a constant. */
  const NonEntityPrefix: string := "(u'"

  /** The mention opens with "it" in any case and the candidate has a first
      word other than "It" and "it": the case `resolve_it` hands to the
      named-entity chunker. */
  predicate ChunkerDecides(m: Mention, c: Mention)
  {
    Leaves(m.tree) != [] && Lower(Leaves(m.tree)[0]) == "it" &&
    Leaves(c.tree) != [] && Leaves(c.tree)[0] !in ["It", "it"]
  }

  /** `resolve_it`. A mention other than "it" never matches; a candidate "It"
      or "it" always does. Otherwise the first named-entity chunk decides.
      A chunk whose printed form does not start with `(u'` matches unless it
      is a PERSON chunk or the candidate's first word is a person name. A
      chunk printed with that prefix (a plain token as Python 2 prints it)
      matches when the candidate has a head noun whose first WordNet sense
      does not lie below person.n.01. */
  function ItMatch(m: Mention, c: Mention, o: Oracles): (r: Result<bool>)
    ensures Leaves(m.tree) == [] ==> r == Failure(IndexError)
    ensures Leaves(m.tree) != [] && Lower(Leaves(m.tree)[0]) != "it" ==> r == Success(false)
    ensures Leaves(m.tree) != [] && Lower(Leaves(m.tree)[0]) == "it" && Leaves(c.tree) == [] ==>
      r == Failure(IndexError)
    ensures (Leaves(m.tree) != [] && Lower(Leaves(m.tree)[0]) == "it" &&
      Leaves(c.tree) != [] && Leaves(c.tree)[0] in ["It", "it"]) ==> r == Success(true)
    ensures r == Success(true) ==>
      Leaves(m.tree) != [] && Lower(Leaves(m.tree)[0]) == "it" && Leaves(c.tree) != [] &&
      (Leaves(c.tree)[0] in ["It", "it"] || Leaves(c.tree)[0] !in PersonNames(o.names) ||
       (|c.nouns| > 0 && o.firstSenseHypernyms(c.nouns[0]).Some? &&
        "person.n.01" !in o.firstSenseHypernyms(c.nouns[0]).value))
    ensures ChunkerDecides(m, c) && o.firstChunk(Leaves(c.tree)).None? ==> r == Failure(IndexError)
    ensures (ChunkerDecides(m, c) && o.firstChunk(Leaves(c.tree)).Some? &&
      Slice(o.firstChunk(Leaves(c.tree)).value, 0, 3) != NonEntityPrefix) ==>
      r == Success(Slice(o.firstChunk(Leaves(c.tree)).value, 1, 7) != "PERSON" &&
        Leaves(c.tree)[0] !in PersonNames(o.names))
    ensures (ChunkerDecides(m, c) && o.firstChunk(Leaves(c.tree)).Some? &&
      Slice(o.firstChunk(Leaves(c.tree)).value, 0, 3) == NonEntityPrefix && c.nouns == []) ==>
      r == Success(false)
    ensures (ChunkerDecides(m, c) && o.firstChunk(Leaves(c.tree)).Some? &&
      Slice(o.firstChunk(Leaves(c.tree)).value, 0, 3) == NonEntityPrefix && c.nouns != []) ==>
      r == if o.firstSenseHypernyms(c.nouns[0]).Some?
        then Success("person.n.01" !in o.firstSenseHypernyms(c.nouns[0]).value)
        else Failure(IndexError)
    ensures r.Failure? ==> r.error == IndexError
  {
    var ml := Leaves(m.tree);
    if ml == [] then Failure(IndexError)
    else if Lower(ml[0]) != "it" then Success(false)
    else
      var cl := Leaves(c.tree);
      if cl == [] then Failure(IndexError)
      else if cl[0] in ["It", "it"] then Success(cl[0] !in NonItPronouns)
      else
        match o.firstChunk(cl)
        case None => Failure(IndexError)
        case Some(chunk) =>
          if Slice(chunk, 0, 3) != NonEntityPrefix then
            Success(Slice(chunk, 1, 7) != "PERSON" && cl[0] !in PersonNames(o.names))
          else if |c.nouns| > 0 then
            match o.firstSenseHypernyms(c.nouns[0])
            case None => Failure(IndexError)
            case Some(hypernyms) => Success("person.n.01" !in hypernyms)
          else Success(false)
  }

  /** How Python 3 and Python 2 print a plain (token, tag) pair of the
      chunker's output, for words without quote characters. */
  function Python3Pair(token: string, tag: string): string
  {
    "('" + token + "', '" + tag + "')"
  }

  function Python2Pair(token: string, tag: string): string
  {
    "(u'" + token + "', u'" + tag + "')"
  }

  /** Only the Python 2 printing of a plain pair carries the prefix that
      sends `resolve_it` to WordNet. */
  lemma PairPrefixes(token: string, tag: string)
    ensures Slice(Python2Pair(token, tag), 0, 3) == NonEntityPrefix
    ensures Slice(Python3Pair(token, tag), 0, 3) != NonEntityPrefix
  {
    assert Python2Pair(token, tag)[..3] == NonEntityPrefix;
    assert Python3Pair(token, tag)[1] == '\'';
  }

  /** When the first chunk's printed form never starts with the prefix (as
      under Python 3), the WordNet branch of `resolve_it` is dead: the result
      is the same for every WordNet. */
  lemma ItMatchIgnoresWordNet(m: Mention, c: Mention, o: Oracles, wordNet: string -> Option<seq<string>>)
    requires o.firstChunk(Leaves(c.tree)).Some? ==> Slice(o.firstChunk(Leaves(c.tree)).value, 0, 3) != NonEntityPrefix
    ensures ItMatch(m, c, o) == ItMatch(m, c, o.(firstSenseHypernyms := wordNet))
  {
  }

  /** `PronounResolver`: the clausemate veto, then the four checks, all
      evaluated in order (the first exception escapes), then their OR. */
  function PronounMatch(m: Mention, c: Mention, parsedSents: seq<ParseNode>, local: bool, o: Oracles): (r: Result<bool>)
    ensures ClausemateVeto(m, c, parsedSents, local) == Success(true) ==> r == Success(false)
    ensures ClausemateVeto(m, c, parsedSents, local) == Success(false) ==>
      (r == Success(true) <==>
        MaleMatch(c, o).Success? && FemaleMatch(c, o).Success? &&
        PluralMatch(m, c, o).Success? && ItMatch(m, c, o).Success? &&
        (MaleMatch(c, o).value || FemaleMatch(c, o).value || PluralMatch(m, c, o).value || ItMatch(m, c, o).value))
    ensures ClausemateVeto(m, c, parsedSents, local).Failure? ==> r == ClausemateVeto(m, c, parsedSents, local)
    ensures ClausemateVeto(m, c, parsedSents, local) == Success(false) && MaleMatch(c, o).Failure? ==>
      r == MaleMatch(c, o)
    ensures (ClausemateVeto(m, c, parsedSents, local) == Success(false) && MaleMatch(c, o).Success? &&
      FemaleMatch(c, o).Failure?) ==> r == FemaleMatch(c, o)
    ensures (ClausemateVeto(m, c, parsedSents, local) == Success(false) && MaleMatch(c, o).Success? &&
      FemaleMatch(c, o).Success? && PluralMatch(m, c, o).Failure?) ==> r == PluralMatch(m, c, o)
    ensures (ClausemateVeto(m, c, parsedSents, local) == Success(false) && MaleMatch(c, o).Success? &&
      FemaleMatch(c, o).Success? && PluralMatch(m, c, o).Success? && ItMatch(m, c, o).Failure?) ==>
      r == ItMatch(m, c, o)
    ensures !local && Leaves(c.tree) == [] ==> r == Failure(IndexError)
    ensures r.Failure? ==>
      ClausemateVeto(m, c, parsedSents, local).Failure? || MaleMatch(c, o).Failure? ||
      FemaleMatch(c, o).Failure? || PluralMatch(m, c, o).Failure? || ItMatch(m, c, o).Failure?
    ensures r.Failure? ==> r.error == IndexError || r.error == TypeError
  {
    var vetoed :- ClausemateVeto(m, c, parsedSents, local);
    if vetoed then Success(false)
    else
      var male :- MaleMatch(c, o);
      var female :- FemaleMatch(c, o);
      var plural :- PluralMatch(m, c, o);
      var it :- ItMatch(m, c, o);
      Success(male || female || plural || it)
  }

  /** `find_antecedent` of each matcher class. Only the pronoun matcher can
      raise TypeError, and the "one" matcher never raises. */
  function FindAntecedent(resolver: Resolver, m: Mention, c: Mention, parsedSents: seq<ParseNode>, local: bool, o: Oracles): (r: Result<bool>)
    ensures resolver == One ==> r.Success?
    ensures r.Failure? && resolver != Pronoun ==> r.error == IndexError
    ensures r.Failure? ==> r.error == IndexError || r.error == TypeError
    ensures resolver == Reflexive && r == Success(true) ==> c.i == 0 && m.treeI == c.treeI
  {
    match resolver
    case Reflexive => ReflexiveMatch(m, c, parsedSents, local)
    case Pronoun => PronounMatch(m, c, parsedSents, local, o)
    case RefDeterminer => RefDetMatch(m, c)
    case One => Success(OneMatch(m, c))
  }
}
