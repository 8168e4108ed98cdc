# A verified model of an nltk coreference resolver

This project models the deterministic core of a small rule-based coreference
resolver built on nltk. The core starts from one parse tree per sentence and
does four things:

- it extracts the noun-phrase mentions of each sentence (`get_sent_nps`,
  `_filter_sent_nps`, `create_doc_mentions`, `Mention.get_nouns`);
- it pairs every mention with earlier candidate mentions
  (`resolve_coreferences`);
- for each pair it runs four matchers in a fixed order: reflexive, pronoun,
  referential determiner, "one" (`_match_antecedent`);
- the matchers consult fixed word lists (`words.py`).

The model follows the code as written, including its exceptions. Python
exceptions become a `Failure` value of a `Result` datatype, carrying
`TypeError`, `IndexError` or `AttributeError`. Loops that append to a list
become methods. Each such method is proved equal to a specification function.
The specification functions are built from one generic fold, `Py.ConcatMap`,
which stops at the first failure. The properties of the code are then proved
as lemmas about those functions.

Modules:

- `Py` (py.dfy, for the Python built-ins the code relies on): the Python semantics used by the code:
  - `Result`;
  - list indexing with negative indices;
  - clamped slices and `str.lower`;
  - list comprehensions (`Filter`);
  - accumulate-in-a-loop (`ConcatMap`), with their lemmas.
- `Trees` (trees.dfy, for nltk's `Tree` class): an nltk `Tree`:
  - `subtrees()` gives the tree nodes in pre-order, the node itself first;
  - `leaves()` gives the tokens in order;
  - equality is structural, as nltk's `Tree.__eq__`.
- `Words` (words.dfy, modelling words.py): the literal word lists and their concatenations. The
  names corpus is a pair of abstract sets.
- `Schemas` (schemas.dfy, modelling schemas.py): the `Mention` record and its noun loop.
- `Matchers` (matchers.dfy, modelling matchers.py): the four matchers. The nltk services they call are
  fields of an `Oracles` value:
  - `pos_tag`;
  - the `ne_chunk` pipeline;
  - WordNet's first sense with its hypernym paths;
  - the names corpus.
- `Coref` (coref.dfy, modelling coref.py): the noun-phrase collection and its filter, mention
  creation, `_match_antecedent`, and the resolution loop.

What the code does, as proved here:

- **The window test is never true.** `range(tree_i - 2, tree_i)` excludes
  `tree_i`, so no mention has a candidate. `resolve_coreferences` therefore
  never returns a pair. It raises exactly when building the mentions raises.
- **The embedded-NP filter never filters.** When a phrase's words are a prefix
  of the words of the phrase just before it, the filter compares an int with a
  list, which raises `TypeError` in Python 3. Otherwise every phrase is kept.
  Its result is discarded anyway. Since PRP$ nodes are collected too, any
  noun phrase that opens with a possessive, such as "his dog", makes the
  collection raise.
- **A reflexive never matches a candidate from the document.** The matcher
  needs `candidate.i == 0`, but mention ordinals start at 1.
- **The sentence lookup is off by one.** The reflexive matcher and the veto
  index `parsed_sents` with the 1-based `tree_i` (matchers.py:73, 90). For a
  local pair in sentence k of n, with k < n, they search sentence k + 1. In
  the last sentence they raise IndexError, so a one-sentence text such as
  "John hurt himself." would raise instead of matching, if such a pair were
  tried.
- **The "no nested S" veto test excludes nothing.** It compares a tree with a
  string.
- **The gender checks read only the candidate.** They consult the noun
  gazetteer only for "NN" nodes, and only when the candidate is not tagged
  entirely NNP.
- **The plural test is a generator object, so it is always true.** Building the
  generator runs `pos_tag` on a bare string. The model carries an oracle flag
  for taggers that reject a bare string with `TypeError`.

Modelling assumption: a `Mention` has no `leaves()` or `subtrees()` method. The
matchers call `mention.leaves()`, `candidate.leaves()` and
`get_nouns(mention)` (matchers.py:43, 54-55, 71, 111, 128, 159-169). The model
reads these as `mention.tree.leaves()` and `mention.tree.subtrees()`.

Where the code's own docstrings and comments promise more than the code
does, the model follows the code:

- the candidate window. `SEARCH_RANGE = 2` (coref.py:38) and the class
  docstring (coref.py:42-45) describe a search for antecedents in nearby
  sentences. The test at coref.py:64 admits no candidate at all.
- the embedded-NP filter. Its docstring (coref.py:112-113) says it excludes
  the embedded phrase. The code raises or keeps everything, and
  `get_sent_nps` discards its result (coref.py:107).
- the plural check. The expression at matchers.py:150 reads as a test of the
  head noun's tags, but it lacks `any(...)`. It is a generator object, which
  is always true.
- the one-substitution example. In the docstring at matchers.py:33, the
  later phrase "The big one" refers back. The code requires the "the ... one"
  phrase to be the candidate, that is the earlier mention (matchers.py:34-37).
- the chunk prefix test. The comment at matchers.py:166 says non-entity
  chunks print with the prefix `(u`. That is how Python 2 prints a plain
  (token, tag) pair; Python 3 prints `('dog', 'NN')`. Under Python 3 the
  WordNet branch (matchers.py:173-182) is never reached. The model keeps
  the branch and proves that, without the prefix, WordNet does not matter
  (`Matchers.ItMatchIgnoresWordNet`).

## Model

| member | source | states |
|---|---|---|
| Words.PersonNames | words.py:11-14 | `person_names` holds exactly the words that are in the male or the female name list |
| Words.ProFormsLayout | words.py:24 | `pro_forms` is `pronouns`, then `poss_pronouns`, then `reflexives`, 21 entries; "his" and "its" each occur twice |
| Words.GenderedPronounsDisjoint | words.py:17-19 | the male and female pronoun lists are disjoint and both are contained in `pronouns` |
| Words.ItIsNotNonIt | words.py:20 | neither "it" nor "It" is in `non_it_pronouns` |
| Words.PluralAndReflexivePronouns | words.py:17-23 | plural pronouns are pronouns; no reflexive is a pronoun |
| Words.PersonNounsAreGendered | words.py:29-35 | a word is a person noun exactly when it is in the male or the female noun list |
| Schemas.GetNouns | schemas.py:21-27 | the noun loop returns what `NounsOf` specifies: the first token of each NN/NNS subtree, or IndexError |
| Schemas.NounsOfSucceeds | schemas.py:24-26 | the noun loop completes exactly when every NN/NNS subtree has a token |
| Schemas.NounsOfFailsWithIndexError | schemas.py:26 | the only exception the noun loop raises is IndexError |
| Schemas.NounsAreFirstTokens | schemas.py:21-27 | there is one noun per NN/NNS node, in pre-order, and each is that node's first token |
| Schemas.NonNounNodeAddsNothing | schemas.py:25 | a node not labelled NN/NNS (such as NNP, NNPS) can be removed without changing the nouns |
| Schemas.NewMention | schemas.py:13-19 | a missing tree or a bare token raises AttributeError; otherwise the record carries the tree, `i`, `tree_i` and the tree's nouns, or the noun loop's exception |
| Schemas.NounsDependOnTreeOnly | schemas.py:14-19 | `raw`, `i` and `tree_i` change neither whether construction succeeds nor the nouns |
| Matchers.OneMatch | matchers.py:30-47 | a match needs at least 3 candidate words, a first word "the" in any case, and a word "one"/"ones"; then every candidate word other than "the"/"one"/"ones" must occur among the mention's words |
| Matchers.OneCapitalTheMustAppear | matchers.py:39-44 | stripping is case-sensitive: a candidate starting with "The" matches only a mention containing "The" |
| Matchers.RefDetMatch | matchers.py:50-65 | true exactly when the mention has a noun, its words after the first all occur in the candidate and the first nouns agree; IndexError exactly when the first two hold and the candidate has no noun |
| Matchers.VetoClauseIsAnyS | matchers.py:92 | the clause test of the veto holds for every node labelled "S" |
| Matchers.ReflexiveMatch | matchers.py:68-82 | false unless the first word is a reflexive and the pair is local; then, for a sentence number within `parsed_sents`, true exactly when an "S" node of `parsed_sents[tree_i]` contains both trees, `candidate.i == 0` and the `tree_i` agree; a sentence number past the end raises IndexError |
| Matchers.ClausemateVeto | matchers.py:88-94 | for a local pair with `tree_i` inside `parsed_sents`, the veto holds exactly when an "S" node of `parsed_sents[tree_i]` contains both trees; for a local pair with `tree_i` past the end it raises IndexError; never for a non-local pair |
| Matchers.GazetteerNoun | matchers.py:119-121 | when every NN node has a token, the result is whether some NN node's first token is in the gazetteer; only NN nodes count; IndexError only for an NN node without tokens |
| Matchers.GenderMatch | matchers.py:109-139 | reads only the candidate: a pronoun of the gender matches; an all-NNP candidate matches exactly when its first word is a name of the gender, without the gazetteer; otherwise the gazetteer decides for a candidate with nouns |
| Matchers.MaleMatch | matchers.py:109-123 | a candidate without words raises IndexError; a male pronoun matches; an all-NNP candidate matches exactly when its first word is a male name; otherwise a candidate with nouns matches exactly when the male gazetteer search succeeds, and one without nouns does not |
| Matchers.FemaleMatch | matchers.py:126-139 | the same as the male check, with the female pronouns, names and gazetteer |
| Matchers.PluralMatch | matchers.py:142-154 | false unless the mention starts with "they"/"them"; then a candidate without words raises IndexError, a plural-pronoun candidate matches, a candidate with nouns matches whenever the tagger accepts a string and raises TypeError exactly when it does not, and any other candidate does not match |
| Matchers.ItMatch | matchers.py:157-184 | false unless the mention starts with "it" in any case; a candidate starting with "It"/"it" always matches; otherwise no chunk raises IndexError, a chunk printed without the `(u'` prefix matches exactly when it is not a PERSON chunk and the first word is not a person name, and a prefixed chunk matches exactly when the head noun's first WordNet sense lies outside person.n.01 (false without nouns, IndexError without a sense) |
| Matchers.PairPrefixes | matchers.py:165-166 | a plain pair printed by Python 2 starts with `(u'`; printed by Python 3 it does not |
| Matchers.ItMatchIgnoresWordNet | matchers.py:165-182 | when the chunk's printed form lacks the `(u'` prefix, the result is the same for every WordNet |
| Matchers.PronounMatch | matchers.py:85-106 | a veto gives false; without a veto, true exactly when all four checks complete and one of them holds; the veto's exception escapes, and then the first exception of the male, female, plural and "it" checks, in that order; it raises only when the veto or one of the checks raises |
| Matchers.FindAntecedent | coref.py:83-84 | the "one" matcher never raises; only the pronoun matcher can raise TypeError, every other failure is IndexError; a reflexive match needs `candidate.i == 0` and equal `tree_i` |
| Coref.FilterSentNps | coref.py:110-133 | TypeError exactly when some phrase's words are a prefix of the preceding phrase's words; otherwise the output equals the input |
| Coref.GetSentNps | coref.py:97-108 | returns the NP/PRP$ subtrees in pre-order, unfiltered, unless the filter raises |
| Coref.SentNpsMembers | coref.py:100-105 | the phrases returned are exactly the NP/PRP$ nodes of the tree |
| Coref.EmbeddedNpRaises | coref.py:124-126 | any sentence with a noun phrase whose first child is an NP or PRP$ node (as in "his dog") makes the filter raise TypeError |
| Coref.SentenceMentionLoop | coref.py:142-146 | the inner loop builds one mention per phrase with ordinals from 1, or raises the first construction error |
| Coref.CreateDocMentions | coref.py:135-148 | the loops return what `DocMentions` specifies: the mentions of every sentence in order, sentence numbers from 1 |
| Coref.SentenceMentionsNumbered | coref.py:141-146 | a sentence's mentions are its phrases in order, with `i` = 1..k, its sentence number and the phrases' nouns |
| Coref.DocMentionsCount | coref.py:136-148 | the number of mentions is the sum of the sentences' phrase counts |
| Coref.DocMentionsPlaced | coref.py:139-147 | every mention is phrase `i` of sentence `tree_i`, both counted from 1 |
| Coref.DocMentionsOrdered | coref.py:136-148 | the mentions are in document order: by sentence, then by ordinal |
| Coref.ReflexiveNeverFires | matchers.py:76 | the reflexive matcher never returns true for a candidate built by `create_doc_mentions` |
| Coref.MatchAntecedent | coref.py:77-87 | the loop returns what `MatchSpec` specifies: one pair per matcher that fires, or the first exception |
| Coref.MatchSpecUnrolled | coref.py:30-35 | all four matchers run in the order reflexive, pronoun, referential determiner, one, with no early exit, and `local` is `tree_i` equality |
| Coref.MatchSpecPairs | coref.py:83-87 | the result has at most four entries, each the given pair |
| Coref.CandidateLoop | coref.py:66-72 | the candidate loop appends the non-empty pair lists of `_match_antecedent`, skipping the mention itself, or raises the first exception |
| Coref.ResolveCoreferences | coref.py:49-74 | the resolution loops return what `ResolveSpec` specifies |
| Coref.WindowNeverHolds | coref.py:64 | `tree_i in range(tree_i - 2, tree_i)` is false |
| Coref.CandidatesAreEarlier | coref.py:60-63 | whatever condition filters them, candidates are strictly earlier mentions at their own positions, so never the mention itself |
| Coref.NoCandidates | coref.py:62-65 | no mention has a candidate |
| Coref.NoCorefPairs | coref.py:58-74 | resolution raises exactly when mention creation raises, and otherwise returns no pair |

## Left out

- `parser.py` is not part of this model. It runs an external parser and draws trees. The model starts from the parsed trees.
- `Document` (schemas.py:6-10) is left out. It does sentence splitting and parsing. `resolve_coreferences` is modelled from `doc.parsed_sents` on and does not return the document object.
- The internals of `pos_tag`, `word_tokenize`, `ne_chunk`, WordNet and the names corpus are left out. They are parameters.
- The `ne_chunk` pipeline is represented by the printed form of its first chunk, `None` when there is none. The `[0:3]` and `[1:7]` slices of that string are modelled. The Python version that prints the chunk is not fixed. Under Python 3 no printed chunk has the `(u'` prefix, so the WordNet branch of `resolve_it` is dead there; the model keeps that branch for any printed form.
- The `nltk.download` calls and all logging are side effects and are left out.
- `pool_coreferences` is an empty stub and is left out.
- `convert_leaf_encodings` is byte encoding and is never called, so it is left out.
- `ResolverAbstract.get_nouns` (matchers.py:20-27) is the same loop as `Mention.get_nouns`. Both are modelled by `Schemas.GetNouns`, which is proved to compute the function `Schemas.NounsOf`; `Matchers.RefDetMatch` calls `NounsOf` directly, because a function cannot call a method.
- The `break` at coref.py:127-129 is unreachable, because line 126 raises first. The `pos_tag` call there is never made.
- `Py.Lower` lowers ASCII letters only. Every word it is compared with is ASCII.
- Object identity is not modelled. Mentions are identified by their position in the mention list, which is what `list.index` and `!=` see for distinct objects.
