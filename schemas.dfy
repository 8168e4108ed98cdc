/** The `Mention` record: one noun-phrase occurrence, with the nouns found
    in its subtree when it is constructed. */
module Schemas {
  import opened Py
  import opened Trees

  /** A mention: an optional raw text (never set by the extractor), the
      subtree it stands for, the nouns of that subtree, its ordinal `i`
      within its sentence and its sentence's index `treeI`. The extractor
      numbers both from 1. */
  datatype Mention = Mention(raw: Option<string>, tree: ParseNode, nouns: seq<string>, i: int, treeI: int)

  /** Common-noun labels: singular and plural, but not the proper-noun tags. */
  predicate IsNounNode(t: ParseNode)
  {
    t.tag == "NN" || t.tag == "NNS"
  }

  /** One iteration of the noun loop: a common-noun node contributes its first
      token, and raises IndexError when it has none. */
  function NounStep(t: ParseNode): Result<seq<string>>
  {
    if IsNounNode(t) then
      var leaves := Leaves(t);
      if leaves == [] then Failure(IndexError) else Success([leaves[0]])
    else Success([])
  }

  /** What the noun loop over `t.subtrees()` returns or raises. */
  function NounsOf(t: ParseNode): Result<seq<string>>
  {
    ConcatMap(Subtrees(t), NounStep)
  }

  /** `Mention.get_nouns`: the first token of every NN/NNS subtree, in
      pre-order. */
  method GetNouns(tree: ParseNode) returns (r: Result<seq<string>>)
    ensures r == NounsOf(tree)
  {
    var subtrees := Subtrees(tree);
    var nounLevelList: seq<string> := [];
    for k := 0 to |subtrees|
      invariant ConcatMap(subtrees[..k], NounStep) == Success(nounLevelList)
    {
      ConcatMapStep(subtrees, k, NounStep);
      var subtree := subtrees[k];
      if subtree.tag in ["NN", "NNS"] {
        var leaves := Leaves(subtree);
        if leaves == [] {
          ConcatMapFailureSticks(subtrees, k + 1, NounStep);
          return Failure(IndexError);
        }
        assert NounStep(subtree) == Success([leaves[0]]);
        nounLevelList := nounLevelList + [leaves[0]];
      } else {
        assert NounStep(subtree) == Success([]);
        assert nounLevelList + [] == nounLevelList;
      }
    }
    assert subtrees[..|subtrees|] == subtrees;
    return Success(nounLevelList);
  }

  /** The noun loop completes exactly when every NN/NNS node has a token. */
  lemma NounsOfSucceeds(t: ParseNode)
    ensures NounsOf(t).Success? <==>
      forall k :: 0 <= k < |Subtrees(t)| && IsNounNode(Subtrees(t)[k]) ==> Leaves(Subtrees(t)[k]) != []
  {
    var subs := Subtrees(t);
    ConcatMapSucceeds(subs, NounStep);
    if forall k :: 0 <= k < |subs| && IsNounNode(subs[k]) ==> Leaves(subs[k]) != [] {
      forall k | 0 <= k < |subs| ensures NounStep(subs[k]).Success? {
      }
    } else {
      var k :| 0 <= k < |subs| && IsNounNode(subs[k]) && Leaves(subs[k]) == [];
      assert NounStep(subs[k]).Failure?;
      assert Subtrees(t)[k] == subs[k];
      assert !(forall j :: 0 <= j < |Subtrees(t)| && IsNounNode(Subtrees(t)[j]) ==> Leaves(Subtrees(t)[j]) != []);
    }
  }

  /** The only exception the noun loop raises is IndexError. */
  lemma NounsOfFailsWithIndexError(t: ParseNode)
    ensures NounsOf(t).Failure? ==> NounsOf(t).error == IndexError
  {
    if NounsOf(t).Failure? {
      ConcatMapFailureWitness(Subtrees(t), NounStep);
    }
  }

  /** The nouns are the first tokens of the NN/NNS nodes, one per node, in
      the order the nodes occur. */
  lemma {:induction false} NounsAreFirstTokens(subs: seq<ParseNode>)
    requires ConcatMap(subs, NounStep).Success?
    ensures |ConcatMap(subs, NounStep).value| == |Filter(subs, IsNounNode)|
    ensures forall k :: 0 <= k < |Filter(subs, IsNounNode)| ==>
      Leaves(Filter(subs, IsNounNode)[k]) != [] &&
      ConcatMap(subs, NounStep).value[k] == Leaves(Filter(subs, IsNounNode)[k])[0]
    decreases |subs|
  {
    if subs != [] {
      var init, last := subs[..|subs| - 1], subs[|subs| - 1];
      NounsAreFirstTokens(init);
      assert subs == init + [last];
      FilterAppend(init, [last], IsNounNode);
      assert Filter([last], IsNounNode) == if IsNounNode(last) then [last] else [];
      var prev := ConcatMap(init, NounStep).value;
      var here := NounStep(last).value;
      assert ConcatMap(subs, NounStep).value == prev + here;
      var nodes := Filter(init, IsNounNode);
      if IsNounNode(last) {
        var all := Filter(subs, IsNounNode);
        assert all == nodes + [last];
        assert here == [Leaves(last)[0]];
        forall k | 0 <= k < |all|
          ensures Leaves(all[k]) != [] && (prev + here)[k] == Leaves(all[k])[0]
        {
          if k < |nodes| {
            assert all[k] == nodes[k] && (prev + here)[k] == prev[k];
          }
        }
      } else {
        assert Filter(subs, IsNounNode) == nodes;
        assert here == [];
        assert prev + here == prev;
      }
    }
  }

  /** A node that is not NN/NNS, such as a proper noun (NNP, NNPS), adds
      nothing wherever it stands. */
  lemma NonNounNodeAddsNothing(a: seq<ParseNode>, p: ParseNode, b: seq<ParseNode>)
    requires !IsNounNode(p)
    ensures ConcatMap(a + [p] + b, NounStep) == ConcatMap(a + b, NounStep)
  {
    ConcatMapAppend(a + [p], b, NounStep);
    ConcatMapAppend(a, [p], NounStep);
    ConcatMapAppend(a, b, NounStep);
    assert [p][..0] == [];
    match ConcatMap(a, NounStep)
    case Failure(_) =>
    case Success(x) => assert x + [] == x;
  }

  /** What constructing `Mention(raw, tree, i, tree_i)` yields: the nouns are
      computed from the tree at once, so a missing tree (or a bare token) has
      no `subtrees` and raises AttributeError. */
  function MentionOf(raw: Option<string>, tree: Option<Tree>, i: int, treeI: int): Result<Mention>
  {
    match tree
    case None => Failure(AttributeError)
    case Some(t) =>
      if t.Leaf? then Failure(AttributeError)
      else
        var nouns :- NounsOf(t);
        Success(Mention(raw, t, nouns, i, treeI))
  }

  /** `Mention.__init__`. */
  method NewMention(raw: Option<string>, tree: Option<Tree>, i: int, treeI: int) returns (r: Result<Mention>)
    ensures r == MentionOf(raw, tree, i, treeI)
    ensures tree.None? ==> r == Failure(AttributeError)
    ensures r.Success? ==> r.value.tree == tree.value && r.value.i == i && r.value.treeI == treeI
    ensures r.Success? ==> NounsOf(r.value.tree) == Success(r.value.nouns)
  {
    if tree.None? || tree.value.Leaf? {
      return Failure(AttributeError);
    }
    var nouns :- GetNouns(tree.value);
    return Success(Mention(raw, tree.value, nouns, i, treeI));
  }

  /** The nouns depend on the tree alone: `raw`, `i` and `tree_i` neither
      change them nor decide whether construction succeeds. */
  lemma NounsDependOnTreeOnly(t: Tree, raw1: Option<string>, raw2: Option<string>, i1: int, i2: int, j1: int, j2: int)
    ensures MentionOf(raw1, Some(t), i1, j1).Success? <==> MentionOf(raw2, Some(t), i2, j2).Success?
    ensures MentionOf(raw1, Some(t), i1, j1).Success? ==>
      MentionOf(raw1, Some(t), i1, j1).value.nouns == MentionOf(raw2, Some(t), i2, j2).value.nouns
  {
  }
}
