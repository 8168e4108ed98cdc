/** An nltk parse tree: a labelled node over an ordered list of children,
    each either a tree or a bare token string. */
module Trees {

  datatype Tree = Node(tag: string, children: seq<Tree>) | Leaf(token: string)

  /** A tree object, as opposed to a bare token: what `label()`,
      `subtrees()` and `leaves()` can be called on. */
  type ParseNode = t: Tree | t.Node? witness Node("", [])

  /** `t.subtrees()`: every tree node in pre-order, `t` itself first; bare
      tokens are not subtrees. */
  function Subtrees(t: Tree): (r: seq<ParseNode>)
    ensures t.Leaf? ==> r == []
    ensures t.Node? ==> |r| > 0 && r[0] == t
    decreases t, 1
  {
    match t
    case Leaf(_) => []
    case Node(_, children) => [t] + SubtreesOfChildren(children)
  }

  function SubtreesOfChildren(ts: seq<Tree>): seq<ParseNode>
    decreases ts, 0
  {
    if ts == [] then [] else Subtrees(ts[0]) + SubtreesOfChildren(ts[1..])
  }

  /** `t.leaves()`: the tokens, left to right. */
  function Leaves(t: Tree): seq<string>
    decreases t, 1
  {
    match t
    case Leaf(token) => [token]
    case Node(_, children) => LeavesOfChildren(children)
  }

  function LeavesOfChildren(ts: seq<Tree>): seq<string>
    decreases ts, 0
  {
    if ts == [] then [] else Leaves(ts[0]) + LeavesOfChildren(ts[1..])
  }

  /** `block` occurs in `s` as a contiguous run starting at position `k`. */
  predicate BlockAt<T(==)>(s: seq<T>, k: nat, block: seq<T>)
  {
    k + |block| <= |s| && forall i :: 0 <= i < |block| ==> s[k + i] == block[i]
  }

  lemma BlockBefore<T>(a: seq<T>, b: seq<T>, k: nat, block: seq<T>)
    requires BlockAt(a, k, block)
    ensures BlockAt(a + b, k, block)
  {
    forall i | 0 <= i < |block|
      ensures (a + b)[k + i] == block[i]
    {
      assert (a + b)[k + i] == a[k + i];
    }
  }

  lemma BlockAfter<T>(a: seq<T>, b: seq<T>, k: nat, block: seq<T>)
    requires BlockAt(b, k, block)
    ensures BlockAt(a + b, |a| + k, block)
  {
    forall i | 0 <= i < |block|
      ensures (a + b)[|a| + k + i] == block[i]
    {
      assert (a + b)[|a| + k + i] == b[k + i];
    }
  }

  /** The subtrees of any subtree `s` of `t` form one contiguous block of
      `t.subtrees()`, starting at position `k`. */
  lemma {:induction false} SubtreesBlock(t: Tree, s: Tree) returns (k: nat)
    requires s in Subtrees(t)
    ensures BlockAt(Subtrees(t), k, Subtrees(s))
    decreases t, 1
  {
    match t
    case Node(_, children) =>
      if s == t {
        k := 0;
        assert BlockAt(Subtrees(t), k, Subtrees(s));
      } else {
        var j := SubtreesOfChildrenBlock(children, s);
        BlockAfter([t], SubtreesOfChildren(children), j, Subtrees(s));
        k := j + 1;
      }
  }

  lemma {:induction false} SubtreesOfChildrenBlock(ts: seq<Tree>, s: Tree) returns (k: nat)
    requires s in SubtreesOfChildren(ts)
    ensures BlockAt(SubtreesOfChildren(ts), k, Subtrees(s))
    decreases ts, 0
  {
    var first, rest := Subtrees(ts[0]), SubtreesOfChildren(ts[1..]);
    assert SubtreesOfChildren(ts) == first + rest;
    if s in first {
      k := SubtreesBlock(ts[0], s);
      BlockBefore(first, rest, k, Subtrees(s));
    } else {
      var j := SubtreesOfChildrenBlock(ts[1..], s);
      BlockAfter(first, rest, j, Subtrees(s));
      k := |first| + j;
    }
  }
}
