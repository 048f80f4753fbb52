/**
 The widget class hierarchy of viewres: nodes are the slots of one array and name each other by position, -1 standing
 for a null pointer.  Superclass links come from the toolkit; the child and sibling links are derived from them.
 */
module Hierarchy {
  const NULL := -1

  /** superclass, children and siblings hold a position or NULL; depth counts the superclasses above a node;
      displayed says which nodes have a toggle of their own on the screen. */
  datatype Tree = Tree(superclass: seq<int>, children: seq<int>, siblings: seq<int>, depth: seq<nat>,
                       displayed: seq<bool>)

  /** The first position from on whose superclass is p, or NULL. */
  function NextChild(superclass: seq<int>, p: int, from: nat): (c: int)
    ensures c == NULL || (from <= c < |superclass| && superclass[c] == p)
    ensures forall d :: from <= d < (if c == NULL then |superclass| else c) ==> superclass[d] != p
    decreases |superclass| - from
  {
    if from >= |superclass| then NULL
    else if superclass[from] == p then from
    else NextChild(superclass, p, from + 1)
  }

  predicate IsHierarchy(superclass: seq<int>, depth: seq<nat>) {
    && |depth| == |superclass|
    && (forall c :: 0 <= c < |depth| ==> depth[c] < |superclass|)
    && forall c :: 0 <= c < |superclass| ==>
        && NULL <= superclass[c] < |superclass|
        && (superclass[c] != NULL ==> depth[c] == depth[superclass[c]] + 1)
  }

  function SiblingOf(superclass: seq<int>, c: nat): int
    requires c < |superclass|
  {
    if superclass[c] == NULL then NULL else NextChild(superclass, superclass[c], c + 1)
  }

  /** The links are those of a class hierarchy, with every node's subclasses listed in the order of the array. */
  predicate IsTree(t: Tree) {
    && IsHierarchy(t.superclass, t.depth)
    && |t.superclass| == |t.children| == |t.siblings| == |t.displayed|
    && (forall c :: 0 <= c < |t.children| ==> t.children[c] == NextChild(t.superclass, c, 0))
    && forall c :: 0 <= c < |t.siblings| ==> t.siblings[c] == SiblingOf(t.superclass, c)
  }

  lemma NextChildStep(superclass: seq<int>, i: nat)
    requires i <= |superclass|
    ensures i == |superclass| ==> forall p: int :: NextChild(superclass, p, i) == NULL
    ensures i < |superclass| ==> forall p: int ::
      NextChild(superclass, p, i) == if superclass[i] == p then i else NextChild(superclass, p, i + 1)
  {
  }

  /** The walk over the array, backwards, that puts every node in front of its superclass's children. */
  method LinkNodes(superclass: seq<int>) returns (children: seq<int>, siblings: seq<int>)
    requires forall c :: 0 <= c < |superclass| ==> NULL <= superclass[c] < |superclass|
    ensures |children| == |siblings| == |superclass|
    ensures forall c :: 0 <= c < |superclass| ==> children[c] == NextChild(superclass, c, 0)
    ensures forall c :: 0 <= c < |superclass| ==> siblings[c] == SiblingOf(superclass, c)
  {
    hide NextChild;
    var n := |superclass|;
    children, siblings := seq(n, c => NULL), seq(n, c => NULL);
    var i := n - 1;
    NextChildStep(superclass, n);
    while i >= 0
      invariant -1 <= i < n && |children| == |siblings| == n
      invariant forall c :: 0 <= c < n ==> children[c] == NextChild(superclass, c, i + 1)
      invariant forall c :: 0 <= c <= i ==> siblings[c] == NULL
      invariant forall c :: i < c < n ==> siblings[c] == SiblingOf(superclass, c)
    {
      NextChildStep(superclass, i);
      var s := superclass[i];
      if s != NULL {
        siblings := siblings[i := children[s]];
        children := children[s := i];
      }
      i := i - 1;
    }
  }

  function Size(t: Tree): nat {
    |t.superclass|
  }

  predicate IsNode(t: Tree, c: int) {
    0 <= c < Size(t)
  }

  /** a is a superclass of c, however far up. */
  predicate Above(t: Tree, a: int, c: int)
    requires IsTree(t) && IsNode(t, c)
    decreases t.depth[c]
  {
    var s := t.superclass[c];
    s != NULL && (s == a || Above(t, a, s))
  }

  /** The subclass of a that is x or above x. */
  function Branch(t: Tree, a: int, x: int): (b: int)
    requires IsTree(t) && IsNode(t, x) && Above(t, a, x)
    ensures IsNode(t, b) && t.superclass[b] == a
    decreases t.depth[x]
  {
    if t.superclass[x] == a then x else Branch(t, a, t.superclass[x])
  }

  lemma {:induction false} AboveIsDeeper(t: Tree, a: int, c: int)
    requires IsTree(t) && IsNode(t, c) && Above(t, a, c)
    ensures IsNode(t, a) && t.depth[a] < t.depth[c]
    decreases t.depth[c]
  {
    if t.superclass[c] != a {
      AboveIsDeeper(t, a, t.superclass[c]);
    }
  }

  lemma {:induction false} AboveTransitive(t: Tree, a: int, b: int, c: int)
    requires IsTree(t) && IsNode(t, b) && IsNode(t, c) && Above(t, a, b) && Above(t, b, c)
    ensures Above(t, a, c)
    decreases t.depth[c]
  {
    if t.superclass[c] != b {
      AboveTransitive(t, a, b, t.superclass[c]);
    }
  }

  lemma {:induction false} BranchIs(t: Tree, a: int, d: int, x: int)
    requires IsTree(t) && IsNode(t, x) && IsNode(t, d) && t.superclass[d] == a && a != NULL
    ensures x == d || Above(t, d, x) <==> Above(t, a, x) && Branch(t, a, x) == d
    decreases t.depth[x]
  {
    var s := t.superclass[x];
    if x == d || s == NULL {
    } else if s == a {
      if Above(t, d, x) {
        AboveIsDeeper(t, d, x);
      }
    } else {
      BranchIs(t, a, d, s);
    }
  }

  /** The nodes of the subtree of c in the order the recursive walk visits them. */
  function Subtree(t: Tree, c: int): seq<int>
    requires IsTree(t) && IsNode(t, c)
    decreases Size(t) - t.depth[c], Size(t) + 1
  {
    [c] + Kids(t, c, 0)
  }

  /** The subtrees of the subclasses of p from position from on. */
  function Kids(t: Tree, p: int, from: nat): seq<int>
    requires IsTree(t) && IsNode(t, p) && from <= Size(t)
    decreases Size(t) - t.depth[p], Size(t) - from
  {
    var c := NextChild(t.superclass, p, from);
    if c == NULL then [] else Subtree(t, c) + Kids(t, p, c + 1)
  }

  /** The walk visits a node and everything below it. */
  lemma {:induction false} SubtreeIsBelow(t: Tree, c: int, x: int)
    requires IsTree(t) && IsNode(t, c) && IsNode(t, x)
    ensures x in Subtree(t, c) <==> x == c || Above(t, c, x)
    decreases Size(t) - t.depth[c], Size(t) + 1
  {
    KidsAreBelow(t, c, 0, x);
  }

  lemma {:induction false} KidsAreBelow(t: Tree, p: int, from: nat, x: int)
    requires IsTree(t) && IsNode(t, p) && IsNode(t, x) && from <= Size(t)
    ensures x in Kids(t, p, from) <==> Above(t, p, x) && Branch(t, p, x) >= from
    decreases Size(t) - t.depth[p], Size(t) - from
  {
    var c := NextChild(t.superclass, p, from);
    if c != NULL {
      SubtreeIsBelow(t, c, x);
      KidsAreBelow(t, p, c + 1, x);
      BranchIs(t, p, c, x);
    }
  }

  lemma {:induction false} SubtreeNodes(t: Tree, c: int, i: nat)
    requires IsTree(t) && IsNode(t, c) && i < |Subtree(t, c)|
    ensures IsNode(t, Subtree(t, c)[i])
    decreases Size(t) - t.depth[c], Size(t) + 1
  {
    if i > 0 {
      KidsNodes(t, c, 0, i - 1);
    }
  }

  lemma {:induction false} KidsNodes(t: Tree, p: int, from: nat, i: nat)
    requires IsTree(t) && IsNode(t, p) && from <= Size(t) && i < |Kids(t, p, from)|
    ensures IsNode(t, Kids(t, p, from)[i])
    decreases Size(t) - t.depth[p], Size(t) - from
  {
    var c := NextChild(t.superclass, p, from);
    if c != NULL {
      var first := Subtree(t, c);
      if i < |first| {
        SubtreeNodes(t, c, i);
      } else {
        KidsNodes(t, p, c + 1, i - |first|);
      }
    }
  }
}
