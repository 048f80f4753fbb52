/**
 viewres's selected list as the program keeps it: a growing array of nodes and, in every node, its position in that
 array or -1, both changed in place.
 */
module SelectionList {
  import opened Common
  import opened Hierarchy
  import opened Selection

  const INITIAL_SIZE := 10

  /** The entries of s that are nodes, in order. */
  ghost function Packed(s: seq<int>): (r: seq<int>)
    ensures |r| <= |s|
  {
    if |s| == 0 then []
    else if s[|s| - 1] == NULL then Packed(s[..|s| - 1])
    else Packed(s[..|s| - 1]) + [s[|s| - 1]]
  }

  lemma {:induction false} PackedSplit(a: seq<int>, b: seq<int>)
    ensures Packed(a + b) == Packed(a) + Packed(b)
  {
    if |b| == 0 {
      assert a + b == a;
    } else {
      PackedSplit(a, b[..|b| - 1]);
      assert (a + b)[..|a + b| - 1] == a + b[..|b| - 1];
    }
  }

  lemma {:induction false} PackedFull(a: seq<int>)
    requires NULL !in a
    ensures Packed(a) == a
  {
    if |a| > 0 {
      PackedFull(a[..|a| - 1]);
    }
  }

  lemma {:induction false} PackedEmpty(a: seq<int>)
    requires forall i :: 0 <= i < |a| ==> a[i] == NULL
    ensures Packed(a) == []
  {
    if |a| > 0 {
      PackedEmpty(a[..|a| - 1]);
    }
  }

  /** Packing away the k holes from position i on. */
  lemma PackedHoles(a: seq<int>, i: nat, k: nat, s: seq<int>)
    requires i + k <= |s| == |a| && NULL !in s
    requires a[..i] == s[..i] && a[i + k..] == s[i + k..]
    requires forall j :: i <= j < i + k ==> a[j] == NULL
    ensures Packed(a) == s[..i] + s[i + k..]
  {
    hide Packed;
    var front, holes, back := a[..i], a[i..i + k], a[i + k..];
    assert a == front + holes + back;
    PackedSplit(front + holes, back);
    PackedSplit(front, holes);
    PackedFull(front);
    PackedEmpty(holes);
    PackedFull(back);
  }

  /** Every node's index is its position in s or -1; s may have holes. */
  ghost predicate Linked(t: Tree, index: seq<int>, s: seq<int>) {
    && |index| == Size(t)
    && (forall i :: 0 <= i < |s| && s[i] != NULL ==> IsNode(t, s[i]) && index[s[i]] == i)
    && forall c :: 0 <= c < |index| ==> index[c] == -1 || (0 <= index[c] < |s| && s[index[c]] == c)
  }

  /** The selection and the back pointers agree. */
  ghost predicate Indexed(t: Tree, index: seq<int>, s: seq<int>)
    requires IsTree(t)
  {
    Linked(t, index, s) && IsSelection(t, s)
  }

  lemma LinkedAdd(t: Tree, index: seq<int>, s: seq<int>, c: int)
    requires IsTree(t) && Indexed(t, index, s) && IsNode(t, c) && index[c] < 0 && t.displayed[c]
    ensures c !in s && Indexed(t, index[c := |s|], s + [c])
  {
  }

  /** Copying down s is under way: what stood before src is packed in front of cur, the rest is still in place. */
  ghost predicate Moving(t: Tree, index: seq<int>, e: seq<int>, s: seq<int>, cur: nat, src: nat) {
    && |e| == |s| && cur <= src <= |s| && |index| == Size(t)
    && e[..cur] == Packed(s[..src]) && e[src..] == s[src..]
    && (forall i :: 0 <= i < cur ==> IsNode(t, e[i]) && index[e[i]] == i)
    && (forall i :: src <= i < |s| && s[i] != NULL ==> IsNode(t, s[i]) && index[s[i]] == i)
    && forall c :: 0 <= c < |index| ==>
        index[c] == -1 || (0 <= index[c] < cur && e[index[c]] == c) || (src <= index[c] < |s| && s[index[c]] == c)
  }

  lemma StartMoving(t: Tree, index: seq<int>, s: seq<int>, start: nat)
    requires start <= |s| && NULL !in s[..start] && Linked(t, index, s)
    ensures Moving(t, index, s, s, start, start)
  {
    PackedFull(s[..start]);
    forall i | 0 <= i < start ensures s[i] != NULL {
      assert s[i] == s[..start][i];
    }
  }

  lemma MovedOne(t: Tree, index: seq<int>, e: seq<int>, s: seq<int>, cur: nat, src: nat)
    requires src < |s| && Moving(t, index, e, s, cur, src)
    ensures e[src] == s[src]
    ensures e[src] == NULL ==> Moving(t, index, e, s, cur, src + 1)
    ensures e[src] != NULL ==>
      IsNode(t, e[src]) && Moving(t, index[e[src] := cur], e[cur := e[src]], s, cur + 1, src + 1)
  {
    var c := s[src];
    assert e[src..][0] == s[src..][0];
    assert s[..src + 1][..src] == s[..src];
    assert e[src + 1..] == e[src..][1..] == s[src + 1..];
    if c != NULL {
      var e1 := e[cur := c];
      assert e1[..cur + 1] == e[..cur] + [c];
      assert e1[src + 1..] == e[src + 1..];
    }
  }

  lemma MovedAll(t: Tree, index: seq<int>, e: seq<int>, s: seq<int>, cur: nat)
    requires Moving(t, index, e, s, cur, |s|)
    ensures e[..cur] == Packed(s) && Linked(t, index, e[..cur])
  {
    assert s[..|s|] == s;
  }

  lemma LinkedHole(t: Tree, index: seq<int>, s: seq<int>, i: nat)
    requires i < |s| && Linked(t, index, s) && s[i] != NULL
    ensures Linked(t, index[s[i] := -1], s[i := NULL])
  {
  }

  lemma Shorter(t: Tree, s: seq<int>, i: nat, k: nat)
    requires IsTree(t) && IsSelection(t, s) && i + k <= |s|
    ensures IsSelection(t, s[..i] + s[i + k..])
  {
  }

  /** s with k holes from position i on. */
  ghost function Holed(s: seq<int>, i: nat, k: nat): (r: seq<int>)
    requires i + k <= |s|
    ensures |r| == |s|
  {
    s[..i] + seq(k, j => NULL) + s[i + k..]
  }

  lemma NextHole(s: seq<int>, i: nat, k: nat)
    requires i + k < |s|
    ensures Holed(s, i, k)[i + k] == s[i + k] && Holed(s, i, k)[i + k := NULL] == Holed(s, i, k + 1)
  {
  }

  /** s without node c. */
  ghost function Without(s: seq<int>, c: int): seq<int> {
    if |s| == 0 then []
    else if s[|s| - 1] == c then Without(s[..|s| - 1], c)
    else Without(s[..|s| - 1], c) + [s[|s| - 1]]
  }

  lemma {:induction false} WithoutIs(s: seq<int>, c: int)
    ensures forall x :: x in Without(s, c) <==> x in s && x != c
  {
    if |s| > 0 {
      WithoutIs(s[..|s| - 1], c);
    }
  }

  lemma {:induction false} WithoutNone(s: seq<int>, c: int)
    requires c !in s
    ensures Without(s, c) == s
  {
    if |s| > 0 {
      WithoutNone(s[..|s| - 1], c);
    }
  }

  lemma {:induction false} WithoutAt(s: seq<int>, i: nat)
    requires i < |s| && Distinct(s)
    ensures Without(s, s[i]) == s[..i] + s[i + 1..]
    decreases |s|
  {
    var front := s[..|s| - 1];
    if i == |s| - 1 {
      WithoutNone(front, s[i]);
    } else {
      WithoutAt(front, i);
    }
  }

  /** The nodes AddSubtree adds: none for a null pointer. */
  ghost function SubtreeOf(t: Tree, c: int): seq<int>
    requires IsTree(t) && (c == NULL || IsNode(t, c))
  {
    if c == NULL then [] else Subtree(t, c)
  }

  lemma KidsAreNodes(t: Tree, p: int, from: nat)
    requires IsTree(t) && IsNode(t, p) && from <= Size(t)
    ensures AreNodes(t, Kids(t, p, from))
  {
    forall i | 0 <= i < |Kids(t, p, from)| ensures IsNode(t, Kids(t, p, from)[i]) {
      KidsNodes(t, p, from, i);
    }
  }

  lemma AddedOne(t: Tree, s: seq<int>, c: int, cs: seq<int>)
    requires IsTree(t) && IsNode(t, c) && AreNodes(t, cs)
    ensures AreNodes(t, [c] + cs) && AddedAll(t, s, [c] + cs) == AddedAll(t, Added(t, s, c), cs)
  {
    AddedAllSplit(t, s, [c], cs);
    assert AddedAll(t, s, [c][..0]) == s;
  }

  lemma SubtreeStep(t: Tree, s: seq<int>, c: int)
    requires IsTree(t) && IsNode(t, c)
    ensures AreNodes(t, Subtree(t, c)) && AreNodes(t, Kids(t, c, 0))
    ensures AddedAll(t, s, Subtree(t, c)) == AddedAll(t, Added(t, s, c), Kids(t, c, 0))
  {
    KidsAreNodes(t, c, 0);
    AddedOne(t, s, c, Kids(t, c, 0));
  }

  lemma KidsStep(t: Tree, s: seq<int>, p: int, from: nat)
    requires IsTree(t) && IsNode(t, p) && from <= Size(t) && NextChild(t.superclass, p, from) != NULL
    ensures var c := NextChild(t.superclass, p, from);
      && AreNodes(t, Kids(t, p, from)) && AreNodes(t, Subtree(t, c)) && AreNodes(t, Kids(t, p, c + 1))
      && AddedAll(t, s, Kids(t, p, from)) == AddedAll(t, AddedAll(t, s, Subtree(t, c)), Kids(t, p, c + 1))
  {
    var c := NextChild(t.superclass, p, from);
    SubtreeStep(t, s, c);
    KidsAreNodes(t, p, c + 1);
    AddedAllSplit(t, s, Subtree(t, c), Kids(t, p, c + 1));
  }

  lemma SiblingStep(t: Tree, p: int, from: nat, c: int)
    requires IsTree(t) && IsNode(t, p) && c == NextChild(t.superclass, p, from) && c != NULL
    ensures IsNode(t, c) && from <= c && t.depth[c] == t.depth[p] + 1
    ensures t.siblings[c] == NextChild(t.superclass, p, c + 1)
  {
  }

  lemma DirectKidsStep(t: Tree, s: seq<int>, p: int, from: nat)
    requires IsTree(t) && IsNode(t, p) && from <= Size(t)
    ensures AreNodes(t, DirectKids(t, p, from))
    ensures var c := NextChild(t.superclass, p, from); c != NULL ==>
      && AreNodes(t, DirectKids(t, p, c + 1))
      && AddedAll(t, s, DirectKids(t, p, from)) == AddedAll(t, Added(t, s, c), DirectKids(t, p, c + 1))
  {
    hide IsTree, Added;
    DirectKidsNodes(t, p, from);
    var c := NextChild(t.superclass, p, from);
    if c != NULL {
      DirectKidsNodes(t, p, c + 1);
      AddedOne(t, s, c, DirectKids(t, p, c + 1));
    }
  }

  lemma {:induction false} DirectKidsNodes(t: Tree, p: int, from: nat)
    requires IsTree(t) && IsNode(t, p) && from <= Size(t)
    ensures AreNodes(t, DirectKids(t, p, from))
    decreases Size(t) - from
  {
    var c := NextChild(t.superclass, p, from);
    if c != NULL {
      DirectKidsNodes(t, p, c + 1);
    }
  }

  lemma ChainStep(t: Tree, s: seq<int>, c: int)
    requires IsTree(t) && IsNode(t, c)
    ensures AreNodes(t, Chain(t, c)) && AreNodes(t, [c] + Chain(t, c))
    ensures AddedAll(t, s, [c] + Chain(t, c)) == AddedAll(t, Added(t, s, c), Chain(t, c))
  {
    ChainIsAbove(t, c);
    AddedOne(t, s, c, Chain(t, c));
  }

  lemma MarkedStep(t: Tree, s: seq<int>, flags: seq<bool>, i: nat)
    requires IsTree(t) && |flags| == Size(t) && i < Size(t)
    ensures AreNodes(t, MarkedNodes(flags, i)) && AreNodes(t, MarkedNodes(flags, i + 1))
    ensures var before := AddedAll(t, s, MarkedNodes(flags, i));
      AddedAll(t, s, MarkedNodes(flags, i + 1)) == if flags[i] then Added(t, before, i) else before
  {
    MarkedNodesAre(flags, i);
    MarkedNodesAre(flags, i + 1);
    var front := MarkedNodes(flags, i);
    if flags[i] {
      assert (front + [i])[..|front|] == front;
    } else {
      assert front + [] == front;
    }
  }

  class SelectedList {
    const t: Tree
    const top: int
    const index: array<int>
    var elements: array<int>
    var count: nat

    ghost predicate Valid()
      reads this, index, elements
    {
      && IsTree(t) && IsNode(t, top) && index.Length == Size(t)
      && index != elements && count <= elements.Length && elements.Length >= INITIAL_SIZE
      && Indexed(t, index[..], elements[..count])
    }

    ghost function Contents(): seq<int>
      reads this, elements
      requires count <= elements.Length
    {
      elements[..count]
    }

    constructor (t: Tree, top: int)
      requires IsTree(t) && IsNode(t, top)
      ensures Valid() && Contents() == [] && fresh(index) && fresh(elements) && this.t == t && this.top == top
    {
      this.t, this.top, count := t, top, 0;
      index := new int[Size(t)](_ => -1);
      elements := new int[INITIAL_SIZE](_ => NULL);
    }

    /** Room for n entries, the new ones null. */
    method Resize(n: nat)
      requires Valid() && n >= elements.Length
      modifies `elements
      ensures Valid() && Contents() == old(Contents()) && fresh(elements) && elements.Length == n
    {
      var more := new int[n](_ => NULL);
      for i := 0 to elements.Length
        invariant elements == old(elements) && more[..i] == elements[..i]
      {
        more[i] := elements[i];
      }
      assert more[..count] == elements[..count];
      elements := more;
    }

    method AddNode(c: int)
      requires Valid() && IsNode(t, c)
      modifies this`count, this`elements, index, elements
      ensures Valid() && Contents() == Added(t, old(Contents()), c)
      ensures elements == old(elements) || fresh(elements)
    {
      if !t.displayed[c] || index[c] >= 0 {
        return;
      }
      if count >= elements.Length {
        Resize(elements.Length * 3 / 2);
      }
      ghost var was, s := index[..], elements[..count];
      LinkedAdd(t, was, s, c);
      index[c] := count;
      elements[count] := c;
      count := count + 1;
      assert index[..] == was[c := |s|] && elements[..count] == s + [c];
    }

    /** One entry on the way down. */
    method MoveOne(src: nat, cur: nat, ghost s: seq<int>) returns (next: nat)
      requires index.Length == Size(t) && index != elements && src < count <= elements.Length
      requires Moving(t, index[..], elements[..count], s, cur, src)
      modifies index, elements
      ensures Moving(t, index[..], elements[..count], s, next, src + 1)
    {
      MovedOne(t, index[..], elements[..count], s, cur, src);
      var c := elements[src];
      if c == NULL {
        return cur;
      }
      index[c] := cur;
      elements[cur] := c;
      assert index[..] == old(index[..])[c := cur] && elements[..count] == old(elements[..count])[cur := c];
      return cur + 1;
    }

    method MoveAll(start: nat, ghost s: seq<int>) returns (cur: nat)
      requires index.Length == Size(t) && index != elements && start <= count <= elements.Length
      requires Moving(t, index[..], elements[..count], s, start, start)
      modifies index, elements
      ensures cur <= count && Moving(t, index[..], elements[..count], s, cur, count)
    {
      var src: nat := start;
      cur := start;
      while src < count
        invariant cur <= src <= count && Moving(t, index[..], elements[..count], s, cur, src)
      {
        cur := MoveOne(src, cur, s);
        src := src + 1;
      }
    }

    /** The entries from start on move down over the holes, their nodes' indices with them. */
    method CopyDown(start: nat) returns (skips: nat)
      requires index.Length == Size(t) && index != elements && count <= elements.Length
      requires start <= count && NULL !in elements[..start] && Linked(t, index[..], elements[..count])
      modifies index, elements
      ensures skips <= count && elements[..count - skips] == Packed(old(elements[..count]))
      ensures Linked(t, index[..], elements[..count - skips])
    {
      ghost var s := elements[..count];
      assert s[..start] == elements[..start];
      StartMoving(t, index[..], s, start);
      var cur := MoveAll(start, s);
      MovedAll(t, index[..], elements[..count], s, cur);
      assert elements[..count][..cur] == elements[..cur];
      skips := count - cur;
    }

    /** The node at position i is no longer selected, and leaves a hole. */
    method PunchHole(i: nat)
      requires index.Length == Size(t) && index != elements && i < count <= elements.Length
      requires Linked(t, index[..], elements[..count]) && elements[i] != NULL
      modifies index, elements
      ensures Linked(t, index[..], elements[..count]) && elements[..count] == old(elements[..count])[i := NULL]
    {
      var p := elements[i];
      LinkedHole(t, index[..], elements[..count], i);
      elements[index[p]] := NULL;
      index[p] := -1;
      assert index[..] == old(index[..])[p := -1] && elements[..count] == old(elements[..count])[i := NULL];
    }

    /** Copying down over k holes at position i. */
    method CloseGap(i: nat, k: nat, ghost s: seq<int>) returns (skips: nat)
      requires IsTree(t) && IsSelection(t, s) && i + k <= |s| == count
      requires index.Length == Size(t) && index != elements && count <= elements.Length
      requires elements[..count] == Holed(s, i, k) && Linked(t, index[..], elements[..count])
      modifies index, elements
      ensures skips == k && elements[..count - k] == s[..i] + s[i + k..] && Linked(t, index[..], elements[..count - k])
    {
      assert elements[..i] == elements[..count][..i] == s[..i];
      PackedHoles(Holed(s, i, k), i, k, s);
      skips := CopyDown(i);
    }

    /** One node leaves the selection; false when it was not selected. */
    method RemoveNode(c: int) returns (removed: bool)
      requires Valid() && IsNode(t, c)
      modifies this`count, index, elements
      ensures Valid() && removed == (c in old(Contents())) && Contents() == Without(old(Contents()), c)
    {
      ghost var s := Contents();
      var i := index[c];
      if i < 0 {
        WithoutNone(s, c);
        return false;
      }
      assert s[i] == c;
      WithoutAt(s, i);
      Shorter(t, s, i, 1);
      RemoveAt(i, s);
      removed := true;
    }

    method RemoveAt(i: nat, ghost s: seq<int>)
      requires Valid() && i < count && s == Contents() && IsSelection(t, s[..i] + s[i + 1..])
      modifies this`count, index, elements
      ensures Valid() && Contents() == s[..i] + s[i + 1..]
    {
      hide IsTree;
      PunchHole(i);
      NextHole(s, i, 0);
      var skips := 1;
      if count > 1 {
        skips := CloseGap(i, 1, s);
      }
      count := count - skips;
    }

    /** k nodes from position start on leave the selection. */
    method RemoveNodes(start: nat, k: nat)
      requires Valid() && start + k <= count
      modifies this`count, index, elements
      ensures Valid() && Contents() == old(Contents())[..start] + old(Contents())[start + k..]
    {
      ghost var s := Contents();
      PunchHoles(start, k, s);
      var skips := CloseGap(start, k, s);
      Shorter(t, s, start, k);
      count := count - skips;
    }

    method PunchHoles(start: nat, k: nat, ghost s: seq<int>)
      requires index.Length == Size(t) && index != elements && count <= elements.Length
      requires NULL !in s && start + k <= |s| == count && elements[..count] == s
      requires Linked(t, index[..], elements[..count])
      modifies index, elements
      ensures elements[..count] == Holed(s, start, k) && Linked(t, index[..], elements[..count])
    {
      for i := 0 to k
        invariant elements[..count] == Holed(s, start, i)
        invariant Linked(t, index[..], elements[..count])
      {
        NextHole(s, start, i);
        assert elements[start + i] == elements[..count][start + i];
        PunchHole(start + i);
      }
    }

    /** A node and everything below it are selected. */
    method AddSubtree(c: int)
      requires Valid() && (c == NULL || IsNode(t, c))
      modifies this`count, this`elements, index, elements
      ensures Valid() && (elements == old(elements) || fresh(elements))
      ensures AreNodes(t, SubtreeOf(t, c)) && Contents() == AddedAll(t, old(Contents()), SubtreeOf(t, c))
      decreases if c == NULL then 0 else Size(t) - t.depth[c], 2
    {
      if c == NULL {
        return;
      }
      SubtreeStep(t, Contents(), c);
      AddNode(c);
      AddKids(c);
    }

    /** The loop of AddSubtree, along the sibling links. */
    method AddKids(c: int)
      requires Valid() && IsNode(t, c)
      modifies this`count, this`elements, index, elements
      ensures Valid() && (elements == old(elements) || fresh(elements))
      ensures AreNodes(t, Kids(t, c, 0)) && Contents() == AddedAll(t, old(Contents()), Kids(t, c, 0))
      decreases Size(t) - t.depth[c], 1
    {
      KidsAreNodes(t, c, 0);
      ghost var all := AddedAll(t, Contents(), Kids(t, c, 0));
      ghost var from: nat := 0;
      var node := t.children[c];
      while node != NULL
        invariant Valid() && (elements == old(elements) || fresh(elements))
        invariant from <= Size(t) && node == NextChild(t.superclass, c, from) && AreNodes(t, Kids(t, c, from))
        invariant AddedAll(t, Contents(), Kids(t, c, from)) == all
        decreases Size(t) - from
      {
        node, from := AddKid(node, c, from);
      }
    }

    method AddKid(node: int, ghost c: int, ghost from: nat) returns (next: int, ghost beyond: nat)
      requires Valid() && IsNode(t, c) && from <= Size(t) && node == NextChild(t.superclass, c, from) && node != NULL
      modifies this`count, this`elements, index, elements
      ensures Valid() && (elements == old(elements) || fresh(elements))
      ensures from < beyond <= Size(t) && next == NextChild(t.superclass, c, beyond)
      ensures AreNodes(t, Kids(t, c, from)) && AreNodes(t, Kids(t, c, beyond))
      ensures AddedAll(t, Contents(), Kids(t, c, beyond)) == AddedAll(t, old(Contents()), Kids(t, c, from))
      decreases Size(t) - t.depth[c], 0
    {
      hide Linked, Subtree, Kids, AddedAll;
      KidsStep(t, Contents(), c, from);
      SiblingStep(t, c, from, node);
      AddSubtree(node);
      beyond := node + 1;
      next := t.siblings[node];
    }

    /** A node and its subclasses are selected. */
    method AddChildren(c: int)
      requires Valid() && IsNode(t, c)
      modifies this`count, this`elements, index, elements
      ensures Valid() && (elements == old(elements) || fresh(elements))
      ensures AreNodes(t, Wished(t, ItsChildren, c))
      ensures Contents() == AddedAll(t, old(Contents()), Wished(t, ItsChildren, c))
    {
      DirectKidsNodes(t, c, 0);
      AddedOne(t, Contents(), c, DirectKids(t, c, 0));
      AddNode(c);
      ghost var all := AddedAll(t, Contents(), DirectKids(t, c, 0));
      ghost var from: nat := 0;
      var node := t.children[c];
      while node != NULL
        invariant Valid() && (elements == old(elements) || fresh(elements))
        invariant from <= Size(t) && node == NextChild(t.superclass, c, from) && AreNodes(t, DirectKids(t, c, from))
        invariant AddedAll(t, Contents(), DirectKids(t, c, from)) == all
        decreases Size(t) - from
      {
        node, from := AddChild(node, c, from);
      }
    }

    method AddChild(node: int, ghost c: int, ghost from: nat) returns (next: int, ghost beyond: nat)
      requires Valid() && IsNode(t, c) && from <= Size(t) && node == NextChild(t.superclass, c, from) && node != NULL
      modifies this`count, this`elements, index, elements
      ensures Valid() && (elements == old(elements) || fresh(elements))
      ensures from < beyond <= Size(t) && next == NextChild(t.superclass, c, beyond)
      ensures AreNodes(t, DirectKids(t, c, from)) && AreNodes(t, DirectKids(t, c, beyond))
      ensures AddedAll(t, Contents(), DirectKids(t, c, beyond)) == AddedAll(t, old(Contents()), DirectKids(t, c, from))
    {
      DirectKidsStep(t, Contents(), c, from);
      SiblingStep(t, c, from, node);
      AddNode(node);
      beyond := node + 1;
      next := t.siblings[node];
    }

    /** What an entry adds for one node. */
    method AddWished(w: Wish, c: int)
      requires Valid() && IsNode(t, c)
      modifies this`count, this`elements, index, elements
      ensures Valid() && (elements == old(elements) || fresh(elements))
      ensures AreNodes(t, Wished(t, w, c)) && Contents() == AddedAll(t, old(Contents()), Wished(t, w, c))
    {
      match w
      case ItsParent =>
        if t.superclass[c] != NULL {
          AddedOne(t, Contents(), t.superclass[c], []);
          assert [t.superclass[c]] + [] == [t.superclass[c]];
          AddNode(t.superclass[c]);
        }
      case ItsChildren =>
        AddChildren(c);
      case ItsSubtree =>
        AddSubtree(c);
    }

    /** A node and all its superclasses are selected. */
    method AddChain(c: int)
      requires Valid() && IsNode(t, c)
      modifies this`count, this`elements, index, elements
      ensures Valid() && (elements == old(elements) || fresh(elements))
      ensures AreNodes(t, [c] + Chain(t, c)) && Contents() == AddedAll(t, old(Contents()), [c] + Chain(t, c))
    {
      ChainStep(t, Contents(), c);
      ghost var all := AddedAll(t, Contents(), [c] + Chain(t, c));
      var node := c;
      AddNode(node);
      while t.superclass[node] != NULL
        invariant Valid() && (elements == old(elements) || fresh(elements))
        invariant IsNode(t, node) && AreNodes(t, Chain(t, node)) && AddedAll(t, Contents(), Chain(t, node)) == all
        decreases t.depth[node]
      {
        node := t.superclass[node];
        ChainStep(t, Contents(), node);
        AddNode(node);
      }
    }

    /** The walk up from a selected node, to the first superclass that is selected already. */
    method Climb(c: int)
      requires Valid() && IsNode(t, c)
      modifies this`count, this`elements, index, elements
      ensures Valid() && (elements == old(elements) || fresh(elements))
      ensures Contents() == Climbed(t, old(Contents()), c)
    {
      var child, parent := c, t.superclass[c];
      while parent != NULL
        invariant Valid() && (elements == old(elements) || fresh(elements))
        invariant IsNode(t, child) && parent == t.superclass[child]
        invariant Climbed(t, Contents(), child) == Climbed(t, old(Contents()), c)
        decreases t.depth[child]
      {
        if index[parent] >= 0 {
          break;
        }
        AddNode(parent);
        child, parent := parent, t.superclass[parent];
      }
    }

    /** "Ancestors" from the menu bar. */
    method ClimbAll()
      requires Valid()
      modifies this`count, this`elements, index, elements
      ensures Valid() && (elements == old(elements) || fresh(elements))
      ensures Contents() == ClimbedFrom(t, old(Contents()), 0, |old(Contents())|)
    {
      hide Linked, Climbed;
      var selected := count;
      var i: nat := 0;
      while i < selected
        invariant Valid() && (elements == old(elements) || fresh(elements)) && i <= selected <= count
        invariant ClimbedFrom(t, Contents(), i, selected) == ClimbedFrom(t, old(Contents()), 0, selected)
      {
        ClimbedIs(t, Contents(), Contents()[i]);
        Climb(elements[i]);
        i := i + 1;
      }
    }

    /** The other entries that go by every selected node. */
    method WishAll(w: Wish)
      requires Valid()
      modifies this`count, this`elements, index, elements
      ensures Valid() && (elements == old(elements) || fresh(elements))
      ensures Contents() == WishedFrom(t, w, old(Contents()), 0, |old(Contents())|)
    {
      hide Linked, IsTree, Wished;
      var selected := count;
      ghost var all := WishedFrom(t, w, Contents(), 0, selected);
      assert all == WishedFrom(t, w, old(Contents()), 0, |old(Contents())|);
      var i: nat := 0;
      while i < selected
        invariant Valid() && (elements == old(elements) || fresh(elements)) && i <= selected <= count
        invariant WishedFrom(t, w, Contents(), i, selected) == all
      {
        WishOne(w, i, selected);
        i := i + 1;
      }
    }

    method WishOne(w: Wish, i: nat, ghost selected: nat)
      requires Valid() && i < selected <= count
      modifies this`count, this`elements, index, elements
      ensures Valid() && (elements == old(elements) || fresh(elements)) && selected <= count
      ensures WishedFrom(t, w, Contents(), i + 1, selected) == WishedFrom(t, w, old(Contents()), i, selected)
    {
      WishedStep(t, w, Contents(), i, selected);
      AddWished(w, elements[i]);
    }

    method InvertAll()
      requires Valid()
      modifies this`count, this`elements, index, elements
      ensures Valid() && (elements == old(elements) || fresh(elements))
      ensures Contents() == Inverted(t, old(Contents()))
    {
      var selected := count;
      ghost var s, all := Contents(), AllNodes(t);
      for i := 0 to Size(t)
        invariant Valid() && (elements == old(elements) || fresh(elements))
        invariant AreNodes(t, all[..i]) && Contents() == AddedAll(t, s, all[..i])
      {
        assert all[..i + 1][..i] == all[..i] && all[..i + 1][i] == i;
        if index[i] < 0 {
          AddNode(i);
        }
      }
      assert all[..Size(t)] == all;
      AddedAllIs(t, s, all);
      RemoveNodes(0, selected);
    }

    method AddMarked(flags: seq<bool>)
      requires Valid() && |flags| == Size(t)
      modifies this`count, this`elements, index, elements
      ensures Valid() && (elements == old(elements) || fresh(elements))
      ensures AreNodes(t, MarkedNodes(flags, Size(t)))
      ensures Contents() == AddedAll(t, old(Contents()), MarkedNodes(flags, Size(t)))
    {
      hide IsTree, Linked, Added;
      for i := 0 to Size(t)
        invariant Valid() && (elements == old(elements) || fresh(elements))
        invariant AreNodes(t, MarkedNodes(flags, i))
        invariant Contents() == AddedAll(t, old(Contents()), MarkedNodes(flags, i))
      {
        MarkedStep(t, old(Contents()), flags, i);
        if flags[i] {
          AddNode(i);
        }
      }
    }

    /** The callback of the select menu, for the node it was raised on or, when c is NULL, for the selection. */
    method Select(e: Entry, c: int)
      requires Valid() && IsEntry(t, e) && (c == NULL || IsNode(t, c))
      modifies this`count, this`elements, index, elements
      ensures Valid() && (elements == old(elements) || fresh(elements))
      ensures Contents() == Chosen(t, top, old(Contents()), e, c)
    {
      match e
      case Nothing =>
        RemoveNodes(0, count);
      case Everything =>
        AddSubtree(top);
      case Invert =>
        InvertAll();
      case Ancestors =>
        if c != NULL {
          AddChain(c);
        } else {
          ClimbAll();
        }
      case Each(w) =>
        if c != NULL {
          AddWished(w, c);
        } else {
          WishAll(w);
        }
      case Marked(flags) =>
        AddMarked(flags);
    }

    /** A click on the toggle of a displayed node. */
    method Toggle(c: int, on: bool)
      requires Valid() && IsNode(t, c)
      modifies this`count, this`elements, index, elements
      ensures Valid() && (elements == old(elements) || fresh(elements))
      ensures Contents() == if on then Added(t, old(Contents()), c) else Without(old(Contents()), c)
    {
      if on {
        AddNode(c);
      } else {
        var _ := RemoveNode(c);
      }
    }
  }
}
