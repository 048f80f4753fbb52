/**
 viewres's selections as lists of nodes: what every entry of the select menu makes of the selection, and which nodes
 that are, in terms of the hierarchy and of the nodes on display.
 */
module Selection {
  import opened Common
  import opened Hierarchy

  ghost predicate AreNodes(t: Tree, cs: seq<int>) {
    forall i :: 0 <= i < |cs| ==> IsNode(t, cs[i])
  }

  /** A selection lists displayed nodes, each once. */
  ghost predicate IsSelection(t: Tree, s: seq<int>)
    requires IsTree(t)
  {
    AreNodes(t, s) && Distinct(s) && forall i :: 0 <= i < |s| ==> t.displayed[s[i]]
  }

  /** Selecting one node: it goes to the end unless it is not on display or selected already. */
  ghost function Added(t: Tree, s: seq<int>, c: int): (r: seq<int>)
    requires IsTree(t) && IsNode(t, c)
  {
    if t.displayed[c] && c !in s then s + [c] else s
  }

  ghost function AddedAll(t: Tree, s: seq<int>, cs: seq<int>): (r: seq<int>)
    requires IsTree(t) && AreNodes(t, cs)
    decreases |cs|
  {
    if |cs| == 0 then s else Added(t, AddedAll(t, s, cs[..|cs| - 1]), cs[|cs| - 1])
  }

  lemma {:induction false} AddedAllIs(t: Tree, s: seq<int>, cs: seq<int>)
    requires IsTree(t) && AreNodes(t, cs) && IsSelection(t, s)
    ensures IsSelection(t, AddedAll(t, s, cs)) && s <= AddedAll(t, s, cs)
    ensures forall x :: x in AddedAll(t, s, cs) <==> x in s || (x in cs && t.displayed[x])
    decreases |cs|
  {
    if |cs| > 0 {
      var front, last := cs[..|cs| - 1], cs[|cs| - 1];
      AddedAllIs(t, s, front);
      assert cs == front + [last];
    }
  }

  lemma {:induction false} AddedAllSplit(t: Tree, s: seq<int>, cs: seq<int>, ds: seq<int>)
    requires IsTree(t) && AreNodes(t, cs) && AreNodes(t, ds)
    ensures AreNodes(t, cs + ds) && AddedAll(t, s, cs + ds) == AddedAll(t, AddedAll(t, s, cs), ds)
    decreases |ds|
  {
    if |ds| == 0 {
      assert cs + ds == cs;
    } else {
      var front, last := ds[..|ds| - 1], ds[|ds| - 1];
      AddedAllSplit(t, s, cs, front);
      assert (cs + ds)[..|cs + ds| - 1] == cs + front;
    }
  }

  // ---------------------------------------------------------------------------------------
  // Inverting
  // ---------------------------------------------------------------------------------------

  ghost function AllNodes(t: Tree): seq<int> {
    seq(Size(t), i => i)
  }

  /** All nodes are added and the nodes selected before are removed. */
  ghost function Inverted(t: Tree, s: seq<int>): seq<int>
    requires IsTree(t) && IsSelection(t, s)
  {
    var r := AddedAll(t, s, AllNodes(t));
    AddedAllIs(t, s, AllNodes(t));
    r[|s|..]
  }

  /** "Invert" selects exactly the other displayed nodes. */
  lemma InvertIsComplement(t: Tree, s: seq<int>)
    requires IsTree(t) && IsSelection(t, s)
    ensures IsSelection(t, Inverted(t, s))
    ensures forall x :: x in Inverted(t, s) <==> IsNode(t, x) && t.displayed[x] && x !in s
  {
    var r := AddedAll(t, s, AllNodes(t));
    AddedAllIs(t, s, AllNodes(t));
    var tail := Inverted(t, s);
    assert r == s + tail;
    forall x ensures x in tail <==> IsNode(t, x) && t.displayed[x] && x !in s {
      if IsNode(t, x) {
        assert AllNodes(t)[x] == x;
      }
    }
  }

  /** Inverting twice gives the same nodes again. */
  lemma InvertTwice(t: Tree, s: seq<int>)
    requires IsTree(t) && IsSelection(t, s)
    ensures IsSelection(t, Inverted(t, s))
    ensures forall x :: x in Inverted(t, Inverted(t, s)) <==> x in s
  {
    InvertIsComplement(t, s);
    InvertIsComplement(t, Inverted(t, s));
  }

  // ---------------------------------------------------------------------------------------
  // Ancestors
  // ---------------------------------------------------------------------------------------

  /** The walk up from c: every superclass is added, up to the first that is selected already. */
  ghost function Climbed(t: Tree, s: seq<int>, c: int): seq<int>
    requires IsTree(t) && IsNode(t, c)
    decreases t.depth[c]
  {
    var p := t.superclass[c];
    if p == NULL || p in s then s else Climbed(t, Added(t, s, p), p)
  }

  /** What the walk leaves: the old selection in front, and behind it displayed superclasses of c. */
  lemma {:induction false} ClimbedIs(t: Tree, s: seq<int>, c: int)
    requires IsTree(t) && IsNode(t, c) && IsSelection(t, s)
    ensures IsSelection(t, Climbed(t, s, c)) && s <= Climbed(t, s, c)
    ensures forall x :: x in Climbed(t, s, c) ==> x in s || Above(t, x, c)
    decreases t.depth[c]
  {
    var p := t.superclass[c];
    if p != NULL && p !in s {
      ClimbedIs(t, Added(t, s, p), p);
    }
  }

  /** The walk may stop early only below a node that was selected already. */
  lemma {:induction false} ClimbedCovers(t: Tree, s: seq<int>, c: int, y: int, a: int)
    requires IsTree(t) && IsNode(t, c) && IsSelection(t, s)
    requires y == c || (y in Climbed(t, s, c) && y !in s)
    requires IsNode(t, y) && IsNode(t, a) && t.displayed[a] && Above(t, a, y)
    ensures a in Climbed(t, s, c) || exists q :: q in s && IsNode(t, q) && Above(t, q, y) && Above(t, a, q)
    decreases t.depth[c]
  {
    var p := t.superclass[c];
    if p == NULL {
    } else if p in s {
      if a != p {
        assert Above(t, p, y) && Above(t, a, p);
      }
    } else {
      var s1 := Added(t, s, p);
      ClimbedIs(t, s1, p);
      if a == p && y == c {
        assert s1[|s|] == a == Climbed(t, s1, p)[|s|];
      } else {
        var y1 := if y == c then p else y;
        ClimbedCovers(t, s1, p, y1, a);
        if a !in Climbed(t, s, c) {
          var q :| q in s1 && IsNode(t, q) && Above(t, q, y1) && Above(t, a, q);
          AboveIsDeeper(t, q, y1);
          if y1 != p {
            AboveIsDeeper(t, y, p);
          }
          assert q in s;
        }
      }
    }
  }

  /** The walk up from each of the positions i..n of the selection, which grows behind them. */
  ghost function ClimbedFrom(t: Tree, s: seq<int>, i: nat, n: nat): seq<int>
    requires IsTree(t) && IsSelection(t, s) && i <= n <= |s|
    decreases n - i
  {
    if i == n then s
    else
      ClimbedIs(t, s, s[i]);
      ClimbedFrom(t, Climbed(t, s, s[i]), i + 1, n)
  }

  /** Superclass a of the selected node y is selected, or it will be reached from a node still to be walked from. */
  ghost predicate Reached(t: Tree, s: seq<int>, i: nat, n: nat, y: int, a: int)
    requires IsTree(t) && IsSelection(t, s) && n <= |s| && IsNode(t, y)
  {
    a in s || exists k :: i <= k < n && (s[k] == y || Above(t, s[k], y)) && Above(t, a, s[k])
  }

  ghost predicate AllReached(t: Tree, s: seq<int>, i: nat, n: nat)
    requires IsTree(t) && IsSelection(t, s) && n <= |s|
  {
    forall y, a :: y in s && IsNode(t, y) && IsNode(t, a) && t.displayed[a] && Above(t, a, y) ==>
      Reached(t, s, i, n, y, a)
  }

  lemma NotBothAbove(t: Tree, q: int, c: int)
    requires IsTree(t) && IsNode(t, q) && IsNode(t, c) && Above(t, q, c)
    ensures q != c && !Above(t, c, q)
  {
    AboveIsDeeper(t, q, c);
    if Above(t, c, q) {
      AboveIsDeeper(t, c, q);
    }
  }

  /** Reaching a through a selected node above y. */
  lemma ReachedThrough(t: Tree, s: seq<int>, i: nat, n: nat, y: int, q: int, a: int)
    requires IsTree(t) && IsSelection(t, s) && i < n <= |s| && AllReached(t, s, i, n)
    requires IsNode(t, y) && IsNode(t, a) && t.displayed[a]
    requires y == s[i] || Above(t, y, s[i])
    requires q in s && IsNode(t, q) && Above(t, q, y) && Above(t, a, q)
    ensures Reached(t, s, i + 1, n, y, a)
  {
    assert Reached(t, s, i, n, q, a);
    if a !in s {
      var k :| i <= k < n && (s[k] == q || Above(t, s[k], q)) && Above(t, a, s[k]);
      if y != s[i] {
        AboveTransitive(t, q, y, s[i]);
      }
      NotBothAbove(t, q, s[i]);
      if s[k] != q {
        AboveTransitive(t, s[k], q, y);
      }
      assert k != i && Above(t, s[k], y);
    }
  }

  /** One walk reaches all superclasses of its start. */
  lemma ClimbReaches(t: Tree, s: seq<int>, i: nat, n: nat, y: int, a: int)
    requires IsTree(t) && IsSelection(t, s) && i < n <= |s| && AllReached(t, s, i, n)
    requires IsSelection(t, Climbed(t, s, s[i])) && s <= Climbed(t, s, s[i])
    requires y in Climbed(t, s, s[i]) && IsNode(t, y)
    requires IsNode(t, a) && t.displayed[a] && Above(t, a, y)
    ensures Reached(t, Climbed(t, s, s[i]), i + 1, n, y, a)
  {
    var c, r := s[i], Climbed(t, s, s[i]);
    ClimbedIs(t, s, c);
    if y !in s || y == c {
      ClimbedCovers(t, s, c, y, a);
      if a !in r {
        var q :| q in s && IsNode(t, q) && Above(t, q, y) && Above(t, a, q);
        ReachedThrough(t, s, i, n, y, q, a);
      }
    } else if a !in s {
      assert Reached(t, s, i, n, y, a);
      var k :| i <= k < n && (s[k] == y || Above(t, s[k], y)) && Above(t, a, s[k]);
      if k == i && a !in r {
        ClimbedCovers(t, s, c, c, a);
        var q :| q in s && IsNode(t, q) && Above(t, q, c) && Above(t, a, q);
        ReachedThrough(t, s, i, n, c, q, a);
        FurtherUp(t, s, i + 1, n, c, y, a);
      }
    }
  }

  lemma FurtherUp(t: Tree, s: seq<int>, i: nat, n: nat, c: int, y: int, a: int)
    requires IsTree(t) && IsSelection(t, s) && n <= |s| && IsNode(t, c) && IsNode(t, y)
    requires Reached(t, s, i, n, c, a) && (c == y || Above(t, c, y))
    ensures Reached(t, s, i, n, y, a)
  {
    if a !in s {
      var k :| i <= k < n && (s[k] == c || Above(t, s[k], c)) && Above(t, a, s[k]);
      if s[k] != c && c != y {
        AboveTransitive(t, s[k], c, y);
      }
    }
  }

  lemma {:induction false} ClimbedFromSound(t: Tree, s: seq<int>, i: nat, n: nat)
    requires IsTree(t) && IsSelection(t, s) && i <= n <= |s|
    ensures IsSelection(t, ClimbedFrom(t, s, i, n)) && s <= ClimbedFrom(t, s, i, n)
    ensures forall x :: x in ClimbedFrom(t, s, i, n) ==> x in s || exists k :: i <= k < n && Above(t, x, s[k])
    decreases n - i
  {
    if i < n {
      var r := Climbed(t, s, s[i]);
      ClimbedIs(t, s, s[i]);
      ClimbedFromSound(t, r, i + 1, n);
      assert forall k :: i < k < n ==> r[k] == s[k];
    }
  }

  lemma {:induction false} ClimbedFromComplete(t: Tree, s: seq<int>, i: nat, n: nat, y: int, a: int)
    requires IsTree(t) && IsSelection(t, s) && i <= n <= |s| && AllReached(t, s, i, n)
    requires y in s && IsNode(t, y) && IsNode(t, a) && t.displayed[a] && Above(t, a, y)
    ensures a in ClimbedFrom(t, s, i, n)
    decreases n - i
  {
    if i == n {
      assert Reached(t, s, i, n, y, a);
    } else {
      var r := Climbed(t, s, s[i]);
      ClimbedIs(t, s, s[i]);
      forall z, b | z in r && IsNode(t, z) && IsNode(t, b) && t.displayed[b] && Above(t, b, z)
        ensures Reached(t, r, i + 1, n, z, b)
      {
        ClimbReaches(t, s, i, n, z, b);
      }
      ClimbedFromComplete(t, r, i + 1, n, y, a);
    }
  }

  /** "Ancestors" selects exactly the superclasses on display of what was selected, besides that itself, although
      each walk up stops at the first node that is selected already. */
  lemma AncestorsAreClosure(t: Tree, s: seq<int>, x: int)
    requires IsTree(t) && IsSelection(t, s) && IsNode(t, x)
    ensures IsSelection(t, ClimbedFrom(t, s, 0, |s|))
    ensures x in ClimbedFrom(t, s, 0, |s|) <==>
      x in s || (t.displayed[x] && exists c :: c in s && IsNode(t, c) && Above(t, x, c))
  {
    var n := |s|;
    ClimbedFromSound(t, s, 0, n);
    if t.displayed[x] && exists c :: c in s && IsNode(t, c) && Above(t, x, c) {
      var c :| c in s && IsNode(t, c) && Above(t, x, c);
      forall y, a | y in s && IsNode(t, y) && IsNode(t, a) && t.displayed[a] && Above(t, a, y)
        ensures Reached(t, s, 0, n, y, a)
      {
      }
      ClimbedFromComplete(t, s, 0, n, c, x);
    }
    if x in ClimbedFrom(t, s, 0, n) {
      var k :| 0 <= k < |ClimbedFrom(t, s, 0, n)| && ClimbedFrom(t, s, 0, n)[k] == x;
    }
  }

  // ---------------------------------------------------------------------------------------
  // Adding something for every selected node
  // ---------------------------------------------------------------------------------------

  /** What the other entries of the menu add for a node. */
  datatype Wish = ItsParent | ItsChildren | ItsSubtree

  ghost function Wished(t: Tree, w: Wish, c: int): seq<int>
    requires IsTree(t) && IsNode(t, c)
  {
    match w
    case ItsParent => if t.superclass[c] == NULL then [] else [t.superclass[c]]
    case ItsChildren => [c] + DirectKids(t, c, 0)
    case ItsSubtree => Subtree(t, c)
  }

  /** The subclasses of p from position from on, along the sibling links. */
  ghost function DirectKids(t: Tree, p: int, from: nat): seq<int>
    requires IsTree(t) && IsNode(t, p) && from <= Size(t)
    decreases Size(t) - from
  {
    var c := NextChild(t.superclass, p, from);
    if c == NULL then [] else [c] + DirectKids(t, p, c + 1)
  }

  lemma {:induction false} DirectKidsAre(t: Tree, p: int, from: nat, x: int)
    requires IsTree(t) && IsNode(t, p) && from <= Size(t)
    ensures x in DirectKids(t, p, from) <==> IsNode(t, x) && x >= from && t.superclass[x] == p
    decreases Size(t) - from
  {
    var c := NextChild(t.superclass, p, from);
    if c != NULL {
      DirectKidsAre(t, p, c + 1, x);
    }
  }

  /** x is one of the nodes wished for c, in terms of the hierarchy. */
  predicate IsWished(t: Tree, w: Wish, c: int, x: int)
    requires IsTree(t) && IsNode(t, c) && IsNode(t, x)
  {
    match w
    case ItsParent => t.superclass[c] == x
    case ItsChildren => x == c || t.superclass[x] == c
    case ItsSubtree => x == c || Above(t, c, x)
  }

  lemma WishedAre(t: Tree, w: Wish, c: int)
    requires IsTree(t) && IsNode(t, c)
    ensures AreNodes(t, Wished(t, w, c))
    ensures forall x :: IsNode(t, x) ==> (x in Wished(t, w, c) <==> IsWished(t, w, c, x))
  {
    var cs := Wished(t, w, c);
    match w
    case ItsParent =>
    case ItsChildren =>
      forall i | 0 <= i < |cs| ensures IsNode(t, cs[i]) {
        if i > 0 {
          assert cs[i] in DirectKids(t, c, 0);
          DirectKidsAre(t, c, 0, cs[i]);
        }
      }
      forall x | IsNode(t, x) ensures x in cs <==> IsWished(t, w, c, x) {
        DirectKidsAre(t, c, 0, x);
      }
    case ItsSubtree =>
      forall i | 0 <= i < |cs| ensures IsNode(t, cs[i]) {
        SubtreeNodes(t, c, i);
      }
      forall x | IsNode(t, x) ensures x in cs <==> IsWished(t, w, c, x) {
        SubtreeIsBelow(t, c, x);
      }
  }

  /** The additions for the positions i..n of the selection, which grows behind them. */
  ghost function WishedFrom(t: Tree, w: Wish, s: seq<int>, i: nat, n: nat): seq<int>
    requires IsTree(t) && IsSelection(t, s) && i <= n <= |s|
    decreases n - i
  {
    if i == n then s
    else
      WishedAre(t, w, s[i]);
      AddedAllIs(t, s, Wished(t, w, s[i]));
      WishedFrom(t, w, AddedAll(t, s, Wished(t, w, s[i])), i + 1, n)
  }

  lemma WishedStep(t: Tree, w: Wish, s: seq<int>, i: nat, n: nat)
    requires IsTree(t) && IsSelection(t, s) && i < n <= |s|
    ensures AreNodes(t, Wished(t, w, s[i]))
    ensures var r := AddedAll(t, s, Wished(t, w, s[i]));
      IsSelection(t, r) && s <= r && WishedFrom(t, w, s, i, n) == WishedFrom(t, w, r, i + 1, n)
  {
    WishedAre(t, w, s[i]);
    AddedAllIs(t, s, Wished(t, w, s[i]));
  }

  lemma WishedMember(t: Tree, w: Wish, s: seq<int>, c: int, x: int)
    requires IsTree(t) && IsSelection(t, s) && IsNode(t, c) && IsNode(t, x) && AreNodes(t, Wished(t, w, c))
    ensures x in AddedAll(t, s, Wished(t, w, c)) <==> x in s || (t.displayed[x] && IsWished(t, w, c, x))
  {
    WishedAre(t, w, c);
    AddedAllIs(t, s, Wished(t, w, c));
  }

  /** x is wished for one of the positions i..n of s. */
  ghost predicate WishedBy(t: Tree, w: Wish, s: seq<int>, i: nat, n: nat, x: int)
    requires IsTree(t) && AreNodes(t, s) && n <= |s| && IsNode(t, x)
  {
    exists k :: i <= k < n && IsWished(t, w, s[k], x)
  }

  lemma WishedByOne(t: Tree, w: Wish, s: seq<int>, r: seq<int>, i: nat, n: nat, x: int)
    requires IsTree(t) && AreNodes(t, s) && AreNodes(t, r) && i < n <= |s| && s <= r && IsNode(t, x)
    ensures WishedBy(t, w, s, i, n, x) <==> IsWished(t, w, s[i], x) || WishedBy(t, w, r, i + 1, n, x)
  {
    assert forall k :: i <= k < n ==> r[k] == s[k];
  }

  lemma NothingWished(t: Tree, w: Wish, s: seq<int>, n: nat, x: int)
    requires IsTree(t) && IsSelection(t, s) && n <= |s| && IsNode(t, x)
    ensures WishedFrom(t, w, s, n, n) == s && !WishedBy(t, w, s, n, n, x)
  {
  }

  lemma {:induction false} WishedFromIs(t: Tree, w: Wish, s: seq<int>, i: nat, n: nat, x: int)
    requires IsTree(t) && IsSelection(t, s) && i <= n <= |s| && IsNode(t, x)
    ensures IsSelection(t, WishedFrom(t, w, s, i, n))
    ensures x in WishedFrom(t, w, s, i, n) <==> x in s || (t.displayed[x] && WishedBy(t, w, s, i, n, x))
    decreases n - i
  {
    hide WishedFrom, WishedBy, Wished, IsTree, AddedAll;
    if i == n {
      NothingWished(t, w, s, n, x);
    } else {
      WishedStep(t, w, s, i, n);
      var r := AddedAll(t, s, Wished(t, w, s[i]));
      WishedMember(t, w, s, s[i], x);
      WishedFromIs(t, w, r, i + 1, n, x);
      WishedByOne(t, w, s, r, i, n, x);
    }
  }

  // ---------------------------------------------------------------------------------------
  // The menu
  // ---------------------------------------------------------------------------------------

  /** The entries of the select menu; Marked stands for the two that go by a property of the nodes. */
  datatype Entry = Nothing | Everything | Invert | Ancestors | Each(wish: Wish) | Marked(flags: seq<bool>)

  predicate IsEntry(t: Tree, e: Entry) {
    e.Marked? ==> |e.flags| == Size(t)
  }

  /** The superclasses of c, upwards. */
  ghost function Chain(t: Tree, c: int): seq<int>
    requires IsTree(t) && IsNode(t, c)
    decreases t.depth[c]
  {
    var p := t.superclass[c];
    if p == NULL then [] else [p] + Chain(t, p)
  }

  lemma {:induction false} ChainIsAbove(t: Tree, c: int)
    requires IsTree(t) && IsNode(t, c)
    ensures AreNodes(t, Chain(t, c))
    ensures forall x :: x in Chain(t, c) <==> x != NULL && Above(t, x, c)
    decreases t.depth[c]
  {
    var p := t.superclass[c];
    if p != NULL {
      ChainIsAbove(t, p);
    }
  }

  ghost function MarkedNodes(flags: seq<bool>, n: nat): seq<int>
    requires n <= |flags|
  {
    if n == 0 then [] else MarkedNodes(flags, n - 1) + (if flags[n - 1] then [n - 1] else [])
  }

  lemma {:induction false} MarkedNodesAre(flags: seq<bool>, n: nat)
    requires n <= |flags|
    ensures forall i :: 0 <= i < |MarkedNodes(flags, n)| ==> 0 <= MarkedNodes(flags, n)[i] < n
    ensures forall x :: x in MarkedNodes(flags, n) <==> 0 <= x < n && flags[x]
  {
    if n > 0 {
      MarkedNodesAre(flags, n - 1);
    }
  }

  /** The nodes an entry adds when it is chosen on the node c. */
  ghost function AddedFor(t: Tree, top: int, e: Entry, c: int): (cs: seq<int>)
    requires IsTree(t) && IsNode(t, top) && IsEntry(t, e) && (c == NULL || IsNode(t, c))
    ensures AreNodes(t, cs)
  {
    match e
    case Everything => WishedAre(t, ItsSubtree, top); Subtree(t, top)
    case Marked(flags) => MarkedNodesAre(flags, Size(t)); MarkedNodes(flags, Size(t))
    case Ancestors => if c == NULL then [] else (ChainIsAbove(t, c); [c] + Chain(t, c))
    case Each(w) => if c == NULL then [] else (WishedAre(t, w, c); Wished(t, w, c))
    case _ => []
  }

  /** The selection an entry leaves: chosen on the node c, or from the menu bar when c is NULL. */
  ghost function Chosen(t: Tree, top: int, s: seq<int>, e: Entry, c: int): seq<int>
    requires IsTree(t) && IsNode(t, top) && IsSelection(t, s) && IsEntry(t, e) && (c == NULL || IsNode(t, c))
  {
    match e
    case Nothing => []
    case Invert => Inverted(t, s)
    case Ancestors => if c == NULL then ClimbedFrom(t, s, 0, |s|) else AddedAll(t, s, AddedFor(t, top, e, c))
    case Each(w) => if c == NULL then WishedFrom(t, w, s, 0, |s|) else AddedAll(t, s, AddedFor(t, top, e, c))
    case _ => AddedAll(t, s, AddedFor(t, top, e, c))
  }

  /** The displayed nodes an entry is meant to add. */
  ghost predicate Meant(t: Tree, top: int, s: seq<int>, e: Entry, c: int, x: int)
    requires IsTree(t) && IsNode(t, top) && IsEntry(t, e) && AreNodes(t, s)
    requires (c == NULL || IsNode(t, c)) && IsNode(t, x)
  {
    match e
    case Nothing => false
    case Everything => x == top || Above(t, top, x)
    case Invert => x !in s
    case Ancestors =>
      if c == NULL then exists k :: 0 <= k < |s| && Above(t, x, s[k]) else x == c || Above(t, x, c)
    case Each(w) =>
      if c == NULL then exists k :: 0 <= k < |s| && IsWished(t, w, s[k], x) else IsWished(t, w, c, x)
    case Marked(flags) => flags[x]
  }

  /** Whether an entry keeps what is selected. */
  predicate Keeps(e: Entry) {
    !e.Nothing? && !e.Invert?
  }

  /** Every entry selects exactly the displayed nodes it is meant to, besides what it keeps. */
  lemma ChosenIsMeant(t: Tree, top: int, s: seq<int>, e: Entry, c: int, x: int)
    requires IsTree(t) && IsNode(t, top) && IsSelection(t, s) && IsEntry(t, e) && (c == NULL || IsNode(t, c))
    requires IsNode(t, x)
    ensures IsSelection(t, Chosen(t, top, s, e, c))
    ensures x in Chosen(t, top, s, e, c) <==>
      (Keeps(e) && x in s) || (t.displayed[x] && Meant(t, top, s, e, c, x))
  {
    AddedAllIs(t, s, AddedFor(t, top, e, c));
    match e
    case Nothing =>
    case Invert => InvertIsComplement(t, s);
    case Everything => WishedAre(t, ItsSubtree, top);
    case Marked(flags) => MarkedNodesAre(flags, Size(t));
    case Ancestors =>
      if c == NULL {
        AncestorsAreClosure(t, s, x);
      } else {
        ChainIsAbove(t, c);
      }
    case Each(w) =>
      if c == NULL {
        WishedFromIs(t, w, s, 0, |s|, x);
      } else {
        WishedAre(t, w, c);
      }
  }

  /** Choosing "ancestors" or "descendants" from the menu bar a second time adds nothing. */
  lemma ClosuresAreClosed(t: Tree, top: int, s: seq<int>, e: Entry, x: int)
    requires IsTree(t) && IsNode(t, top) && IsSelection(t, s) && IsNode(t, x)
    requires e == Ancestors || e == Each(ItsSubtree)
    ensures IsSelection(t, Chosen(t, top, s, e, NULL))
    ensures x in Chosen(t, top, Chosen(t, top, s, e, NULL), e, NULL) <==> x in Chosen(t, top, s, e, NULL)
  {
    var r := Chosen(t, top, s, e, NULL);
    ChosenIsMeant(t, top, s, e, NULL, x);
    ChosenIsMeant(t, top, r, e, NULL, x);
    if t.displayed[x] && Meant(t, top, r, e, NULL, x) {
      var k :| 0 <= k < |r| && (if e == Ancestors then Above(t, x, r[k]) else IsWished(t, ItsSubtree, r[k], x));
      ChosenIsMeant(t, top, s, e, NULL, r[k]);
      if r[k] in s {
        MeantFor(t, top, s, e, r[k], x);
      } else {
        var j :| 0 <= j < |s| && (if e == Ancestors then Above(t, r[k], s[j]) else IsWished(t, ItsSubtree, s[j], r[k]));
        if e == Ancestors {
          AboveTransitive(t, x, r[k], s[j]);
        } else if x != r[k] && r[k] != s[j] {
          AboveTransitive(t, s[j], r[k], x);
        }
        MeantFor(t, top, s, e, s[j], x);
      }
    }
  }

  lemma MeantFor(t: Tree, top: int, s: seq<int>, e: Entry, c: int, x: int)
    requires IsTree(t) && IsNode(t, top) && IsSelection(t, s) && IsNode(t, x) && c in s && IsNode(t, c)
    requires e == Ancestors || e == Each(ItsSubtree)
    requires if e == Ancestors then Above(t, x, c) else IsWished(t, ItsSubtree, c, x)
    ensures Meant(t, top, s, e, NULL, x)
  {
  }
}
