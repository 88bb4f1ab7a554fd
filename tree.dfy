/**
 * The shape of the element tree, as pure functions over the element arena:
 * the children lists (`children` TAILQ of each element), the parent
 * back-references, the depth-first order of a subtree, the ancestry walk of
 * `rtb_elem_is_in_tree`, and the list operations that `rtb_elem_add_child`
 * and `rtb_elem_remove_child` perform.
 *
 * Termination rests on a ghost rank: every child ranks strictly below the
 * element whose list holds it, and every rank is below a bound `hi`, so
 * walks towards the leaves decrease the rank and walks towards the root
 * decrease `hi - rank`.
 */
module ElementTree {
  import opened ElementTypes

  type Kids = map<ElemId, seq<ElemId>>
  type Parents = map<ElemId, Option<ElemId>>
  type Ranks = map<ElemId, nat>

  /** The children list of every element. */
  function KidsOf(es: Elems): (k: Kids)
  {
    map e | e in es :: es[e].children
  }

  /** The parent back-reference of every element. */
  function ParentsOf(es: Elems): (p: Parents)
  {
    map e | e in es :: es[e].parent
  }

  /** Every listed child is an element ranked below the element listing it. */
  ghost predicate ChildRanked(k: Kids, rank: Ranks)
  {
    forall e :: e in k ==>
      && e in rank
      && forall i :: 0 <= i < |k[e]| ==> k[e][i] in k && k[e][i] in rank && rank[k[e][i]] < rank[e]
  }

  /** Every parent is an element ranked above its child; all ranks are below `hi`. */
  ghost predicate ParentRanked(p: Parents, rank: Ranks, hi: nat)
  {
    forall e :: e in p ==>
      && e in rank && rank[e] < hi
      && (p[e].Some? ==> p[e].value in p && p[e].value in rank && rank[e] < rank[p[e].value])
  }

  ghost predicate RankOrdered(es: Elems, rank: Ranks, hi: nat)
  {
    ChildRanked(KidsOf(es), rank) && ParentRanked(ParentsOf(es), rank, hi)
  }

  /** An element is listed by at most one element, at most once. */
  ghost predicate UniqueOwners(k: Kids)
  {
    forall a, b, i, j ::
      a in k && b in k && 0 <= i < |k[a]| && 0 <= j < |k[b]| && k[a][i] == k[b][j] ==> a == b && i == j
  }

  /** A parent back-reference always names the element whose list holds the child.
    * (The converse fails on purpose: a child added to a window-less parent is
    * listed but keeps a null parent until it is attached.) */
  ghost predicate ParentsListed(p: Parents, k: Kids)
  {
    forall e :: e in p && p[e].Some? ==> p[e].value in k && e in k[p[e].value]
  }

  ghost predicate Linked(es: Elems)
  {
    ParentsListed(ParentsOf(es), KidsOf(es)) && UniqueOwners(KidsOf(es))
  }

  /** The element is in no children list. */
  ghost predicate Unowned(k: Kids, c: ElemId)
  {
    forall e, i :: e in k && 0 <= i < |k[e]| ==> k[e][i] != c
  }

  // ---------------------------------------------------------------------
  // Depth-first order of a subtree (the order of TAILQ_FOREACH recursion)
  // ---------------------------------------------------------------------

  /** The subtree of `e` in depth-first pre-order: `e`, then each child's subtree in list order. */
  ghost function Preorder(k: Kids, rank: Ranks, e: ElemId): (r: seq<ElemId>)
    requires ChildRanked(k, rank) && e in k
    ensures |r| >= 1 && r[0] == e
    ensures forall x :: x in r ==> x in k && rank[x] <= rank[e]
    decreases rank[e], 1
  {
    [e] + PreorderSeq(k, rank, k[e], rank[e])
  }

  /** The concatenated subtrees of a list of siblings ranked below `bound`. */
  ghost function PreorderSeq(k: Kids, rank: Ranks, cs: seq<ElemId>, bound: nat): (r: seq<ElemId>)
    requires ChildRanked(k, rank)
    requires forall c :: c in cs ==> c in k && rank[c] < bound
    ensures forall x :: x in r ==> x in k && rank[x] < bound
    decreases bound, 0, |cs|
  {
    if cs == [] then [] else Preorder(k, rank, cs[0]) + PreorderSeq(k, rank, cs[1..], bound)
  }

  /** Something is in the siblings' subtrees iff it is in one sibling's subtree. */
  lemma {:induction false} PreorderSeqMember(k: Kids, rank: Ranks, cs: seq<ElemId>, bound: nat, x: ElemId)
    requires ChildRanked(k, rank)
    requires forall c :: c in cs ==> c in k && rank[c] < bound
    ensures x in PreorderSeq(k, rank, cs, bound) <==> exists i :: 0 <= i < |cs| && x in Preorder(k, rank, cs[i])
    decreases |cs|
  {
    if cs != [] {
      PreorderSeqMember(k, rank, cs[1..], bound, x);
      if x in PreorderSeq(k, rank, cs[1..], bound) {
        var i :| 0 <= i < |cs[1..]| && x in Preorder(k, rank, cs[1..][i]);
        assert x in Preorder(k, rank, cs[i + 1]);
      }
      if exists i :: 0 <= i < |cs| && x in Preorder(k, rank, cs[i]) {
        var i :| 0 <= i < |cs| && x in Preorder(k, rank, cs[i]);
        if i > 0 {
          assert x in Preorder(k, rank, cs[1..][i - 1]);
        }
      }
    }
  }

  /** A child's subtree lies inside its owner's subtree. */
  lemma PreorderChild(k: Kids, rank: Ranks, e: ElemId, i: nat, y: ElemId)
    requires ChildRanked(k, rank) && e in k && i < |k[e]|
    requires y in Preorder(k, rank, k[e][i])
    ensures y in Preorder(k, rank, e)
  {
    PreorderSeqMember(k, rank, k[e], rank[e], y);
  }

  /** Subtrees nest: the subtree of anything in `e`'s subtree lies inside `e`'s subtree. */
  lemma {:induction false} PreorderClosed(k: Kids, rank: Ranks, e: ElemId, x: ElemId, y: ElemId)
    requires ChildRanked(k, rank) && e in k
    requires x in Preorder(k, rank, e)
    requires y in Preorder(k, rank, x)
    ensures y in Preorder(k, rank, e)
    decreases rank[e]
  {
    if x != e {
      PreorderSeqMember(k, rank, k[e], rank[e], x);
      var i :| 0 <= i < |k[e]| && x in Preorder(k, rank, k[e][i]);
      PreorderClosed(k, rank, k[e][i], x, y);
      PreorderChild(k, rank, e, i, y);
    }
  }

  /** Everything in a subtree other than its root is listed by something in the subtree. */
  lemma {:induction false} PreorderOwner(k: Kids, rank: Ranks, e: ElemId, x: ElemId)
    requires ChildRanked(k, rank) && e in k
    requires x in Preorder(k, rank, e) && x != e
    ensures exists y, i :: y in Preorder(k, rank, e) && 0 <= i < |k[y]| && k[y][i] == x
    decreases rank[e]
  {
    PreorderSeqMember(k, rank, k[e], rank[e], x);
    var i :| 0 <= i < |k[e]| && x in Preorder(k, rank, k[e][i]);
    var c := k[e][i];
    if x == c {
      assert e in Preorder(k, rank, e) && k[e][i] == x;
    } else {
      PreorderOwner(k, rank, c, x);
      var y, j :| y in Preorder(k, rank, c) && 0 <= j < |k[y]| && k[y][j] == x;
      PreorderChild(k, rank, e, i, y);
    }
  }

  // ---------------------------------------------------------------------
  // Ancestry: rtb_elem_is_in_tree
  // ---------------------------------------------------------------------

  /** `leaf` is `root` or reaches `root` by following parent back-references;
    * an absent leaf is in no tree. */
  ghost function InTree(p: Parents, rank: Ranks, hi: nat, root: ElemId, leaf: Option<ElemId>): bool
    requires ParentRanked(p, rank, hi)
    requires leaf.Some? ==> leaf.value in p
    decreases if leaf.Some? && leaf.value in rank then hi - rank[leaf.value] else 0
  {
    match leaf
    case None => false
    case Some(l) => l == root || InTree(p, rank, hi, root, p[l])
  }

  /** Ancestors rank at least as high as their descendants, strictly unless equal:
    * so ancestry is antisymmetric and nothing is its own proper ancestor. */
  lemma {:induction false} InTreeRank(p: Parents, rank: Ranks, hi: nat, root: ElemId, l: ElemId)
    requires ParentRanked(p, rank, hi) && l in p
    requires InTree(p, rank, hi, root, Some(l))
    ensures root in p && rank[l] <= rank[root]
    ensures l != root ==> rank[l] < rank[root]
    decreases hi - rank[l]
  {
    if l != root {
      InTreeRank(p, rank, hi, root, p[l].value);
    }
  }

  lemma InTreeAntisymmetric(p: Parents, rank: Ranks, hi: nat, a: ElemId, b: ElemId)
    requires ParentRanked(p, rank, hi) && a in p && b in p
    requires InTree(p, rank, hi, a, Some(b)) && InTree(p, rank, hi, b, Some(a))
    ensures a == b
  {
    InTreeRank(p, rank, hi, a, b);
    InTreeRank(p, rank, hi, b, a);
  }

  /** Whatever lies under `c` lies under `c`'s parent too. */
  lemma {:induction false} InTreeUp(p: Parents, rank: Ranks, hi: nat, c: ElemId, r: ElemId, l: ElemId)
    requires ParentRanked(p, rank, hi) && c in p && l in p && p[c] == Some(r)
    requires InTree(p, rank, hi, c, Some(l))
    ensures InTree(p, rank, hi, r, Some(l))
    decreases hi - rank[l]
  {
    if l != c {
      InTreeUp(p, rank, hi, c, r, p[l].value);
    }
  }

  /** Every child listed under an element of `root`'s subtree points back to it. */
  ghost predicate AttachedBelow(p: Parents, k: Kids, rank: Ranks, root: ElemId)
    requires ChildRanked(k, rank) && root in k && p.Keys == k.Keys
  {
    forall x :: x in Preorder(k, rank, root) ==>
      forall i :: 0 <= i < |k[x]| ==> p[k[x][i]] == Some(x)
  }

  /** Following parents from `l` reaches `root` only if `l` is in `root`'s subtree. */
  lemma {:induction false} InTreeIsInSubtree(p: Parents, k: Kids, rank: Ranks, hi: nat, root: ElemId, l: ElemId)
    requires ChildRanked(k, rank) && ParentRanked(p, rank, hi) && ParentsListed(p, k)
    requires p.Keys == k.Keys && root in k && l in k
    requires InTree(p, rank, hi, root, Some(l))
    ensures l in Preorder(k, rank, root)
    decreases hi - rank[l]
  {
    if l != root {
      var q := p[l].value;
      InTreeIsInSubtree(p, k, rank, hi, root, q);
      var i :| 0 <= i < |k[q]| && k[q][i] == l;
      assert l in Preorder(k, rank, l);
      PreorderChild(k, rank, q, i, l);
      PreorderClosed(k, rank, root, q, l);
    }
  }

  /** In a subtree whose children all point back to their owners, following
    * parents from `l` reaches `root` exactly when `l` is in `root`'s subtree. */
  lemma {:induction false} InTreeIffSubtree(p: Parents, k: Kids, rank: Ranks, hi: nat, root: ElemId, l: ElemId)
    requires ChildRanked(k, rank) && ParentRanked(p, rank, hi) && ParentsListed(p, k)
    requires p.Keys == k.Keys && root in k && l in k
    requires AttachedBelow(p, k, rank, root)
    ensures InTree(p, rank, hi, root, Some(l)) <==> l in Preorder(k, rank, root)
    decreases rank[root]
  {
    if InTree(p, rank, hi, root, Some(l)) {
      InTreeIsInSubtree(p, k, rank, hi, root, l);
    }
    if l in Preorder(k, rank, root) && l != root {
      PreorderSeqMember(k, rank, k[root], rank[root], l);
      var i :| 0 <= i < |k[root]| && l in Preorder(k, rank, k[root][i]);
      var c := k[root][i];
      forall x | x in Preorder(k, rank, c)
        ensures forall j :: 0 <= j < |k[x]| ==> p[k[x][j]] == Some(x)
      {
        PreorderChild(k, rank, root, i, x);
      }
      InTreeIffSubtree(p, k, rank, hi, c, l);
      InTreeUp(p, rank, hi, c, root, l);
    }
  }

  // ---------------------------------------------------------------------
  // Children-list operations: TAILQ_INSERT_HEAD/TAIL and TAILQ_REMOVE
  // ---------------------------------------------------------------------

  ghost predicate NoDuplicates(cs: seq<ElemId>)
  {
    forall i, j :: 0 <= i < |cs| && 0 <= j < |cs| && cs[i] == cs[j] ==> i == j
  }

  /** Insertion at the head or the tail of a children list. */
  function InsertChild(cs: seq<ElemId>, c: ElemId, where: AddLocation): (r: seq<ElemId>)
  {
    if where == AddHead then [c] + cs else cs + [c]
  }

  /** The list without its first occurrence of `c`, everything else in order. */
  function Unlink(cs: seq<ElemId>, c: ElemId): (r: seq<ElemId>)
    ensures c !in cs ==> r == cs
    ensures c in cs ==> multiset(r) == multiset(cs) - multiset{c}
    ensures forall x :: x in r ==> x in cs
  {
    if cs == [] then []
    else
      assert cs == [cs[0]] + cs[1..];
      if cs[0] == c then cs[1..] else [cs[0]] + Unlink(cs[1..], c)
  }

  /** Inserting puts the child first (HEAD) or last (any other location) and
    * keeps the existing children, in their order, around it. */
  lemma InsertChildPlaces(cs: seq<ElemId>, c: ElemId, where: AddLocation)
    ensures |InsertChild(cs, c, where)| == |cs| + 1
    ensures where == AddHead ==> InsertChild(cs, c, where)[0] == c && InsertChild(cs, c, where)[1..] == cs
    ensures where != AddHead ==> InsertChild(cs, c, where)[|cs|] == c && InsertChild(cs, c, where)[..|cs|] == cs
    ensures multiset(InsertChild(cs, c, where)) == multiset(cs) + multiset{c}
  {
  }

  /** Dropping position `i` of a list splits around its head the same way. */
  lemma DropAfterHead(cs: seq<ElemId>, i: nat)
    requires 0 < i < |cs|
    ensures [cs[0]] + (cs[1..][..i - 1] + cs[1..][i..]) == cs[..i] + cs[i + 1..]
  {
    assert cs[1..][..i - 1] == cs[1..i] && cs[1..][i..] == cs[i + 1..];
    assert [cs[0]] + cs[1..i] == cs[..i];
  }

  /** Unlinking removes exactly the position holding `c` and keeps the rest in order. */
  lemma {:induction false} UnlinkAt(cs: seq<ElemId>, c: ElemId, i: nat)
    requires i < |cs| && cs[i] == c
    requires forall j :: 0 <= j < i ==> cs[j] != c
    ensures Unlink(cs, c) == cs[..i] + cs[i + 1..]
    decreases i
  {
    if i == 0 {
      assert cs[..0] + cs[1..] == cs[1..];
    } else {
      assert cs[0] != c;
      UnlinkAt(cs[1..], c, i - 1);
      DropAfterHead(cs, i);
    }
  }

  /** Removing a child right after inserting it restores the list (either location). */
  lemma UnlinkInsert(cs: seq<ElemId>, c: ElemId, where: AddLocation)
    requires c !in cs
    ensures Unlink(InsertChild(cs, c, where), c) == cs
  {
    var r := InsertChild(cs, c, where);
    if where == AddHead {
      UnlinkAt(r, c, 0);
    } else {
      assert r[..|cs|] == cs;
      UnlinkAt(r, c, |cs|);
    }
  }

  lemma NoDuplicatesTail(cs: seq<ElemId>)
    requires NoDuplicates(cs) && cs != []
    ensures NoDuplicates(cs[1..]) && cs[0] !in cs[1..]
  {
    forall i, j | 0 <= i < |cs[1..]| && 0 <= j < |cs[1..]| && cs[1..][i] == cs[1..][j]
      ensures i == j
    {
      assert cs[i + 1] == cs[j + 1];
    }
    forall j | 0 <= j < |cs[1..]|
      ensures cs[1..][j] != cs[0]
    {
      assert cs[1..][j] == cs[j + 1];
    }
  }

  lemma {:induction false} UnlinkNoDuplicates(cs: seq<ElemId>, c: ElemId)
    requires NoDuplicates(cs)
    ensures NoDuplicates(Unlink(cs, c)) && c !in Unlink(cs, c)
    decreases |cs|
  {
    if cs != [] {
      NoDuplicatesTail(cs);
      if cs[0] != c {
        UnlinkNoDuplicates(cs[1..], c);
        var t := Unlink(cs[1..], c);
        var r := [cs[0]] + t;
        assert cs[0] !in t;
        forall i, j | 0 <= i < |r| && 0 <= j < |r| && r[i] == r[j]
          ensures i == j
        {
          if i > 0 && j > 0 {
            assert t[i - 1] == t[j - 1];
          }
        }
      }
    }
  }

  /** Dropping the entry at `i` of `self`'s list keeps every element listed
    * by at most one element, at most once, and leaves the dropped element
    * listed nowhere. */
  lemma DropUniqueOwners(k: Kids, self: ElemId, i: nat)
    requires UniqueOwners(k) && self in k && i < |k[self]|
    ensures UniqueOwners(k[self := k[self][..i] + k[self][i + 1..]])
    ensures Unowned(k[self := k[self][..i] + k[self][i + 1..]], k[self][i])
  {
    var k' := k[self := k[self][..i] + k[self][i + 1..]];
    forall a, b, m, n | a in k' && b in k' && 0 <= m < |k'[a]| && 0 <= n < |k'[b]| && k'[a][m] == k'[b][n]
      ensures a == b && m == n
    {
      var m0 := if a == self && m >= i then m + 1 else m;
      var n0 := if b == self && n >= i then n + 1 else n;
      assert k[a][m0] == k'[a][m] && k[b][n0] == k'[b][n];
    }
    forall e, m | e in k' && 0 <= m < |k'[e]|
      ensures k'[e][m] != k[self][i]
    {
      var m0 := if e == self && m >= i then m + 1 else m;
      assert k[e][m0] == k'[e][m];
    }
  }

  /** Unlinking `c` keeps every other entry. */
  lemma UnlinkKeeps(cs: seq<ElemId>, c: ElemId, x: ElemId)
    requires x in cs && x != c
    ensures x in Unlink(cs, c)
  {
    assert multiset(Unlink(cs, c))[x] == multiset(cs)[x];
  }

  /** Shortening a list to some of its entries keeps the children ranked. */
  lemma SublistRanked(k: Kids, rank: Ranks, self: ElemId, cs: seq<ElemId>)
    requires ChildRanked(k, rank) && self in k
    requires forall x :: x in cs ==> x in k[self]
    ensures ChildRanked(k[self := cs], rank)
  {
    forall i | 0 <= i < |cs|
      ensures cs[i] in k && cs[i] in rank && rank[cs[i]] < rank[self]
    {
      assert cs[i] in cs;
      var j :| 0 <= j < |k[self]| && k[self][j] == cs[i];
    }
  }

  // ---------------------------------------------------------------------
  // Adding a child: the lists stay unique and the tree can be re-ranked
  // ---------------------------------------------------------------------

  /** Inserting an unlisted element into one list keeps every element listed
    * by at most one element, at most once. */
  lemma InsertUniqueOwners(k: Kids, self: ElemId, c: ElemId, where: AddLocation)
    requires UniqueOwners(k) && Unowned(k, c) && self in k
    ensures UniqueOwners(k[self := InsertChild(k[self], c, where)])
  {
    var k' := k[self := InsertChild(k[self], c, where)];
    var cs := k[self];
    var off := if where == AddHead then 1 else 0;
    var pos := if where == AddHead then 0 else |cs|;
    assert k'[self][pos] == c;
    assert forall i :: 0 <= i < |cs| ==> k'[self][i + off] == cs[i];
    forall a, b, i, j | a in k' && b in k' && 0 <= i < |k'[a]| && 0 <= j < |k'[b]| && k'[a][i] == k'[b][j]
      ensures a == b && i == j
    {
      if k'[a][i] == c {
        assert a == self && i == pos;
        assert b == self && j == pos;
      } else {
        var i0 := if a == self then i - off else i;
        var j0 := if b == self then j - off else j;
        assert k[a][i0] == k'[a][i] && k[b][j0] == k'[b][j];
      }
    }
  }

  /** Ranks after `c`'s subtree is hung below a new owner: the subtree keeps
    * its ranks, everything else moves above `c`. */
  ghost function Reranked(k: Kids, rank: Ranks, c: ElemId): (r: Ranks)
    requires ChildRanked(k, rank) && c in k
  {
    var sub := Preorder(k, rank, c);
    map e | e in rank :: if e in sub then rank[e] else rank[e] + rank[c] + 1
  }

  /** Every existing list entry stays ranked below its owner. */
  lemma OldEdgeReranked(k: Kids, rank: Ranks, c: ElemId, e: ElemId, i: nat)
    requires ChildRanked(k, rank) && UniqueOwners(k) && c in k && Unowned(k, c)
    requires e in k && i < |k[e]|
    ensures k[e][i] in Reranked(k, rank, c) && e in Reranked(k, rank, c)
    ensures Reranked(k, rank, c)[k[e][i]] < Reranked(k, rank, c)[e]
  {
    var sub := Preorder(k, rank, c);
    var x := k[e][i];
    if e in sub {
      PreorderChild(k, rank, e, i, x);
      assert x in Preorder(k, rank, x);
      PreorderClosed(k, rank, c, e, x);
    } else if x in sub {
      ListerInside(k, rank, c, x, e, i);
      assert false;
    }
  }

  /** Under unique owners, whoever lists a non-root member of a subtree is in it. */
  lemma ListerInside(k: Kids, rank: Ranks, c: ElemId, x: ElemId, e: ElemId, i: nat)
    requires ChildRanked(k, rank) && UniqueOwners(k) && c in k
    requires x in Preorder(k, rank, c) && x != c
    requires e in k && i < |k[e]| && k[e][i] == x
    ensures e in Preorder(k, rank, c)
  {
    PreorderOwner(k, rank, c, x);
    var y, j :| y in Preorder(k, rank, c) && 0 <= j < |k[y]| && k[y][j] == x;
    assert y == e;
  }

  /** Listing `c` in `self`'s list, with `self` outside `c`'s subtree, keeps
    * the tree ranked under `Reranked`. */
  lemma InsertRanked(k: Kids, p: Parents, rank: Ranks, hi: nat, self: ElemId, c: ElemId, where: AddLocation)
    requires ChildRanked(k, rank) && ParentRanked(p, rank, hi) && ParentsListed(p, k) && UniqueOwners(k)
    requires self in k && c in k && Unowned(k, c) && self !in Preorder(k, rank, c)
    ensures ChildRanked(k[self := InsertChild(k[self], c, where)], Reranked(k, rank, c))
    ensures ParentRanked(p, Reranked(k, rank, c), hi + rank[c] + 1)
  {
    var k' := k[self := InsertChild(k[self], c, where)];
    var rank' := Reranked(k, rank, c);
    var cs := k[self];
    var off := if where == AddHead then 1 else 0;
    var pos := if where == AddHead then 0 else |cs|;
    assert k'[self][pos] == c;
    assert forall i :: 0 <= i < |cs| ==> k'[self][i + off] == cs[i];
    forall e, i | e in k' && 0 <= i < |k'[e]|
      ensures k'[e][i] in k' && k'[e][i] in rank' && rank'[k'[e][i]] < rank'[e]
    {
      if e == self && i == pos {
        assert c in Preorder(k, rank, c);
      } else {
        var i0 := if e == self then i - off else i;
        assert k[e][i0] == k'[e][i];
        OldEdgeReranked(k, rank, c, e, i0);
      }
    }
    forall e | e in p
      ensures e in rank' && rank'[e] < hi + rank[c] + 1
      ensures p[e].Some? ==> p[e].value in p && p[e].value in rank' && rank'[e] < rank'[p[e].value]
    {
      if p[e].Some? {
        var q := p[e].value;
        var i :| 0 <= i < |k[q]| && k[q][i] == e;
        OldEdgeReranked(k, rank, c, q, i);
      }
    }
  }
}

